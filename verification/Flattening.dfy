/** The flattening of the init request's parameters (src/initGen.c): flatDcl walks a declaration
    with one shared prefix that it extends and cuts back; addParamToStrings emits the text. */
module Flattening {
  import opened Declarations

  // ----- the reference: terminals with their access prefixes, in declaration order

  /** A terminal declaration reached under an access prefix. */
  datatype Terminal = Terminal(prefix: string, leaf: Decl)

  function Terminals(prefix: string, d: Decl): seq<Terminal>
    requires WellFormed(d)
    decreases d, 1, 0
  {
    match d
    case Leaf(_, _, _, _, _) => [Terminal(prefix, d)]
    case Struct(_, _, _) => ElementTerminals(prefix, d, Elements(d))
  }

  /** The terminals of the first n elements of a structure (or array of structures). */
  function ElementTerminals(prefix: string, d: Decl, n: nat): seq<Terminal>
    requires WellFormed(d) && d.Struct?
    decreases d, 0, n
  {
    if n == 0 then []
    else
      ElementTerminals(prefix, d, n - 1) +
      MemberTerminals(ElementPrefix(prefix, d, n - 1), d.members, |d.members|)
  }

  /** The access prefix of the members of element elt. */
  function ElementPrefix(prefix: string, d: Decl, elt: nat): string
    requires WellFormed(d)
  {
    prefix + d.name + Indexes(d.dims, elt) + "."
  }

  function MemberTerminals(prefix: string, ds: seq<Decl>, n: nat): seq<Terminal>
    requires AllWellFormed(ds) && n <= |ds|
    decreases ds, 0, n
  {
    if n == 0 then [] else MemberTerminals(prefix, ds, n - 1) + Terminals(prefix, ds[n-1])
  }

  /** Can the value of every terminal be read from the command line? */
  predicate Readable(d: Decl) {
    d.Leaf? && (d.isString || d.convertible)
  }

  ghost predicate AllReadable(ts: seq<Terminal>) {
    forall k :: 0 <= k < |ts| ==> Readable(ts[k].leaf)
  }

  // ----- what is emitted

  /** A statement that stores variable `var_` into the structure. */
  datatype Fill = Fill(access: string, number: nat, leaf: Decl)

  /** The usage, parameter and name lists get their items and separators in lock step; a token
      stands for the text added to all three. */
  datatype Token = Comma | Item(usage: string, number: nat)

  datatype Output = Output(numvar: nat, fills: seq<Fill>, lists: seq<Token>)

  const FRESH := Output(1, [], [])

  function Access(t: Terminal, elt: nat): string
    requires WellFormed(t.leaf)
  {
    t.prefix + t.leaf.name + Indexes(Shape(t.leaf), elt)
  }

  /** The output after the first n elements of a terminal. */
  function EmitElements(o: Output, t: Terminal, n: nat): Output
    requires WellFormed(t.leaf) && t.leaf.Leaf? && n <= Elements(t.leaf)
  {
    if n == 0 then (if o.numvar != 1 then o.(lists := o.lists + [Comma]) else o)
    else EmitOne(EmitElements(o, t, n - 1), t, n - 1)
  }

  /** The output after one more element. */
  function EmitOne(o: Output, t: Terminal, elt: nat): Output
    requires WellFormed(t.leaf) && elt < Elements(t.leaf)
  {
    Output(o.numvar + 1,
           o.fills + [Fill(Access(t, elt), o.numvar, t.leaf)],
           o.lists + [Item(t.leaf.name + Indexes(Shape(t.leaf), elt), o.numvar)]
             + if elt + 1 != Elements(t.leaf) then [Comma] else [])
  }

  ghost predicate Emittable(ts: seq<Terminal>) {
    forall k :: 0 <= k < |ts| ==> WellFormed(ts[k].leaf) && ts[k].leaf.Leaf?
  }

  function EmitAll(o: Output, ts: seq<Terminal>): Output
    requires Emittable(ts)
    decreases |ts|
  {
    if ts == [] then o
    else EmitAll(EmitElements(o, ts[0], Elements(ts[0].leaf)), ts[1..])
  }

  lemma {:induction false} EmitAppend(o: Output, ts: seq<Terminal>, us: seq<Terminal>)
    requires Emittable(ts) && Emittable(us)
    ensures Emittable(ts + us) && EmitAll(o, ts + us) == EmitAll(EmitAll(o, ts), us)
    decreases |ts|
  {
    if ts == [] {
      assert ts + us == us;
    } else {
      assert (ts + us)[1..] == ts[1..] + us;
      EmitAppend(EmitElements(o, ts[0], Elements(ts[0].leaf)), ts[1..], us);
    }
  }

  lemma {:induction false} TerminalsEmittable(prefix: string, d: Decl)
    requires WellFormed(d)
    ensures Emittable(Terminals(prefix, d))
    decreases d, 1, 0
  {
    if d.Struct? {
      ElementsEmittable(prefix, d, Elements(d));
    }
  }

  lemma {:induction false} ElementsEmittable(prefix: string, d: Decl, n: nat)
    requires WellFormed(d) && d.Struct?
    ensures Emittable(ElementTerminals(prefix, d, n))
    decreases d, 0, n
  {
    if n > 0 {
      ElementsEmittable(prefix, d, n - 1);
      MembersEmittable(ElementPrefix(prefix, d, n - 1), d.members, |d.members|);
    }
  }

  lemma {:induction false} MembersEmittable(prefix: string, ds: seq<Decl>, n: nat)
    requires AllWellFormed(ds) && n <= |ds|
    ensures Emittable(MemberTerminals(prefix, ds, n))
    decreases ds, 0, n
  {
    if n > 0 {
      MembersEmittable(prefix, ds, n - 1);
      TerminalsEmittable(prefix, ds[n-1]);
    }
  }

  // ----- the generator, with its shared prefix

  /** strrchr(prefix, '.'), as the length to cut the prefix to; 0 if there is no dot. */
  function CutLength(prefix: string): (n: nat)
    ensures n <= |prefix|
  {
    if prefix == "" then 0
    else if prefix[|prefix|-1] == '.' then |prefix|
    else CutLength(prefix[..|prefix|-1])
  }

  lemma {:induction false} CutBack(prefix: string, tail: string)
    requires NoDot(tail) && (prefix == "" || prefix[|prefix|-1] == '.')
    ensures CutLength(prefix + tail) == |prefix|
  {
    if tail == "" {
      assert prefix + tail == prefix;
    } else {
      var all := prefix + tail;
      assert all[|all|-1] == tail[|tail|-1] && tail[|tail|-1] in tail;
      assert all[..|all|-1] == prefix + tail[..|tail|-1];
      CutBack(prefix, tail[..|tail|-1]);
    }
  }

  /** The static variables of initGen.c. */
  class Generator {
    var prefix: string
    var out: Output

    constructor ()
      ensures prefix == "" && out == FRESH
    {
      prefix, out := "", FRESH;
    }

    /** Nested calls find the prefix empty or ending in a dot, and return it as they found it.
        Only a structure flattened under the empty prefix leaves its own name behind. */
    method FlatDcl(d: Decl) returns (failed: bool)
      requires WellFormed(d)
      requires prefix == "" || prefix[|prefix|-1] == '.'
      modifies this
      ensures Emittable(Terminals(old(prefix), d))
      ensures failed <==> !AllReadable(Terminals(old(prefix), d))
      ensures !failed ==> out == EmitAll(old(out), Terminals(old(prefix), d))
      ensures !failed ==> prefix == if old(prefix) == "" && d.Struct? then d.name else old(prefix)
      decreases d
    {
      ghost var start, before := prefix, out;
      TerminalsEmittable(start, d);
      if d.Leaf? {
        assert Terminals(start, d) == [Terminal(start, d)];
        failed := AddParamToStrings(d);
        assert EmitAll(before, [Terminal(start, d)]) == EmitElements(before, Terminal(start, d), Elements(d));
        assert failed ==> !Readable(Terminals(start, d)[0].leaf);
        return;
      }
      prefix := prefix + d.name;
      failed := FlatElements(start, d);
      if !failed {
        CutBack(start, d.name);
        if CutLength(prefix) > 0 {
          prefix := prefix[..CutLength(prefix)];
        }
      }
    }

    /** The elements of a structure (a single one if it is not an array). */
    method FlatElements(ghost start: string, d: Decl) returns (failed: bool)
      requires WellFormed(d) && d.Struct? && prefix == start + d.name
      modifies this
      ensures Emittable(Terminals(start, d))
      ensures failed <==> !AllReadable(Terminals(start, d))
      ensures !failed ==> out == EmitAll(old(out), Terminals(start, d)) && prefix == old(prefix)
      decreases d, 2
    {
      ghost var before := out;
      NoElements(before, start, d);
      ProductPositive(d.dims);
      var nElts := CountElements(d.dims);
      var elt := 0;
      while elt < nElts
        invariant elt <= nElts == Elements(d) && prefix == start + d.name
        invariant ElementsOut(before, start, d, elt, out)
      {
        failed := NextElement(before, start, d, elt);
        if failed {
          TerminalsEmittable(start, d);
          return;
        }
        elt := elt + 1;
      }
      failed := false;
    }

    method NextElement(ghost before: Output, ghost start: string, d: Decl, elt: nat) returns (failed: bool)
      requires WellFormed(d) && d.Struct? && prefix == start + d.name && elt < Elements(d)
      requires ElementsOut(before, start, d, elt, out)
      modifies this
      ensures failed ==> !AllReadable(ElementTerminals(start, d, Elements(d)))
      ensures !failed ==> ElementsOut(before, start, d, elt + 1, out) && prefix == old(prefix)
      decreases d, 1
    {
      ghost var o := out;
      failed := FlatElement(start, d, elt);
      if failed {
        ElementFails(start, d, elt);
      } else {
        ElementStep(before, start, d, elt, o);
      }
    }

    /** One element of a structure: index and dot go onto the prefix and come off again. */
    method FlatElement(ghost start: string, d: Decl, elt: nat) returns (failed: bool)
      requires WellFormed(d) && d.Struct? && prefix == start + d.name
      modifies this
      ensures Emittable(MemberTerminals(ElementPrefix(start, d, elt), d.members, |d.members|))
      ensures failed <==> !AllReadable(MemberTerminals(ElementPrefix(start, d, elt), d.members, |d.members|))
      ensures !failed ==>
                && out == EmitAll(old(out), MemberTerminals(ElementPrefix(start, d, elt), d.members, |d.members|))
                && prefix == old(prefix)
      decreases d, 0
    {
      ghost var before, here := out, ElementPrefix(start, d, elt);
      var index := Indexes(d.dims, elt);
      prefix := prefix + index;
      prefix := prefix + ".";
      assert prefix == here;
      failed := FlatMembers(d.members);
      if !failed {
        prefix := prefix[..|prefix| - |index| - 1];
        assert prefix == start + d.name;
      }
    }

    method FlatMembers(ds: seq<Decl>) returns (failed: bool)
      requires AllWellFormed(ds) && prefix != "" && prefix[|prefix|-1] == '.'
      modifies this
      ensures Emittable(MemberTerminals(old(prefix), ds, |ds|))
      ensures failed <==> !AllReadable(MemberTerminals(old(prefix), ds, |ds|))
      ensures !failed ==> out == EmitAll(old(out), MemberTerminals(old(prefix), ds, |ds|)) && prefix == old(prefix)
      decreases ds, 1
    {
      ghost var here, before := prefix, out;
      MembersEmittable(here, ds, |ds|);
      assert MemberTerminals(here, ds, 0) == [];
      var l := 0;
      while l < |ds|
        invariant l <= |ds| && prefix == here
        invariant MembersOut(before, here, ds, l, out)
      {
        failed := NextMember(before, ds, l);
        if failed {
          return;
        }
        l := l + 1;
      }
      failed := false;
    }

    method NextMember(ghost before: Output, ds: seq<Decl>, l: nat) returns (failed: bool)
      requires AllWellFormed(ds) && prefix != "" && prefix[|prefix|-1] == '.' && l < |ds|
      requires MembersOut(before, prefix, ds, l, out)
      modifies this
      ensures failed ==> !AllReadable(MemberTerminals(old(prefix), ds, |ds|))
      ensures !failed ==> MembersOut(before, prefix, ds, l + 1, out) && prefix == old(prefix)
      decreases ds, 0
    {
      ghost var here, o := prefix, out;
      failed := FlatDcl(ds[l]);
      if failed {
        MemberFails(here, ds, l);
      } else {
        MemberStep(before, here, ds, l, o);
      }
    }

    /** Emit the elements of a terminal; an unconvertible type fails at its first element. */
    method AddParamToStrings(d: Decl) returns (failed: bool)
      requires WellFormed(d) && d.Leaf?
      modifies `out
      ensures failed <==> !Readable(d)
      ensures !failed ==> out == EmitElements(old(out), Terminal(prefix, d), Elements(d))
    {
      var t := Terminal(prefix, d);
      if out.numvar != 1 {
        out := out.(lists := out.lists + [Comma]);
      }
      var dims := if d.isString then d.dims[..|d.dims|-1] else d.dims;
      assert dims == Shape(d);
      var nElts := CountElements(dims);
      ProductPositive(dims);
      var elt := 0;
      while elt < nElts
        invariant elt <= nElts == Elements(d) && t == Terminal(prefix, d)
        invariant out == EmitElements(old(out), t, elt)
        invariant 0 < elt ==> Readable(d)
      {
        if !d.isString && !d.convertible {
          return true;
        }
        AddElement(d, dims, elt, nElts);
        elt := elt + 1;
      }
      return false;
    }

    method AddElement(d: Decl, dims: seq<int>, elt: nat, nElts: int)
      requires WellFormed(d) && d.Leaf? && dims == Shape(d) && elt < nElts == Elements(d)
      modifies `out
      ensures out == EmitOne(old(out), Terminal(prefix, d), elt)
    {
      out := Output(out.numvar + 1,
                    out.fills + [Fill(prefix + d.name + Indexes(dims, elt), out.numvar, d)],
                    out.lists + [Item(d.name + Indexes(dims, elt), out.numvar)]
                      + if elt != nElts - 1 then [Comma] else []);
    }
  }

  /** o is what the first n elements, all readable, make of `before`. */
  ghost predicate ElementsOut(before: Output, start: string, d: Decl, n: nat, o: Output)
    requires WellFormed(d) && d.Struct?
  {
    var ts := ElementTerminals(start, d, n);
    Emittable(ts) && AllReadable(ts) && o == EmitAll(before, ts)
  }

  ghost predicate MembersOut(before: Output, here: string, ds: seq<Decl>, n: nat, o: Output)
    requires AllWellFormed(ds) && n <= |ds|
  {
    var ts := MemberTerminals(here, ds, n);
    Emittable(ts) && AllReadable(ts) && o == EmitAll(before, ts)
  }

  lemma NoElements(before: Output, start: string, d: Decl)
    requires WellFormed(d) && d.Struct?
    ensures ElementsOut(before, start, d, 0, before)
  {
    assert ElementTerminals(start, d, 0) == [];
  }

  lemma ReadableAppend(ts: seq<Terminal>, us: seq<Terminal>)
    ensures AllReadable(ts + us) <==> AllReadable(ts) && AllReadable(us)
  {
    if AllReadable(ts + us) {
      assert forall k :: 0 <= k < |ts| ==> (ts + us)[k] == ts[k];
      assert forall k :: 0 <= k < |us| ==> (ts + us)[|ts| + k] == us[k];
    }
  }

  /** One more element, one more member: the output grows by its terminals. */
  lemma ElementStep(before: Output, start: string, d: Decl, elt: nat, o: Output)
    requires WellFormed(d) && d.Struct? && ElementsOut(before, start, d, elt, o)
    requires Emittable(MemberTerminals(ElementPrefix(start, d, elt), d.members, |d.members|))
    requires AllReadable(MemberTerminals(ElementPrefix(start, d, elt), d.members, |d.members|))
    ensures ElementsOut(before, start, d, elt + 1,
                        EmitAll(o, MemberTerminals(ElementPrefix(start, d, elt), d.members, |d.members|)))
  {
    var ts := ElementTerminals(start, d, elt);
    var us := MemberTerminals(ElementPrefix(start, d, elt), d.members, |d.members|);
    assert ElementTerminals(start, d, elt + 1) == ts + us;
    EmitAppend(before, ts, us);
    ReadableAppend(ts, us);
  }

  lemma MemberStep(before: Output, here: string, ds: seq<Decl>, l: nat, o: Output)
    requires AllWellFormed(ds) && l < |ds| && MembersOut(before, here, ds, l, o)
    requires Emittable(Terminals(here, ds[l])) && AllReadable(Terminals(here, ds[l]))
    ensures MembersOut(before, here, ds, l + 1, EmitAll(o, Terminals(here, ds[l])))
  {
    var ts, us := MemberTerminals(here, ds, l), Terminals(here, ds[l]);
    assert MemberTerminals(here, ds, l + 1) == ts + us;
    EmitAppend(before, ts, us);
    ReadableAppend(ts, us);
  }

  /** An unreadable element or member makes the whole unreadable. */
  lemma ElementFails(start: string, d: Decl, elt: nat)
    requires WellFormed(d) && d.Struct? && elt < Elements(d)
    requires !AllReadable(MemberTerminals(ElementPrefix(start, d, elt), d.members, |d.members|))
    ensures !AllReadable(ElementTerminals(start, d, Elements(d)))
  {
    var ts := ElementTerminals(start, d, elt);
    var us := MemberTerminals(ElementPrefix(start, d, elt), d.members, |d.members|);
    assert ElementTerminals(start, d, elt + 1) == ts + us;
    ReadableAppend(ts, us);
    ElementsReadable(start, d, elt + 1, Elements(d));
  }

  lemma MemberFails(here: string, ds: seq<Decl>, l: nat)
    requires AllWellFormed(ds) && l < |ds| && !AllReadable(Terminals(here, ds[l]))
    ensures !AllReadable(MemberTerminals(here, ds, |ds|))
  {
    var ts, us := MemberTerminals(here, ds, l), Terminals(here, ds[l]);
    assert MemberTerminals(here, ds, l + 1) == ts + us;
    ReadableAppend(ts, us);
    MembersReadable(here, ds, l + 1, |ds|);
  }

  lemma {:induction false} ElementsReadable(prefix: string, d: Decl, m: nat, n: nat)
    requires WellFormed(d) && d.Struct? && m <= n
    requires !AllReadable(ElementTerminals(prefix, d, m))
    ensures !AllReadable(ElementTerminals(prefix, d, n))
  {
    if m < n {
      ElementsReadable(prefix, d, m, n - 1);
      var ts := ElementTerminals(prefix, d, n - 1);
      var k :| 0 <= k < |ts| && !Readable(ts[k].leaf);
      assert ElementTerminals(prefix, d, n)[k] == ts[k];
    }
  }

  lemma {:induction false} MembersReadable(prefix: string, ds: seq<Decl>, m: nat, n: nat)
    requires AllWellFormed(ds) && m <= n <= |ds|
    requires !AllReadable(MemberTerminals(prefix, ds, m))
    ensures !AllReadable(MemberTerminals(prefix, ds, n))
  {
    if m < n {
      MembersReadable(prefix, ds, m, n - 1);
      var ts := MemberTerminals(prefix, ds, n - 1);
      var k :| 0 <= k < |ts| && !Readable(ts[k].leaf);
      assert MemberTerminals(prefix, ds, n)[k] == ts[k];
    }
  }
}
