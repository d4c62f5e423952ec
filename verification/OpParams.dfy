/** The parameters of OpenPRS operators (src/openprsOpGen.c): breakUpCStruct walks the same
    declarations as flatDcl, with a level and a variable counter passed by reference. */
module OpParams {
  import opened Declarations
  import opened Flattening
  import opened FlatProperties

  /** The emitted text: an opening parenthesis indented by a level, a numbered parameter, a closing
      parenthesis. The words between them are not modelled. */
  datatype Mark = Open(level: int) | Param(number: int) | Close

  // ----- the reference

  /** How many scalars a declaration holds. */
  function Scalars(d: Decl): nat
    requires WellFormed(d)
    decreases d, 1
  {
    match d
    case Leaf(_, _, _, _, _) => Elements(d)
    case Struct(_, _, members) => Elements(d) * MemberScalars(members, |members|)
  }

  function MemberScalars(ds: seq<Decl>, n: nat): nat
    requires AllWellFormed(ds) && n <= |ds|
    decreases ds, 0, n
  {
    if n == 0 then 0 else MemberScalars(ds, n - 1) + Scalars(ds[n-1])
  }

  /** How many times a declaration is visited: once per element it lies in. */
  function Visits(d: Decl): nat
    requires WellFormed(d)
    decreases d, 1
  {
    match d
    case Leaf(_, _, _, _, _) => 1
    case Struct(_, _, members) => 1 + Elements(d) * MemberVisits(members, |members|)
  }

  function MemberVisits(ds: seq<Decl>, n: nat): nat
    requires AllWellFormed(ds) && n <= |ds|
    decreases ds, 0, n
  {
    if n == 0 then 0 else MemberVisits(ds, n - 1) + Visits(ds[n-1])
  }

  /** The text of a declaration at a level, its variables numbered from k on: one group that holds the
      parameters of a leaf, or the texts of the members of each element, one level deeper. */
  function Layout(d: Decl, level: int, k: int): seq<Mark>
    requires WellFormed(d)
    decreases d, 2, 0
  {
    [Open(level)] + Inside(d, level + 1, k) + [Close]
  }

  function Inside(d: Decl, level: int, k: int): seq<Mark>
    requires WellFormed(d)
    decreases d, 1, 0
  {
    match d
    case Leaf(_, _, _, _, _) => Params(k, Elements(d))
    case Struct(_, _, _) => ElementLayouts(d, level, k, Elements(d))
  }

  function Params(k: int, n: nat): seq<Mark> {
    seq(n, i => Param(k + i))
  }

  function ElementLayouts(d: Decl, level: int, k: int, n: nat): seq<Mark>
    requires WellFormed(d) && d.Struct?
    decreases d, 0, n
  {
    if n == 0 then []
    else
      ElementLayouts(d, level, k, n - 1)
      + MemberLayouts(d.members, level, k + (n - 1) * MemberScalars(d.members, |d.members|), |d.members|)
  }

  function MemberLayouts(ds: seq<Decl>, level: int, k: int, n: nat): seq<Mark>
    requires AllWellFormed(ds) && n <= |ds|
    decreases ds, 0, n
  {
    if n == 0 then []
    else MemberLayouts(ds, level, k, n - 1) + Layout(ds[n-1], level, k + MemberScalars(ds, n - 1))
  }

  // ----- what a parenthesised text is

  /** Reading the marks from a nesting depth: the depth after them, or -1 as soon as a
      parenthesis closes that was not opened, or an indentation does not fit the nesting. */
  function Read(ms: seq<Mark>, depth: int): int {
    if ms == [] then depth
    else match ms[0]
         case Open(level) => if level == depth then Read(ms[1..], depth + 1) else -1
         case Param(_) => Read(ms[1..], depth)
         case Close => if depth > 0 then Read(ms[1..], depth - 1) else -1
  }

  function Opens(ms: seq<Mark>): nat {
    if ms == [] then 0 else (if ms[0].Open? then 1 else 0) + Opens(ms[1..])
  }

  /** The parameters are numbered from k on, without gaps, up to the result; -1 if not. */
  function NumberedFrom(ms: seq<Mark>, k: int): int {
    if ms == [] then k
    else if ms[0].Param? then (if ms[0].number == k then NumberedFrom(ms[1..], k + 1) else -1)
    else NumberedFrom(ms[1..], k)
  }

  /** ms opens and closes `opens` parentheses at depth `level` and numbers `params` parameters from k. */
  predicate WellParenthesised(ms: seq<Mark>, level: int, opens: nat, k: int, params: nat) {
    Read(ms, level) == level && Opens(ms) == opens && NumberedFrom(ms, k) == k + params
  }

  lemma {:induction false} Appends(a: seq<Mark>, b: seq<Mark>, depth: int, k: int)
    requires Read(a, depth) >= 0 && NumberedFrom(a, k) >= 0
    ensures Read(a + b, depth) == Read(b, Read(a, depth))
    ensures Opens(a + b) == Opens(a) + Opens(b)
    ensures NumberedFrom(a + b, k) == NumberedFrom(b, NumberedFrom(a, k))
    decreases |a|
  {
    if a == [] {
      assert a + b == b;
    } else {
      assert (a + b)[0] == a[0] && (a + b)[1..] == a[1..] + b;
      match a[0] {
        case Open(_) => Appends(a[1..], b, depth + 1, k);
        case Param(_) => Appends(a[1..], b, depth, k + 1);
        case Close => Appends(a[1..], b, depth - 1, k);
      }
    }
  }

  lemma Joined(a: seq<Mark>, b: seq<Mark>, level: int, m: nat, n: nat, k: int, p: nat, q: nat)
    requires level >= 0 && k >= 0
    requires WellParenthesised(a, level, m, k, p) && WellParenthesised(b, level, n, k + p, q)
    ensures WellParenthesised(a + b, level, m + n, k, p + q)
  {
    Appends(a, b, level, k);
  }

  lemma AnotherElementText(a: seq<Mark>, b: seq<Mark>, level: int, elt: nat, v: nat, k: int, p: nat)
    requires level >= 0 && k >= 0 && elt * v >= 0 && elt * p >= 0
    requires WellParenthesised(a, level, elt * v, k, elt * p) && WellParenthesised(b, level, v, k + elt * p, p)
    ensures (elt + 1) * v >= 0 && (elt + 1) * p == elt * p + p
    ensures WellParenthesised(a + b, level, (elt + 1) * v, k, (elt + 1) * p)
  {
    Joined(a, b, level, elt * v, v, k, elt * p, p);
    Distribute(elt, v);
    Distribute(elt, p);
  }

  lemma AnotherMemberText(ds: seq<Decl>, l: nat, level: int, k: int, a: seq<Mark>, b: seq<Mark>)
    requires AllWellFormed(ds) && l < |ds| && level >= 0 && k >= 0
    requires WellParenthesised(a, level, MemberVisits(ds, l), k, MemberScalars(ds, l))
    requires WellParenthesised(b, level, Visits(ds[l]), k + MemberScalars(ds, l), Scalars(ds[l]))
    ensures WellParenthesised(a + b, level, MemberVisits(ds, l + 1), k, MemberScalars(ds, l + 1))
  {
    Joined(a, b, level, MemberVisits(ds, l), Visits(ds[l]), k, MemberScalars(ds, l), Scalars(ds[l]));
  }

  lemma Enclosed(ms: seq<Mark>, level: int, m: nat, k: int, p: nat)
    requires level >= 0 && k >= 0 && WellParenthesised(ms, level + 1, m, k, p)
    ensures WellParenthesised([Open(level)] + ms + [Close], level, m + 1, k, p)
  {
    var inner := ms + [Close];
    Appends(ms, [Close], level + 1, k);
    assert Read([Close], level + 1) == Read([], level) == level;
    assert Opens([Close]) == Opens([]) == 0 && NumberedFrom([Close], k + p) == NumberedFrom([], k + p);
    var all := [Open(level)] + ms + [Close];
    assert all[1..] == inner;
  }

  // ----- the generator

  class OpGenerator {
    var text: seq<Mark>
    var level: int
    var numvar: int

    constructor (level: int)
      ensures text == [] && this.level == level && numvar == 1
    {
      text, this.level, numvar := [], level, 1;
    }

    /** The level comes back as it was; the new text is one parenthesised group holding exactly one
        pair per visited declaration; the counter advances by the number of scalars. */
    method BreakUp(d: Decl) returns (ghost added: seq<Mark>)
      requires WellFormed(d) && level >= 0 && numvar >= 0
      modifies this
      ensures level == old(level) && numvar == old(numvar) + Scalars(d)
      ensures text == old(text) + added && added == Layout(d, level, old(numvar))
      ensures WellParenthesised(added, level, Visits(d), old(numvar), Scalars(d))
      decreases d, 1
    {
      ghost var before, start := text, numvar;
      text := text + [Open(level)];
      ghost var inner: seq<Mark>;
      if d.Leaf? {
        inner := AddOpParams(d, level + 1);
        text := text + [Close];
        Enclosed(inner, level, 0, start, Scalars(d));
      } else {
        level := level + 1;
        inner := BreakUpElements(d);
        level := level - 1;
        text := text + [Close];
        Enclosed(inner, level, Elements(d) * MemberVisits(d.members, |d.members|), start, Scalars(d));
      }
      added := [Open(level)] + inner + [Close];
      assert text == before + added;
    }

    method BreakUpElements(d: Decl) returns (ghost added: seq<Mark>)
      requires WellFormed(d) && d.Struct? && level >= 0 && numvar >= 0
      modifies this
      ensures level == old(level) && text == old(text) + added
      ensures numvar == old(numvar) + Elements(d) * MemberScalars(d.members, |d.members|)
      ensures added == ElementLayouts(d, level, old(numvar), Elements(d))
      ensures WellParenthesised(added, level, Elements(d) * MemberVisits(d.members, |d.members|),
                                old(numvar), Elements(d) * MemberScalars(d.members, |d.members|))
      decreases d, 0, 1
    {
      ghost var before, start, was := text, numvar, level;
      ghost var v, p := MemberVisits(d.members, |d.members|), MemberScalars(d.members, |d.members|);
      var nElts := CountElements(d.dims);
      ProductPositive(d.dims);
      var elt := 0;
      added := [];
      while elt < nElts
        invariant elt <= nElts == Elements(d) && level == was && text == before + added
        invariant numvar == start + elt * p && added == ElementLayouts(d, level, start, elt)
        invariant WellParenthesised(added, level, elt * v, start, elt * p)
      {
        added := BreakUpElement(d, elt, v, p, before, start, added);
        elt := elt + 1;
      }
    }

    /** One element more. */
    method BreakUpElement(d: Decl, elt: nat, ghost v: nat, ghost p: nat, ghost before: seq<Mark>, ghost start: int,
                          ghost added: seq<Mark>)
      returns (ghost added': seq<Mark>)
      requires WellFormed(d) && d.Struct? && level >= 0 && start >= 0
      requires v == MemberVisits(d.members, |d.members|) && p == MemberScalars(d.members, |d.members|)
      requires elt * v >= 0 && elt * p >= 0 && numvar == start + elt * p && text == before + added
      requires added == ElementLayouts(d, level, start, elt) && WellParenthesised(added, level, elt * v, start, elt * p)
      modifies this
      ensures (elt + 1) * v >= 0 && (elt + 1) * p >= 0 && level == old(level)
      ensures numvar == start + (elt + 1) * p && text == before + added'
      ensures added' == ElementLayouts(d, level, start, elt + 1)
      ensures WellParenthesised(added', level, (elt + 1) * v, start, (elt + 1) * p)
      decreases d, 0, 0
    {
      ghost var more := BreakUpMembers(d.members);
      AnotherElementText(added, more, level, elt, v, start, p);
      added' := added + more;
    }

    method BreakUpMembers(ds: seq<Decl>) returns (ghost added: seq<Mark>)
      requires AllWellFormed(ds) && level >= 0 && numvar >= 0
      modifies this
      ensures level == old(level) && text == old(text) + added
      ensures numvar == old(numvar) + MemberScalars(ds, |ds|)
      ensures added == MemberLayouts(ds, level, old(numvar), |ds|)
      ensures WellParenthesised(added, level, MemberVisits(ds, |ds|), old(numvar), MemberScalars(ds, |ds|))
      decreases ds, 2
    {
      ghost var before, start, was := text, numvar, level;
      var l := 0;
      added := [];
      while l < |ds|
        invariant l <= |ds| && level == was && text == before + added
        invariant numvar == start + MemberScalars(ds, l) && added == MemberLayouts(ds, level, start, l)
        invariant WellParenthesised(added, level, MemberVisits(ds, l), start, MemberScalars(ds, l))
      {
        added := BreakUpMember(ds, l, before, start, added);
        l := l + 1;
      }
    }

    /** One member more. */
    method BreakUpMember(ds: seq<Decl>, l: nat, ghost before: seq<Mark>, ghost start: int, ghost added: seq<Mark>)
      returns (ghost added': seq<Mark>)
      requires AllWellFormed(ds) && l < |ds| && level >= 0 && start >= 0
      requires numvar == start + MemberScalars(ds, l) && text == before + added
      requires added == MemberLayouts(ds, level, start, l)
      requires WellParenthesised(added, level, MemberVisits(ds, l), start, MemberScalars(ds, l))
      modifies this
      ensures level == old(level) && numvar == start + MemberScalars(ds, l + 1) && text == before + added'
      ensures added' == MemberLayouts(ds, level, start, l + 1)
      ensures WellParenthesised(added', level, MemberVisits(ds, l + 1), start, MemberScalars(ds, l + 1))
      decreases ds, 1
    {
      ghost var more := BreakUp(ds[l]);
      AnotherMemberText(ds, l, level, start, added, more);
      added' := added + more;
    }

    method AddOpParams(d: Decl, ghost depth: int) returns (ghost added: seq<Mark>)
      requires WellFormed(d) && d.Leaf? && numvar >= 0 && depth >= 0
      modifies `text, `numvar
      ensures text == old(text) + added && numvar == old(numvar) + Elements(d)
      ensures added == Params(old(numvar), Elements(d))
      ensures WellParenthesised(added, depth, 0, old(numvar), Elements(d))
    {
      ghost var before, start := text, numvar;
      var dims := if d.isString then d.dims[..|d.dims|-1] else d.dims;
      assert dims == Shape(d);
      var nElts := CountElements(dims);
      ProductPositive(dims);
      var elt := 0;
      added := [];
      while elt < nElts
        invariant elt <= nElts == Elements(d) && text == before + added && numvar == start + elt
        invariant added == Params(start, elt)
        invariant WellParenthesised(added, depth, 0, start, elt)
      {
        OneParam(numvar, depth);
        Joined(added, [Param(numvar)], depth, 0, 0, start, elt, 1);
        text := text + [Param(numvar)];
        added := added + [Param(numvar)];
        numvar := numvar + 1;
        elt := elt + 1;
      }
    }
  }

  lemma OneParam(k: int, depth: int)
    ensures WellParenthesised([Param(k)], depth, 0, k, 1)
  {
    assert [Param(k)][1..] == [];
  }

  lemma Distribute(n: nat, p: nat)
    ensures (n + 1) * p == n * p + p
  {
  }

  // ----- agreement with the flattening of the init request

  /** breakUpCStruct and flatDcl give a declaration the same number of variables. */
  lemma {:induction false} SameVariables(prefix: string, d: Decl)
    requires WellFormed(d)
    ensures Emittable(Terminals(prefix, d)) && |Accesses(Terminals(prefix, d))| == Scalars(d)
    decreases d, 1, 0
  {
    TerminalsEmittable(prefix, d);
    if d.Leaf? {
      var t := Terminal(prefix, d);
      assert Accesses([t]) == ElementAccesses(t, Elements(d)) + [];
      ElementCount(t, Elements(d));
    } else {
      SameElements(prefix, d, Elements(d));
    }
  }

  lemma {:induction false} ElementCount(t: Terminal, n: nat)
    requires WellFormed(t.leaf)
    ensures |ElementAccesses(t, n)| == n
  {
    if n > 0 {
      ElementCount(t, n - 1);
    }
  }

  /** The terminals ts stand for n scalars. */
  ghost predicate HoldsScalars(ts: seq<Terminal>, n: int) {
    Emittable(ts) && |Accesses(ts)| == n
  }

  lemma BothHold(ts: seq<Terminal>, us: seq<Terminal>, m: int, n: int)
    requires HoldsScalars(ts, m) && HoldsScalars(us, n)
    ensures HoldsScalars(ts + us, m + n)
  {
    AccessesAppend(ts, us);
  }

  lemma {:induction false} SameElements(prefix: string, d: Decl, n: nat)
    requires WellFormed(d) && d.Struct?
    ensures HoldsScalars(ElementTerminals(prefix, d, n), n * MemberScalars(d.members, |d.members|))
    decreases d, 0, n
  {
    if n == 0 {
      assert ElementTerminals(prefix, d, 0) == [];
    } else {
      SameElements(prefix, d, n - 1);
      SameMembers(ElementPrefix(prefix, d, n - 1), d.members, |d.members|);
      AnotherElement(prefix, d, n - 1, MemberScalars(d.members, |d.members|));
    }
  }

  lemma AnotherElement(prefix: string, d: Decl, n: nat, p: nat)
    requires WellFormed(d) && d.Struct?
    requires HoldsScalars(ElementTerminals(prefix, d, n), n * p)
    requires HoldsScalars(MemberTerminals(ElementPrefix(prefix, d, n), d.members, |d.members|), p)
    ensures HoldsScalars(ElementTerminals(prefix, d, n + 1), (n + 1) * p)
  {
    var ts := ElementTerminals(prefix, d, n);
    var us := MemberTerminals(ElementPrefix(prefix, d, n), d.members, |d.members|);
    BothHold(ts, us, n * p, p);
    Distribute(n, p);
    assert ElementTerminals(prefix, d, n + 1) == ts + us;
  }

  lemma {:induction false} SameMembers(prefix: string, ds: seq<Decl>, n: nat)
    requires AllWellFormed(ds) && n <= |ds|
    ensures HoldsScalars(MemberTerminals(prefix, ds, n), MemberScalars(ds, n))
    decreases ds, 0, n
  {
    if n > 0 {
      SameMembers(prefix, ds, n - 1);
      SameVariables(prefix, ds[n-1]);
      BothHold(MemberTerminals(prefix, ds, n - 1), Terminals(prefix, ds[n-1]),
               MemberScalars(ds, n - 1), Scalars(ds[n-1]));
    }
  }

  /** Both generators on one declaration: the flattening keeps its promises, and both number the same
      variables, one per scalar. */
  method GenerateBoth(d: Decl) returns (g: Generator, og: OpGenerator, failed: bool)
    requires WellFormed(d)
    ensures failed <==> !AllReadable(Terminals("", d))
    ensures og.numvar - 1 == Scalars(d) && og.level == 1
    ensures !failed ==> g.out.numvar - 1 == Scalars(d) == |g.out.fills|
    ensures !failed ==> Numbered(g.out) && Alternating(g.out, false) && Distinct(FillAccesses(g.out.fills))
  {
    g := new Generator();
    failed := g.FlatDcl(d);
    og := new OpGenerator(1);
    ghost var added := og.BreakUp(d);
    FlatteningPromises(d);
    SameVariables("", d);
  }
}
