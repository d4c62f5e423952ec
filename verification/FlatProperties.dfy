/** What the flattening promises: one statement per scalar, with its own access path, variables
    numbered without gaps, lists with separators exactly between their items. */
module FlatProperties {
  import opened Declarations
  import opened Flattening

  // ----- numbering and separators

  ghost predicate Numbered(o: Output) {
    o.numvar == |o.fills| + 1 && forall i :: 0 <= i < |o.fills| ==> o.fills[i].number == i + 1
  }

  /** Items and commas alternate, items numbered 1, 2, ...; an open list ends in a comma. */
  ghost predicate Alternating(o: Output, open: bool) {
    && |o.lists| == (if open then 2 * |o.fills| else if o.fills == [] then 0 else 2 * |o.fills| - 1)
    && (forall i :: 0 <= i < |o.lists| && i % 2 == 0 ==> o.lists[i].Item? && o.lists[i].number == i / 2 + 1)
    && (forall i :: 0 <= i < |o.lists| && i % 2 == 1 ==> o.lists[i] == Comma)
  }

  /** The access paths of the scalars below the given terminals, in order. */
  function Accesses(ts: seq<Terminal>): seq<string>
    requires Emittable(ts)
    decreases |ts|
  {
    if ts == [] then [] else ElementAccesses(ts[0], Elements(ts[0].leaf)) + Accesses(ts[1..])
  }

  function ElementAccesses(t: Terminal, n: nat): seq<string>
    requires WellFormed(t.leaf)
  {
    if n == 0 then [] else ElementAccesses(t, n - 1) + [Access(t, n - 1)]
  }

  function FillAccesses(fills: seq<Fill>): seq<string> {
    seq(|fills|, i requires 0 <= i < |fills| => fills[i].access)
  }

  lemma OpenList(o: Output)
    requires Numbered(o) && Alternating(o, false)
    ensures Alternating(if o.numvar != 1 then o.(lists := o.lists + [Comma]) else o, true)
  {
    assert o.numvar != 1 ==> |o.lists| % 2 == 1;
  }

  lemma NextItem(o: Output, access: string, usage: string, leaf: Decl, more: bool)
    requires Numbered(o) && Alternating(o, true)
    ensures var p := Output(o.numvar + 1, o.fills + [Fill(access, o.numvar, leaf)],
                            o.lists + [Item(usage, o.numvar)] + if more then [Comma] else []);
            Numbered(p) && Alternating(p, more)
  {
    var p := Output(o.numvar + 1, o.fills + [Fill(access, o.numvar, leaf)],
                    o.lists + [Item(usage, o.numvar)] + if more then [Comma] else []);
    assert |o.lists| / 2 + 1 == o.numvar && |o.lists| % 2 == 0;
  }

  lemma {:induction false} ElementsNumbered(o: Output, t: Terminal, n: nat)
    requires WellFormed(t.leaf) && t.leaf.Leaf? && n <= Elements(t.leaf)
    requires Numbered(o) && Alternating(o, false)
    ensures Numbered(EmitElements(o, t, n)) && Alternating(EmitElements(o, t, n), n < Elements(t.leaf))
  {
    if n == 0 {
      ProductPositive(Shape(t.leaf));
      OpenList(o);
    } else {
      ElementsNumbered(o, t, n - 1);
      NextItem(EmitElements(o, t, n - 1), Access(t, n - 1), t.leaf.name + Indexes(Shape(t.leaf), n - 1),
               t.leaf, n != Elements(t.leaf));
    }
  }

  lemma {:induction false} ElementsAccessed(o: Output, t: Terminal, n: nat)
    requires WellFormed(t.leaf) && t.leaf.Leaf? && n <= Elements(t.leaf)
    ensures FillAccesses(EmitElements(o, t, n).fills) == FillAccesses(o.fills) + ElementAccesses(t, n)
  {
    if n > 0 {
      ElementsAccessed(o, t, n - 1);
      var p := EmitElements(o, t, n - 1);
      assert FillAccesses(EmitElements(o, t, n).fills) == FillAccesses(p.fills) + [Access(t, n - 1)];
    }
  }

  lemma {:induction false} OutputNumbered(o: Output, ts: seq<Terminal>)
    requires Emittable(ts) && Numbered(o) && Alternating(o, false)
    ensures Numbered(EmitAll(o, ts)) && Alternating(EmitAll(o, ts), false)
    ensures FillAccesses(EmitAll(o, ts).fills) == FillAccesses(o.fills) + Accesses(ts)
    decreases |ts|
  {
    if ts != [] {
      var n := Elements(ts[0].leaf);
      ElementsNumbered(o, ts[0], n);
      ElementsAccessed(o, ts[0], n);
      OutputNumbered(EmitElements(o, ts[0], n), ts[1..]);
    }
  }

  // ----- distinct access paths

  ghost predicate Distinct(s: seq<string>) {
    forall i, j :: 0 <= i < j < |s| ==> s[i] != s[j]
  }

  lemma DistinctAppend(s: seq<string>, t: seq<string>)
    requires Distinct(s) && Distinct(t) && forall x :: x in s ==> x !in t
    ensures Distinct(s + t)
  {
    forall i, j | 0 <= i < j < |s + t| ensures (s + t)[i] != (s + t)[j] {
      if i < |s| <= j {
        assert s[i] in s && t[j - |s|] in t;
      }
    }
  }

  lemma {:induction false} AccessesAppend(ts: seq<Terminal>, us: seq<Terminal>)
    requires Emittable(ts) && Emittable(us)
    ensures Emittable(ts + us) && Accesses(ts + us) == Accesses(ts) + Accesses(us)
    decreases |ts|
  {
    if ts == [] {
      assert ts + us == us;
    } else {
      assert (ts + us)[0] == ts[0] && (ts + us)[1..] == ts[1..] + us;
      AccessesAppend(ts[1..], us);
      var first := ElementAccesses(ts[0], Elements(ts[0].leaf));
      assert first + (Accesses(ts[1..]) + Accesses(us)) == (first + Accesses(ts[1..])) + Accesses(us);
    }
  }

  /** The text up to the first of the given characters. */
  function Until(s: string, stop: string): string {
    if s == "" || s[0] in stop then "" else [s[0]] + Until(s[1..], stop)
  }

  lemma {:induction false} UntilSplit(a: string, b: string, stop: string)
    requires (forall c :: c in a ==> c !in stop) && (b == "" || b[0] in stop)
    ensures Until(a + b, stop) == a
  {
    if a == "" {
      assert a + b == b;
    } else {
      assert (a + b)[1..] == a[1..] + b && a[0] in a;
      UntilSplit(a[1..], b, stop);
    }
  }

  /** a continues prefix with a component of the given name. */
  ghost predicate Continues(a: string, prefix: string, name: string) {
    prefix <= a && Until(a[|prefix|..], "[.") == name
  }

  lemma NameContinues(prefix: string, name: string, rest: string)
    requires NoDot(name) && '[' !in name && (rest == "" || rest[0] == '[' || rest[0] == '.')
    ensures Continues(prefix + name + rest, prefix, name)
  {
    assert (prefix + name + rest)[|prefix|..] == name + rest;
    UntilSplit(name, rest, "[.");
  }

  lemma {:induction false} LeafDistinct(t: Terminal, n: nat)
    requires WellFormed(t.leaf) && t.leaf.Leaf? && n <= Elements(t.leaf)
    ensures Distinct(ElementAccesses(t, n))
    ensures forall a :: a in ElementAccesses(t, n) <==> exists e :: 0 <= e < n && a == Access(t, e)
    ensures forall a :: a in ElementAccesses(t, n) ==> Continues(a, t.prefix, t.leaf.name)
  {
    if n > 0 {
      LeafDistinct(t, n - 1);
      forall e | 0 <= e < n - 1 ensures Access(t, e) != Access(t, n - 1) {
        if Access(t, e) == Access(t, n - 1) {
          SameAccess(t, e, n - 1);
        }
      }
      DistinctAppend(ElementAccesses(t, n - 1), [Access(t, n - 1)]);
      IndexesNoDot(Shape(t.leaf), n - 1);
      NameContinues(t.prefix, t.leaf.name, Indexes(Shape(t.leaf), n - 1));
    }
  }

  lemma SameAccess(t: Terminal, i: nat, j: nat)
    requires WellFormed(t.leaf) && i < Elements(t.leaf) && j < Elements(t.leaf)
    requires Access(t, i) == Access(t, j)
    ensures i == j
  {
    var stem := t.prefix + t.leaf.name;
    assert Access(t, i)[|stem|..] == Indexes(Shape(t.leaf), i);
    assert Access(t, j)[|stem|..] == Indexes(Shape(t.leaf), j);
    IndexesInjective(Shape(t.leaf), i, j);
  }

  lemma {:induction false} DeclDistinct(prefix: string, d: Decl)
    requires WellFormed(d)
    ensures Emittable(Terminals(prefix, d)) && Distinct(Accesses(Terminals(prefix, d)))
    ensures forall a :: a in Accesses(Terminals(prefix, d)) ==> Continues(a, prefix, d.name)
    decreases d, 1, 0
  {
    TerminalsEmittable(prefix, d);
    if d.Leaf? {
      var t := Terminal(prefix, d);
      assert Accesses([t]) == ElementAccesses(t, Elements(d));
      LeafDistinct(t, Elements(d));
    } else {
      ElementsDistinct(prefix, d, Elements(d));
      forall a | a in Accesses(Terminals(prefix, d)) ensures Continues(a, prefix, d.name) {
        var e :| 0 <= e < Elements(d) && ElementPrefix(prefix, d, e) <= a;
        PrefixContinues(prefix, d, e, a);
      }
    }
  }

  lemma PrefixContinues(prefix: string, d: Decl, e: nat, a: string)
    requires WellFormed(d) && d.Struct? && ElementPrefix(prefix, d, e) <= a
    ensures Continues(a, prefix, d.name)
  {
    IndexesNoDot(d.dims, e);
    var rest := Indexes(d.dims, e) + "." + a[|ElementPrefix(prefix, d, e)|..];
    assert a == prefix + d.name + rest;
    NameContinues(prefix, d.name, rest);
  }

  ghost predicate AllUnder(xs: seq<string>, prefix: string) {
    forall a :: a in xs ==> prefix <= a
  }

  /** Each of these paths goes into one of the first n elements of d. */
  ghost predicate InElements(xs: seq<string>, prefix: string, d: Decl, n: nat)
    requires WellFormed(d)
  {
    forall a :: a in xs ==> exists e :: 0 <= e < n && ElementPrefix(prefix, d, e) <= a
  }

  ghost predicate DistinctIn(ts: seq<Terminal>, prefix: string, d: Decl, n: nat)
    requires WellFormed(d)
  {
    Emittable(ts) && Distinct(Accesses(ts)) && InElements(Accesses(ts), prefix, d, n)
  }

  ghost predicate DistinctUnder(ts: seq<Terminal>, prefix: string) {
    Emittable(ts) && Distinct(Accesses(ts)) && AllUnder(Accesses(ts), prefix)
  }

  lemma {:induction false} ElementsDistinct(prefix: string, d: Decl, n: nat)
    requires WellFormed(d) && d.Struct? && n <= Elements(d)
    ensures DistinctIn(ElementTerminals(prefix, d, n), prefix, d, n)
    decreases d, 0, n
  {
    if n == 0 {
      NoneDistinct(prefix, d);
    } else {
      ElementsDistinct(prefix, d, n - 1);
      MembersDistinct(ElementPrefix(prefix, d, n - 1), d.members, |d.members|);
      NextDistinct(prefix, d, n - 1);
    }
  }

  lemma NoneDistinct(prefix: string, d: Decl)
    requires WellFormed(d) && d.Struct?
    ensures DistinctIn(ElementTerminals(prefix, d, 0), prefix, d, 0)
  {
    assert ElementTerminals(prefix, d, 0) == [];
  }

  lemma NextDistinct(prefix: string, d: Decl, n: nat)
    requires WellFormed(d) && d.Struct? && n < Elements(d)
    requires DistinctIn(ElementTerminals(prefix, d, n), prefix, d, n)
    requires DistinctUnder(MemberTerminals(ElementPrefix(prefix, d, n), d.members, |d.members|),
                           ElementPrefix(prefix, d, n))
    ensures DistinctIn(ElementTerminals(prefix, d, n + 1), prefix, d, n + 1)
  {
    var us := MemberTerminals(ElementPrefix(prefix, d, n), d.members, |d.members|);
    OneElementMore(prefix, d, n, ElementTerminals(prefix, d, n), us);
  }

  lemma OneElementMore(prefix: string, d: Decl, n: nat, ts: seq<Terminal>, us: seq<Terminal>)
    requires WellFormed(d) && d.Struct? && n < Elements(d) && DistinctIn(ts, prefix, d, n)
    requires DistinctUnder(us, ElementPrefix(prefix, d, n))
    ensures DistinctIn(ts + us, prefix, d, n + 1)
  {
    AccessesAppend(ts, us);
    var xs, ys := Accesses(ts), Accesses(us);
    ElementsDisjoint(prefix, d, n, xs, ys);
    DistinctAppend(xs, ys);
  }

  lemma ElementsDisjoint(prefix: string, d: Decl, n: nat, xs: seq<string>, ys: seq<string>)
    requires WellFormed(d) && d.Struct? && n < Elements(d)
    requires InElements(xs, prefix, d, n) && AllUnder(ys, ElementPrefix(prefix, d, n))
    ensures forall a :: a in xs ==> a !in ys
  {
    forall a | a in xs ensures a !in ys {
      var e :| 0 <= e < n && ElementPrefix(prefix, d, e) <= a;
      if a in ys {
        SamePrefix(prefix, d, e, n, a);
      }
    }
  }

  lemma SamePrefix(prefix: string, d: Decl, i: nat, j: nat, a: string)
    requires WellFormed(d) && d.Struct? && i < Elements(d) && j < Elements(d)
    requires ElementPrefix(prefix, d, i) <= a && ElementPrefix(prefix, d, j) <= a
    ensures i == j
  {
    var stem := prefix + d.name;
    IndexesNoDot(d.dims, i);
    IndexesNoDot(d.dims, j);
    var x, y := a[|ElementPrefix(prefix, d, i)|..], a[|ElementPrefix(prefix, d, j)|..];
    assert a == ElementPrefix(prefix, d, i) + x && a == ElementPrefix(prefix, d, j) + y;
    assert a[|stem|..] == Indexes(d.dims, i) + ("." + x);
    assert a[|stem|..] == Indexes(d.dims, j) + ("." + y);
    UntilSplit(Indexes(d.dims, i), "." + x, ".");
    UntilSplit(Indexes(d.dims, j), "." + y, ".");
    IndexesInjective(d.dims, i, j);
  }

  lemma {:induction false} MembersDistinct(prefix: string, ds: seq<Decl>, n: nat)
    requires AllWellFormed(ds) && n <= |ds|
    ensures DistinctUnder(MemberTerminals(prefix, ds, n), prefix)
    ensures forall a :: a in Accesses(MemberTerminals(prefix, ds, n)) ==>
              exists k :: 0 <= k < n && Continues(a, prefix, ds[k].name)
    decreases ds, 0, n
  {
    MembersEmittable(prefix, ds, n);
    if n > 0 {
      MembersDistinct(prefix, ds, n - 1);
      DeclDistinct(prefix, ds[n-1]);
      var ts, us := MemberTerminals(prefix, ds, n - 1), Terminals(prefix, ds[n-1]);
      AccessesAppend(ts, us);
      forall a | a in Accesses(ts) ensures a !in Accesses(us) {
        var k :| 0 <= k < n - 1 && Continues(a, prefix, ds[k].name);
        assert OtherName(ds[k], ds[n-1]);
      }
      DistinctAppend(Accesses(ts), Accesses(us));
    }
  }

  /** The whole generator: a fresh walk over one declaration gives one fill statement per access
      path, in declaration order, all paths different; variables 1..N without gaps; N items with
      N - 1 commas between them. */
  lemma FlatteningPromises(d: Decl)
    requires WellFormed(d)
    ensures Emittable(Terminals("", d))
    ensures var o := EmitAll(FRESH, Terminals("", d));
            && Numbered(o) && Alternating(o, false)
            && FillAccesses(o.fills) == Accesses(Terminals("", d))
            && Distinct(FillAccesses(o.fills))
  {
    DeclDistinct("", d);
    OutputNumbered(FRESH, Terminals("", d));
    assert FillAccesses(FRESH.fills) == [];
  }
}
