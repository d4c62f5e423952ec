/** Which scalars a flattened declaration has, told by member numbers and array indexes alone, and where
    the generators put each of them. */
module AccessPaths {
  import opened Declarations
  import opened Flattening
  import opened FlatProperties
  import opened OpParams

  /** The way to a scalar: the indexes of an element at each level, and the member to go on with. */
  datatype Path = Here(at: seq<nat>) | Into(at: seq<nat>, member: nat, rest: Path)

  /** The path leads to a scalar of d: indexes within the dimensions, members that exist, down to a leaf;
      the last dimension of a string is its length. */
  predicate Leads(d: Decl, p: Path)
    decreases d
  {
    match d
    case Leaf(_, dims, isString, _, _) =>
      p.Here? && if isString then dims != [] && InRange(dims[..|dims|-1], p.at) else InRange(dims, p.at)
    case Struct(_, dims, members) =>
      p.Into? && InRange(dims, p.at) && p.member < |members| && Leads(members[p.member], p.rest)
  }

  /** The C expression: names and indexes in brackets, joined by dots. */
  function Expression(d: Decl, p: Path): string
    requires Leads(d, p)
    decreases d
  {
    match d
    case Leaf(name, _, _, _, _) => name + Render(p.at)
    case Struct(name, _, members) => name + Render(p.at) + "." + Expression(members[p.member], p.rest)
  }

  /** The declaration the path ends in, and its part of the expression. */
  function LeafAt(d: Decl, p: Path): (l: Decl)
    requires Leads(d, p)
    ensures l.Leaf?
    decreases d
  {
    match d
    case Leaf(_, _, _, _, _) => d
    case Struct(_, _, members) => LeafAt(members[p.member], p.rest)
  }

  function LastPart(d: Decl, p: Path): string
    requires Leads(d, p)
    decreases d
  {
    match d
    case Leaf(name, _, _, _, _) => name + Render(p.at)
    case Struct(_, _, members) => LastPart(members[p.member], p.rest)
  }

  /** How many scalars come before: those of the elements before the path's, row by row, and within its
      element those of the members before its member. */
  function Before(d: Decl, p: Path): int
    requires WellFormed(d) && Leads(d, p)
    decreases d, 1
  {
    match d
    case Leaf(_, _, _, _, _) => Position(Shape(d), p.at)
    case Struct(_, dims, members) =>
      Position(dims, p.at) * MemberScalars(members, |members|) + BeforeWithin(members, p.member, p.rest)
  }

  function BeforeWithin(ds: seq<Decl>, k: nat, p: Path): int
    requires AllWellFormed(ds) && k < |ds| && Leads(ds[k], p)
    decreases ds, 0
  {
    MemberScalars(ds, k) + Before(ds[k], p)
  }

  // ----- the scalars in the order in which the generators visit them

  /** A scalar as the generators come to it: element elt of a terminal. */
  datatype Place = Place(terminal: Terminal, elt: nat)

  function PlacesOf(t: Terminal, n: nat): seq<Place> {
    seq(n, e requires 0 <= e => Place(t, e))
  }

  function Places(ts: seq<Terminal>): seq<Place>
    requires Emittable(ts)
    decreases |ts|
  {
    if ts == [] then [] else PlacesOf(ts[0], Elements(ts[0].leaf)) + Places(ts[1..])
  }

  lemma {:induction false} PlacesAppend(ts: seq<Terminal>, us: seq<Terminal>)
    requires Emittable(ts) && Emittable(us)
    ensures Emittable(ts + us) && Places(ts + us) == Places(ts) + Places(us)
    decreases |ts|
  {
    if ts == [] {
      assert ts + us == us;
    } else {
      assert (ts + us)[0] == ts[0] && (ts + us)[1..] == ts[1..] + us;
      PlacesAppend(ts[1..], us);
      var first := PlacesOf(ts[0], Elements(ts[0].leaf));
      Associate(first + (Places(ts[1..]) + Places(us)), first, Places(ts[1..]), Places(us));
    }
  }

  lemma Associate<T>(all: seq<T>, a: seq<T>, b: seq<T>, c: seq<T>)
    ensures all == a + (b + c) <==> all == (a + b) + c
  {
    assert a + (b + c) == (a + b) + c;
  }

  /** The places of a declaration, of the first elements of a structure, of the first members. */
  function DeclPlaces(prefix: string, d: Decl): seq<Place>
    requires WellFormed(d)
    decreases d, 1, 0
  {
    match d
    case Leaf(_, _, _, _, _) => PlacesOf(Terminal(prefix, d), Elements(d))
    case Struct(_, _, _) => PlacesOfElements(prefix, d, Elements(d))
  }

  function PlacesOfElements(prefix: string, d: Decl, n: nat): seq<Place>
    requires WellFormed(d) && d.Struct?
    decreases d, 0, n
  {
    if n == 0 then []
    else
      PlacesOfElements(prefix, d, n - 1)
      + PlacesOfMembers(ElementPrefix(prefix, d, n - 1), d.members, |d.members|)
  }

  function PlacesOfMembers(here: string, ds: seq<Decl>, n: nat): seq<Place>
    requires AllWellFormed(ds) && n <= |ds|
    decreases ds, 0, n
  {
    if n == 0 then [] else PlacesOfMembers(here, ds, n - 1) + DeclPlaces(here, ds[n-1])
  }

  /** They are those of its terminals. */
  lemma {:induction false} PlacesAre(prefix: string, d: Decl)
    requires WellFormed(d)
    ensures Emittable(Terminals(prefix, d)) && Places(Terminals(prefix, d)) == DeclPlaces(prefix, d)
    decreases d, 1, 0
  {
    if d.Leaf? {
      OneTerminal(Terminal(prefix, d));
    } else {
      ElementPlacesAre(prefix, d, Elements(d));
    }
  }

  lemma OneTerminal(t: Terminal)
    requires WellFormed(t.leaf) && t.leaf.Leaf?
    ensures Places([t]) == PlacesOf(t, Elements(t.leaf))
  {
    assert Places([t]) == PlacesOf(t, Elements(t.leaf)) + Places([t][1..]);
    assert Places([t][1..]) == [];
  }

  lemma {:induction false} ElementPlacesAre(prefix: string, d: Decl, n: nat)
    requires WellFormed(d) && d.Struct?
    ensures Emittable(ElementTerminals(prefix, d, n))
    ensures Places(ElementTerminals(prefix, d, n)) == PlacesOfElements(prefix, d, n)
    decreases d, 0, n
  {
    if n > 0 {
      var here := ElementPrefix(prefix, d, n - 1);
      ElementPlacesAre(prefix, d, n - 1);
      MemberPlacesAre(here, d.members, |d.members|);
      JoinedPlaces(ElementTerminals(prefix, d, n - 1), MemberTerminals(here, d.members, |d.members|),
                   ElementTerminals(prefix, d, n));
    }
  }

  lemma JoinedPlaces(ts: seq<Terminal>, us: seq<Terminal>, all: seq<Terminal>)
    requires Emittable(ts) && Emittable(us) && all == ts + us
    ensures Emittable(all) && Places(all) == Places(ts) + Places(us)
  {
    PlacesAppend(ts, us);
  }

  lemma {:induction false} MemberPlacesAre(here: string, ds: seq<Decl>, n: nat)
    requires AllWellFormed(ds) && n <= |ds|
    ensures Emittable(MemberTerminals(here, ds, n))
    ensures Places(MemberTerminals(here, ds, n)) == PlacesOfMembers(here, ds, n)
    decreases ds, 0, n
  {
    if n > 0 {
      MemberPlacesAre(here, ds, n - 1);
      PlacesAre(here, ds[n-1]);
      JoinedPlaces(MemberTerminals(here, ds, n - 1), Terminals(here, ds[n-1]), MemberTerminals(here, ds, n));
    }
  }

  // ----- how many there are

  lemma {:induction false} DeclPlaced(prefix: string, d: Decl)
    requires WellFormed(d)
    ensures |DeclPlaces(prefix, d)| == Scalars(d)
    decreases d, 1, 0
  {
    if d.Struct? {
      ElementsPlaced(prefix, d, Elements(d), MemberScalars(d.members, |d.members|));
    }
  }

  lemma {:induction false} ElementsPlaced(prefix: string, d: Decl, n: nat, m: nat)
    requires WellFormed(d) && d.Struct? && m == MemberScalars(d.members, |d.members|)
    ensures |PlacesOfElements(prefix, d, n)| == n * m
    decreases d, 0, n
  {
    if n > 0 {
      ElementsPlaced(prefix, d, n - 1, m);
      MembersPlaced(ElementPrefix(prefix, d, n - 1), d.members, |d.members|);
      Distribute(n - 1, m);
    }
  }

  lemma {:induction false} MembersPlaced(here: string, ds: seq<Decl>, n: nat)
    requires AllWellFormed(ds) && n <= |ds|
    ensures |PlacesOfMembers(here, ds, n)| == MemberScalars(ds, n)
    decreases ds, 0, n
  {
    if n > 0 {
      MembersPlaced(here, ds, n - 1);
      DeclPlaced(here, ds[n-1]);
    }
  }

  // ----- where each of them is

  predicate IsAt(places: seq<Place>, i: int, place: Place) {
    0 <= i < |places| && places[i] == place
  }

  /** The place of a path: the terminal of its leaf, under the prefix that the path to it makes. */
  function PlaceAt(prefix: string, d: Decl, p: Path): Place
    requires WellFormed(d) && Leads(d, p)
    decreases p, 0
  {
    if d.Leaf? then
      PositionVector(Shape(d), p.at);
      Place(Terminal(prefix, d), Position(Shape(d), p.at))
    else
      PositionVector(d.dims, p.at);
      PlaceWithin(ElementPrefix(prefix, d, Position(d.dims, p.at)), d.members, p.member, p.rest)
  }

  function PlaceWithin(here: string, ds: seq<Decl>, k: nat, p: Path): Place
    requires AllWellFormed(ds) && k < |ds| && Leads(ds[k], p)
    decreases p, 1
  {
    PlaceAt(here, ds[k], p)
  }

  /** Every path's scalar is visited, after as many others as its indexes and members say. */
  lemma {:induction false} PathPlaced(prefix: string, d: Decl, p: Path)
    requires WellFormed(d) && Leads(d, p)
    ensures IsAt(DeclPlaces(prefix, d), Before(d, p), PlaceAt(prefix, d, p))
    decreases p
  {
    if d.Leaf? {
      PositionVector(Shape(d), p.at);
    } else {
      PositionVector(d.dims, p.at);
      var e: nat := Position(d.dims, p.at);
      assert AllWellFormed(d.members);
      PathPlaced(ElementPrefix(prefix, d, e), d.members[p.member], p.rest);
      assert PlaceAt(prefix, d, p) == PlaceWithin(ElementPrefix(prefix, d, e), d.members, p.member, p.rest);
      StructPlaced(prefix, d, e, p.member, Before(d.members[p.member], p.rest), PlaceAt(prefix, d, p));
    }
  }

  lemma StructPlaced(prefix: string, d: Decl, e: nat, k: nat, i: int, place: Place)
    requires WellFormed(d) && d.Struct? && AllWellFormed(d.members) && e < Elements(d) && k < |d.members|
    requires IsAt(DeclPlaces(ElementPrefix(prefix, d, e), d.members[k]), i, place)
    ensures IsAt(DeclPlaces(prefix, d),
                 e * MemberScalars(d.members, |d.members|) + (MemberScalars(d.members, k) + i), place)
  {
    MemberPlaced(ElementPrefix(prefix, d, e), d.members, k, i, place, |d.members|);
    ElementPlaced(prefix, d, e, MemberScalars(d.members, k) + i, place, Elements(d));
  }

  /** There the generators store into the path's expression and show the last part of it. */
  lemma {:induction false} PlaceMeans(prefix: string, d: Decl, p: Path)
    requires WellFormed(d) && Leads(d, p)
    ensures var place := PlaceAt(prefix, d, p);
            && place.terminal.leaf == LeafAt(d, p) && WellFormed(LeafAt(d, p))
            && Access(place.terminal, place.elt) == prefix + Expression(d, p)
            && Usage(place.terminal, place.elt) == LastPart(d, p)
    decreases p
  {
    if d.Leaf? {
      PositionVector(Shape(d), p.at);
      assert prefix + d.name + Render(p.at) == prefix + (d.name + Render(p.at));
    } else {
      PositionVector(d.dims, p.at);
      PlaceMeans(ElementPrefix(prefix, d, Position(d.dims, p.at)), d.members[p.member], p.rest);
      Regroup(prefix, d.name, Render(p.at), Expression(d.members[p.member], p.rest));
    }
  }

  function Usage(t: Terminal, elt: nat): string
    requires WellFormed(t.leaf)
  {
    t.leaf.name + Indexes(Shape(t.leaf), elt)
  }

  lemma Regroup(a: string, b: string, c: string, e: string)
    ensures (a + b + c + ".") + e == a + (b + c + "." + e)
  {
  }

  /** The scalars of element e come after those of the elements before it. */
  lemma {:induction false} ElementPlaced(prefix: string, d: Decl, e: nat, i: int, place: Place, n: nat)
    requires WellFormed(d) && d.Struct? && e < n
    requires IsAt(PlacesOfMembers(ElementPrefix(prefix, d, e), d.members, |d.members|), i, place)
    ensures IsAt(PlacesOfElements(prefix, d, n), e * MemberScalars(d.members, |d.members|) + i, place)
    decreases n
  {
    if e == n - 1 {
      ElementsPlaced(prefix, d, e, MemberScalars(d.members, |d.members|));
    } else {
      ElementPlaced(prefix, d, e, i, place, n - 1);
    }
  }

  /** The scalars of member k come after those of the members before it. */
  lemma {:induction false} MemberPlaced(here: string, ds: seq<Decl>, k: nat, i: int, place: Place, n: nat)
    requires AllWellFormed(ds) && k < n <= |ds| && IsAt(DeclPlaces(here, ds[k]), i, place)
    ensures IsAt(PlacesOfMembers(here, ds, n), MemberScalars(ds, k) + i, place)
    decreases n
  {
    if k == n - 1 {
      LastMember(here, ds, k, i, place);
    } else {
      MemberPlaced(here, ds, k, i, place, n - 1);
      EarlierMembers(here, ds, n - 1, MemberScalars(ds, k) + i);
    }
  }

  lemma LastMember(here: string, ds: seq<Decl>, k: nat, i: int, place: Place)
    requires AllWellFormed(ds) && k < |ds| && IsAt(DeclPlaces(here, ds[k]), i, place)
    ensures IsAt(PlacesOfMembers(here, ds, k + 1), MemberScalars(ds, k) + i, place)
  {
    MembersPlaced(here, ds, k);
    IndexBehind(PlacesOfMembers(here, ds, k), DeclPlaces(here, ds[k]), i);
  }

  lemma IndexBehind<T>(first: seq<T>, second: seq<T>, i: int)
    requires 0 <= i < |second|
    ensures |first| + i < |first + second| && (first + second)[|first| + i] == second[i]
  {
  }

  lemma EarlierMembers(here: string, ds: seq<Decl>, n: nat, i: int)
    requires AllWellFormed(ds) && n < |ds| && 0 <= i < |PlacesOfMembers(here, ds, n)|
    ensures i < |PlacesOfMembers(here, ds, n + 1)|
    ensures PlacesOfMembers(here, ds, n + 1)[i] == PlacesOfMembers(here, ds, n)[i]
  {
  }

  // ----- conversely

  /** Every place is that of a path. */
  lemma {:induction false} PathAt(d: Decl, i: nat) returns (p: Path)
    requires WellFormed(d) && i < Scalars(d)
    ensures Leads(d, p) && Before(d, p) == i
    decreases d, 1, 0
  {
    if d.Leaf? {
      VectorPosition(Shape(d), i);
      p := Here(IndexVector(Shape(d), i));
    } else {
      var m := MemberScalars(d.members, |d.members|);
      QuotientBelow(i, Elements(d), m);
      var k, rest := MemberAt(d.members, i % m, |d.members|);
      p := ThroughElement(d, i / m, k, rest);
      Divided(i, m);
    }
  }

  lemma ThroughElement(d: Decl, e: nat, k: nat, rest: Path) returns (p: Path)
    requires WellFormed(d) && d.Struct? && e < Elements(d) && k < |d.members| && Leads(d.members[k], rest)
    ensures Leads(d, p)
    ensures Before(d, p) == e * MemberScalars(d.members, |d.members|) + BeforeWithin(d.members, k, rest)
  {
    VectorPosition(d.dims, e);
    p := Into(IndexVector(d.dims, e), k, rest);
  }

  lemma {:induction false} MemberAt(ds: seq<Decl>, i: nat, n: nat) returns (k: nat, p: Path)
    requires AllWellFormed(ds) && n <= |ds| && i < MemberScalars(ds, n)
    ensures k < n && Leads(ds[k], p) && BeforeWithin(ds, k, p) == i
    decreases ds, 0, n
  {
    if i < MemberScalars(ds, n - 1) {
      k, p := MemberAt(ds, i, n - 1);
    } else {
      k := n - 1;
      p := PathAt(ds[k], i - MemberScalars(ds, k));
    }
  }

  // ----- the output

  /** What a statement stores into, where that is declared, and what the lists show for it. */
  datatype Showing = Showing(access: string, leaf: Decl, usage: string)

  function ShownAt(o: Output, i: nat): Showing
    requires i < |o.fills|
  {
    Showing(o.fills[i].access, o.fills[i].leaf,
            if 2 * i < |o.lists| && o.lists[2 * i].Item? then o.lists[2 * i].usage else "")
  }

  function Shown(o: Output): seq<Showing> {
    seq(|o.fills|, i requires 0 <= i < |o.fills| => ShownAt(o, i))
  }

  ghost function ShowingOf(place: Place): Showing {
    var t := place.terminal;
    if WellFormed(t.leaf) then Showing(Access(t, place.elt), t.leaf, Usage(t, place.elt)) else Showing("", t.leaf, "")
  }

  ghost function Showings(places: seq<Place>): seq<Showing> {
    seq(|places|, i requires 0 <= i < |places| => ShowingOf(places[i]))
  }

  lemma ShowingsAppend(a: seq<Place>, b: seq<Place>)
    ensures Showings(a + b) == Showings(a) + Showings(b)
  {
  }

  lemma OpenShown(o: Output)
    requires Numbered(o) && Alternating(o, false)
    ensures Shown(if o.numvar != 1 then o.(lists := o.lists + [Comma]) else o) == Shown(o)
  {
  }

  lemma OneShown(o: Output, t: Terminal, elt: nat)
    requires WellFormed(t.leaf) && elt < Elements(t.leaf) && Numbered(o) && Alternating(o, true)
    ensures Shown(EmitOne(o, t, elt)) == Shown(o) + [ShowingOf(Place(t, elt))]
  {
    var q, all := EmitOne(o, t, elt), Shown(o) + [ShowingOf(Place(t, elt))];
    forall i | 0 <= i < |all| ensures ShownAt(q, i) == all[i] {
      if i < |o.fills| {
        assert ShownAt(q, i) == ShownAt(o, i);
      }
    }
  }

  lemma OneMoreShowing(t: Terminal, n: nat)
    ensures Showings(PlacesOf(t, n + 1)) == Showings(PlacesOf(t, n)) + [ShowingOf(Place(t, n))]
  {
  }

  lemma {:induction false} ElementsShown(o: Output, t: Terminal, n: nat)
    requires WellFormed(t.leaf) && t.leaf.Leaf? && n <= Elements(t.leaf)
    requires Numbered(o) && Alternating(o, false)
    ensures Shown(EmitElements(o, t, n)) == Shown(o) + Showings(PlacesOf(t, n))
  {
    if n == 0 {
      OpenShown(o);
      assert Showings(PlacesOf(t, 0)) == [];
    } else {
      ElementsShown(o, t, n - 1);
      NextElementShown(o, t, n - 1);
    }
  }

  lemma NextElementShown(o: Output, t: Terminal, n: nat)
    requires WellFormed(t.leaf) && t.leaf.Leaf? && n < Elements(t.leaf)
    requires Numbered(o) && Alternating(o, false)
    requires Shown(EmitElements(o, t, n)) == Shown(o) + Showings(PlacesOf(t, n))
    ensures Shown(EmitElements(o, t, n + 1)) == Shown(o) + Showings(PlacesOf(t, n + 1))
  {
    ElementsNumbered(o, t, n);
    NextShown(EmitElements(o, t, n), t, n, Shown(o));
  }

  lemma NextShown(o: Output, t: Terminal, n: nat, before: seq<Showing>)
    requires WellFormed(t.leaf) && n < Elements(t.leaf) && Numbered(o) && Alternating(o, true)
    requires Shown(o) == before + Showings(PlacesOf(t, n))
    ensures Shown(EmitOne(o, t, n)) == before + Showings(PlacesOf(t, n + 1))
  {
    OneShown(o, t, n);
    OneMoreShowing(t, n);
    Associate(Shown(EmitOne(o, t, n)), before, Showings(PlacesOf(t, n)), [ShowingOf(Place(t, n))]);
  }

  lemma TerminalShown(o: Output, t: Terminal, q: Output)
    requires WellFormed(t.leaf) && t.leaf.Leaf? && Numbered(o) && Alternating(o, false)
    requires q == EmitElements(o, t, Elements(t.leaf))
    ensures Numbered(q) && Alternating(q, false)
    ensures Shown(q) == Shown(o) + Showings(PlacesOf(t, Elements(t.leaf)))
  {
    ElementsNumbered(o, t, Elements(t.leaf));
    ElementsShown(o, t, Elements(t.leaf));
  }

  lemma {:induction false} AllShown(o: Output, ts: seq<Terminal>)
    requires Emittable(ts) && Numbered(o) && Alternating(o, false)
    ensures Shown(EmitAll(o, ts)) == Shown(o) + Showings(Places(ts))
    decreases |ts|
  {
    if ts != [] {
      var t, rest := ts[0], ts[1..];
      var q, first := EmitElements(o, t, Elements(t.leaf)), PlacesOf(t, Elements(t.leaf));
      TerminalShown(o, t, q);
      AllShown(q, rest);
      ShowingsAppend(first, Places(rest));
      Associate(Shown(EmitAll(q, rest)), Shown(o), Showings(first), Showings(Places(rest)));
    }
  }

  /** What the generator makes of a declaration. */
  ghost function Flattened(d: Decl): Output
    requires WellFormed(d)
  {
    TerminalsEmittable("", d);
    EmitAll(FRESH, Terminals("", d))
  }

  lemma FlattenedShows(d: Decl)
    requires WellFormed(d)
    ensures Shown(Flattened(d)) == Showings(DeclPlaces("", d)) && |Flattened(d).fills| == Scalars(d)
  {
    PlacesAre("", d);
    ShownFresh(Terminals("", d));
    DeclPlaced("", d);
    assert |Shown(Flattened(d))| == |Flattened(d).fills|;
  }

  lemma ShownFresh(ts: seq<Terminal>)
    requires Emittable(ts)
    ensures Shown(EmitAll(FRESH, ts)) == Showings(Places(ts))
  {
    NothingShown();
    AllShown(FRESH, ts);
  }

  lemma NothingShown()
    ensures Numbered(FRESH) && Alternating(FRESH, false) && Shown(FRESH) == []
  {
  }

  lemma FlattenedNumbered(d: Decl)
    requires WellFormed(d)
    ensures Numbered(Flattened(d)) && Alternating(Flattened(d), false)
  {
    TerminalsEmittable("", d);
    OutputNumbered(FRESH, Terminals("", d));
  }

  /** Every scalar of a declaration gets its own statement and its own variable: the one whose number is
      one more than the number of scalars before it, row by row and member by member; the statement
      stores into its C expression, and the lists show the last part of it. */
  lemma EveryScalarFilled(d: Decl, p: Path)
    requires WellFormed(d) && Leads(d, p)
    ensures 0 <= Before(d, p) < |Flattened(d).fills| == Scalars(d)
    ensures Flattened(d).fills[Before(d, p)] == Fill(Expression(d, p), Before(d, p) + 1, LeafAt(d, p))
    ensures 2 * Before(d, p) < |Flattened(d).lists|
    ensures Flattened(d).lists[2 * Before(d, p)] == Item(LastPart(d, p), Before(d, p) + 1)
  {
    FlattenedShows(d);
    FlattenedNumbered(d);
    PathPlaced("", d, p);
    PlaceMeans("", d, p);
    ItemShown(Flattened(d), Before(d, p));
    assert "" + Expression(d, p) == Expression(d, p);
  }

  lemma ItemShown(o: Output, i: int)
    requires Numbered(o) && Alternating(o, false) && 0 <= i < |o.fills|
    ensures 2 * i < |o.lists| && |Shown(o)| == |o.fills|
    ensures var place := Shown(o)[i];
            o.fills[i] == Fill(place.access, i + 1, place.leaf) && o.lists[2 * i] == Item(place.usage, i + 1)
  {
  }

  /** And nothing else does: statement i is that of a scalar. */
  lemma OnlyScalarsFilled(d: Decl, i: nat) returns (p: Path)
    requires WellFormed(d) && i < |Flattened(d).fills|
    ensures Leads(d, p) && Before(d, p) == i
  {
    FlattenedShows(d);
    p := PathAt(d, i);
  }

  // ----- failure

  /** The type of every leaf can be read: a string, or one that atotype_func knows. */
  predicate Convertible(d: Decl)
    decreases d
  {
    match d
    case Leaf(_, _, isString, _, convertible) => isString || convertible
    case Struct(_, _, members) => forall k :: 0 <= k < |members| ==> Convertible(members[k])
  }

  /** The flattening of a declaration fails exactly if it has a leaf whose type cannot be read. */
  lemma {:induction false} FailsExactly(prefix: string, d: Decl)
    requires WellFormed(d)
    ensures AllReadable(Terminals(prefix, d)) <==> Convertible(d)
    decreases d, 1, 0
  {
    if d.Leaf? {
      assert Terminals(prefix, d)[0] == Terminal(prefix, d);
    } else {
      ProductPositive(d.dims);
      ElementsFail(prefix, d, Elements(d));
    }
  }

  lemma {:induction false} ElementsFail(prefix: string, d: Decl, n: nat)
    requires WellFormed(d) && d.Struct? && n > 0
    ensures AllReadable(ElementTerminals(prefix, d, n)) <==> Convertible(d)
    decreases d, 0, n
  {
    var ts := ElementTerminals(prefix, d, n - 1);
    var us := MemberTerminals(ElementPrefix(prefix, d, n - 1), d.members, |d.members|);
    MembersFail(ElementPrefix(prefix, d, n - 1), d.members, |d.members|);
    ReadableAppend(ts, us);
    if n > 1 {
      ElementsFail(prefix, d, n - 1);
    }
  }

  lemma {:induction false} MembersFail(here: string, ds: seq<Decl>, n: nat)
    requires AllWellFormed(ds) && n <= |ds|
    ensures AllReadable(MemberTerminals(here, ds, n)) <==> forall k :: 0 <= k < n ==> Convertible(ds[k])
    decreases ds, 0, n
  {
    if n > 0 {
      MembersFail(here, ds, n - 1);
      FailsExactly(here, ds[n-1]);
      ReadableAppend(MemberTerminals(here, ds, n - 1), Terminals(here, ds[n-1]));
    }
  }
}
