/** Declared names and their types, as the generators walk them, and the textual indexes of
    array elements (getIndexesStr in lib/printScanUtil.c). */
module Declarations {

  /** DCL_NOM_STR with its type. A Leaf is a name whose type has no members to descend into:
      a scalar, an enumeration, or a string (whose last dimension is its length).
      `convertible` says whether atotype_func knows its type. */
  datatype Decl =
    | Leaf(name: string, dims: seq<int>, isString: bool, isEnum: bool, convertible: bool)
    | Struct(name: string, dims: seq<int>, members: seq<Decl>)

  function Product(dims: seq<int>): int {
    if dims == [] then 1 else dims[0] * Product(dims[1..])
  }

  /** The dimensions whose elements are walked: a string's last one is not. */
  function Shape(d: Decl): seq<int> {
    if d.Leaf? && d.isString && d.dims != [] then d.dims[..|d.dims|-1] else d.dims
  }

  /** The product as the source computes it, in a loop. */
  method CountElements(dims: seq<int>) returns (n: int)
    ensures n == Product(dims)
  {
    n := 1;
    var i := 0;
    while i < |dims|
      invariant i <= |dims| && n * Product(dims[i..]) == Product(dims)
    {
      assert dims[i..][0] == dims[i] && dims[i..][1..] == dims[i+1..];
      ProductStep(n, dims[i], Product(dims[i+1..]));
      n := n * dims[i];
      i := i + 1;
    }
    assert dims[i..] == [];
  }

  lemma ProductStep(a: int, b: int, c: int)
    ensures (a * b) * c == a * (b * c)
  {
  }

  /** The elements of an array are those of its rows, row by row. */
  lemma {:induction false} ProductAppend(dims: seq<int>, more: seq<int>)
    ensures Product(dims + more) == Product(dims) * Product(more)
    ensures forall n :: Product([n]) == n
  {
    forall n ensures Product([n]) == n {
      assert [n][1..] == [];
    }
    if dims == [] {
      assert dims + more == more;
    } else {
      ProductAppend(dims[1..], more);
      assert (dims + more)[1..] == dims[1..] + more;
      ProductStep(dims[0], Product(dims[1..]), Product(more));
    }
  }

  // ----- indexes

  function Digit(d: nat): char
    requires d < 10
  {
    "0123456789"[d]
  }

  function Decimal(n: nat): string {
    if n < 10 then [Digit(n)] else Decimal(n / 10) + [Digit(n % 10)]
  }

  function Bracketed(n: nat): string {
    "[" + Decimal(n) + "]"
  }

  function Render(v: seq<nat>): string {
    if v == [] then "" else Bracketed(v[0]) + Render(v[1..])
  }

  /** The index of element elt in dimension k: what is left of elt by the dimensions before it, divided by
      the size of what is behind it. */
  function IndexAt(dims: seq<int>, elt: nat, k: nat): nat
    requires (forall j :: 0 <= j < |dims| ==> dims[j] > 0) && k < |dims|
  {
    ProductPositive(dims[1..]);
    var remain := Product(dims[1..]);
    if |dims| == 1 then elt
    else if k == 0 then elt / remain
    else IndexAt(dims[1..], elt % remain, k - 1)
  }

  function IndexVector(dims: seq<int>, elt: nat): seq<nat>
    requires forall k :: 0 <= k < |dims| ==> dims[k] > 0
  {
    seq(|dims|, k requires 0 <= k < |dims| => IndexAt(dims, elt, k))
  }

  lemma VectorStep(dims: seq<int>, elt: nat)
    requires forall k :: 0 <= k < |dims| ==> dims[k] > 0
    requires |dims| > 1
    ensures Product(dims[1..]) > 0
    ensures IndexVector(dims, elt)
              == [elt / Product(dims[1..])] + IndexVector(dims[1..], elt % Product(dims[1..]))
  {
    ProductPositive(dims[1..]);
  }

  /** "[i][j]...", or nothing without dimensions: the text for element elt of an array. */
  function Indexes(dims: seq<int>, elt: nat): string
    requires forall k :: 0 <= k < |dims| ==> dims[k] > 0
  {
    Render(IndexVector(dims, elt))
  }

  lemma {:induction false} ProductPositive(dims: seq<int>)
    requires forall k :: 0 <= k < |dims| ==> dims[k] > 0
    ensures Product(dims) > 0
  {
    if dims != [] {
      ProductPositive(dims[1..]);
    }
  }

  predicate IsDigit(c: char) {
    '0' <= c <= '9'
  }

  predicate AllDigits(s: string) {
    forall k :: 0 <= k < |s| ==> IsDigit(s[k])
  }

  lemma {:induction false} DecimalIsDigits(n: nat)
    ensures AllDigits(Decimal(n)) && Decimal(n) != []
  {
    if n >= 10 {
      DecimalIsDigits(n / 10);
    }
  }

  lemma {:induction false} DecimalInjective(m: nat, n: nat)
    requires Decimal(m) == Decimal(n)
    ensures m == n
  {
    var s, t := Decimal(m), Decimal(n);
    assert s[|s|-1] == Digit(m % 10) && t[|t|-1] == Digit(n % 10);
    DecimalIsDigits(m / 10);
    DecimalIsDigits(n / 10);
    if m >= 10 && n >= 10 {
      assert s[..|s|-1] == Decimal(m / 10) && t[..|t|-1] == Decimal(n / 10);
      DecimalInjective(m / 10, n / 10);
    }
  }

  /** The number that decimal digits stand for. */
  function Numeral(s: string): int {
    if s == "" then 0 else 10 * Numeral(s[..|s|-1]) + (s[|s|-1] as int - '0' as int)
  }

  lemma {:induction false} DecimalMeans(n: nat)
    ensures AllDigits(Decimal(n)) && Numeral(Decimal(n)) == n
    ensures Decimal(n)[0] == '0' ==> n == 0 && |Decimal(n)| == 1
  {
    var s := Decimal(n);
    if n < 10 {
      assert s[..0] == "";
    } else {
      DecimalMeans(n / 10);
      DecimalIsDigits(n / 10);
      assert s[..|s|-1] == Decimal(n / 10) && s[0] == Decimal(n / 10)[0];
    }
  }

  /** Digits up to the first bracket are determined by the text. */
  lemma BracketSplit(a: string, b: string, x: string, y: string)
    requires AllDigits(a) && AllDigits(b)
    requires "[" + a + "]" + x == "[" + b + "]" + y
    ensures a == b && x == y
  {
    var s, t := "[" + a + "]" + x, "[" + b + "]" + y;
    assert s[1 + |a|] == ']' && forall k :: 0 <= k < 1 + |a| ==> s[k] != ']';
    assert t[1 + |b|] == ']' && forall k :: 0 <= k < 1 + |b| ==> t[k] != ']';
    assert |a| == |b|;
    assert a == s[1..1+|a|] && b == t[1..1+|b|];
    assert x == s[2+|a|..] && y == t[2+|b|..];
  }

  lemma QuotientAndRemainder(i: nat, j: nat, r: int)
    requires r > 0 && i / r == j / r && i % r == j % r
    ensures i == j
  {
    assert i == r * (i / r) + i % r;
    assert j == r * (j / r) + j % r;
  }

  lemma SplitDecimals(m: nat, n: nat, x: string, y: string)
    requires Bracketed(m) + x == Bracketed(n) + y
    ensures m == n && x == y
  {
    DecimalIsDigits(m);
    DecimalIsDigits(n);
    BracketSplit(Decimal(m), Decimal(n), x, y);
    DecimalInjective(m, n);
  }

  lemma {:induction false} RenderInjective(v: seq<nat>, w: seq<nat>)
    requires |v| == |w| && Render(v) == Render(w)
    ensures v == w
  {
    if v != [] {
      SplitDecimals(v[0], w[0], Render(v[1..]), Render(w[1..]));
      RenderInjective(v[1..], w[1..]);
      assert v == [v[0]] + v[1..] && w == [w[0]] + w[1..];
    }
  }

  lemma {:induction false} VectorInjective(dims: seq<int>, i: nat, j: nat)
    requires forall k :: 0 <= k < |dims| ==> dims[k] > 0
    requires i < Product(dims) && j < Product(dims)
    ensures |IndexVector(dims, i)| == |dims|
    ensures IndexVector(dims, i) == IndexVector(dims, j) ==> i == j
  {
    if |dims| > 1 {
      ProductPositive(dims[1..]);
      var remain := Product(dims[1..]);
      VectorInjective(dims[1..], i % remain, j % remain);
      var v, w := IndexVector(dims, i), IndexVector(dims, j);
      VectorStep(dims, i);
      VectorStep(dims, j);
      assert v[0] == i / remain && w[0] == j / remain;
      assert v[1..] == IndexVector(dims[1..], i % remain) && w[1..] == IndexVector(dims[1..], j % remain);
      if v == w {
        QuotientAndRemainder(i, j, remain);
      }
    } else if |dims| == 1 {
      assert IndexVector(dims, i)[0] == i && IndexVector(dims, j)[0] == j;
    }
  }

  /** One index per dimension, each below its dimension. */
  predicate InRange(dims: seq<int>, v: seq<nat>) {
    |v| == |dims| && forall k :: 0 <= k < |v| ==> v[k] < dims[k]
  }

  /** Where the element of these indexes lies in the array, row by row. */
  function Position(dims: seq<int>, v: seq<nat>): int
    requires |v| == |dims|
  {
    if v == [] then 0 else v[0] * Product(dims[1..]) + Position(dims[1..], v[1..])
  }

  /** The indexes of element elt are within the dimensions, and its position is elt. */
  lemma {:induction false} VectorPosition(dims: seq<int>, elt: nat)
    requires forall k :: 0 <= k < |dims| ==> dims[k] > 0
    requires elt < Product(dims)
    ensures InRange(dims, IndexVector(dims, elt)) && Position(dims, IndexVector(dims, elt)) == elt
  {
    if |dims| == 1 {
      assert dims[1..] == [];
    } else if |dims| > 1 {
      ProductPositive(dims[1..]);
      var remain := Product(dims[1..]);
      var v := IndexVector(dims, elt);
      VectorStep(dims, elt);
      VectorPosition(dims[1..], elt % remain);
      assert v[1..] == IndexVector(dims[1..], elt % remain);
      Divided(elt, remain);
      QuotientBelow(elt, dims[0], remain);
    }
  }

  lemma Divided(e: nat, r: nat)
    requires r > 0
    ensures (e / r) * r + e % r == e
  {
  }

  lemma QuotientBelow(e: nat, m: int, r: int)
    requires r > 0 && e < m * r
    ensures e / r < m
  {
  }

  lemma AtLeast(r: nat, a: int, b: int)
    requires a >= b
    ensures r * a >= b * r
  {
  }

  /** Conversely, indexes within the dimensions have a position in the array, and are those of the element
      there. */
  lemma {:induction false} PositionVector(dims: seq<int>, v: seq<nat>)
    requires (forall k :: 0 <= k < |dims| ==> dims[k] > 0) && InRange(dims, v)
    ensures 0 <= Position(dims, v) < Product(dims) && IndexVector(dims, Position(dims, v)) == v
  {
    if |dims| == 1 {
      assert dims[1..] == [] && v == [v[0]];
    } else if |dims| > 1 {
      PositionVector(dims[1..], v[1..]);
      var remain, rest := Product(dims[1..]), Position(dims[1..], v[1..]);
      DivideBack(v[0], rest, remain);
      VectorStep(dims, v[0] * remain + rest);
      RowsWithin(v[0], dims[0], remain);
      assert v == [v[0]] + v[1..];
    }
  }

  lemma DivideBack(q: nat, j: nat, r: nat)
    requires j < r
    ensures q * r + j >= 0 && (q * r + j) / r == q && (q * r + j) % r == j
  {
    var n := q * r + j;
    assert n == r * (n / r) + n % r;
    if n / r < q {
      Gap(r, n / r, q);
      assert false;
    }
    if n / r > q {
      Gap(r, q, n / r);
      assert false;
    }
  }

  lemma Gap(r: nat, a: int, b: int)
    requires a < b
    ensures r * a + r <= r * b
  {
    AtLeast(r, b, a + 1);
  }

  lemma RowsWithin(q: nat, m: int, r: nat)
    requires q < m
    ensures q * r + r <= m * r
  {
    AtLeast(r, m, q + 1);
  }

  /** Different elements of an array have different index texts. */
  lemma IndexesInjective(dims: seq<int>, i: nat, j: nat)
    requires forall k :: 0 <= k < |dims| ==> dims[k] > 0
    requires i < Product(dims) && j < Product(dims)
    requires Indexes(dims, i) == Indexes(dims, j)
    ensures i == j
  {
    VectorInjective(dims, i, j);
    VectorInjective(dims, j, i);
    RenderInjective(IndexVector(dims, i), IndexVector(dims, j));
  }

  /** s spells the indexes v: for each of them its digits in brackets, and nothing else. */
  ghost predicate Spells(s: string, v: seq<nat>) {
    if v == [] then s == ""
    else exists k :: 1 < k < |s| && s[0] == '[' && s[k] == ']' && SpellsOne(s[1..k], v[0]) && Spells(s[k+1..], v[1..])
  }

  predicate SpellsOne(digits: string, n: nat) {
    AllDigits(digits) && Numeral(digits) == n && digits != "" && (digits[0] == '0' ==> |digits| == 1)
  }

  lemma {:induction false} RenderSpells(v: seq<nat>)
    ensures Spells(Render(v), v)
  {
    if v != [] {
      RenderSpells(v[1..]);
      DecimalMeans(v[0]);
      DecimalIsDigits(v[0]);
      var s, digits, rest := Render(v), Decimal(v[0]), Render(v[1..]);
      var k := 1 + |digits|;
      assert s == "[" + digits + "]" + rest;
      assert s[1..k] == digits && s[k+1..] == rest && s[k] == ']';
    }
  }

  predicate NoDot(s: string) {
    '.' !in s
  }

  lemma {:induction false} RenderNoDot(v: seq<nat>)
    ensures NoDot(Render(v))
    ensures v != [] ==> Render(v) != "" && Render(v)[0] == '['
  {
    if v != [] {
      RenderNoDot(v[1..]);
      DecimalIsDigits(v[0]);
    }
  }

  lemma IndexesNoDot(dims: seq<int>, elt: nat)
    requires forall k :: 0 <= k < |dims| ==> dims[k] > 0
    ensures NoDot(Indexes(dims, elt))
    ensures dims != [] ==> Indexes(dims, elt) != "" && Indexes(dims, elt)[0] == '['
    ensures dims == [] ==> Indexes(dims, elt) == ""
  {
    RenderNoDot(IndexVector(dims, elt));
  }

  /** What C demands of a declaration: identifiers hold neither '.' nor '[', array dimensions
      are positive, a string has a length, members of one structure have different names. */
  ghost predicate WellFormed(d: Decl) {
    && NoDot(d.name) && '[' !in d.name
    && (forall k :: 0 <= k < |d.dims| ==> d.dims[k] > 0)
    && (if d.Struct? then AllWellFormed(d.members) else d.isString ==> d.dims != [])
  }

  ghost predicate AllWellFormed(ds: seq<Decl>) {
    && (forall i :: 0 <= i < |ds| ==> WellFormed(ds[i]))
    && forall i, j :: 0 <= i < j < |ds| ==> OtherName(ds[i], ds[j])
  }

  predicate OtherName(a: Decl, b: Decl) {
    a.name != b.name
  }

  /** How often the loop over the elements of a declaration runs. */
  function Elements(d: Decl): nat
    requires forall k :: 0 <= k < |d.dims| ==> d.dims[k] > 0
  {
    ProductPositive(Shape(d));
    Product(Shape(d))
  }
}
