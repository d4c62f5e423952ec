/** Enumerations: the parser's actions (src/parser.y), their emission as C (src/typeGen.c) and as
    Python tuples (src/pythonInterfaceGen.c). */
module Enums {
  import opened Wrappers

  /** An enumerator as written: a name, perhaps with a constant. */
  datatype Written = Written(name: string, constant: Option<int>)

  /** A parsed member (DCL_NOM_STR): its value and whether the value counts (ENUM_VALUE). */
  datatype Member = Member(name: string, pointeur: int, hasValue: bool)

  // ----- the meaning of a C enumeration (ISO/IEC 9899, section 6.7.2.2)

  /** The value of enumerator i: its constant, else 0 for the first and one more than the previous one. */
  function CValue(ws: seq<Written>, i: nat): int
    requires i < |ws|
  {
    if ws[i].constant.Some? then ws[i].constant.value
    else if i == 0 then 0
    else CValue(ws, i - 1) + 1
  }

  /** Counting from the last constant before it, or from 0 at the first enumerator if there is none. */
  lemma {:induction false} CValueCounts(ws: seq<Written>, i: nat, j: nat)
    requires j <= i < |ws| && forall k :: j < k <= i ==> ws[k].constant == None
    ensures ws[j].constant.Some? ==> CValue(ws, i) == ws[j].constant.value + (i - j)
    ensures j == 0 && ws[0].constant == None ==> CValue(ws, i) == i
  {
    if j < i {
      CValueCounts(ws, i - 1, j);
    }
  }

  ghost predicate DistinctNames(ws: seq<Written>) {
    forall i, j :: 0 <= i < j < |ws| ==> ws[i].name != ws[j].name
  }

  /** The names a C enumeration declares, with their values. */
  function CMeaning(ws: seq<Written>): map<string, int> {
    CMeaningOf(ws, |ws|)
  }

  function CMeaningOf(ws: seq<Written>, n: nat): map<string, int>
    requires n <= |ws|
  {
    if n == 0 then map[] else CMeaningOf(ws, n - 1)[ws[n-1].name := CValue(ws, n - 1)]
  }

  lemma {:induction false} CMeaningAt(ws: seq<Written>, n: nat)
    requires n <= |ws| && DistinctNames(ws)
    ensures forall x :: x in CMeaningOf(ws, n) <==> exists i :: 0 <= i < n && ws[i].name == x
    ensures forall i :: 0 <= i < n ==> CMeaningOf(ws, n)[ws[i].name] == CValue(ws, i)
  {
    if n > 0 {
      CMeaningAt(ws, n - 1);
    }
  }

  /** us is ws in the opposite order, each name with the same value. */
  ghost predicate Opposite(ws: seq<Written>, us: seq<Written>) {
    && |us| == |ws|
    && forall i :: 0 <= i < |ws| ==>
         us[|ws| - 1 - i].name == ws[i].name && CValue(us, |ws| - 1 - i) == CValue(ws, i)
  }

  lemma OppositeBack(ws: seq<Written>, us: seq<Written>, i: nat)
    requires Opposite(ws, us) && i < |ws|
    ensures us[i].name == ws[|ws| - 1 - i].name && CValue(us, i) == CValue(ws, |ws| - 1 - i)
  {
    assert |ws| - 1 - (|ws| - 1 - i) == i;
  }

  lemma OppositeDistinct(ws: seq<Written>, us: seq<Written>)
    requires DistinctNames(ws) && Opposite(ws, us)
    ensures DistinctNames(us)
  {
    forall i, j | 0 <= i < j < |us| ensures us[i].name != us[j].name {
      OppositeBack(ws, us, i);
      OppositeBack(ws, us, j);
    }
  }

  /** Order does not matter: an enumeration and its opposite mean the same. */
  lemma SameMeaning(ws: seq<Written>, us: seq<Written>)
    requires DistinctNames(ws) && Opposite(ws, us)
    ensures CMeaning(us) == CMeaning(ws)
  {
    var n := |ws|;
    OppositeDistinct(ws, us);
    CMeaningAt(ws, n);
    CMeaningAt(us, n);
    forall x | x in CMeaning(us) ensures x in CMeaning(ws) {
      var i :| 0 <= i < n && us[i].name == x;
      OppositeBack(ws, us, i);
    }
    forall x | x in CMeaning(ws) ensures x in CMeaning(us) && CMeaning(us)[x] == CMeaning(ws)[x] {
      var i :| 0 <= i < n && ws[i].name == x;
      assert us[n - 1 - i].name == x;
    }
  }

  /** What two parallel Python tuples assign, left to right. */
  function PythonMeaning(names: seq<string>, values: seq<int>): map<string, int>
    requires |names| == |values|
  {
    if names == [] then map[]
    else
      var n := |names| - 1;
      PythonMeaning(names[..n], values[..n])[names[n] := values[n]]
  }

  /** The members, last one first, all with the value C gives them. */
  ghost predicate Reversed(ws: seq<Written>, ms: seq<Member>, n: nat)
    requires n <= |ws|
  {
    && |ms| == n
    && forall i :: 0 <= i < n ==> ms[n - 1 - i] == Member(ws[i].name, CValue(ws, i), true)
  }

  // ----- the parser's actions, with the global enumValue

  class Parser {
    var enumValue: int

    /** elt_enum */
    static method Element(w: Written) returns (m: Member)
      ensures m == Member(w.name, if w.constant.Some? then w.constant.value else 0, w.constant.Some?)
    {
      match w.constant {
        case None => m := Member(w.name, 0, false);
        case Some(value) => m := Member(w.name, value, true);
      }
    }

    /** liste_elt_enum, its first element */
    method First(m: Member) returns (l: seq<Member>)
      modifies this
      ensures l == [Member(m.name, if m.hasValue then m.pointeur else 0, true)]
      ensures enumValue == l[0].pointeur + 1
    {
      var m' := m;
      if !m'.hasValue {
        m' := m'.(pointeur := 0, hasValue := true);
      }
      enumValue := m'.pointeur + 1;
      l := [m'];
    }

    /** liste_elt_enum, a further element: inserted at the head */
    method Further(l: seq<Member>, m: Member) returns (l': seq<Member>)
      modifies this
      ensures l' == [Member(m.name, if m.hasValue then m.pointeur else old(enumValue), true)] + l
      ensures enumValue == l'[0].pointeur + 1
    {
      var m' := m;
      if !m'.hasValue {
        m' := m'.(pointeur := enumValue, hasValue := true);
      }
      enumValue := m'.pointeur + 1;
      l' := [m'] + l;
    }

    /** A whole enumerator list, whatever enumValue an earlier one has left behind. */
    method Enumeration(ws: seq<Written>) returns (members: seq<Member>)
      requires ws != []
      modifies this
      ensures Reversed(ws, members, |ws|)
    {
      var m := Element(ws[0]);
      members := First(m);
      var i := 1;
      while i < |ws|
        invariant 1 <= i <= |ws|
        invariant Reversed(ws, members, i) && enumValue == CValue(ws, i - 1) + 1
      {
        ghost var before := members;
        m := Element(ws[i]);
        members := Further(members, m);
        forall k | 0 <= k < i + 1 ensures members[i + 1 - 1 - k] == Member(ws[k].name, CValue(ws, k), true) {
          if k < i {
            assert members[i - k] == before[i - 1 - k];
          }
        }
        i := i + 1;
      }
    }
  }

  // ----- the generators

  /** The C enumeration typeGen writes. */
  method EmitC(members: seq<Member>) returns (ws: seq<Written>)
    ensures |ws| == |members|
    ensures forall i :: 0 <= i < |ws| ==>
              ws[i] == Written(members[i].name, if members[i].hasValue then Some(members[i].pointeur) else None)
  {
    ws := [];
    var i := 0;
    while i < |members|
      invariant i <= |members| && |ws| == i
      invariant forall k :: 0 <= k < i ==>
                  ws[k] == Written(members[k].name, if members[k].hasValue then Some(members[k].pointeur) else None)
    {
      if members[i].hasValue {
        ws := ws + [Written(members[i].name, Some(members[i].pointeur))];
      } else {
        ws := ws + [Written(members[i].name, None)];
      }
      i := i + 1;
    }
  }

  /** The tuples pythonInterfaceGen writes. */
  method EmitPython(members: seq<Member>) returns (names: seq<string>, values: seq<int>)
    ensures |names| == |values| == |members|
    ensures forall i :: 0 <= i < |members| ==> names[i] == members[i].name && values[i] == members[i].pointeur
  {
    names, values := [], [];
    for i := 0 to |members|
      invariant |names| == i && forall k :: 0 <= k < i ==> names[k] == members[k].name
    {
      names := names + [members[i].name];
    }
    for i := 0 to |members|
      invariant |values| == i && forall k :: 0 <= k < i ==> values[k] == members[k].pointeur
    {
      values := values + [members[i].pointeur];
    }
  }

  // ----- preservation

  /** The emitted C enumeration declares what the source enumeration declares. */
  lemma CPreserved(ws: seq<Written>, members: seq<Member>, us: seq<Written>)
    requires DistinctNames(ws) && Reversed(ws, members, |ws|)
    requires |us| == |members|
    requires forall i :: 0 <= i < |us| ==>
               us[i] == Written(members[i].name, if members[i].hasValue then Some(members[i].pointeur) else None)
    ensures CMeaning(us) == CMeaning(ws)
  {
    forall i | 0 <= i < |ws|
      ensures us[|ws| - 1 - i].name == ws[i].name && CValue(us, |ws| - 1 - i) == CValue(ws, i)
    {
      assert members[|ws| - 1 - i] == Member(ws[i].name, CValue(ws, i), true);
    }
    SameMeaning(ws, us);
  }

  /** The tuples assign what a C enumeration with these constants declares. */
  lemma {:induction false} TuplesMean(us: seq<Written>, names: seq<string>, values: seq<int>, n: nat)
    requires |names| == |values| == |us| && n <= |us|
    requires forall i :: 0 <= i < |us| ==> us[i] == Written(names[i], Some(values[i]))
    ensures PythonMeaning(names[..n], values[..n]) == CMeaningOf(us, n)
  {
    if n > 0 {
      assert names[..n][..n-1] == names[..n-1] && values[..n][..n-1] == values[..n-1];
      TuplesMean(us, names, values, n - 1);
    }
  }

  /** The whole way: both outputs mean what the source means. */
  method Translate(p: Parser, ws: seq<Written>) returns (c: seq<Written>, names: seq<string>, values: seq<int>)
    requires ws != [] && DistinctNames(ws)
    modifies p
    ensures CMeaning(c) == CMeaning(ws)
    ensures |names| == |values| && PythonMeaning(names, values) == CMeaning(ws)
  {
    var members := p.Enumeration(ws);
    c := EmitC(members);
    CPreserved(ws, members, c);
    names, values := EmitPython(members);
    forall i | 0 <= i < |c| ensures c[i] == Written(names[i], Some(values[i])) {
      assert members[|ws| - 1 - (|ws| - 1 - i)] == Member(ws[|ws| - 1 - i].name, CValue(ws, |ws| - 1 - i), true);
    }
    TuplesMean(c, names, values, |c|);
    assert names[..|c|] == names && values[..|c|] == values;
  }
}
