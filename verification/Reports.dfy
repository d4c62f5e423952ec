/** Report codes: their collection and numbering (src/errorGen.c) and the tables that a tclserv
    client decodes them with (canvas/server/tclservClient/error.c). */
module Reports {
  import opened Wrappers

  /** A request, as far as its reports go: CONTROL or not, and its fail reports. */
  datatype Reporting = Reporting(isControl: bool, failReports: seq<string>)

  // ----- the two lists

  ghost predicate NoDuplicates<T>(s: seq<T>) {
    forall i, j :: 0 <= i < j < |s| ==> s[i] != s[j]
  }

  /** Is x a report of an execution task? */
  ghost predicate OfTask(tasks: seq<seq<string>>, x: string) {
    exists t :: 0 <= t < |tasks| && x in tasks[t]
  }

  /** The first of the first n requests that reports x. */
  function FirstReporting(requests: seq<Reporting>, n: nat, x: string): (r: Option<nat>)
    requires n <= |requests|
    ensures r.Some? ==> r.value < n && x in requests[r.value].failReports
    ensures r.None? ==> forall i :: 0 <= i < n ==> x !in requests[i].failReports
    ensures r.Some? ==> forall i :: 0 <= i < r.value ==> x !in requests[i].failReports
  {
    if n == 0 then None
    else
      var before := FirstReporting(requests, n - 1, x);
      if before.Some? then before
      else if x in requests[n-1].failReports then Some(n - 1) else None
  }

  /** A control report: no execution task has it, and the first request that has it is a control request. */
  ghost predicate IsControlReport(tasks: seq<seq<string>>, requests: seq<Reporting>, n: nat, x: string)
    requires n <= |requests|
  {
    var first := FirstReporting(requests, n, x);
    !OfTask(tasks, x) && first.Some? && requests[first.value].isControl
  }

  /** An execution report: a task has it, or the first request that has it is not a control request. */
  ghost predicate IsExecReport(tasks: seq<seq<string>>, requests: seq<Reporting>, n: nat, x: string)
    requires n <= |requests|
  {
    var first := FirstReporting(requests, n, x);
    OfTask(tasks, x) || (first.Some? && !requests[first.value].isControl)
  }

  /** id_member */
  method IdMember(name: string, l: seq<string>) returns (found: bool)
    ensures found <==> name in l
  {
    var i := 0;
    while i < |l|
      invariant i <= |l| && name !in l[..i]
    {
      if l[i] == name {
        return true;
      }
      i := i + 1;
    }
    assert l[..i] == l;
    found := false;
  }

  /** One task's reports, inserted at the head unless already there. */
  method AddTaskReports(reports: seq<string>, exec: seq<string>) returns (exec': seq<string>)
    requires NoDuplicates(exec)
    ensures NoDuplicates(exec')
    ensures forall x :: x in exec' <==> x in exec || x in reports
  {
    exec' := exec;
    var i := 0;
    while i < |reports|
      invariant i <= |reports| && NoDuplicates(exec')
      invariant forall x :: x in exec' <==> x in exec || x in reports[..i]
    {
      var found := IdMember(reports[i], exec');
      if !found {
        exec' := [reports[i]] + exec';
      }
      i := i + 1;
    }
    assert reports[..i] == reports;
  }

  /** One request's reports. */
  method AddRequestReports(r: Reporting, cntrl: seq<string>, exec: seq<string>)
    returns (cntrl': seq<string>, exec': seq<string>)
    requires NoDuplicates(cntrl) && NoDuplicates(exec)
    ensures NoDuplicates(cntrl') && NoDuplicates(exec')
    ensures forall x :: x in cntrl' <==> x in cntrl || (r.isControl && x in r.failReports && x !in exec)
    ensures forall x :: x in exec' <==> x in exec || (!r.isControl && x in r.failReports && x !in cntrl)
  {
    cntrl', exec' := cntrl, exec;
    var reports := r.failReports;
    var i := 0;
    while i < |reports|
      invariant i <= |reports| && NoDuplicates(cntrl') && NoDuplicates(exec')
      invariant r.isControl ==> exec' == exec
      invariant !r.isControl ==> cntrl' == cntrl
      invariant forall x :: x in cntrl' <==> x in cntrl || (r.isControl && x in reports[..i] && x !in exec)
      invariant forall x :: x in exec' <==> x in exec || (!r.isControl && x in reports[..i] && x !in cntrl)
    {
      var inCntrl := IdMember(reports[i], cntrl');
      var inExec := IdMember(reports[i], exec');
      if !inCntrl && !inExec {
        if r.isControl {
          cntrl' := [reports[i]] + cntrl';
        } else {
          exec' := [reports[i]] + exec';
        }
      }
      i := i + 1;
    }
    assert reports[..i] == reports;
  }

  /** Both lists: free of duplicates, and together exactly the declared reports, each on the side
      that the task lists and the first request reporting it decide. */
  method Collect(tasks: seq<seq<string>>, requests: seq<Reporting>) returns (cntrl: seq<string>, exec: seq<string>)
    ensures NoDuplicates(cntrl) && NoDuplicates(exec)
    ensures forall x :: x in cntrl <==> IsControlReport(tasks, requests, |requests|, x)
    ensures forall x :: x in exec <==> IsExecReport(tasks, requests, |requests|, x)
  {
    cntrl, exec := [], [];
    var t := 0;
    while t < |tasks|
      invariant t <= |tasks| && NoDuplicates(exec)
      invariant forall x :: x in exec <==> OfTask(tasks[..t], x)
    {
      exec := AddTaskReports(tasks[t], exec);
      forall x ensures OfTask(tasks[..t+1], x) <==> OfTask(tasks[..t], x) || x in tasks[t] {
        TaskStep(tasks, t, x);
      }
      t := t + 1;
    }
    assert tasks[..t] == tasks;
    var l := 0;
    while l < |requests|
      invariant l <= |requests| && NoDuplicates(cntrl) && NoDuplicates(exec)
      invariant forall x :: x in cntrl <==> IsControlReport(tasks, requests, l, x)
      invariant forall x :: x in exec <==> IsExecReport(tasks, requests, l, x)
    {
      cntrl, exec := AddRequestReports(requests[l], cntrl, exec);
      l := l + 1;
    }
  }

  lemma TaskStep(tasks: seq<seq<string>>, t: nat, x: string)
    requires t < |tasks|
    ensures OfTask(tasks[..t+1], x) <==> OfTask(tasks[..t], x) || x in tasks[t]
  {
    if OfTask(tasks[..t], x) {
      var k :| 0 <= k < t && x in tasks[..t][k];
      assert x in tasks[..t+1][k];
    }
    if x in tasks[t] {
      assert x in tasks[..t+1][t];
    }
  }

  /** The sides are disjoint and cover every declared report. */
  lemma SidesPartition(tasks: seq<seq<string>>, requests: seq<Reporting>, x: string)
    ensures !(IsControlReport(tasks, requests, |requests|, x) && IsExecReport(tasks, requests, |requests|, x))
    ensures IsControlReport(tasks, requests, |requests|, x) || IsExecReport(tasks, requests, |requests|, x) <==>
              OfTask(tasks, x) || exists i :: 0 <= i < |requests| && x in requests[i].failReports
  {
    var first := FirstReporting(requests, |requests|, x);
    if first.Some? {
      assert x in requests[first.value].failReports;
    }
  }

  // ----- codes

  const MAX_MODULE := 0x7fff
  const STD_SOURCE := 100
  const STD: seq<string> := [
    "ACTIVITY_INTERRUPTED", "TOO_MANY_ACTIVITIES", "ACTIVITY_FAILED", "WAIT_ABORT_ZOMBIE_ACTIVITY",
    "UNKNOWN_ACTIVITY", "FORBIDDEN_ACTIVITY_TRANSITION", "SYSTEM_ERROR", "ACTIVITY_ALREADY_ENDED",
    "WAIT_INIT_RQST", "CONTROL_CODEL_ERROR", "EXEC_TASK_SUSPENDED", "BAD_BLOCK_TYPE", "BAD_POSTER_TYPE"]

  /** The parser accepts a module number iff it has no bit outside 0x7fff. */
  predicate AcceptedNumber(m: int) {
    0 <= m <= MAX_MODULE
  }

  /** module << 16 | number */
  function Code(m: int, n: int): int {
    0x1_0000 * m + n
  }

  /** 0x8000 | source << 8 | number, for the standard error at position k, numbered from 1 */
  function StdNumber(k: nat): int {
    0x8000 + 0x100 * STD_SOURCE + (k + 1)
  }

  /** The codes of a module with n reports: reports 1..n, then the standard errors. */
  function Codes(m: int, n: nat): seq<int> {
    seq(n, i => Code(m, i + 1)) + seq(|STD|, i requires 0 <= i => Code(m, StdNumber(i)))
  }

  /** The codes are pairwise distinct iff the reports' numbers stop short of the standard ones,
      as they do for fewer than 0x8000 reports. */
  lemma CodesDistinct(m: int, n: nat)
    ensures NoDuplicates(Codes(m, n)) <==> n < StdNumber(0)
  {
    var cs := Codes(m, n);
    if n >= StdNumber(0) {
      assert cs[StdNumber(0) - 1] == Code(m, StdNumber(0)) == cs[n];
    }
  }

  /** A code tells its module and its number: the upper half is the module, the lower half the position of
      the report, counted from 1; for a standard error its highest bit is set, the rest of its upper byte is
      100, and its lower byte is the position of the error. */
  lemma CodeTells(m: int, n: nat, i: nat)
    requires n < 0x8000 && i < |Codes(m, n)|
    ensures Codes(m, n)[i] / 0x1_0000 == m
    ensures i < n ==> Codes(m, n)[i] % 0x1_0000 == i + 1
    ensures i >= n ==>
              var number := Codes(m, n)[i] % 0x1_0000;
              number / 0x8000 == 1 && number % 0x8000 / 0x100 == 100 && number % 0x100 == i - n + 1
    ensures |Codes(m, n)| == n + 13
  {
  }

  /** With fewer than 0x8000 reports no two modules share a code, and no code is 0. */
  lemma CodesOfModules(m: int, n: nat, m': int, n': nat, i: nat, j: nat)
    requires AcceptedNumber(m) && AcceptedNumber(m') && n < 0x8000 && n' < 0x8000
    requires i < |Codes(m, n)| && j < |Codes(m', n')|
    ensures Codes(m, n)[i] == Codes(m', n')[j] ==> m == m'
    ensures 0 < Codes(m, n)[i] < 0x8000_0000
  {
  }

  // ----- the generated text

  /** What an enumerator of the client's header is defined as. */
  datatype Expr = Zero | Use(macro: string)

  /** #define lines of the module's header, enumerators of the client's header, rows of its table. */
  datatype Generated = Generated(
    defines: seq<(string, int)>, enumerators: seq<(string, Expr)>, rows: seq<(string, string)>)

  function Macro(name: string, x: string): string {
    "S_" + name + "_" + x
  }

  function Enumerator(name: string, x: string): string {
    "E_" + name + "_" + x
  }

  function Std(x: string): string {
    "stdGenoM_" + x
  }

  /** The names, reports then standard errors, as the enumerators and as the macros spell them. */
  function Suffix(reports: seq<string>, i: nat): string
    requires i < |reports| + |STD|
  {
    if i < |reports| then reports[i] else STD[i - |reports|]
  }

  function MacroSuffix(reports: seq<string>, i: nat): string
    requires i < |reports| + |STD|
  {
    if i < |reports| then reports[i] else Std(STD[i - |reports|])
  }

  function DefineAt(name: string, m: int, reports: seq<string>, i: nat): (string, int)
    requires i < |reports| + |STD|
  {
    (Macro(name, MacroSuffix(reports, i)), Codes(m, |reports|)[i])
  }

  function EnumeratorAt(name: string, reports: seq<string>, i: nat): (string, Expr)
    requires i <= |reports| + |STD|
  {
    if i == 0 then (Enumerator(name, "OK"), Zero)
    else (Enumerator(name, Suffix(reports, i - 1)), Use(Macro(name, MacroSuffix(reports, i - 1))))
  }

  function RowAt(name: string, reports: seq<string>, i: nat): (string, string)
    requires i <= |reports| + |STD|
  {
    if i == 0 then ("OK", Enumerator(name, "OK"))
    else (Macro(name, MacroSuffix(reports, i - 1)), Enumerator(name, Suffix(reports, i - 1)))
  }

  ghost predicate IsDefines(d: seq<(string, int)>, name: string, m: int, reports: seq<string>) {
    && |d| <= |reports| + |STD|
    && forall i :: 0 <= i < |d| ==> d[i] == DefineAt(name, m, reports, i)
  }

  ghost predicate IsEnumerators(e: seq<(string, Expr)>, name: string, reports: seq<string>) {
    && |e| <= |reports| + |STD| + 1
    && forall i :: 0 <= i < |e| ==> e[i] == EnumeratorAt(name, reports, i)
  }

  ghost predicate IsRows(r: seq<(string, string)>, name: string, reports: seq<string>) {
    && |r| <= |reports| + |STD| + 1
    && forall i :: 0 <= i < |r| ==> r[i] == RowAt(name, reports, i)
  }

  /** The text for a module with the given reports (control ones first). */
  ghost predicate IsGenerated(g: Generated, name: string, m: int, reports: seq<string>) {
    && IsDefines(g.defines, name, m, reports) && |g.defines| == |reports| + |STD|
    && IsEnumerators(g.enumerators, name, reports) && |g.enumerators| == |reports| + |STD| + 1
    && IsRows(g.rows, name, reports) && |g.rows| == |reports| + |STD| + 1
  }

  /** The numbering of errorGen. */
  method GenDefines(name: string, m: int, cntrl: seq<string>, exec: seq<string>) returns (d: seq<(string, int)>)
    ensures IsDefines(d, name, m, cntrl + exec) && |d| == |cntrl| + |exec| + |STD|
  {
    ghost var reports := cntrl + exec;
    d := [];
    var n := 1;
    for i := 0 to |cntrl|
      invariant n == i + 1 && |d| == i && IsDefines(d, name, m, reports)
    {
      d := AddDefine(d, name, m, cntrl[i], Code(m, n), reports);
      n := n + 1;
    }
    for i := 0 to |exec|
      invariant n == |cntrl| + i + 1 && |d| == |cntrl| + i && IsDefines(d, name, m, reports)
    {
      d := AddDefine(d, name, m, exec[i], Code(m, n), reports);
      n := n + 1;
    }
    for i := 0 to |STD|
      invariant |d| == |cntrl| + |exec| + i && IsDefines(d, name, m, reports)
    {
      d := AddDefine(d, name, m, Std(STD[i]), Code(m, StdNumber(i)), reports);
    }
  }

  method AddDefine(d: seq<(string, int)>, name: string, m: int, macro: string, code: int, ghost reports: seq<string>)
    returns (d': seq<(string, int)>)
    requires IsDefines(d, name, m, reports) && |d| < |reports| + |STD|
    requires macro == MacroSuffix(reports, |d|) && code == Codes(m, |reports|)[|d|]
    ensures IsDefines(d', name, m, reports) && |d'| == |d| + 1
  {
    d' := d + [(Macro(name, macro), code)];
  }

  /** The enumerators of errorGenTclservClient. */
  method GenEnumerators(name: string, cntrl: seq<string>, exec: seq<string>) returns (e: seq<(string, Expr)>)
    ensures IsEnumerators(e, name, cntrl + exec) && |e| == |cntrl| + |exec| + |STD| + 1
  {
    ghost var reports := cntrl + exec;
    e := [(Enumerator(name, "OK"), Zero)];
    for i := 0 to |cntrl|
      invariant |e| == i + 1 && IsEnumerators(e, name, reports)
    {
      e := AddEnumerator(e, name, cntrl[i], cntrl[i], reports);
    }
    for i := 0 to |exec|
      invariant |e| == |cntrl| + i + 1 && IsEnumerators(e, name, reports)
    {
      e := AddEnumerator(e, name, exec[i], exec[i], reports);
    }
    for i := 0 to |STD|
      invariant |e| == |cntrl| + |exec| + i + 1 && IsEnumerators(e, name, reports)
    {
      e := AddEnumerator(e, name, STD[i], Std(STD[i]), reports);
    }
  }

  method AddEnumerator(e: seq<(string, Expr)>, name: string, err: string, macro: string, ghost reports: seq<string>)
    returns (e': seq<(string, Expr)>)
    requires IsEnumerators(e, name, reports) && 0 < |e| <= |reports| + |STD|
    requires macro == MacroSuffix(reports, |e| - 1) && err == Suffix(reports, |e| - 1)
    ensures IsEnumerators(e', name, reports) && |e'| == |e| + 1
  {
    e' := e + [(Enumerator(name, err), Use(Macro(name, macro)))];
    assert e'[|e|] == EnumeratorAt(name, reports, |e|);
  }

  /** The table rows of errorGenTclservClient. */
  method GenRows(name: string, cntrl: seq<string>, exec: seq<string>) returns (r: seq<(string, string)>)
    ensures IsRows(r, name, cntrl + exec) && |r| == |cntrl| + |exec| + |STD| + 1
  {
    ghost var reports := cntrl + exec;
    r := [("OK", Enumerator(name, "OK"))];
    for i := 0 to |cntrl|
      invariant |r| == i + 1 && IsRows(r, name, reports)
    {
      r := AddRow(r, name, cntrl[i], cntrl[i], reports);
    }
    for i := 0 to |exec|
      invariant |r| == |cntrl| + i + 1 && IsRows(r, name, reports)
    {
      r := AddRow(r, name, exec[i], exec[i], reports);
    }
    for i := 0 to |STD|
      invariant |r| == |cntrl| + |exec| + i + 1 && IsRows(r, name, reports)
    {
      r := AddRow(r, name, Std(STD[i]), STD[i], reports);
    }
  }

  method AddRow(r: seq<(string, string)>, name: string, msg: string, err: string, ghost reports: seq<string>)
    returns (r': seq<(string, string)>)
    requires IsRows(r, name, reports) && 0 < |r| <= |reports| + |STD|
    requires msg == MacroSuffix(reports, |r| - 1) && err == Suffix(reports, |r| - 1)
    ensures IsRows(r', name, reports) && |r'| == |r| + 1
  {
    r' := r + [(Macro(name, msg), Enumerator(name, err))];
    assert r'[|r|] == RowAt(name, reports, |r|);
  }

  method Generate(name: string, m: int, cntrl: seq<string>, exec: seq<string>) returns (g: Generated)
    ensures IsGenerated(g, name, m, cntrl + exec)
  {
    var d := GenDefines(name, m, cntrl, exec);
    var e := GenEnumerators(name, cntrl, exec);
    var r := GenRows(name, cntrl, exec);
    g := Generated(d, e, r);
  }

  /** errorGen as a whole: every declared report gets a code, exactly once. */
  method ErrorGen(name: string, m: int, tasks: seq<seq<string>>, requests: seq<Reporting>)
    returns (cntrl: seq<string>, exec: seq<string>, g: Generated)
    ensures IsGenerated(g, name, m, cntrl + exec) && NoDuplicates(cntrl + exec)
    ensures forall x :: x in cntrl <==> IsControlReport(tasks, requests, |requests|, x)
    ensures forall x :: x in exec <==> IsExecReport(tasks, requests, |requests|, x)
  {
    cntrl, exec := Collect(tasks, requests);
    forall i, j | 0 <= i < |cntrl| <= j < |cntrl + exec| ensures (cntrl + exec)[i] != (cntrl + exec)[j] {
      assert cntrl[i] in cntrl && exec[j - |cntrl|] in exec;
      SidesPartition(tasks, requests, cntrl[i]);
    }
    g := Generate(name, m, cntrl, exec);
  }

  // ----- what the compiler makes of it

  /** The value under a name: of its first definition. */
  function Lookup<T>(defs: seq<(string, T)>, key: string): Option<T> {
    if defs == [] then None else if defs[0].0 == key then Some(defs[0].1) else Lookup(defs[1..], key)
  }

  function Value(g: Generated, e: Expr): Option<int> {
    match e
    case Zero => Some(0)
    case Use(macro) => Lookup(g.defines, macro)
  }

  /** The code in a row of the table: its enumerator, its macro, the macro's number. */
  function RowCode(g: Generated, i: nat): Option<int>
    requires i < |g.rows|
  {
    var e := Lookup(g.enumerators, g.rows[i].1);
    if e.None? then None else Value(g, e.value)
  }

  lemma {:induction false} LookupAt<T>(defs: seq<(string, T)>, i: nat)
    requires i < |defs| && forall j, k :: 0 <= j < k < |defs| ==> defs[j].0 != defs[k].0
    ensures Lookup(defs, defs[i].0) == Some(defs[i].1)
  {
    if i > 0 {
      LookupAt(defs[1..], i - 1);
    }
  }

  /** Report names that clash with no standard error. */
  ghost predicate Clear(reports: seq<string>) {
    forall i :: 0 <= i < |reports| ==>
      reports[i] != "OK" && forall k :: 0 <= k < |STD| ==> reports[i] != STD[k] && reports[i] != Std(STD[k])
  }

  lemma StdDistinct()
    ensures forall j, k :: 0 <= j < k < |STD| ==> STD[j] != STD[k]
    ensures forall k :: 0 <= k < |STD| ==> STD[k] != "OK"
  {
    assert forall k :: 0 <= k < |STD| ==> |STD[k]| > 2;
    forall j, k | 0 <= j < k < |STD| ensures STD[j] != STD[k] {
      assert |STD[j]| != |STD[k]| || STD[j][0] != STD[k][0];
    }
  }

  lemma PrefixInjective(p: string, x: string, y: string)
    ensures p + x == p + y <==> x == y
  {
    assert (p + x)[|p|..] == x && (p + y)[|p|..] == y;
  }

  lemma MacroInjective(name: string, x: string, y: string)
    ensures Macro(name, x) == Macro(name, y) <==> x == y
    ensures Enumerator(name, x) == Enumerator(name, y) <==> x == y
    ensures Std(x) == Std(y) <==> x == y
    ensures Macro(name, x) != "OK"
  {
    PrefixInjective("S_" + name + "_", x, y);
    PrefixInjective("E_" + name + "_", x, y);
    PrefixInjective("stdGenoM_", x, y);
    assert Macro(name, x)[0] == 'S';
  }

  lemma SuffixesDistinct(reports: seq<string>, i: nat, j: nat)
    requires NoDuplicates(reports) && Clear(reports) && i < j < |reports| + |STD|
    ensures Suffix(reports, i) != Suffix(reports, j) && Suffix(reports, j) != "OK" && Suffix(reports, i) != "OK"
    ensures MacroSuffix(reports, i) != MacroSuffix(reports, j)
  {
    StdDistinct();
    if i >= |reports| {
      MacroInjective("", STD[i - |reports|], STD[j - |reports|]);
    }
  }

  lemma NamesDistinct(g: Generated, name: string, m: int, reports: seq<string>)
    requires IsGenerated(g, name, m, reports) && NoDuplicates(reports) && Clear(reports)
    ensures forall j, k :: 0 <= j < k < |g.defines| ==> g.defines[j].0 != g.defines[k].0
    ensures forall j, k :: 0 <= j < k < |g.enumerators| ==> g.enumerators[j].0 != g.enumerators[k].0
    ensures forall j, k :: 0 <= j < k < |g.rows| ==> g.rows[j].0 != g.rows[k].0
  {
    forall j, k | 0 <= j < k < |g.defines| ensures g.defines[j].0 != g.defines[k].0 {
      SuffixesDistinct(reports, j, k);
      MacroInjective(name, MacroSuffix(reports, j), MacroSuffix(reports, k));
    }
    forall j, k | 0 <= j < k < |g.rows|
      ensures g.enumerators[j].0 != g.enumerators[k].0 && g.rows[j].0 != g.rows[k].0
    {
      NamesDiffer(name, reports, j, k);
    }
  }

  lemma NamesDiffer(name: string, reports: seq<string>, j: nat, k: nat)
    requires NoDuplicates(reports) && Clear(reports) && j < k <= |reports| + |STD|
    ensures EnumeratorAt(name, reports, j).0 != EnumeratorAt(name, reports, k).0
    ensures RowAt(name, reports, j).0 != RowAt(name, reports, k).0
  {
    if j == 0 {
      OkDiffers(name, reports, k);
    } else {
      SuffixesDistinct(reports, j - 1, k - 1);
      MacroInjective(name, Suffix(reports, j - 1), Suffix(reports, k - 1));
      MacroInjective(name, MacroSuffix(reports, j - 1), MacroSuffix(reports, k - 1));
    }
  }

  lemma OkDiffers(name: string, reports: seq<string>, k: nat)
    requires Clear(reports) && 0 < k <= |reports| + |STD|
    ensures EnumeratorAt(name, reports, 0).0 != EnumeratorAt(name, reports, k).0
    ensures RowAt(name, reports, 0).0 != RowAt(name, reports, k).0
  {
    NotOk(reports, k - 1);
    MacroInjective(name, "OK", Suffix(reports, k - 1));
    MacroInjective(name, MacroSuffix(reports, k - 1), "OK");
  }

  lemma NotOk(reports: seq<string>, k: nat)
    requires Clear(reports) && k < |reports| + |STD|
    ensures Suffix(reports, k) != "OK"
  {
    StdDistinct();
  }

  /** The table compiles to what it should: row 0 is OK with 0, row i+1 has code i of the module. */
  lemma RowsMean(g: Generated, name: string, m: int, reports: seq<string>, i: nat)
    requires IsGenerated(g, name, m, reports) && NoDuplicates(reports) && Clear(reports)
    requires i < |g.rows|
    ensures RowCode(g, i) == Some(if i == 0 then 0 else Codes(m, |reports|)[i-1])
  {
    NamesDistinct(g, name, m, reports);
    LookupAt(g.enumerators, i);
    if i > 0 {
      LookupAt(g.defines, i - 1);
    }
  }

  // ----- the client's functions

  /** The compiled table: messages and codes. */
  ghost predicate Compiled(table: seq<(string, int)>, g: Generated) {
    && |table| == |g.rows|
    && forall i :: 0 <= i < |table| ==> table[i].0 == g.rows[i].0 && RowCode(g, i) == Some(table[i].1)
  }

  method DecodeError(table: seq<(string, int)>, str: string) returns (err: Option<int>)
    ensures err.Some? ==> exists i :: 0 <= i < |table| && table[i] == (str, err.value)
                                      && forall j :: 0 <= j < i ==> table[j].0 != str
    ensures err.None? ==> forall i :: 0 <= i < |table| ==> table[i].0 != str
    ensures err == Lookup(table, str)
  {
    var i := 0;
    while i < |table|
      invariant i <= |table| && forall j :: 0 <= j < i ==> table[j].0 != str
      invariant Lookup(table[i..], str) == Lookup(table, str)
    {
      if table[i].0 == str {
        return Some(table[i].1);
      }
      assert table[i..][1..] == table[i+1..];
      i := i + 1;
    }
    err := None;
  }

  /** The message of a code; a null pointer is None. */
  function Message(table: seq<(string, int)>, err: int): Option<string> {
    if err == 0 then Some("OK") else FirstMessage(table, err)
  }

  function FirstMessage(table: seq<(string, int)>, err: int): Option<string> {
    if table == [] then None else if table[0].1 == err then Some(table[0].0) else FirstMessage(table[1..], err)
  }

  /** It is the first row with the code that gives the message. */
  lemma {:induction false} FirstMessageIs(table: seq<(string, int)>, err: int, i: nat)
    requires i < |table| && table[i].1 == err && forall j :: 0 <= j < i ==> table[j].1 != err
    ensures FirstMessage(table, err) == Some(table[i].0)
  {
    if i > 0 {
      FirstMessageIs(table[1..], err, i - 1);
    }
  }

  method ErrorStr(table: seq<(string, int)>, err: int) returns (msg: Option<string>)
    ensures msg == Message(table, err)
  {
    if err == 0 {
      return Some("OK");
    }
    var i := 0;
    while i < |table|
      invariant i <= |table| && FirstMessage(table[i..], err) == FirstMessage(table, err)
    {
      if err == table[i].1 {
        return Some(table[i].0);
      }
      assert table[i..][1..] == table[i+1..];
      i := i + 1;
    }
    msg := None;
  }

  lemma {:induction false} MessageAt(table: seq<(string, int)>, i: nat)
    requires i < |table| && forall j, k :: 0 <= j < k < |table| ==> table[j].1 != table[k].1
    ensures FirstMessage(table, table[i].1) == Some(table[i].0)
  {
    if i > 0 {
      MessageAt(table[1..], i - 1);
    }
  }

  lemma {:induction false} FoundIn(table: seq<(string, int)>, str: string, err: int)
    ensures Lookup(table, str) == Some(err) ==> (str, err) in table
    ensures FirstMessage(table, err) == Some(str) ==> (str, err) in table
  {
    if table != [] {
      FoundIn(table[1..], str, err);
      assert table[0] in table && forall x :: x in table[1..] ==> x in table;
    }
  }

  /** On the generated table the two functions invert each other: a string decodes to a code
      exactly when the code's message is that string. */
  lemma RoundTrip(table: seq<(string, int)>, g: Generated, name: string, m: int, reports: seq<string>,
                  str: string, err: int)
    requires IsGenerated(g, name, m, reports) && NoDuplicates(reports) && Clear(reports)
    requires AcceptedNumber(m) && |reports| < 0x8000 && Compiled(table, g)
    ensures Lookup(table, str) == Some(err) <==> Message(table, err) == Some(str)
    ensures Lookup(table, str) == Some(err) <==> (str, err) in table
  {
    NamesDistinct(g, name, m, reports);
    TableCodes(table, g, name, m, reports);
    FoundIn(table, str, err);
    if (str, err) in table {
      var i :| 0 <= i < |table| && table[i] == (str, err);
      LookupAt(table, i);
      MessageAt(table, i);
    }
    assert table[0] == ("OK", 0);
    MessageAt(table, 0);
  }

  lemma TableCodes(table: seq<(string, int)>, g: Generated, name: string, m: int, reports: seq<string>)
    requires IsGenerated(g, name, m, reports) && NoDuplicates(reports) && Clear(reports)
    requires AcceptedNumber(m) && |reports| < 0x8000 && Compiled(table, g)
    ensures table[0] == ("OK", 0)
    ensures forall i :: 0 < i < |table| ==> table[i].1 == Codes(m, |reports|)[i-1]
    ensures forall j, k :: 0 <= j < k < |table| ==> table[j].1 != table[k].1
  {
    RowsMean(g, name, m, reports, 0);
    forall i | 0 < i < |table| ensures table[i].1 == Codes(m, |reports|)[i-1] > 0 {
      RowsMean(g, name, m, reports, i);
      CodesOfModules(m, |reports|, m, |reports|, i - 1, i - 1);
    }
    CodesDistinct(m, |reports|);
  }

  /** What a client reads: the code of the report at position i, counted from 0, of module m has the text
      "S_", module name, "_", report name, and this text decodes to it. */
  lemma ReportText(table: seq<(string, int)>, g: Generated, name: string, m: int, reports: seq<string>, i: nat)
    requires IsGenerated(g, name, m, reports) && NoDuplicates(reports) && Clear(reports)
    requires AcceptedNumber(m) && |reports| < 0x8000 && Compiled(table, g) && i < |reports|
    ensures Message(table, 0x1_0000 * m + i + 1) == Some("S_" + name + "_" + reports[i])
    ensures Lookup(table, "S_" + name + "_" + reports[i]) == Some(0x1_0000 * m + i + 1)
  {
    var str, err := "S_" + name + "_" + reports[i], 0x1_0000 * m + i + 1;
    TableCodes(table, g, name, m, reports);
    CodeTells(m, |reports|, i);
    assert table[i+1] == (str, err);
    assert table[i+1] in table;
    RoundTrip(table, g, name, m, reports, str, err);
  }

  lemma CodeAt(m: int, n: nat, k: nat)
    requires k < |STD|
    ensures |Codes(m, n)| == n + |STD| && Codes(m, n)[n + k] == 0x1_0000 * m + 0x8000 + 0x6400 + k + 1
  {
  }

  /** Likewise for the standard errors, whose names get a prefix of their own. */
  lemma StandardText(table: seq<(string, int)>, g: Generated, name: string, m: int, reports: seq<string>, k: nat,
                     str: string, err: int)
    requires IsGenerated(g, name, m, reports) && NoDuplicates(reports) && Clear(reports)
    requires AcceptedNumber(m) && |reports| < 0x8000 && Compiled(table, g) && k < |STD|
    requires str == "S_" + name + "_" + ("stdGenoM_" + STD[k]) && err == 0x1_0000 * m + 0x8000 + 0x6400 + k + 1
    ensures Message(table, err) == Some(str) && Lookup(table, str) == Some(err)
  {
    TableCodes(table, g, name, m, reports);
    CodeAt(m, |reports|, k);
    StandardRow(name, reports, k);
    InTable(table, g, |reports| + k + 1, str, err);
    RoundTrip(table, g, name, m, reports, str, err);
  }

  lemma StandardRow(name: string, reports: seq<string>, k: nat)
    requires k < |STD|
    ensures RowAt(name, reports, |reports| + k + 1).0 == "S_" + name + "_" + ("stdGenoM_" + STD[k])
  {
  }

  lemma InTable(table: seq<(string, int)>, g: Generated, i: nat, str: string, err: int)
    requires Compiled(table, g) && i < |table| && g.rows[i].0 == str && table[i].1 == err
    ensures (str, err) in table
  {
    assert table[i] == (str, err);
  }
}
