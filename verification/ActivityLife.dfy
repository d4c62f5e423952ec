/** The life of one activity, as the sequence of its codel calls: which state a codel
    is called for after which answer, and what that implies for whole lives. */
module ActivityLife {
  import opened Activities

  /** The event an execution task may consider next after a codel answered r: r itself,
      EXEC when a sleeper is woken up, or INTER once the control task asks for it. */
  predicate Follows(r: State, e: State) {
    || (e == r && ForExecTask(r))
    || (r == Sleep && e == Exec)
    || (e == Inter && r in {Start, Exec, End, Inter, Sleep})
  }

  /** A history of calls: it begins with START, and only the last answer may be forbidden. */
  ghost predicate History(calls: seq<Call>) {
    && (forall k :: 0 <= k < |calls| ==> ForExecTask(calls[k].state))
    && (calls != [] ==> calls[0].state == Start)
    && forall k :: 0 <= k < |calls| - 1 ==>
         Permitted(calls[k].state, calls[k].result) && Follows(calls[k].result, calls[k+1].state)
  }

  /** What a slot of a task that is not suspended holds after the calls made so far. */
  predicate InStep(a: Activity) {
    if a.calls == [] then a.status == Init
    else
      var last := a.calls[|a.calls|-1];
      && Permitted(last.state, last.result)
      && match a.status
         case Sleep => last.result == Sleep
         case Zombie => last.result == Zombie
         case s =>
           && s == last.state
           && (a.evn == last.result || (a.evn == Inter && Follows(last.result, Inter)))
  }

  function States(calls: seq<Call>): seq<State> {
    seq(|calls|, k requires 0 <= k < |calls| => calls[k].state)
  }

  function Rank(s: State): nat {
    match s
    case Start => 0
    case Exec => 1
    case End => 2
    case Inter => 3
    case _ => 4
  }

  function Repeat(s: State, n: nat): seq<State> {
    seq(n, _ => s)
  }

  /** w is a word of START* EXEC* END* INTER* FAIL?. */
  ghost predicate LifeWord(w: seq<State>) {
    exists a: nat, b: nat, c: nat, d: nat, e: nat :: e <= 1 && IsWord(w, a, b, c, d, e)
  }

  predicate IsWord(w: seq<State>, a: nat, b: nat, c: nat, d: nat, e: nat) {
    w == Repeat(Start, a) + Repeat(Exec, b) + Repeat(End, c) + Repeat(Inter, d) + Repeat(Fail, e)
  }

  /** In the order START, EXEC, END, INTER, FAIL an activity stays where it is or goes on, INTER being
      reached only through an interruption and nothing following FAIL; it may sleep while it starts or
      runs, end well unless it has failed, and become a zombie at any time. */
  predicate Legal(s: State, e: State) {
    || e == Zombie
    || (e == Ether && s != Fail)
    || (e == Sleep && (s == Start || s == Exec))
    || (e in {Start, Exec, End, Inter, Fail} && s != Fail && Rank(s) <= Rank(e) && (e == Inter ==> s == Inter))
  }

  /** The transition table is that order: it forbids nothing else and permits nothing else. */
  lemma PermittedIsLegal(s: State, e: State)
    ensures ForExecTask(s) <==> s in {Start, Exec, End, Inter, Fail}
    ensures ForExecTask(s) ==> (Permitted(s, e) <==> Legal(s, e))
  {
  }

  /** One step of a history never goes back, and FAIL is never followed by another call. */
  lemma StepUp(s: State, r: State, e: State)
    requires ForExecTask(s) && Permitted(s, r) && Follows(r, e)
    ensures s != Fail && ForExecTask(e) && Rank(s) <= Rank(e)
    ensures r != s && r != Sleep ==> Rank(s) < Rank(e)
  {
  }

  /** Whatever codels answer, the states they are called for form START* EXEC* END* INTER* FAIL?. */
  lemma {:induction false} HistoryIsLifeWord(calls: seq<Call>)
    requires History(calls)
    ensures LifeWord(States(calls))
  {
    if calls == [] {
      assert IsWord(States(calls), 0, 0, 0, 0, 0);
    } else {
      var n := |calls| - 1;
      HistoryIsLifeWord(calls[..n]);
      var s := calls[n].state;
      assert States(calls) == States(calls[..n]) + [s];
      if n > 0 {
        StepUp(calls[n-1].state, calls[n-1].result, s);
        assert States(calls[..n])[n-1] == calls[n-1].state;
      }
      ExtendLife(States(calls[..n]), s);
    }
  }

  lemma ExtendLife(w: seq<State>, s: State)
    requires LifeWord(w) && ForExecTask(s)
    requires w != [] ==> w[|w|-1] != Fail && Rank(w[|w|-1]) <= Rank(s)
    ensures LifeWord(w + [s])
  {
    var a: nat, b: nat, c: nat, d: nat, e: nat :| e <= 1 && IsWord(w, a, b, c, d, e);
    ExtendWord(w, s, a, b, c, d, e);
  }

  lemma LastIsFail(w: seq<State>, a: nat, b: nat, c: nat, d: nat)
    requires IsWord(w, a, b, c, d, 1)
    ensures w != [] && w[|w|-1] == Fail
  {
  }

  lemma ExtendWord(w: seq<State>, s: State, a: nat, b: nat, c: nat, d: nat, e: nat)
    requires e <= 1 && IsWord(w, a, b, c, d, e) && ForExecTask(s)
    requires w != [] ==> w[|w|-1] != Fail && Rank(w[|w|-1]) <= Rank(s)
    ensures LifeWord(w + [s])
  {
    if e == 1 {
      LastIsFail(w, a, b, c, d);
      assert false;
    }
    assert d > 0 ==> w[|w|-1] == Inter;
    assert d == 0 && c > 0 ==> w[|w|-1] == End;
    assert d == 0 && c == 0 && b > 0 ==> w[|w|-1] == Exec;
    match s {
      case Start => assert IsWord(w + [s], a + 1, b, c, d, e);
      case Exec => assert IsWord(w + [s], a, b + 1, c, d, e);
      case End => assert IsWord(w + [s], a, b, c + 1, d, e);
      case Inter => assert IsWord(w + [s], a, b, c, d + 1, e);
      case Fail => assert IsWord(w + [s], a, b, c, d, e + 1);
    }
  }

  /** How many of the answers are "stay in this state" or SLEEP. */
  function Stays(calls: seq<Call>): nat {
    if calls == [] then 0
    else
      var last := calls[|calls|-1];
      Stays(calls[..|calls|-1]) + if last.result == last.state || last.result == Sleep then 1 else 0
  }

  /** The lexicographic measure (stays, rank), summed up: each call either uses up a stay
      or moves to a state of higher rank. */
  lemma {:induction false} CallsBounded(calls: seq<Call>)
    requires History(calls)
    ensures calls != [] ==>
              |calls| <= Stays(calls[..|calls|-1]) + Rank(calls[|calls|-1].state) + 1
    ensures |calls| <= Stays(calls) + 5
  {
    if |calls| > 1 {
      var front := calls[..|calls|-1];
      CallsBounded(front);
      var last := front[|front|-1];
      StepUp(last.state, last.result, calls[|calls|-1].state);
    }
  }

  /** With at most n stays, an activity whose answers are all permitted has reached ETHER or
      ZOMBIE by its call number n + 5. */
  lemma EndsWithinBudget(calls: seq<Call>, n: nat)
    requires History(calls) && Stays(calls) <= n && |calls| >= n + 5
    requires Permitted(calls[|calls|-1].state, calls[|calls|-1].result)
    ensures calls[|calls|-1].result == Ether || calls[|calls|-1].result == Zombie
  {
    CallsBounded(calls);
    var last := calls[|calls|-1];
    assert Stays(calls[..|calls|-1]) <= n;
    assert Rank(last.state) == 4;
  }

  /** A call that follows a life in any way continues it exactly if it does not go back in rank and
      the life has not ended in FAIL. */
  lemma ContinuesLife(calls: seq<Call>, next: Call)
    requires LifeWord(States(calls)) && calls != [] && ForExecTask(next.state)
    requires forall k :: 0 <= k < |calls| ==> ForExecTask(calls[k].state)
    ensures LifeWord(States(calls + [next])) <==>
              calls[|calls|-1].state != Fail && Rank(calls[|calls|-1].state) <= Rank(next.state)
  {
    var last := calls[|calls|-1].state;
    var w := States(calls);
    assert States(calls + [next]) == w + [next.state] && w[|w|-1] == last;
    if last != Fail && Rank(last) <= Rank(next.state) {
      ExtendLife(w, next.state);
    }
    if LifeWord(w + [next.state]) {
      WordIsSorted(w + [next.state], |w| - 1);
    }
  }

  lemma WordIsSorted(w: seq<State>, k: nat)
    requires LifeWord(w) && k + 1 < |w|
    ensures Rank(w[k]) <= Rank(w[k+1]) && w[k] != Fail
  {
  }
}
