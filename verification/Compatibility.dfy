/** The interrupt_activity lists of a description (resolveRequests in src/genom.c)
    and the compatibility vectors generated from them (src/cntrlTaskGen.c). */
module Compatibility {
  import opened Wrappers
  import opened CodelTables

  /** trouve_requete: the first request of that name in requests[i..]. */
  function FirstNamed(requests: seq<Request>, name: string, i: nat): (k: Option<nat>)
    requires i <= |requests|
    ensures k.None? ==> forall j :: i <= j < |requests| ==> requests[j].name != name
    ensures k.Some? ==> i <= k.value < |requests| && requests[k.value].name == name
    ensures k.Some? ==> forall j :: i <= j < k.value ==> requests[j].name != name
    decreases |requests| - i
  {
    if i == |requests| then None
    else if requests[i].name == name then Some(i)
    else FirstNamed(requests, name, i + 1)
  }

  /** resolveRequests: the requests the interrupt list of request r stands for.
      A name no request has stays unresolved. */
  function Resolved(requests: seq<Request>, r: nat): seq<Option<nat>>
    requires r < |requests|
  {
    var everything := seq(|requests|, i => Some(i));
    if requests[r].kind == InitRqst then everything
    else match requests[r].interrupts
         case Nothing => []
         case Everything => everything
         case Named(names) => seq(|names|, i requires 0 <= i < |names| => FirstNamed(requests, names[i], 0))
  }

  /** The meaning of the description: accepting request r interrupts activities of request k. */
  ghost predicate Interrupting(requests: seq<Request>, r: nat, k: nat)
    requires r < |requests| && k < |requests|
  {
    || requests[r].kind == InitRqst
    || requests[r].interrupts == Everything
    || (&& requests[r].interrupts.Named?
        && requests[k].name in requests[r].interrupts.names
        && forall j :: 0 <= j < k ==> requests[j].name != requests[k].name)
  }

  /** Where no two requests have the same name, a request interrupts exactly those that its description
      names, all of them if it says ALL or is the init request; a name that several requests share stands
      for the first of them. */
  lemma InterruptingNames(requests: seq<Request>, r: nat, k: nat)
    requires r < |requests| && k < |requests|
    ensures requests[r].kind == InitRqst || requests[r].interrupts == Everything ==> Interrupting(requests, r, k)
    ensures requests[r].kind != InitRqst && requests[r].interrupts == Nothing ==> !Interrupting(requests, r, k)
    ensures requests[r].kind != InitRqst && requests[r].interrupts.Named? ==>
              (Interrupting(requests, r, k) <==>
                 requests[k].name in requests[r].interrupts.names
                 && FirstNamed(requests, requests[k].name, 0) == Some(k))
  {
  }

  lemma ResolvedMeansInterrupting(requests: seq<Request>, r: nat, k: nat)
    requires r < |requests| && k < |requests|
    ensures Some(k) in Resolved(requests, r) <==> Interrupting(requests, r, k)
    ensures forall e :: e in Resolved(requests, r) && e.Some? ==> e.value < |requests|
  {
    var res := Resolved(requests, r);
    if requests[r].kind == InitRqst || requests[r].interrupts == Everything {
      assert res[k] == Some(k);
    } else if requests[r].interrupts.Named? {
      var names := requests[r].interrupts.names;
      if Interrupting(requests, r, k) {
        var i :| 0 <= i < |names| && names[i] == requests[k].name;
        assert res[i] == FirstNamed(requests, names[i], 0);
      }
    }
  }

  /** The compatibility vector of one request: all ones, then a zero per listed request. */
  method CompatVector(nbRequest: nat, interrupt: seq<Option<nat>>) returns (compat: seq<int>)
    requires forall e :: e in interrupt && e.Some? ==> e.value < nbRequest
    ensures |compat| == nbRequest
    ensures forall k :: 0 <= k < nbRequest ==> compat[k] == if Some(k) in interrupt then 0 else 1
  {
    var tabCompat := new int[nbRequest];
    var i := 0;
    while i < nbRequest
      invariant i <= nbRequest
      invariant forall k :: 0 <= k < i ==> tabCompat[k] == 1
    {
      tabCompat[i] := 1;
      i := i + 1;
    }
    var li := 0;
    while li < |interrupt|
      invariant li <= |interrupt|
      invariant forall k :: 0 <= k < nbRequest ==>
                  tabCompat[k] == if Some(k) in interrupt[..li] then 0 else 1
    {
      assert interrupt[..li + 1] == interrupt[..li] + [interrupt[li]];
      if interrupt[li].Some? {
        tabCompat[interrupt[li].value] := 0;
      }
      li := li + 1;
    }
    assert interrupt[..li] == interrupt;
    compat := tabCompat[..];
  }

  /** Entry k is zero exactly when the request interrupts request k. */
  ghost predicate CompatOf(compat: seq<int>, requests: seq<Request>, r: nat)
    requires r < |requests|
  {
    && |compat| == |requests|
    && forall k :: 0 <= k < |requests| ==>
         compat[k] == if Interrupting(requests, r, k) then 0 else 1
  }

  /** The generator's two products for request r. */
  method GenCompatibility(requests: seq<Request>, r: nat) returns (compat: seq<int>, reentrantFlag: bool)
    requires r < |requests|
    ensures CompatOf(compat, requests, r)
    ensures reentrantFlag <==> !Interrupting(requests, r, r)
  {
    forall k | 0 <= k < |requests|
      ensures Some(k) in Resolved(requests, r) <==> Interrupting(requests, r, k)
    {
      ResolvedMeansInterrupting(requests, r, k);
    }
    ResolvedMeansInterrupting(requests, r, r);
    compat := CompatVector(|requests|, Resolved(requests, r));
    reentrantFlag := compat[r] == 1;
  }
}
