/** bdrv_aio_multiwrite and its completion callback: user callbacks run once, after the last
    submission and the last completion, whatever the interleaving. */
module Multiwrite {
  const EIO: int := 5
  const ENOMEDIUM: int := 123

  // ---- the machine ----

  /** Where the submitting function is: in its loop, past a late failure but before completing the
      dummy request, returned normally, or returned with an early failure. */
  datatype Phase = Submitting | LateFailed | Returned | EarlyFailed

  /** One call of a user callback. */
  datatype Call = Call(callback: nat, error: int)

  datatype State = State(
    requests: nat,          // merged requests to submit
    callbacks: nat,         // user callbacks to run in the end
    next: nat,              // requests whose submission was attempted
    phase: Phase,
    outstanding: nat,       // accepted writes that have not completed
    numRequests: int,
    error: int,
    results: seq<int>,      // results reported to multiwrite_cb, oldest first
    calls: seq<Call>,
    freed: bool)

  datatype Event = SubmitOk | SubmitFail | Complete(ret: int) | FinishDummy

  predicate Enabled(s: State, e: Event) {
    match e
    case SubmitOk => s.phase.Submitting? && s.next < s.requests
    case SubmitFail => s.phase.Submitting? && s.next < s.requests
    case Complete(ret) => s.outstanding > 0
    case FinishDummy => (s.phase.Submitting? && s.next == s.requests) || s.phase.LateFailed?
  }

  /** All user callbacks, in order, with the recorded error. */
  function UserCalls(callbacks: nat, error: int): seq<Call> {
    seq(callbacks, k requires 0 <= k => Call(k, error))
  }

  /** multiwrite_cb */
  function Callback(s: State, ret: int): State {
    var error := if ret < 0 && s.error == 0 then ret else s.error;
    var s' := s.(error := error, numRequests := s.numRequests - 1, results := s.results + [ret]);
    if s'.numRequests == 0 then s'.(calls := s.calls + UserCalls(s.callbacks, error), freed := true) else s'
  }

  function Next(s: State, e: Event): State
    requires Enabled(s, e)
  {
    match e
    case SubmitOk => s.(numRequests := s.numRequests + 1, next := s.next + 1, outstanding := s.outstanding + 1)
    case SubmitFail =>
      var s' := s.(numRequests := s.numRequests + 1, next := s.next + 1);
      if s.next == 0 then s'.(phase := EarlyFailed, freed := true)
      else Callback(s', -EIO).(phase := LateFailed)
    case Complete(ret) => Callback(s.(outstanding := s.outstanding - 1), ret)
    case FinishDummy => Callback(s, 0).(phase := Returned)
  }

  /** After the structure has been set up: the dummy request counts as one. */
  predicate Init(s: State) {
    && s.next == 0 && s.phase.Submitting? && s.outstanding == 0 && s.numRequests == 1
    && s.error == 0 && s.results == [] && s.calls == [] && !s.freed && 0 < s.requests <= s.callbacks
  }

  /** The first negative result, or 0. */
  function FirstNegative(results: seq<int>): int {
    if results == [] then 0
    else
      var e := FirstNegative(results[..|results| - 1]);
      if e != 0 then e else if results[|results| - 1] < 0 then results[|results| - 1] else 0
  }

  lemma FirstNegativeSnoc(results: seq<int>, ret: int)
    ensures FirstNegative(results + [ret]) ==
            (if FirstNegative(results) != 0 then FirstNegative(results) else if ret < 0 then ret else 0)
  {
    assert (results + [ret])[..|results|] == results;
  }

  /** FirstNegative is what its name says. */
  lemma {:induction false} FirstNegativeMeans(results: seq<int>)
    ensures FirstNegative(results) == 0 <==> forall i | 0 <= i < |results| :: results[i] >= 0
    ensures FirstNegative(results) != 0 ==>
              exists i :: 0 <= i < |results| && results[i] == FirstNegative(results) < 0 &&
                forall j | 0 <= j < i :: results[j] >= 0
  {
    if results != [] {
      var n := |results| - 1;
      var front := results[..n];
      FirstNegativeMeans(front);
      if FirstNegative(front) != 0 {
        var i :| 0 <= i < n && front[i] == FirstNegative(front) < 0 && forall j | 0 <= j < i :: front[j] >= 0;
        assert results[i] == FirstNegative(results);
      } else {
        assert forall j | 0 <= j < n :: front[j] >= 0;
        if results[n] < 0 {
          assert results[n] == FirstNegative(results);
        }
      }
    }
  }

  // ---- the invariant ----

  ghost predicate Inv(s: State) {
    && s.error == FirstNegative(s.results)
    && (s.phase.Submitting? ==> s.next <= s.requests)
    && match s.phase {
         case Submitting => s.numRequests == s.outstanding + 1 && !s.freed && s.calls == []
         case LateFailed => s.numRequests == s.outstanding + 1 && !s.freed && s.calls == []
         case Returned =>
           && s.numRequests == s.outstanding && (s.freed <==> s.outstanding == 0)
           && s.calls == (if s.outstanding == 0 then UserCalls(s.callbacks, s.error) else [])
         case EarlyFailed => s.outstanding == 0 && s.freed && s.calls == []
       }
    && (s.next == 0 ==> s.outstanding == 0)
  }

  lemma CallbackError(s: State, ret: int)
    requires s.error == FirstNegative(s.results)
    ensures Callback(s, ret).error == FirstNegative(Callback(s, ret).results)
  {
    FirstNegativeSnoc(s.results, ret);
  }

  /** Every step keeps the invariant, and multiwrite_cb never runs on freed memory. */
  lemma StepKeepsInv(s: State, e: Event)
    requires Inv(s) && Enabled(s, e)
    ensures Inv(Next(s, e)) && Next(s, e).callbacks == s.callbacks
    ensures !s.freed
  {
    hide UserCalls;
    match e
    case SubmitOk =>
    case SubmitFail => CallbackError(s.(numRequests := s.numRequests + 1, next := s.next + 1), -EIO);
    case Complete(ret) => CallbackError(s.(outstanding := s.outstanding - 1), ret);
    case FinishDummy => CallbackError(s, 0);
  }

  // ---- runs ----

  ghost predicate IsRun(s: State, es: seq<Event>)
    decreases |es|
  {
    es == [] || (Enabled(s, es[0]) && IsRun(Next(s, es[0]), es[1..]))
  }

  function RunEnd(s: State, es: seq<Event>): State
    requires IsRun(s, es)
    decreases |es|
  {
    if es == [] then s else RunEnd(Next(s, es[0]), es[1..])
  }

  lemma {:induction false} RunKeepsInv(s: State, es: seq<Event>)
    requires Inv(s) && IsRun(s, es)
    ensures Inv(RunEnd(s, es)) && RunEnd(s, es).callbacks == s.callbacks
    decreases |es|
  {
    if es != [] {
      StepKeepsInv(s, es[0]);
      RunKeepsInv(Next(s, es[0]), es[1..]);
    }
  }

  /** In every interleaving: no user callback has run before the submitting function has made its last
      attempt and every accepted write has completed; from then on each of them has run exactly once,
      with the first negative result; and if the very first submission fails none ever runs. */
  lemma CallbacksRunOnce(s: State, es: seq<Event>)
    requires Init(s) && IsRun(s, es)
    ensures (var e := RunEnd(s, es);
             e.calls == if e.phase.Returned? && e.outstanding == 0
                        then UserCalls(s.callbacks, FirstNegative(e.results)) else [])
  {
    RunKeepsInv(s, es);
  }

  /** A run that can go no further has run the callbacks, or failed early without running any. */
  lemma NothingLeft(s: State, es: seq<Event>)
    requires Init(s) && IsRun(s, es)
    requires forall e :: !Enabled(RunEnd(s, es), e)
    ensures (var e := RunEnd(s, es);
             (e.phase.Returned? && e.outstanding == 0 && e.calls == UserCalls(s.callbacks, FirstNegative(e.results)))
             || (e.phase.EarlyFailed? && e.calls == []))
  {
    RunKeepsInv(s, es);
    var e := RunEnd(s, es);
    assert !Enabled(e, Complete(0));
    assert !Enabled(e, FinishDummy);
    assert !Enabled(e, SubmitOk);
  }

  lemma {:induction false} RunSnoc(s: State, es: seq<Event>, e: Event)
    requires IsRun(s, es) && Enabled(RunEnd(s, es), e)
    ensures IsRun(s, es + [e]) && RunEnd(s, es + [e]) == Next(RunEnd(s, es), e)
    decreases |es|
  {
    if es != [] {
      assert (es + [e])[1..] == es[1..] + [e];
      RunSnoc(Next(s, es[0]), es[1..], e);
    }
  }

  lemma Reached(start: State, trace: seq<Event>)
    requires Init(start) && IsRun(start, trace)
    ensures Inv(RunEnd(start, trace))
  {
    RunKeepsInv(start, trace);
  }

  // ---- the code ----

  /** MultiwriteCB, together with what the surrounding drivers know of it. */
  class MultiwriteCB {
    const requests: nat
    const numCallbacks: nat
    var next: nat
    var phase: Phase
    var outstanding: nat
    var numRequests: int
    var error: int
    var calls: seq<Call>
    var freed: bool
    ghost var results: seq<int>
    ghost var start: State
    ghost var trace: seq<Event>

    ghost function Abs(): State
      reads this
    {
      State(requests, numCallbacks, next, phase, outstanding, numRequests, error, results, calls, freed)
    }

    ghost predicate Valid()
      reads this
    {
      Init(start) && IsRun(start, trace) && RunEnd(start, trace) == Abs() && start.callbacks == numCallbacks
    }

    constructor (n: nat, callbacks: nat)
      requires 0 < n <= callbacks
      ensures Valid() && Init(Abs()) && requests == n && numCallbacks == callbacks
    {
      requests, numCallbacks := n, callbacks;
      next, phase, outstanding, numRequests, error := 0, Submitting, 0, 1, 0;
      calls, freed, results := [], false, [];
      new;
      start, trace := Abs(), [];
    }

    /** multiwrite_user_cb */
    method UserCb()
      modifies `calls
      ensures calls == old(calls) + UserCalls(numCallbacks, error)
    {
      ghost var before := calls;
      for i := 0 to numCallbacks
        invariant calls == before + UserCalls(numCallbacks, error)[..i]
      {
        calls := calls + [Call(i, error)];
      }
    }

    /** multiwrite_cb */
    method Cb(ret: int)
      requires !freed
      modifies `error, `numRequests, `calls, `freed, `results
      ensures Abs() == Callback(old(Abs()), ret)
    {
      if ret < 0 && error == 0 {
        error := ret;
      }
      numRequests := numRequests - 1;
      results := results + [ret];
      if numRequests == 0 {
        UserCb();
        freed := true;
      }
    }

    /** A driver reports the result of an accepted write. */
    method WriteCompleted(ret: int)
      requires Valid() && outstanding > 0
      modifies this
      ensures Valid() && start == old(start) && phase == old(phase) && next == old(next)
      ensures Abs() == Next(old(Abs()), Complete(ret))
    {
      hide IsRun, RunEnd, FirstNegative, UserCalls;
      Reached(start, trace);
      RunSnoc(start, trace, Complete(ret));
      outstanding := outstanding - 1;
      Cb(ret);
      trace := trace + [Complete(ret)];
    }

    /** Any number of accepted writes complete, with any results. */
    method Meanwhile()
      requires Valid()
      modifies this
      ensures Valid() && start == old(start) && phase == old(phase) && next == old(next)
    {
      var more: bool := *;
      while more && outstanding > 0
        invariant Valid() && start == old(start) && phase == old(phase) && next == old(next)
        decreases outstanding
      {
        var ret: int := *;
        WriteCompleted(ret);
        more := *;
      }
    }

    /** One turn of the submission loop: the request is counted, then accepted or not. */
    method SubmitNext(accepted: bool)
      requires Valid() && phase.Submitting? && next < requests
      modifies this
      ensures Valid() && start == old(start)
      ensures Abs() == Next(old(Abs()), if accepted then SubmitOk else SubmitFail)
    {
      hide IsRun, RunEnd, FirstNegative, UserCalls;
      Reached(start, trace);
      ghost var e := if accepted then SubmitOk else SubmitFail;
      RunSnoc(start, trace, e);
      numRequests := numRequests + 1;
      next := next + 1;
      if accepted {
        outstanding := outstanding + 1;
      } else if next == 1 {
        phase, freed := EarlyFailed, true;
      } else {
        Cb(-EIO);
        phase := LateFailed;
      }
      trace := trace + [e];
    }

    /** The dummy request completes. */
    method CompleteDummy()
      requires Valid() && Enabled(Abs(), FinishDummy)
      modifies this
      ensures Valid() && start == old(start)
      ensures Abs() == Next(old(Abs()), FinishDummy)
    {
      hide IsRun, RunEnd, FirstNegative, UserCalls;
      Reached(start, trace);
      RunSnoc(start, trace, FinishDummy);
      Cb(0);
      phase := Returned;
      trace := trace + [FinishDummy];
    }

    /** The submission loop of bdrv_aio_multiwrite and what follows it. Accepted writes may complete at
        any point of the loop. On return the callbacks have run exactly if nothing is outstanding. */
    method Submit() returns (ret: int)
      requires Valid() && Init(Abs())
      modifies this
      ensures Valid() && start == old(start)
      ensures ret == 0 || ret == -1
      ensures ret == 0 <==> phase.Returned?
      ensures ret == -1 <==> phase.EarlyFailed?
      ensures ret == 0 && outstanding == 0 ==> calls == UserCalls(numCallbacks, FirstNegative(results))
      ensures ret == -1 || outstanding > 0 ==> calls == []
    {
      hide IsRun, RunEnd, FirstNegative, UserCalls, Callback;
      var i := 0;
      while i < requests
        invariant Valid() && start == old(start) && phase.Submitting? && i == next <= requests
      {
        var accepted: bool := *;
        Reached(start, trace);
        SubmitNext(accepted);
        if !accepted {
          if i == 0 {
            return -1;
          }
          break;
        }
        Meanwhile();
        i := i + 1;
      }
      CompleteDummy();
      Reached(start, trace);
      return 0;
    }
  }

  /** Every request is given the same error. */
  method FailAll(errors: array<int>, error: int)
    modifies errors
    ensures forall i | 0 <= i < errors.Length :: errors[i] == error
  {
    for i := 0 to errors.Length
      invariant forall j | 0 <= j < i :: errors[j] == error
    {
      errors[i] := error;
    }
  }

  /**
   * bdrv_aio_multiwrite on requests of which `errors` are the error fields and `merged` are left by the
   * merge. The error fields are for failures before the first submission only: then every request has
   * the error and no callback runs, now or later. Otherwise they are untouched and the callbacks report.
   */
  method BdrvAioMultiwrite(hasDriver: bool, errors: array<int>, merged: nat) returns (ret: int, mcb: MultiwriteCB?)
    requires errors.Length > 0 ==> 0 < merged <= errors.Length
    modifies errors
    ensures !hasDriver ==> ret == -1 && mcb == null && forall i | 0 <= i < errors.Length :: errors[i] == -ENOMEDIUM
    ensures hasDriver && errors.Length == 0 ==> ret == 0 && mcb == null
    ensures hasDriver && errors.Length > 0 ==>
              mcb != null && fresh(mcb) && mcb.Valid() && mcb.numCallbacks == errors.Length
    ensures hasDriver && errors.Length > 0 && ret == 0 ==>
              && mcb.phase.Returned? && errors[..] == old(errors[..])
              && mcb.calls == if mcb.outstanding > 0 then [] else UserCalls(errors.Length, FirstNegative(mcb.results))
    ensures hasDriver && errors.Length > 0 && ret != 0 ==>
              && ret == -1 && mcb.phase.EarlyFailed? && mcb.calls == [] && mcb.outstanding == 0
              && forall i | 0 <= i < errors.Length :: errors[i] == -EIO
  {
    if !hasDriver {
      FailAll(errors, -ENOMEDIUM);
      return -1, null;
    }
    if errors.Length == 0 {
      return 0, null;
    }
    hide IsRun, RunEnd, FirstNegative, UserCalls, Callback;
    mcb := new MultiwriteCB(merged, errors.Length);
    ret := mcb.Submit();
    Reached(mcb.start, mcb.trace);
    if ret != 0 {
      FailAll(errors, -EIO);
    }
  }
}
