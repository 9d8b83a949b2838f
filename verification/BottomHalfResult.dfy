/** What a poll returns, told from the events alone. */
module BottomHalfResult {
  import opened BottomHalf
  import opened Options

  lemma {:induction false} PrefixRuns(s: State, events: seq<Event>, k: nat)
    requires IsRun(s, events) && k <= |events|
    ensures IsRun(s, events[..k])
    decreases |events| - k
  {
    if k == |events| {
      assert events[..k] == events;
    } else {
      PrefixRuns(s, events, k + 1);
      assert events[..k + 1] == events[..k] + [events[k]];
      RunFront(s, events[..k], events[k]);
    }
  }

  /** The state before event `k`. */
  ghost function StateAt(s: State, events: seq<Event>, k: nat): State
    requires IsRun(s, events) && k <= |events|
  {
    PrefixRuns(s, events, k);
    RunEnd(s, events[..k])
  }

  lemma StateNext(s: State, events: seq<Event>, k: nat)
    requires IsRun(s, events) && k < |events|
    ensures Enabled(StateAt(s, events, k), events[k])
    ensures StateAt(s, events, k + 1) == Next(StateAt(s, events, k), events[k])
  {
    hide Next, Enabled, IsRun, RunEnd;
    PrefixRuns(s, events, k);
    PrefixRuns(s, events, k + 1);
    assert events[..k + 1] == events[..k] + [events[k]];
    RunFront(s, events[..k], events[k]);
  }

  lemma StatePrefix(s: State, events: seq<Event>, events': seq<Event>, k: nat)
    requires IsRun(s, events) && IsRun(s, events') && events <= events' && k <= |events|
    ensures StateAt(s, events, k) == StateAt(s, events', k)
  {
    assert events[..k] == events'[..k];
  }

  // ---- how an entry was last scheduled ----

  /** Event `k` schedules an entry that is not scheduled: what it asks for holds from then on. */
  ghost predicate Arms(s: State, events: seq<Event>, k: nat, id: nat)
    requires IsRun(s, events) && k < |events|
  {
    && (events[k] == Schedule(id) || events[k] == ScheduleIdle(id))
    && id in StateAt(s, events, k).flags && !StateAt(s, events, k).flags[id].scheduled
  }

  /** The last event before `k` that did. */
  ghost function LastArming(s: State, events: seq<Event>, k: nat, id: nat): Option<Event>
    requires IsRun(s, events) && k <= |events|
  {
    if k == 0 then None
    else if Arms(s, events, k - 1, id) then Some(events[k - 1])
    else LastArming(s, events, k - 1, id)
  }

  ghost predicate IdleIsLast(s: State, events: seq<Event>, k: nat, id: nat)
    requires IsRun(s, events) && k <= |events|
  {
    var t := StateAt(s, events, k);
    id in t.flags && t.flags[id].scheduled ==>
      LastArming(s, events, k, id) == Some(if t.flags[id].idle then ScheduleIdle(id) else Schedule(id))
  }

  lemma IdleStep(t: State, e: Event, id: nat)
    requires Enabled(t, e) && Listed(t)
    ensures var u := Next(t, e);
            id in u.flags && u.flags[id].scheduled ==>
              if (e == Schedule(id) || e == ScheduleIdle(id)) && !t.flags[id].scheduled
              then e == if u.flags[id].idle then ScheduleIdle(id) else Schedule(id)
              else id in t.flags && t.flags[id] == u.flags[id]
  {
  }

  /** The idle flag of a scheduled entry tells how it was last scheduled. */
  lemma {:induction false} IdleMeans(s: State, events: seq<Event>, k: nat, id: nat)
    requires Init(s) && IsRun(s, events) && k <= |events|
    ensures IdleIsLast(s, events, k, id)
  {
    hide Next, Listed, IsRun, RunEnd;
    if k == 0 {
      StateFirst(s, events);
    } else {
      IdleMeans(s, events, k - 1, id);
      StateNext(s, events, k - 1);
      ListedAt(s, events, k - 1);
      IdleStep(StateAt(s, events, k - 1), events[k - 1], id);
    }
  }

  lemma StateFirst(s: State, events: seq<Event>)
    requires IsRun(s, events)
    ensures StateAt(s, events, 0) == s
  {
    assert events[..0] == [];
  }

  lemma ListedAt(s: State, events: seq<Event>, k: nat)
    requires Init(s) && IsRun(s, events) && k <= |events|
    ensures Inv(StateAt(s, events, k)) && Listed(StateAt(s, events, k))
  {
    hide IsRun, RunEnd;
    PrefixRuns(s, events, k);
    InitInv(s);
    RunKeepsInv(s, events[..k]);
  }

  // ---- what a poll calls itself ----

  /** Event `k` is a visit of the poll whose frame is at depth `depth`, not of one nested in it, and it
      calls an entry that was last scheduled by qemu_bh_schedule. */
  ghost predicate OrdinaryCall(s: State, events: seq<Event>, k: nat, depth: nat)
    requires IsRun(s, events) && k < |events|
  {
    var t := StateAt(s, events, k);
    && events[k] == Visit && |t.stack| == depth > 0 && Top(t).cursor.Some?
    && Due(t.flags, Top(t).cursor.value)
    && LastArming(s, events, k, Top(t).cursor.value) == Some(Schedule(Top(t).cursor.value))
  }

  /** Since event `from` there has been such a call. */
  ghost predicate CalledOrdinary(s: State, events: seq<Event>, from: nat, depth: nat)
    requires IsRun(s, events)
  {
    exists k: nat :: from <= k < |events| && OrdinaryCall(s, events, k, depth)
  }

  lemma FrameStep(t: State, e: Event, depth: nat)
    requires Enabled(t, e) && 0 < depth <= |t.stack| && depth <= |Next(t, e).stack|
    ensures var u := Next(t, e);
            if e.Visit? && |t.stack| == depth && Due(t.flags, Top(t).cursor.value)
            then u.stack[depth - 1].ret <==> t.stack[depth - 1].ret || !t.flags[Top(t).cursor.value].idle
            else u.stack[depth - 1].ret == t.stack[depth - 1].ret
  {
  }

  /**
   * While a poll is in progress its result so far is true exactly when it has itself called an entry
   * that was last scheduled by qemu_bh_schedule rather than by qemu_bh_schedule_idle.
   */
  lemma {:induction false} ResultSoFar(s: State, events: seq<Event>, from: nat, k: nat, depth: nat)
    requires Init(s) && IsRun(s, events) && from < k <= |events| && 0 < depth
    requires events[from] == Begin && |StateAt(s, events, from).stack| == depth - 1
    requires forall i: nat | from < i <= k :: |StateAt(s, events, i).stack| >= depth
    ensures StateAt(s, events, k).stack[depth - 1].ret <==>
            exists j: nat :: from < j < k && OrdinaryCall(s, events, j, depth)
  {
    hide Next, IsRun, RunEnd, LastArming, Inv, StateAt;
    StateNext(s, events, k - 1);
    if k == from + 1 {
      BeginStep(StateAt(s, events, from));
    } else {
      ResultSoFar(s, events, from, k - 1, depth);
      var t := StateAt(s, events, k - 1);
      FrameStep(t, events[k - 1], depth);
      if events[k - 1].Visit? && |t.stack| == depth && Due(t.flags, Top(t).cursor.value) {
        IdleMeans(s, events, k - 1, Top(t).cursor.value);
        assert OrdinaryCall(s, events, k - 1, depth) <==> !t.flags[Top(t).cursor.value].idle;
      } else {
        assert !OrdinaryCall(s, events, k - 1, depth);
      }
    }
  }

  lemma BeginStep(t: State)
    ensures var u := Next(t, Begin); |u.stack| == |t.stack| + 1 && !u.stack[|t.stack|].ret
  {
  }

  // ---- polls in progress, as the code goes along ----

  /** From the end of `before` to the end of `events` the stack of polls is not lower than `depth`. */
  ghost predicate Kept(s: State, before: seq<Event>, events: seq<Event>, depth: nat) {
    && IsRun(s, events) && before <= events
    && forall k: nat | |before| <= k <= |events| :: |StateAt(s, events, k).stack| >= depth
  }

  lemma KeptOne(s: State, before: seq<Event>, e: Event, depth: nat)
    requires IsRun(s, before) && IsRun(s, before + [e])
    requires |RunEnd(s, before).stack| >= depth && |RunEnd(s, before + [e]).stack| >= depth
    ensures Kept(s, before, before + [e], depth)
  {
    hide IsRun, RunEnd;
    assert (before + [e])[..|before|] == before;
    assert (before + [e])[..|before| + 1] == before + [e];
  }

  lemma KeptNone(s: State, events: seq<Event>, depth: nat)
    requires IsRun(s, events) && |RunEnd(s, events).stack| >= depth
    ensures Kept(s, events, events, depth)
  {
    hide IsRun, RunEnd;
    assert events[..|events|] == events;
  }

  lemma KeptTwice(s: State, a: seq<Event>, b: seq<Event>, c: seq<Event>, depth: nat)
    requires Kept(s, a, b, depth) && Kept(s, b, c, depth)
    ensures Kept(s, a, c, depth)
  {
    hide IsRun, StateAt;
    forall k: nat | |a| <= k <= |c| ensures |StateAt(s, c, k).stack| >= depth {
      if k <= |b| {
        StatePrefix(s, b, c, k);
      }
    }
  }

  lemma KeptOn(s: State, a: seq<Event>, b: seq<Event>, c: seq<Event>, d: seq<Event>, depth: nat)
    requires Kept(s, a, b, depth) && Kept(s, b, c, depth) && Kept(s, c, d, depth)
    ensures Kept(s, a, d, depth) && c <= d && IsRun(s, c)
  {
    hide IsRun, StateAt, Kept;
    KeptTwice(s, a, b, c, depth);
    KeptTwice(s, a, c, d, depth);
    KeptParts(s, b, c, d, depth);
  }

  lemma KeptParts(s: State, b: seq<Event>, c: seq<Event>, d: seq<Event>, depth: nat)
    requires Kept(s, b, c, depth) && Kept(s, c, d, depth)
    ensures c <= d && IsRun(s, c)
  {
  }

  /** Around a whole poll, the polls it is nested in are never left. */
  lemma PollKept(s: State, before: seq<Event>, events: seq<Event>, depth: nat)
    requires IsRun(s, before) && IsRun(s, events + [End]) && |RunEnd(s, before).stack| == depth
    requires Kept(s, before + [Begin], events, depth + 1)
    requires |RunEnd(s, events).stack| == depth + 1
    ensures Kept(s, before, events + [End], depth)
  {
    hide IsRun, RunEnd, StateAt, Next, Enabled;
    var all := events + [End];
    assert before <= before + [Begin] <= events <= all;
    AtEnd(s, before, all);
    AtEnd(s, events, all);
    StateNext(s, all, |events|);
    EndStep(StateAt(s, all, |events|));
    forall k: nat | |before| <= k <= |all| ensures |StateAt(s, all, k).stack| >= depth {
      if |before| < k < |events| {
        StatePrefix(s, events, all, k);
      }
    }
  }

  /** What a whole poll returns. */
  lemma PollResult(s: State, before: seq<Event>, events: seq<Event>, ret: bool)
    requires Init(s) && IsRun(s, before) && IsRun(s, events + [End])
    requires Kept(s, before + [Begin], events, |RunEnd(s, before).stack| + 1)
    requires |RunEnd(s, events).stack| == |RunEnd(s, before).stack| + 1 && Top(RunEnd(s, events)).ret == ret
    ensures ret <==> CalledOrdinary(s, events + [End], |before|, |RunEnd(s, before).stack| + 1)
  {
    hide IsRun, RunEnd, StateAt, LastArming, Next, Enabled, Due, OrdinaryCall;
    var all, depth, from := events + [End], |RunEnd(s, before).stack| + 1, |before|;
    assert before <= before + [Begin] <= events <= all;
    assert all[from] == (before + [Begin])[from] == Begin;
    AtEnd(s, before, all);
    AtEnd(s, events, all);
    forall i: nat | from < i <= |events| ensures |StateAt(s, all, i).stack| >= depth {
      StatePrefix(s, events, all, i);
    }
    ResultSoFar(s, all, from, |events|, depth);
    forall j: nat | from <= j < |all| && OrdinaryCall(s, all, j, depth) ensures from < j < |events| {
      CallsAreVisits(s, all, j, depth);
    }
  }

  lemma CallsAreVisits(s: State, events: seq<Event>, k: nat, depth: nat)
    requires IsRun(s, events) && k < |events| && OrdinaryCall(s, events, k, depth)
    ensures events[k] == Visit
  {
  }

  lemma AtEnd(s: State, events: seq<Event>, all: seq<Event>)
    requires IsRun(s, events) && IsRun(s, all) && events <= all
    ensures StateAt(s, all, |events|) == RunEnd(s, events)
  {
    assert all[..|events|] == events;
  }

  lemma EndStep(t: State)
    requires Enabled(t, End)
    ensures |Next(t, End).stack| == |t.stack| - 1
  {
  }
}
