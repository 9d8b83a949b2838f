/** The bottom-half list as linked entries, with polls that callbacks may nest. */
module BottomHalfCode {
  import opened BottomHalf
  import opened BottomHalfResult
  import opened Options

  /** What callbacks do: the first callback of a poll does `head`, the next one the head of `tail`, and so on. */
  datatype Calls = NoCalls | Calls(head: Actions, tail: Calls)
  datatype Actions = Done | Act(action: Action, more: Actions)
  datatype Action = DoNew | DoSchedule(id: nat) | DoIdle(id: nat) | DoCancel(id: nat) | DoDelete(id: nat)
                  | DoPoll(calls: Calls)

  /** What follows the entry at `i`. */
  function After(order: seq<nat>, i: nat): Option<nat>
    requires i < |order|
  {
    if i + 1 < |order| then Some(order[i + 1]) else None
  }

  /** The links follow the order of the list, and only entries on it have one. */
  ghost predicate Linked(order: seq<nat>, first: Option<nat>, next: map<nat, Option<nat>>) {
    && first == First(order)
    && (forall id :: id in next <==> id in order)
    && (forall i {:trigger After(order, i)} | 0 <= i < |order| :: order[i] in next && next[order[i]] == After(order, i))
  }

  /** `now` is `before` with new entries in front. */
  ghost predicate Extends(now: seq<nat>, before: seq<nat>) {
    |before| <= |now| && now[|now| - |before|..] == before
  }

  lemma LinkedNew(order: seq<nat>, first: Option<nat>, next: map<nat, Option<nat>>, id: nat)
    requires Linked(order, first, next) && id !in order
    ensures Linked([id] + order, Some(id), next[id := first])
  {
    var now, links := [id] + order, next[id := first];
    forall i | 0 <= i < |now| ensures now[i] in links && links[now[i]] == After(now, i) {
      if i > 0 {
        assert now[i] == order[i - 1] && After(now, i) == After(order, i - 1);
      }
    }
  }

  lemma InAll(kept: seq<nat>, rest: seq<nat>, id: nat)
    requires rest != [] && Distinct(kept + rest)
    ensures id in kept + rest[1..] <==> id in kept + rest && id != rest[0]
  {
    var all, now, n := kept + rest, kept + rest[1..], |kept|;
    assert all[n] == rest[0];
    if id in now {
      var i :| 0 <= i < |now| && now[i] == id;
      assert now[i] == all[if i < n then i else i + 1];
    }
    if id in all && id != rest[0] {
      var i :| 0 <= i < |all| && all[i] == id;
      assert i != n && all[i] == now[if i < n then i else i - 1];
    }
  }

  /** Taking the first entry off redirects the head of the list. */
  lemma UnlinkFirst(rest: seq<nat>, first: Option<nat>, next: map<nat, Option<nat>>)
    requires rest != [] && Linked(rest, first, next) && Distinct(rest)
    ensures rest[0] in next && Linked(rest[1..], next[rest[0]], next - {rest[0]})
  {
    assert After(rest, 0) == First(rest[1..]);
    var now, links := rest[1..], next - {rest[0]};
    forall i | 0 <= i < |now| ensures now[i] in links && links[now[i]] == After(now, i) {
      assert now[i] == rest[i + 1] && rest[i + 1] != rest[0];
      assert After(now, i) == After(rest, i + 1);
    }
    forall id ensures id in links <==> id in now {
      InTail(rest, id);
    }
  }

  lemma InTail(rest: seq<nat>, id: nat)
    requires rest != [] && Distinct(rest)
    ensures id in rest[1..] <==> id in rest && id != rest[0]
  {
    assert [] + rest == rest && [] + rest[1..] == rest[1..];
    InAll([], rest, id);
  }

  /** Taking an entry out of the middle redirects one link: that of the entry before it. */
  lemma UnlinkLater(kept: seq<nat>, rest: seq<nat>, first: Option<nat>, next: map<nat, Option<nat>>)
    requires kept != [] && rest != [] && Linked(kept + rest, first, next) && Distinct(kept + rest)
    ensures var last := kept[|kept| - 1];
            && last in next && rest[0] in next
            && Linked(kept + rest[1..], first, next[last := next[rest[0]]] - {rest[0]})
  {
    hide Distinct;
    var all, n := kept + rest, |kept|;
    var now, last := kept + rest[1..], kept[n - 1];
    assert all[n] == rest[0] && all[n - 1] == last;
    LinkAt(all, first, next, n - 1);
    LinkAt(all, first, next, n);
    var links := next[last := next[rest[0]]] - {rest[0]};
    forall i | 0 <= i < |now| ensures now[i] in links && links[now[i]] == After(now, i) {
      LinksAround(all, now, n, next, i);
    }
    forall id ensures id in links <==> id in now {
      InAll(kept, rest, id);
    }
    assert First(now) == First(all);
  }

  lemma LinkAt(order: seq<nat>, first: Option<nat>, next: map<nat, Option<nat>>, i: nat)
    requires Linked(order, first, next) && i < |order|
    ensures order[i] in next && next[order[i]] == After(order, i)
  {
  }

  lemma LinksAround(all: seq<nat>, now: seq<nat>, n: nat, next: map<nat, Option<nat>>, i: nat)
    requires Distinct(all) && 0 < n < |all| && i < |now| && |now| == |all| - 1
    requires all[n] in next && all[n - 1] in next
    requires forall j | 0 <= j < |now| :: now[j] == all[if j < n then j else j + 1]
    requires forall j {:trigger After(all, j)} | 0 <= j < |all| :: all[j] in next && next[all[j]] == After(all, j)
    ensures var links := next[all[n - 1] := next[all[n]]] - {all[n]};
            now[i] in links && links[now[i]] == After(now, i)
  {
    var k := if i < n then i else i + 1;
    assert now[i] == all[k] && all[k] != all[n];
    assert After(all, n - 1).Some?;
    if k == n - 1 {
      assert After(now, i) == After(all, n);
    } else {
      assert all[k] != all[n - 1];
      if i + 1 < |now| {
        assert now[i + 1] == all[k + 1];
      }
      assert After(now, i) == After(all, k);
    }
  }

  // ---- the sweep ----

  /** The sweep has kept the entries `kept`, dropped the deleted ones among them, and has `rest` to go. */
  ghost predicate Sweeping(order: seq<nat>, all: map<nat, Flags>, kept: seq<nat>, rest: seq<nat>,
                           first: Option<nat>, next: map<nat, Option<nat>>, flags: map<nat, Flags>)
  {
    && Linked(kept + rest, first, next) && Distinct(kept + rest)
    && Live(order, all) == kept + Live(rest, all)
    && OnList(flags, kept + rest) && Surviving(all, kept, flags)
  }

  ghost predicate OnList(flags: map<nat, Flags>, order: seq<nat>) {
    forall id :: id in flags <==> id in order
  }

  /** What is left is unchanged, nothing kept is deleted, and nothing else has gone. */
  ghost predicate Surviving(all: map<nat, Flags>, kept: seq<nat>, flags: map<nat, Flags>) {
    && (forall id | id in flags :: id in all && flags[id] == all[id])
    && (forall id | id in kept :: id in all && !all[id].deleted)
    && (forall id | id in all && !all[id].deleted :: id in flags)
  }

  /** Where the pointer to a link points: the head of the list, or the link of the last entry kept. */
  function Slot(kept: seq<nat>): Option<nat> {
    if kept == [] then None else Some(kept[|kept| - 1])
  }

  lemma SweepSees(order: seq<nat>, all: map<nat, Flags>, kept: seq<nat>, rest: seq<nat>,
                  first: Option<nat>, next: map<nat, Option<nat>>, flags: map<nat, Flags>)
    requires Sweeping(order, all, kept, rest, first, next, flags)
    ensures kept == [] ==> first == First(rest)
    ensures kept != [] ==> kept[|kept| - 1] in next && next[kept[|kept| - 1]] == First(rest)
    ensures rest != [] ==> rest[0] in flags && rest[0] in next
  {
    var n := |kept|;
    if rest != [] {
      assert (kept + rest)[n] == rest[0];
    }
    if kept != [] {
      assert (kept + rest)[n - 1] == kept[n - 1];
      assert After(kept + rest, n - 1) == First(rest);
    } else {
      assert kept + rest == rest;
    }
  }

  lemma SweepDrops(order: seq<nat>, all: map<nat, Flags>, kept: seq<nat>, rest: seq<nat>,
                   first: Option<nat>, next: map<nat, Option<nat>>, flags: map<nat, Flags>)
    requires Sweeping(order, all, kept, rest, first, next, flags)
    requires rest != [] && rest[0] in flags && rest[0] in next && flags[rest[0]].deleted
    requires kept != [] ==> kept[|kept| - 1] in next
    ensures kept == [] ==> Sweeping(order, all, kept, rest[1..], next[rest[0]], next - {rest[0]}, flags - {rest[0]})
    ensures kept != [] ==>
              var last := kept[|kept| - 1];
              Sweeping(order, all, kept, rest[1..], first, next[last := next[rest[0]]] - {rest[0]}, flags - {rest[0]})
  {
    hide Live, Linked, Distinct, OnList, Surviving;
    HeadFlags(all, kept, rest, flags);
    LiveHead(rest, all);
    TailDistinct(kept, rest);
    DropFlags(all, kept, rest, flags);
    if kept == [] {
      assert kept + rest == rest && kept + rest[1..] == rest[1..];
      UnlinkFirst(rest, first, next);
    } else {
      UnlinkLater(kept, rest, first, next);
    }
  }

  lemma LiveHead(rest: seq<nat>, all: map<nat, Flags>)
    requires rest != [] && rest[0] in all
    ensures Live(rest, all) == if all[rest[0]].deleted then Live(rest[1..], all) else [rest[0]] + Live(rest[1..], all)
  {
  }

  lemma DropFlags(all: map<nat, Flags>, kept: seq<nat>, rest: seq<nat>, flags: map<nat, Flags>)
    requires Distinct(kept + rest) && rest != [] && OnList(flags, kept + rest) && Surviving(all, kept, flags)
    requires rest[0] in flags && flags[rest[0]].deleted
    ensures OnList(flags - {rest[0]}, kept + rest[1..]) && Surviving(all, kept, flags - {rest[0]})
  {
    hide Distinct;
    forall id ensures id in flags - {rest[0]} <==> id in kept + rest[1..] {
      InAll(kept, rest, id);
    }
  }

  lemma HeadFlags(all: map<nat, Flags>, kept: seq<nat>, rest: seq<nat>, flags: map<nat, Flags>)
    requires rest != [] && rest[0] in flags && Surviving(all, kept, flags)
    ensures rest[0] in all && flags[rest[0]] == all[rest[0]]
    ensures !flags[rest[0]].deleted ==> Surviving(all, kept + [rest[0]], flags)
  {
  }

  lemma TailDistinct(kept: seq<nat>, rest: seq<nat>)
    requires Distinct(kept + rest) && rest != []
    ensures Distinct(kept + rest[1..])
  {
    var all, now, n := kept + rest, kept + rest[1..], |kept|;
    forall i, j | 0 <= i < j < |now| ensures now[i] != now[j] {
      assert now[i] == all[if i < n then i else i + 1] && now[j] == all[if j < n then j else j + 1];
    }
  }

  lemma SweepKeeps(order: seq<nat>, all: map<nat, Flags>, kept: seq<nat>, rest: seq<nat>,
                   first: Option<nat>, next: map<nat, Option<nat>>, flags: map<nat, Flags>)
    requires Sweeping(order, all, kept, rest, first, next, flags)
    requires rest != [] && rest[0] in flags && !flags[rest[0]].deleted
    ensures Sweeping(order, all, kept + [rest[0]], rest[1..], first, next, flags)
  {
    hide Live, Linked, Distinct, OnList, Surviving;
    HeadFlags(all, kept, rest, flags);
    LiveHead(rest, all);
    assert kept + [rest[0]] + rest[1..] == kept + rest;
    assert kept + ([rest[0]] + Live(rest[1..], all)) == kept + [rest[0]] + Live(rest[1..], all);
  }

  lemma SweepEnds(order: seq<nat>, all: map<nat, Flags>, kept: seq<nat>,
                  first: Option<nat>, next: map<nat, Option<nat>>, flags: map<nat, Flags>)
    requires Sweeping(order, all, kept, [], first, next, flags)
    ensures kept == Live(order, all) && Linked(kept, first, next)
    ensures flags == map id | id in all && !all[id].deleted :: all[id]
  {
    assert kept + [] == kept;
  }

  lemma SweepStarts(order: seq<nat>, flags: map<nat, Flags>, first: Option<nat>, next: map<nat, Option<nat>>)
    requires Linked(order, first, next) && Distinct(order) && OnList(flags, order)
    ensures Sweeping(order, flags, [], order, first, next, flags)
  {
    assert [] + order == order;
  }

  lemma Reached(start: State, trace: seq<Event>)
    requires Init(start) && IsRun(start, trace)
    ensures Inv(RunEnd(start, trace))
  {
    InitInv(start);
    RunKeepsInv(start, trace);
  }

  lemma NewIsNew(s: State)
    requires Inv(s)
    ensures s.unused !in s.order && Extends([s.unused] + s.order, s.order)
  {
    assert ([s.unused] + s.order)[1..] == s.order;
  }

  lemma ListedParts(s: State)
    requires Inv(s)
    ensures Distinct(s.order) && OnList(s.flags, s.order)
  {
  }

  lemma ExtendsTwice(c: seq<nat>, b: seq<nat>, a: seq<nat>)
    requires Extends(c, b) && Extends(b, a)
    ensures Extends(c, a)
  {
    assert c[|c| - |a|..] == c[|c| - |b|..][|b| - |a|..];
  }

  /** `left` entries of the list are still to visit, and `bh` is the first of them. */
  ghost predicate AtLeft(order: seq<nat>, left: nat, bh: Option<nat>) {
    left <= |order| && bh == First(order[|order| - left..])
  }

  lemma ExtendsSelf(order: seq<nat>)
    ensures Extends(order, order)
  {
  }

  lemma SuffixStays(now: seq<nat>, before: seq<nat>, left: nat, bh: Option<nat>)
    requires Extends(now, before) && AtLeft(before, left, bh)
    ensures AtLeft(now, left, bh)
  {
    assert now[|now| - left..] == now[|now| - |before|..][|before| - left..];
  }

  lemma FirstIsFirst(order: seq<nat>, first: Option<nat>, next: map<nat, Option<nat>>)
    requires Linked(order, first, next)
    ensures first == First(order) && Extends(order, order)
  {
  }

  /** The saved link is the entry that follows in the list. */
  lemma LinkIsFollower(s: State, first: Option<nat>, next: map<nat, Option<nat>>, i: nat)
    requires Inv(s) && Linked(s.order, first, next) && i < |s.order|
    ensures First(s.order[i..]) == Some(s.order[i]) && s.order[i] in next && s.order[i] in s.flags
    ensures next[s.order[i]] == Follower(s.order, s.order[i]) == First(s.order[i + 1..])
  {
    FollowerAt(s.order, i);
    assert After(s.order, i) == First(s.order[i + 1..]);
  }

  lemma NoneServed(ids: seq<nat>, flags: map<nat, Flags>, log: seq<Note>, n: nat, events: seq<Event>, m: nat)
    ensures AllServed(ids[..0], flags, log, n, events, m)
  {
  }

  /** The entry about to be visited is the next one of the list as it was. */
  lemma VisitedIs(now: seq<nat>, before: seq<nat>, left: nat, bh: Option<nat>)
    requires Extends(now, before) && AtLeft(now, left, bh) && bh.Some? && left <= |before|
    ensures 0 < left && before[|before| - left] == bh.value
  {
    assert now[|now| - left] == now[|now| - |before|..][|before| - left];
  }

  lemma NothingLeftToVisit(now: seq<nat>, left: nat, before: seq<nat>)
    requires AtLeft(now, left, None) && left <= |before|
    ensures left == 0 && before[..|before| - left] == before
  {
  }

  /** What a longer run means for an entry that was due at its earlier end. */
  lemma SoFar(start: State, before: seq<Event>, trace: seq<Event>, id: nat)
    requires Init(start) && IsRun(start, trace) && IsRun(start, before) && before <= trace
    ensures var a, b := RunEnd(start, before), RunEnd(start, trace);
            && a.log <= b.log
            && (Due(a.flags, id) ==> Due(b.flags, id) || Served(b.log, |a.log|, trace, |before|, id))
  {
    var events := trace[|before|..];
    assert trace == before + events;
    DueUntil(start, before, events, id);
  }

  lemma Later(start: State, before: seq<Event>, trace: seq<Event>)
    requires Init(start) && IsRun(start, trace) && IsRun(start, before) && before <= trace
    ensures RunEnd(start, before).log <= RunEnd(start, trace).log
  {
    SoFar(start, before, trace, 0);
  }

  /** Visiting an entry serves it, if it was due and has not been served yet. */
  lemma ServedNow(visited: seq<nat>, id: nat, flags: map<nat, Flags>, s: State, n: nat, before: seq<Event>,
                  trace: seq<Event>)
    requires Enabled(s, Visit) && Top(s).cursor == Some(id) && n <= |s.log|
    requires trace != [] && |before| <= |trace| - 1
    requires AllServed(visited, flags, s.log, n, trace[..|trace| - 1], |before|)
    requires Due(flags, id) ==> Due(s.flags, id) || Served(s.log, n, trace[..|trace| - 1], |before|, id)
    ensures AllServed(visited + [id], flags, Next(s, Visit).log, n, trace, |before|)
  {
    var t := Next(s, Visit);
    AllServedGrows(visited, flags, s.log, n, trace[..|trace| - 1], |before|, t.log, trace);
    if Due(flags, id) {
      if Served(s.log, n, trace[..|trace| - 1], |before|, id) {
        ServedGrows(s.log, n, trace[..|trace| - 1], |before|, id, t.log, trace);
      } else {
        assert t.log[|s.log|] == Ran(id);
      }
    }
    hide Served, Due, Next;
  }

  lemma AllServedGrows(ids: seq<nat>, flags: map<nat, Flags>, log: seq<Note>, n: nat, events: seq<Event>, m: nat,
                       log': seq<Note>, events': seq<Event>)
    requires AllServed(ids, flags, log, n, events, m) && log <= log' && events <= events'
    ensures AllServed(ids, flags, log', n, events', m)
  {
    hide Served, Due;
    forall i | 0 <= i < |ids| && Due(flags, ids[i]) ensures Served(log', n, events', m, ids[i]) {
      ServedGrows(log, n, events, m, ids[i], log', events');
    }
  }

  class BottomHalves {
    var first: Option<nat>
    var next: map<nat, Option<nat>>
    var flags: map<nat, Flags>
    var nesting: nat
    /** The allocator: names are not used twice. */
    var unused: nat

    /** The list in order, the polls in progress, the history and the steps taken so far. */
    ghost var order: seq<nat>
    ghost var stack: seq<Frame>
    ghost var log: seq<Note>
    ghost var start: State
    ghost var trace: seq<Event>

    ghost function Abs(): State
      reads this
    {
      State(order, flags, stack, unused, log)
    }

    /** The links follow the list, and the state is one the step machine reaches. */
    ghost predicate Valid()
      reads this
    {
      && Linked(order, first, next) && nesting == |stack|
      && Init(start) && IsRun(start, trace) && RunEnd(start, trace) == Abs()
    }

    constructor ()
      ensures Valid() && nesting == 0
    {
      first, next, flags, nesting, unused := None, map[], map[], 0, 0;
      order, stack, log, trace := [], [], [], [];
      start := State([], map[], [], 0, []);
    }

    /** qemu_bh_new */
    method BhNew() returns (id: nat)
      requires Valid()
      modifies this
      ensures Valid() && start == old(start) && nesting == old(nesting) && trace == old(trace) + [New]
      ensures Abs() == Next(old(Abs()), New) && id == old(unused) && Extends(order, old(order))
    {
      hide Linked, Inv, IsRun, RunEnd;
      Reached(start, trace);
      NewIsNew(Abs());
      RunSnoc(start, trace, New);
      LinkedNew(order, first, next, unused);
      id := unused;
      flags, next := flags[id := Flags(false, false, false)], next[id := first];
      first, unused := Some(id), unused + 1;
      order, trace := [id] + order, trace + [New];
    }

    /** qemu_bh_schedule and, with `idle`, qemu_bh_schedule_idle */
    method BhSchedule(id: nat, idle: bool)
      requires Valid() && id in flags
      modifies this`flags, this`log, this`trace
      ensures Valid() && trace == old(trace) + [if idle then ScheduleIdle(id) else Schedule(id)]
      ensures Abs() == Next(old(Abs()), if idle then ScheduleIdle(id) else Schedule(id))
    {
      hide Linked, IsRun, RunEnd;
      ghost var e := if idle then ScheduleIdle(id) else Schedule(id);
      RunSnoc(start, trace, e);
      trace := trace + [e];
      if flags[id].scheduled {
        return;
      }
      flags := flags[id := flags[id].(scheduled := true, idle := idle)];
      log := log + [Armed(id)];
    }

    /** qemu_bh_cancel */
    method BhCancel(id: nat)
      requires Valid() && id in flags
      modifies this`flags, this`trace
      ensures Valid() && trace == old(trace) + [Cancel(id)] && Abs() == Next(old(Abs()), Cancel(id))
    {
      hide Linked, IsRun, RunEnd;
      RunSnoc(start, trace, Cancel(id));
      trace := trace + [Cancel(id)];
      flags := flags[id := flags[id].(scheduled := false)];
    }

    /** qemu_bh_delete */
    method BhDelete(id: nat)
      requires Valid() && id in flags
      modifies this`flags, this`log, this`trace
      ensures Valid() && trace == old(trace) + [Delete(id)] && Abs() == Next(old(Abs()), Delete(id))
    {
      hide Linked, IsRun, RunEnd;
      RunSnoc(start, trace, Delete(id));
      trace := trace + [Delete(id)];
      flags := flags[id := flags[id].(scheduled := false, deleted := true)];
      log := log + [Deleted(id)];
    }

    /** A callback called by a poll: whatever it does, it leaves the list from there on as it is. */
    method Callback(actions: Actions)
      requires Valid() && nesting > 0
      modifies this
      ensures Valid() && start == old(start) && stack == old(stack) && Extends(order, old(order))
      ensures Kept(start, old(trace), trace, |stack|)
      decreases actions
    {
      hide Linked, IsRun, RunEnd, Inv, Next, Kept;
      if actions.Act? {
        PerformAction(actions.action);
        ghost var between, traced := order, trace;
        Callback(actions.more);
        ExtendsTwice(order, between, old(order));
        KeptTwice(start, old(trace), traced, trace, |stack|);
      } else {
        ExtendsSelf(order);
        KeptNone(start, trace, |stack|);
      }
    }

    method PerformAction(action: Action)
      requires Valid() && nesting > 0
      modifies this
      ensures Valid() && start == old(start) && stack == old(stack) && Extends(order, old(order))
      ensures Kept(start, old(trace), trace, |stack|)
      decreases action
    {
      hide Linked, IsRun, RunEnd, Inv, Kept;
      KeptNone(start, trace, |stack|);
      match action {
        case DoNew => var _ := BhNew();
        case DoSchedule(id) => if id in flags { BhSchedule(id, false); }
        case DoIdle(id) => if id in flags { BhSchedule(id, true); }
        case DoCancel(id) => if id in flags { BhCancel(id); }
        case DoDelete(id) => if id in flags { BhDelete(id); }
        case DoPoll(calls) => var _, _ := BhPoll(calls);
      }
      if trace != old(trace) && !action.DoPoll? {
        KeptOne(start, old(trace), trace[|old(trace)|], |stack|);
      }
    }

    /**
     * qemu_bh_poll. Every entry on the list that is due when the poll begins is called before it
     * ends, unless its call is called off. A nested poll leaves the list as it is but for new entries
     * in front; when the outermost one returns no deleted entry is left. `last` is the state in which
     * the walk is done. The result is true exactly when the poll itself, not one nested in it, called
     * an entry that was last scheduled by qemu_bh_schedule rather than by qemu_bh_schedule_idle.
     */
    method BhPoll(calls: Calls) returns (ret: bool, ghost last: State)
      requires Valid()
      modifies this
      ensures Valid() && start == old(start) && stack == old(stack)
      ensures old(trace) + [Begin] <= trace && Enabled(last, End) && Abs() == Next(last, End)
      ensures IsRun(start, trace) && (ret <==> CalledOrdinary(start, trace, |old(trace)|, |old(stack)| + 1))
      ensures Kept(start, old(trace), trace, |old(stack)|)
      ensures AllServed(old(order), old(flags), log, |old(log)|, trace, |old(trace)|)
      ensures nesting > 0 ==> Extends(order, old(order))
      ensures nesting == 0 ==> forall id | id in flags :: !flags[id].deleted
      decreases calls, 1
    {
      hide Linked, IsRun, RunEnd, Inv, Extends, Next, AtLeft, Init, First, AllServed, Due, Served, Kept, CalledOrdinary;
      EnterPoll();
      KeptNone(start, trace, |stack|);
      ret := false;
      var bh, script := first, calls;
      ghost var left: nat := |order|;
      NoneServed(old(order), old(flags), log, |old(log)|, trace, |old(trace)|);
      while bh.Some?
        invariant start == old(start) && Walking(old(Abs()), old(trace), bh, ret, left)
        invariant script == calls || script < calls
        decreases left
      {
        hide Walking;
        bh, ret, script, left := PollTurn(bh.value, ret, script, old(Abs()), old(trace), left);
      }
      last := Abs();
      NothingLeftToVisit(order, left, old(order));
      ghost var logged, traced := log, trace;
      LeavePoll();
      PollKept(start, old(trace), traced, |old(stack)|);
      PollResult(start, old(trace), traced, ret);
      AllServedGrows(old(order), old(flags), logged, |old(log)|, traced, |old(trace)|, log, trace);
    }

    /** A poll that began in state `was` after the events `before` has `left` entries of the list to visit,
        `bh` the first of them; those before it have been served. */
    ghost predicate Walking(was: State, before: seq<Event>, bh: Option<nat>, ret: bool, left: nat)
      reads this
    {
      && Valid() && IsRun(start, before) && RunEnd(start, before) == was
      && stack == was.stack + [Frame(bh, ret)] && before + [Begin] <= trace
      && Extends(order, was.order) && AtLeft(order, left, bh) && left <= |was.order|
      && Kept(start, before + [Begin], trace, |was.stack| + 1)
      && AllServed(was.order[..|was.order| - left], was.flags, log, |was.log|, trace, |before|)
    }

    /** One turn of the loop of a poll, with the callback. */
    method PollTurn(bh: nat, ret: bool, script: Calls, ghost was: State, ghost before: seq<Event>, ghost left: nat)
      returns (after: Option<nat>, newRet: bool, more: Calls, ghost nowLeft: nat)
      requires Walking(was, before, Some(bh), ret, left)
      modifies this
      ensures start == old(start) && Walking(was, before, after, newRet, nowLeft) && nowLeft < left
      ensures more == script || more < script
      decreases script, 0
    {
      hide Linked, IsRun, RunEnd, Inv, Extends, Next, AtLeft, Init, First, AllServed, Due, Served, Kept;
      ghost var depth, walked, atVisit := |stack|, trace, Abs();
      VisitedIs(order, was.order, left, Some(bh));
      SoFar(start, before, trace, bh);
      ghost var visited := was.order[..|was.order| - left];
      assert was.order[..|was.order| - (left - 1)] == visited + [bh];
      var due: bool;
      after, newRet, due, nowLeft := VisitEntry(bh, ret, left);
      ServedNow(visited, bh, was.flags, atVisit, |was.log|, before, trace);
      ghost var logged, traced := log, trace;
      ExtendsSelf(order);
      KeptOne(start, walked, Visit, depth);
      KeptNone(start, trace, depth);
      more := script;
      if due && script.Calls? {
        Callback(script.head);
        more := script.tail;
      }
      KeptOn(start, before + [Begin], walked, traced, trace, depth);
      Later(start, traced, trace);
      AllServedGrows(visited + [bh], was.flags, logged, |was.log|, traced, |before|, log, trace);
      ExtendsTwice(order, old(order), was.order);
      SuffixStays(order, old(order), nowLeft, after);
    }

    /** The beginning of a poll. */
    method EnterPoll()
      requires Valid()
      modifies this`stack, this`nesting, this`trace
      ensures Valid() && stack == old(stack) + [Frame(first, false)] && nesting == old(nesting) + 1
      ensures trace == old(trace) + [Begin]
      ensures AtLeft(order, |order|, first) && Extends(order, order)
    {
      hide Linked, IsRun, RunEnd, Inv;
      RunSnoc(start, trace, Begin);
      FirstIsFirst(order, first, next);
      assert order[0..] == order;
      trace := trace + [Begin];
      stack := stack + [Frame(first, false)];
      nesting := nesting + 1;
    }

    /** One turn of the loop of a poll, up to the callback. */
    method VisitEntry(bh: nat, ret: bool, ghost left: nat)
      returns (after: Option<nat>, newRet: bool, due: bool, ghost nowLeft: nat)
      requires Valid() && stack != [] && Top(Abs()) == Frame(Some(bh), ret) && AtLeft(order, left, Some(bh))
      modifies this`flags, this`stack, this`log, this`trace
      ensures Valid() && stack == Below(old(Abs())) + [Frame(after, newRet)]
      ensures Enabled(old(Abs()), Visit) && Abs() == Next(old(Abs()), Visit) && trace == old(trace) + [Visit]
      ensures nowLeft == left - 1 && AtLeft(order, nowLeft, after)
      ensures due <==> !old(flags)[bh].deleted && old(flags)[bh].scheduled
    {
      hide Linked, IsRun, RunEnd, Follower, Inv;
      Reached(start, trace);
      LinkIsFollower(Abs(), first, next, |order| - left);
      RunSnoc(start, trace, Visit);
      trace := trace + [Visit];
      after, newRet, nowLeft := next[bh], ret, left - 1;
      due := !flags[bh].deleted && flags[bh].scheduled;
      if due {
        if !flags[bh].idle {
          newRet := true;
        }
        flags := flags[bh := flags[bh].(scheduled := false, idle := false)];
        log := log + [Ran(bh)];
      }
      stack := stack[..|stack| - 1] + [Frame(after, newRet)];
    }

    /** The end of a poll. */
    method LeavePoll()
      requires Valid() && stack != [] && Top(Abs()).cursor.None?
      modifies this
      ensures Valid() && start == old(start) && stack == Below(old(Abs()))
      ensures Abs() == Next(old(Abs()), End) && log == old(log) && trace == old(trace) + [End]
      ensures nesting > 0 ==> order == old(order)
      ensures nesting == 0 ==> forall id | id in flags :: !flags[id].deleted
    {
      hide Linked, IsRun, RunEnd, Live, Inv;
      Reached(start, trace);
      ListedParts(Abs());
      RunSnoc(start, trace, End);
      nesting := nesting - 1;
      if nesting == 0 {
        Sweep();
      }
      stack, trace := stack[..|stack| - 1], trace + [End];
    }

    /** The walk that unlinks and frees deleted entries through a pointer to the link before each. */
    method Sweep()
      requires Linked(order, first, next) && Distinct(order) && OnList(flags, order)
      modifies this`first, this`next, this`flags, this`order
      ensures order == Live(old(order), old(flags)) && Linked(order, first, next)
      ensures flags == map id | id in old(flags) && !old(flags)[id].deleted :: old(flags)[id]
    {
      hide Linked, Distinct, Live, Sweeping, OnList;
      ghost var kept: seq<nat>, rest := [], order;
      var bhp: Option<nat> := None;
      SweepStarts(order, flags, first, next);
      while true
        invariant Sweeping(old(order), old(flags), kept, rest, first, next, flags)
        invariant bhp == Slot(kept) && order == old(order)
        decreases |rest|
      {
        SweepSees(order, old(flags), kept, rest, first, next, flags);
        var link := if bhp.None? then first else next[bhp.value];
        if link.None? {
          break;
        }
        var bh := link.value;
        if flags[bh].deleted {
          SweepDrops(order, old(flags), kept, rest, first, next, flags);
          if bhp.None? {
            first := next[bh];
          } else {
            next := next[bhp.value := next[bh]];
          }
          next, flags := next - {bh}, flags - {bh};
        } else {
          SweepKeeps(order, old(flags), kept, rest, first, next, flags);
          bhp := Some(bh);
          kept := kept + [bh];
        }
        rest := rest[1..];
      }
      SweepEnds(order, old(flags), kept, first, next, flags);
      order := kept;
    }
  }
}
