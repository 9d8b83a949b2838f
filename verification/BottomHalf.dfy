/** Bottom halves: deferred callbacks on a list that polls may walk re-entrantly. */
module BottomHalf {
  import opened Options

  datatype Flags = Flags(scheduled: bool, idle: bool, deleted: bool)

  /** A poll in progress: the entry it saved as next, and what it will return. */
  datatype Frame = Frame(cursor: Option<nat>, ret: bool)

  /** What has happened to an entry: it became scheduled, its callback was called, it was deleted. */
  datatype Note = Armed(id: nat) | Ran(id: nat) | Deleted(id: nat)

  /**
   * The list in order, the flags of every entry not yet freed, the polls in progress (the innermost
   * last), the next unused name and the history.
   */
  datatype State = State(order: seq<nat>, flags: map<nat, Flags>, stack: seq<Frame>, unused: nat, log: seq<Note>)

  datatype Event = New | Schedule(id: nat) | ScheduleIdle(id: nat) | Cancel(id: nat) | Delete(id: nat)
                 | Begin | Visit | End

  function Top(s: State): Frame
    requires s.stack != []
  {
    s.stack[|s.stack| - 1]
  }

  function Below(s: State): seq<Frame>
    requires s.stack != []
  {
    s.stack[..|s.stack| - 1]
  }

  /** Callbacks and other code may do anything with entries not yet freed; polls go step by step. */
  predicate Enabled(s: State, e: Event) {
    match e
    case New => true
    case Schedule(id) => id in s.flags
    case ScheduleIdle(id) => id in s.flags
    case Cancel(id) => id in s.flags
    case Delete(id) => id in s.flags
    case Begin => true
    case Visit => s.stack != [] && Top(s).cursor.Some? && Top(s).cursor.value in s.flags
    case End => s.stack != [] && Top(s).cursor.None?
  }

  function First(order: seq<nat>): Option<nat> {
    if order == [] then None else Some(order[0])
  }

  /** The entry that follows `id` in the list. */
  function Follower(order: seq<nat>, id: nat): Option<nat> {
    if order == [] then None else if order[0] == id then First(order[1..]) else Follower(order[1..], id)
  }

  /** The entries not deleted, in order. */
  function Live(order: seq<nat>, flags: map<nat, Flags>): seq<nat> {
    if order == [] then []
    else (if order[0] in flags && flags[order[0]].deleted then [] else [order[0]]) + Live(order[1..], flags)
  }

  function Arm(s: State, id: nat, idle: bool): State
    requires id in s.flags
  {
    if s.flags[id].scheduled then s
    else s.(flags := s.flags[id := s.flags[id].(scheduled := true, idle := idle)], log := s.log + [Armed(id)])
  }

  /** One entry of a poll: the next entry is saved, and the callback called if it is due. */
  function Look(s: State): State
    requires Enabled(s, Visit)
  {
    var id := Top(s).cursor.value;
    var f, next := s.flags[id], Follower(s.order, id);
    if !f.deleted && f.scheduled then
      s.(flags := s.flags[id := f.(scheduled := false, idle := false)],
         stack := Below(s) + [Frame(next, Top(s).ret || !f.idle)], log := s.log + [Ran(id)])
    else s.(stack := Below(s) + [Frame(next, Top(s).ret)])
  }

  /** The end of a poll: only the outermost one removes and frees the deleted entries. */
  function Leave(s: State): State
    requires Enabled(s, End)
  {
    if |s.stack| > 1 then s.(stack := Below(s))
    else
      s.(stack := [], order := Live(s.order, s.flags),
         flags := map id | id in s.flags && !s.flags[id].deleted :: s.flags[id])
  }

  function Next(s: State, e: Event): State
    requires Enabled(s, e)
  {
    match e
    case New => s.(order := [s.unused] + s.order, flags := s.flags[s.unused := Flags(false, false, false)],
                   unused := s.unused + 1)
    case Schedule(id) => Arm(s, id, false)
    case ScheduleIdle(id) => Arm(s, id, true)
    case Cancel(id) => s.(flags := s.flags[id := s.flags[id].(scheduled := false)])
    case Delete(id) => s.(flags := s.flags[id := s.flags[id].(scheduled := false, deleted := true)],
                          log := s.log + [Deleted(id)])
    case Begin => s.(stack := s.stack + [Frame(First(s.order), false)])
    case Visit => Look(s)
    case End => Leave(s)
  }

  // ---- what every step keeps ----

  ghost predicate Distinct(order: seq<nat>) {
    forall i, j | 0 <= i < j < |order| :: order[i] != order[j]
  }

  /** The list holds every entry not freed, once. */
  ghost predicate Listed(s: State) {
    && Distinct(s.order)
    && (forall id :: id in s.flags <==> id in s.order)
    && (forall id | id in s.order :: id < s.unused)
  }

  /** No poll in progress holds an entry that has been freed. */
  ghost predicate CursorsAlive(s: State) {
    forall i | 0 <= i < |s.stack| :: s.stack[i].cursor.Some? ==> s.stack[i].cursor.value in s.flags
  }

  function Count(log: seq<Note>, n: Note): nat {
    if log == [] then 0 else Count(log[..|log| - 1], n) + (if log[|log| - 1] == n then 1 else 0)
  }

  /** Each scheduling is good for one call. */
  ghost predicate CallsEarned(s: State) {
    forall id: nat :: Earned(s, id)
  }

  ghost predicate Earned(s: State, id: nat) {
    Count(s.log, Ran(id)) + (if id in s.flags && s.flags[id].scheduled then 1 else 0) <= Count(s.log, Armed(id))
  }

  /** A deleted entry stays deleted until it is freed, and is never called again. */
  ghost predicate DeletedIdle(s: State) {
    && (forall i | 0 <= i < |s.log| :: s.log[i].id < s.unused)
    && (forall i | 0 <= i < |s.log| && s.log[i].Deleted? && s.log[i].id in s.flags :: s.flags[s.log[i].id].deleted)
    && (forall i, j | 0 <= i < j < |s.log| :: s.log[i].Deleted? && s.log[j].Ran? ==> s.log[i].id != s.log[j].id)
  }

  ghost predicate Inv(s: State) {
    Listed(s) && CursorsAlive(s) && CallsEarned(s) && DeletedIdle(s)
  }

  // ---- the list ----

  lemma {:induction false} FollowerListed(order: seq<nat>, id: nat)
    ensures Follower(order, id).Some? ==> Follower(order, id).value in order
  {
    if order != [] && order[0] != id {
      FollowerListed(order[1..], id);
    }
  }

  lemma {:induction false} FollowerAt(order: seq<nat>, i: nat)
    requires Distinct(order) && i < |order|
    ensures Follower(order, order[i]) == if i + 1 < |order| then Some(order[i + 1]) else None
  {
    if i > 0 {
      FollowerAt(order[1..], i - 1);
    }
  }

  lemma {:induction false} LiveListed(order: seq<nat>, flags: map<nat, Flags>, id: nat)
    ensures id in Live(order, flags) <==> id in order && !(id in flags && flags[id].deleted)
  {
    if order != [] {
      LiveListed(order[1..], flags, id);
    }
  }

  lemma {:induction false} LiveDistinct(order: seq<nat>, flags: map<nat, Flags>)
    requires Distinct(order)
    ensures Distinct(Live(order, flags))
  {
    if order != [] {
      LiveDistinct(order[1..], flags);
      LiveListed(order[1..], flags, order[0]);
    }
  }

  lemma CountSnoc(log: seq<Note>, m: Note, n: Note)
    ensures Count(log + [m], n) == Count(log, n) + (if m == n then 1 else 0)
  {
    assert (log + [m])[..|log|] == log;
  }

  // ---- each step ----

  lemma ListedKeeps(s: State, e: Event)
    requires Listed(s) && Enabled(s, e)
    ensures Listed(Next(s, e))
  {
    assert s.unused !in s.order;
    if e.End? && |s.stack| == 1 {
      LiveDistinct(s.order, s.flags);
      forall id ensures id in Live(s.order, s.flags) <==> id in s.order && !(id in s.flags && s.flags[id].deleted) {
        LiveListed(s.order, s.flags, id);
      }
    }
  }

  /** Only the end of the outermost poll frees entries, and then no poll holds any. */
  lemma CursorsKeep(s: State, e: Event)
    requires Listed(s) && CursorsAlive(s) && Enabled(s, e)
    ensures CursorsAlive(Next(s, e))
  {
    if e.Visit? {
      FollowerListed(s.order, Top(s).cursor.value);
    }
  }

  lemma EarnedKeeps(s: State, e: Event, id: nat)
    requires Enabled(s, e) && Earned(s, id)
    ensures Earned(Next(s, e), id)
  {
    hide Count, Follower, First, Live;
    var t := Next(s, e);
    if t.log != s.log {
      var m := t.log[|s.log|];
      assert t.log == s.log + [m];
      CountSnoc(s.log, m, Ran(id));
      CountSnoc(s.log, m, Armed(id));
    }
  }

  lemma CallsKeep(s: State, e: Event)
    requires CallsEarned(s) && Enabled(s, e)
    ensures CallsEarned(Next(s, e))
  {
    hide Earned, Next;
    forall id: nat ensures Earned(Next(s, e), id) {
      EarnedKeeps(s, e, id);
    }
  }

  lemma DeletedKeeps(s: State, e: Event)
    requires Listed(s) && DeletedIdle(s) && Enabled(s, e)
    ensures DeletedIdle(Next(s, e))
  {
  }

  lemma StepKeepsInv(s: State, e: Event)
    requires Inv(s) && Enabled(s, e)
    ensures Inv(Next(s, e))
  {
    hide Listed, CursorsAlive, CallsEarned, DeletedIdle, Next;
    ListedKeeps(s, e);
    CursorsKeep(s, e);
    CallsKeep(s, e);
    DeletedKeeps(s, e);
  }

  // ---- every run ----

  ghost predicate Init(s: State) {
    s.order == [] && s.flags == map[] && s.stack == [] && s.log == []
  }

  ghost predicate IsRun(s: State, events: seq<Event>)
    decreases |events|
  {
    events == [] || (Enabled(s, events[0]) && IsRun(Next(s, events[0]), events[1..]))
  }

  ghost function RunEnd(s: State, events: seq<Event>): State
    requires IsRun(s, events)
    decreases |events|
  {
    if events == [] then s else RunEnd(Next(s, events[0]), events[1..])
  }

  lemma {:induction false} RunKeepsInv(s: State, events: seq<Event>)
    requires Inv(s) && IsRun(s, events)
    ensures Inv(RunEnd(s, events))
    decreases |events|
  {
    hide Inv, Next;
    if events != [] {
      StepKeepsInv(s, events[0]);
      RunKeepsInv(Next(s, events[0]), events[1..]);
    }
  }

  lemma InitInv(s: State)
    requires Init(s)
    ensures Inv(s)
  {
  }

  /**
   * In every run: no poll in progress holds a freed entry, an entry is called at most once for each
   * time it was scheduled, and never after it was deleted.
   */
  lemma PollsAreSafe(s: State, events: seq<Event>)
    requires Init(s) && IsRun(s, events)
    ensures var t := RunEnd(s, events);
            && (forall f | f in t.stack && f.cursor.Some? :: f.cursor.value in t.flags)
            && (forall id: nat :: Count(t.log, Ran(id)) <= Count(t.log, Armed(id)))
            && (forall i, j | 0 <= i < j < |t.log| && t.log[i].Deleted? && t.log[j].Ran? :: t.log[i].id != t.log[j].id)
  {
    hide IsRun, RunEnd;
    InitInv(s);
    RunKeepsInv(s, events);
    var t := RunEnd(s, events);
    forall id: nat ensures Count(t.log, Ran(id)) <= Count(t.log, Armed(id)) {
      assert Earned(t, id);
    }
  }

  /** When the outermost poll returns, the deleted entries are gone and the others are as they were. */
  lemma OutermostSweeps(s: State)
    requires Inv(s) && Enabled(s, End) && |s.stack| == 1
    ensures var t := Next(s, End);
            && (forall id | id in t.flags :: !t.flags[id].deleted)
            && (forall id | id in s.flags && !s.flags[id].deleted :: id in t.order && id in t.flags && t.flags[id] == s.flags[id])
            && (forall id | id in t.order :: id in t.flags && id in s.order)
            && t.log == s.log
  {
    forall id ensures id in Live(s.order, s.flags) <==> id in s.order && !(id in s.flags && s.flags[id].deleted) {
      LiveListed(s.order, s.flags, id);
    }
  }

  lemma {:induction false} RunSnoc(s: State, events: seq<Event>, e: Event)
    requires IsRun(s, events) && Enabled(RunEnd(s, events), e)
    ensures IsRun(s, events + [e]) && RunEnd(s, events + [e]) == Next(RunEnd(s, events), e)
    decreases |events|
  {
    hide Next, Enabled;
    if events == [] {
      assert [] + [e] == [e] && [e][1..] == [];
    } else {
      assert (events + [e])[1..] == events[1..] + [e];
      RunSnoc(Next(s, events[0]), events[1..], e);
    }
  }

  // ---- progress ----

  predicate Due(flags: map<nat, Flags>, id: nat) {
    id in flags && flags[id].scheduled && !flags[id].deleted
  }

  /** Since note `n` and event `m` the entry has been called, or its call has been called off. */
  ghost predicate Served(log: seq<Note>, n: nat, events: seq<Event>, m: nat, id: nat) {
    || (exists k | n <= k < |log| :: log[k] == Ran(id))
    || (exists k | m <= k < |events| :: events[k] == Cancel(id) || events[k] == Delete(id))
  }

  lemma ServedGrows(log: seq<Note>, n: nat, events: seq<Event>, m: nat, id: nat, log': seq<Note>, events': seq<Event>)
    requires Served(log, n, events, m, id) && log <= log' && events <= events'
    ensures Served(log', n, events', m, id)
  {
    if k :| n <= k < |log| && log[k] == Ran(id) {
      assert log'[k] == Ran(id);
    } else {
      var k :| m <= k < |events| && (events[k] == Cancel(id) || events[k] == Delete(id));
      assert events'[k] == events[k];
    }
  }

  /** A due entry stays due until it is called or its call is called off. */
  lemma DueStep(s: State, e: Event, id: nat)
    requires Enabled(s, e) && Listed(s)
    ensures s.log <= Next(s, e).log
    ensures Due(s.flags, id) ==>
              Due(Next(s, e).flags, id) || Next(s, e).log == s.log + [Ran(id)] || e == Cancel(id) || e == Delete(id)
  {
  }

  lemma {:induction false} DueUntil(s: State, before: seq<Event>, events: seq<Event>, id: nat)
    requires Init(s) && IsRun(s, before + events) && IsRun(s, before)
    ensures var a, b := RunEnd(s, before), RunEnd(s, before + events);
            && a.log <= b.log
            && (Due(a.flags, id) ==> Due(b.flags, id) || Served(b.log, |a.log|, before + events, |before|, id))
    decreases |events|
  {
    hide Next, Enabled, Due, Listed, CursorsAlive, CallsEarned, DeletedIdle;
    if events == [] {
      assert before + events == before;
    } else {
      var n := |events| - 1;
      var front, e := events[..n], events[n];
      assert before + events == before + front + [e];
      RunFront(s, before + front, e);
      DueUntil(s, before, front, id);
      var a, b := RunEnd(s, before), RunEnd(s, before + front);
      InitInv(s);
      RunKeepsInv(s, before + front);
      DueStep(b, e, id);
      var c := Next(b, e);
      if Due(a.flags, id) {
        if Served(b.log, |a.log|, before + front, |before|, id) {
          ServedGrows(b.log, |a.log|, before + front, |before|, id, c.log, before + events);
        } else if c.log == b.log + [Ran(id)] {
          assert c.log[|b.log|] == Ran(id);
        } else if e == Cancel(id) || e == Delete(id) {
          assert (before + events)[|before| + n] == e;
        }
      }
    }
  }

  lemma {:induction false} RunFront(s: State, events: seq<Event>, e: Event)
    requires IsRun(s, events + [e])
    ensures IsRun(s, events) && Enabled(RunEnd(s, events), e)
    ensures RunEnd(s, events + [e]) == Next(RunEnd(s, events), e)
    decreases |events|
  {
    hide Next, Enabled;
    if events == [] {
      assert [] + [e] == [e] && [e][1..] == [];
    } else {
      assert (events + [e])[1..] == events[1..] + [e];
      RunFront(Next(s, events[0]), events[1..], e);
    }
  }

  /** Every entry of `ids` that was due has been served. */
  ghost predicate AllServed(ids: seq<nat>, flags: map<nat, Flags>, log: seq<Note>, n: nat, events: seq<Event>, m: nat) {
    forall i | 0 <= i < |ids| && Due(flags, ids[i]) :: Served(log, n, events, m, ids[i])
  }
}
