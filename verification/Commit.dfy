/** bdrv_commit: copying the sectors of an overlay into its backing image. */
module Commit {
  import opened Options

  type Sector = seq<bv8>

  /** COMMIT_BUF_SECTORS */
  const BUF_SECTORS: nat := 2048

  const EIO: int := 5
  const ENOMEDIUM: int := 123
  const ENOTSUP: int := 95
  const EACCES: int := 13

  function ZeroSector(): Sector {
    seq(512, _ => 0)
  }

  /** What a reader sees at sector `x`: the overlay if it holds the sector, otherwise the backing
      image, otherwise zeros. */
  function See(overlay: seq<Option<Sector>>, backing: seq<Sector>, x: nat): Sector
    requires x < |overlay|
  {
    if overlay[x].Some? then overlay[x].value
    else if x < |backing| then backing[x]
    else ZeroSector()
  }

  ghost predicate SameImage(overlay: seq<Option<Sector>>, backing: seq<Sector>,
                            overlay': seq<Option<Sector>>, backing': seq<Sector>)
  {
    && |overlay'| == |overlay|
    && forall x: nat | x < |overlay| :: See(overlay', backing', x) == See(overlay, backing, x)
  }

  /** Every sector of the overlay below `n` is in the backing image too. */
  ghost predicate CopiedBelow(overlay: seq<Option<Sector>>, backing: seq<Sector>, n: nat) {
    forall x: nat | x < n && x < |overlay| && overlay[x].Some? :: x < |backing| && backing[x] == overlay[x].value
  }

  /** `backing'` differs from `backing` only in the sectors `from..from + n`. */
  ghost predicate ChangedOnlyIn(backing: seq<Sector>, backing': seq<Sector>, from: nat, n: nat) {
    && |backing'| == |backing|
    && forall x | 0 <= x < |backing| && !(from <= x < from + n) :: backing'[x] == backing[x]
  }

  /** Changing the backing image under sectors that the overlay holds is not visible. */
  lemma HiddenWrite(overlay: seq<Option<Sector>>, backing: seq<Sector>, backing': seq<Sector>, from: nat, n: nat)
    requires from + n <= |overlay| && ChangedOnlyIn(backing, backing', from, n)
    requires forall x | from <= x < from + n :: overlay[x].Some?
    ensures SameImage(overlay, backing, overlay, backing')
  {
    forall x: nat | x < |overlay|
      ensures See(overlay, backing', x) == See(overlay, backing, x)
    {
      assert from <= x < from + n ==> overlay[x].Some?;
    }
  }

  /** Emptying the overlay keeps the image exactly when every sector it held is what the backing
      image, or the zeros past its end, would show instead. */
  lemma EmptyExact(overlay: seq<Option<Sector>>, backing: seq<Sector>)
    ensures SameImage(overlay, backing, seq(|overlay|, _ => None), backing) <==>
            forall x: nat | x < |overlay| && overlay[x].Some? ::
              overlay[x].value == if x < |backing| then backing[x] else ZeroSector()
  {
    var empty: seq<Option<Sector>> := seq(|overlay|, _ => None);
    assert forall x: nat | x < |overlay| :: See(empty, backing, x) == if x < |backing| then backing[x] else ZeroSector();
    if SameImage(overlay, backing, empty, backing) {
      forall x: nat | x < |overlay| && overlay[x].Some?
        ensures overlay[x].value == if x < |backing| then backing[x] else ZeroSector()
      {
        assert See(empty, backing, x) == See(overlay, backing, x);
      }
    }
  }

  // ---- the environment of a commit ----

  /** The outcome of one bdrv_read or bdrv_write. A failing write may leave `junk` where it wrote. */
  datatype Io = Fine | Fails(junk: seq<Sector>)

  /**
   * What happens around a commit: the results of reopening the backing file read-write and read-only
   * (0 or an error), how long the runs are that is_allocated reports, the outcome of each read and
   * write (all is fine once the list is used up), and the result of make_empty with the sectors a
   * failing one leaves in the overlay.
   */
  datatype Env = Env(openRw: int, openRo: int, runs: seq<nat>, io: seq<Io>, empty: int, kept: set<nat>)

  datatype State = State(
    hasMedium: bool, hasBacking: bool, keepReadOnly: bool, readOnly: bool,
    overlay: seq<Option<Sector>>, backing: seq<Sector>)

  function NextIo(env: Env): Io {
    if env.io == [] then Fine else env.io[0]
  }

  function AfterIo(env: Env): Env {
    if env.io == [] then env else env.(io := env.io[1..])
  }

  /** A run of sectors in the state of the first one, at least one and at most `max` of them. */
  function Run(overlay: seq<Option<Sector>>, sector: nat, max: nat): (n: nat)
    requires sector < |overlay|
    ensures 0 < n && sector + n <= |overlay| && (0 < max ==> n <= max)
    ensures forall x | sector <= x < sector + n :: overlay[x].Some? == overlay[sector].Some?
    decreases max
  {
    if max <= 1 || sector + 1 == |overlay| || overlay[sector + 1].Some? != overlay[sector].Some? then 1
    else 1 + Run(overlay, sector + 1, max - 1)
  }

  /** The run is_allocated reports: as long as it likes within the bound. */
  function Reported(overlay: seq<Option<Sector>>, sector: nat, env: Env): (n: nat)
    requires sector < |overlay|
    ensures 0 < n <= BUF_SECTORS && sector + n <= |overlay|
    ensures forall x | sector <= x < sector + n :: overlay[x].Some? == overlay[sector].Some?
  {
    Run(overlay, sector, if env.runs == [] || env.runs[0] > BUF_SECTORS then BUF_SECTORS else env.runs[0])
  }

  function AfterRun(env: Env): Env {
    if env.runs == [] then env else env.(runs := env.runs[1..])
  }

  /** The sectors of the overlay that a run of present sectors holds. */
  function Held(overlay: seq<Option<Sector>>, sector: nat, n: nat): (buf: seq<Sector>)
    requires sector + n <= |overlay| && forall x | sector <= x < sector + n :: overlay[x].Some?
    ensures |buf| == n && forall x | sector <= x < sector + n :: buf[x - sector] == overlay[x].value
  {
    seq(n, i requires 0 <= i < n => overlay[sector + i].value)
  }

  /** The backing image with `data` at `sector`, as far as both reach. */
  function Stored(backing: seq<Sector>, sector: nat, n: nat, data: seq<Sector>): (r: seq<Sector>)
    ensures ChangedOnlyIn(backing, r, sector, n)
    ensures n == |data| && sector + n <= |backing| ==> forall x | sector <= x < sector + n :: r[x] == data[x - sector]
  {
    seq(|backing|, x requires 0 <= x < |backing| =>
      if sector <= x < sector + n && x - sector < |data| then data[x - sector] else backing[x])
  }

  /** The result of a write: it fails outside the image. */
  function WriteFails(backing: seq<Sector>, sector: nat, n: nat, env: Env): bool {
    sector + n > |backing| || NextIo(env).Fails?
  }

  function Written(backing: seq<Sector>, sector: nat, buf: seq<Sector>, env: Env): (r: seq<Sector>)
    ensures ChangedOnlyIn(backing, r, sector, |buf|)
  {
    if sector + |buf| > |backing| then backing
    else if NextIo(env).Fails? then Stored(backing, sector, |buf|, NextIo(env).junk)
    else Stored(backing, sector, |buf|, buf)
  }

  /** The copying loop from `sector` on: the backing image, what is left of the environment, and success. */
  function Copy(overlay: seq<Option<Sector>>, backing: seq<Sector>, sector: nat, env: Env): (r: (seq<Sector>, Env, bool))
    requires sector <= |overlay|
    decreases |overlay| - sector
  {
    if sector == |overlay| then (backing, env, true)
    else
      var n := Reported(overlay, sector, env);
      var env := AfterRun(env);
      if overlay[sector].None? then Copy(overlay, backing, sector + n, env)
      else if NextIo(env).Fails? then (backing, AfterIo(env), false)
      else
        var env := AfterIo(env);
        var after := Written(backing, sector, Held(overlay, sector, n), env);
        if WriteFails(backing, sector, n, env) then (after, AfterIo(env), false)
        else Copy(overlay, after, sector + n, AfterIo(env))
  }

  /** The driver's make_empty. On failure any part of the overlay may have been dropped. */
  function Emptied(overlay: seq<Option<Sector>>, env: Env): (r: seq<Option<Sector>>)
    ensures |r| == |overlay| && forall x | 0 <= x < |r| :: r[x] == overlay[x] || r[x] == None
    ensures env.empty >= 0 ==> forall x | 0 <= x < |r| :: r[x] == None
  {
    seq(|overlay|, x requires 0 <= x < |overlay| => if env.empty < 0 && x in env.kept then overlay[x] else None)
  }

  /** What bdrv_commit leaves: the state, its result, and whether every step of the copying and emptying succeeded. */
  datatype Outcome = Outcome(state: State, ret: int, allSucceeded: bool)

  /** Copying and emptying, on a writable backing image. */
  function Transfer(s: State, env: Env, canEmpty: bool): Outcome {
    var copy := Copy(s.overlay, s.backing, 0, env);
    var t := s.(backing := copy.0);
    if !copy.2 then Outcome(t, -EIO, false)
    else if !canEmpty then Outcome(t, 0, true)
    else Outcome(t.(overlay := Emptied(t.overlay, copy.1)), if copy.1.empty < 0 then copy.1.empty else 0,
                 copy.1.empty >= 0)
  }

  /** bdrv_commit, with the reopening of a backing image that was read-only. */
  function Commit(s: State, env: Env, canEmpty: bool): Outcome {
    if !s.hasMedium then Outcome(s, -ENOMEDIUM, false)
    else if !s.hasBacking then Outcome(s, -ENOTSUP, false)
    else if s.keepReadOnly then Outcome(s, -EACCES, false)
    else if !s.readOnly then Transfer(s, env, canEmpty)
    else if env.openRw < 0 then
      if env.openRo < 0 then Outcome(s.(hasMedium := false, hasBacking := false), env.openRo, false)
      else Outcome(s, env.openRw, false)
    else
      var o := Transfer(s, env, canEmpty);
      if env.openRo < 0 then Outcome(o.state.(hasMedium := false, hasBacking := false), env.openRo, o.allSucceeded)
      else Outcome(o.state, 0, o.allSucceeded)
  }

  // ---- what a commit keeps ----

  lemma SameImageTwice(a: State, b: State, c: State)
    requires SameImage(a.overlay, a.backing, b.overlay, b.backing)
    requires SameImage(b.overlay, b.backing, c.overlay, c.backing)
    ensures SameImage(a.overlay, a.backing, c.overlay, c.backing)
  {
  }

  /** The loop is never visible, and when it succeeds every sector of the overlay is copied. */
  lemma {:induction false} CopyKeeps(overlay: seq<Option<Sector>>, backing: seq<Sector>, sector: nat, env: Env)
    requires sector <= |overlay| && CopiedBelow(overlay, backing, sector)
    ensures var r := Copy(overlay, backing, sector, env);
            && SameImage(overlay, backing, overlay, r.0)
            && (r.2 ==> CopiedBelow(overlay, r.0, |overlay|))
            && r.1.empty == env.empty && r.1.kept == env.kept
    decreases |overlay| - sector
  {
    hide SameImage, Reported, Written, Held;
    if sector == |overlay| {
      SameAsIs(overlay, backing);
    } else {
      var n, run := Reported(overlay, sector, env), AfterRun(env);
      SameAsIs(overlay, backing);
      if overlay[sector].None? {
        CopyKeeps(overlay, backing, sector + n, run);
      } else if !NextIo(run).Fails? {
        var io := AfterIo(run);
        var buf := Held(overlay, sector, n);
        var after := Written(backing, sector, buf, io);
        HiddenWrite(overlay, backing, after, sector, n);
        if !WriteFails(backing, sector, n, io) {
          CopyOne(overlay, backing, sector, n, io);
          CopyKeeps(overlay, after, sector + n, AfterIo(io));
          SameImageTwice(State(true, true, false, false, overlay, backing), State(true, true, false, false, overlay, after),
                         State(true, true, false, false, overlay, Copy(overlay, after, sector + n, AfterIo(io)).0));
        }
      }
    }
  }

  lemma SameAsIs(overlay: seq<Option<Sector>>, backing: seq<Sector>)
    ensures SameImage(overlay, backing, overlay, backing)
  {
  }

  lemma CopyOne(overlay: seq<Option<Sector>>, backing: seq<Sector>, sector: nat, n: nat, env: Env)
    requires sector + n <= |overlay| && CopiedBelow(overlay, backing, sector)
    requires forall x | sector <= x < sector + n :: overlay[x].Some?
    requires !WriteFails(backing, sector, n, env)
    ensures CopiedBelow(overlay, Written(backing, sector, Held(overlay, sector, n), env), sector + n)
  {
    var after := Written(backing, sector, Held(overlay, sector, n), env);
    forall x: nat | x < sector + n && x < |overlay| && overlay[x].Some?
      ensures x < |after| && after[x] == overlay[x].value
    {
      assert x < sector ==> x < |backing| && backing[x] == overlay[x].value;
    }
  }

  /** Dropping sectors that have been copied is not visible. */
  lemma DropCopied(overlay: seq<Option<Sector>>, backing: seq<Sector>, overlay': seq<Option<Sector>>)
    requires CopiedBelow(overlay, backing, |overlay|) && |overlay'| == |overlay|
    requires forall x | 0 <= x < |overlay| :: overlay'[x] == overlay[x] || overlay'[x] == None
    ensures SameImage(overlay, backing, overlay', backing)
  {
  }

  /** Everything the overlay held is in the backing image, and the overlay is empty if it can be. */
  ghost predicate Committed(before: State, after: State, canEmpty: bool) {
    && SameImage(before.overlay, before.backing, after.overlay, after.backing)
    && if canEmpty then forall x | 0 <= x < |after.overlay| :: after.overlay[x] == None
       else after.overlay == before.overlay && CopiedBelow(after.overlay, after.backing, |after.overlay|)
  }

  lemma TransferKeeps(s: State, env: Env, canEmpty: bool)
    ensures var o := Transfer(s, env, canEmpty);
            && SameImage(s.overlay, s.backing, o.state.overlay, o.state.backing)
            && (o.allSucceeded ==> Committed(s, o.state, canEmpty))
            && (o.ret == 0 <==> o.allSucceeded)
            && o.state == s.(overlay := o.state.overlay, backing := o.state.backing)
  {
    hide Copy, SameImage;
    CopyKeeps(s.overlay, s.backing, 0, env);
    var copy := Copy(s.overlay, s.backing, 0, env);
    if copy.2 && canEmpty {
      var t := s.(backing := copy.0);
      DropCopied(s.overlay, copy.0, Emptied(s.overlay, copy.1));
      SameImageTwice(s, t, t.(overlay := Emptied(s.overlay, copy.1)));
    }
  }

  /** However a commit ends, a reader of overlay over backing sees what was there before. */
  lemma CommitKeepsImage(s: State, env: Env, canEmpty: bool)
    ensures var o := Commit(s, env, canEmpty);
            SameImage(s.overlay, s.backing, o.state.overlay, o.state.backing)
  {
    hide Transfer;
    TransferKeeps(s, env, canEmpty);
    SameAsIs(s.overlay, s.backing);
  }

  predicate Usable(s: State) {
    s.hasMedium && s.hasBacking && !s.keepReadOnly
  }

  /**
   * What a result of 0 is worth. On a usable image that could be reopened, 0 means that every step
   * succeeded exactly when the backing image was writable or no step failed: the last reopen
   * overwrites the result of the steps. Every step succeeding means committed.
   */
  lemma ResultExact(s: State, env: Env, canEmpty: bool)
    requires Usable(s) && (s.readOnly ==> env.openRw >= 0 && env.openRo >= 0)
    ensures var o := Commit(s, env, canEmpty);
            && (o.ret == 0 <==> s.readOnly || o.allSucceeded)
            && ((o.ret == 0 ==> o.allSucceeded) <==> !s.readOnly || o.allSucceeded)
            && (o.allSucceeded ==> Committed(s, o.state, canEmpty))
            && o.state.hasMedium && o.state.hasBacking
  {
    hide Transfer;
    TransferKeeps(s, env, canEmpty);
  }

  /** With a failing reopen the result is that of the reopen; without a backing image the driver is gone. */
  lemma ReopenFails(s: State, env: Env, canEmpty: bool)
    requires Usable(s) && s.readOnly && (env.openRw < 0 || env.openRo < 0)
    ensures var o := Commit(s, env, canEmpty);
            && o.ret == (if env.openRo < 0 then env.openRo else env.openRw) && o.ret < 0
            && (o.state.hasMedium <==> env.openRo >= 0) && (o.state.hasBacking <==> env.openRo >= 0)
            && (env.openRw < 0 ==> o.state.overlay == s.overlay && o.state.backing == s.backing)
  {
    hide Transfer;
    TransferKeeps(s, env, canEmpty);
  }

  ghost predicate NothingHeld(overlay: seq<Option<Sector>>) {
    forall x | 0 <= x < |overlay| :: overlay[x] == None
  }

  /** A result of 0 can be relied on, whatever reads, writes and reopens do. */
  ghost predicate Reliable(s: State, canEmpty: bool) {
    forall env: Env :: Commit(s, env, canEmpty).ret == 0 ==> Committed(s, Commit(s, env, canEmpty).state, canEmpty)
  }

  lemma ReliableRun(s: State, env: Env, canEmpty: bool)
    requires !Usable(s) || !s.readOnly || NothingHeld(s.overlay)
    ensures Commit(s, env, canEmpty).ret == 0 ==> Committed(s, Commit(s, env, canEmpty).state, canEmpty)
  {
    hide Copy;
    TransferKeeps(s, env, canEmpty);
  }

  lemma {:induction false} FirstHeld(overlay: seq<Option<Sector>>, from: nat) returns (y: nat)
    requires from <= |overlay| && exists x :: from <= x < |overlay| && overlay[x].Some?
    ensures from <= y < |overlay| && overlay[y].Some? && forall x | from <= x < y :: overlay[x].None?
    decreases |overlay| - from
  {
    if overlay[from].Some? {
      y := from;
    } else {
      y := FirstHeld(overlay, from + 1);
    }
  }

  lemma {:induction false} SkipRun(overlay: seq<Option<Sector>>, backing: seq<Sector>, sector: nat, env: Env)
    requires sector < |overlay| && overlay[sector].None? && env.runs == []
    ensures Copy(overlay, backing, sector, env) == Copy(overlay, backing, sector + Reported(overlay, sector, env), env)
  {
    hide Reported, Written, Held;
  }

  /** The loop passes over what is not held without touching anything. */
  lemma {:induction false} SkipTo(overlay: seq<Option<Sector>>, backing: seq<Sector>, sector: nat, y: nat, env: Env)
    requires sector <= y < |overlay| && overlay[y].Some? && env.runs == []
    requires forall x | sector <= x < y :: overlay[x].None?
    ensures Copy(overlay, backing, sector, env) == Copy(overlay, backing, y, env)
    decreases y - sector
  {
    hide Copy, Reported;
    if sector < y {
      var n := Reported(overlay, sector, env);
      assert overlay[sector].None?;
      assert sector + n <= y;
      SkipRun(overlay, backing, sector, env);
      SkipTo(overlay, backing, sector + n, y, env);
    }
  }

  /** A backing image that was read-only, a held sector and a failing write: the result is 0 all the same. */
  lemma FailingWriteReturnsZero(s: State, canEmpty: bool) returns (env: Env)
    requires Usable(s) && s.readOnly && !NothingHeld(s.overlay)
    ensures var o := Commit(s, env, canEmpty);
            && o.ret == 0 && !o.allSucceeded && o.state.overlay == s.overlay
            && !CopiedBelow(o.state.overlay, o.state.backing, |o.state.overlay|)
  {
    var x :| 0 <= x < |s.overlay| && s.overlay[x] != None;
    assert s.overlay[x].Some?;
    var y := FirstHeld(s.overlay, 0);
    var wrong: Sector := if s.overlay[y].value == [] then [0] else [];
    env := Env(0, 0, [], [Fine, Fails([wrong])], 0, {});
    SkipTo(s.overlay, s.backing, 0, y, env);
    WrongWrite(s.overlay, s.backing, y, wrong, env);
  }

  lemma WrongWrite(overlay: seq<Option<Sector>>, backing: seq<Sector>, y: nat, wrong: Sector, env: Env)
    requires y < |overlay| && overlay[y].Some? && overlay[y].value != wrong
    requires env == Env(0, 0, [], [Fine, Fails([wrong])], 0, {})
    ensures !Copy(overlay, backing, y, env).2
    ensures !CopiedBelow(overlay, Copy(overlay, backing, y, env).0, |overlay|)
  {
    var n := Reported(overlay, y, env);
    var io := AfterIo(env);
    assert NextIo(io) == Fails([wrong]);
    var after := Written(backing, y, Held(overlay, y, n), io);
    assert Copy(overlay, backing, y, env).0 == after;
    if y + n > |backing| {
      var z := y + n - 1;
      assert overlay[z].Some? && z >= |after|;
    } else {
      assert after[y] == wrong;
    }
  }

  /**
   * A result of 0 is a promise exactly when the commit is refused, the backing image was opened
   * read-write, or the overlay holds nothing.
   */
  lemma ReliableExact(s: State, canEmpty: bool)
    ensures Reliable(s, canEmpty) <==> !Usable(s) || !s.readOnly || NothingHeld(s.overlay)
  {
    hide Commit, Committed;
    if !Usable(s) || !s.readOnly || NothingHeld(s.overlay) {
      forall env: Env ensures Commit(s, env, canEmpty).ret == 0 ==> Committed(s, Commit(s, env, canEmpty).state, canEmpty) {
        ReliableRun(s, env, canEmpty);
      }
    } else {
      var env := FailingWriteReturnsZero(s, canEmpty);
      NotCommitted(s, Commit(s, env, canEmpty).state, canEmpty);
    }
  }

  lemma NotCommitted(s: State, t: State, canEmpty: bool)
    requires t.overlay == s.overlay && !NothingHeld(s.overlay) && !CopiedBelow(t.overlay, t.backing, |t.overlay|)
    ensures !Committed(s, t, canEmpty)
  {
  }

  // ---- the code ----

  /** An overlay on a backing image, and what its environment will do. */
  class Image {
    var hasMedium: bool
    var hasBacking: bool
    var keepReadOnly: bool
    var readOnly: bool
    var overlay: seq<Option<Sector>>
    var backing: seq<Sector>
    var env: Env

    function Abs(): State
      reads this
    {
      State(hasMedium, hasBacking, keepReadOnly, readOnly, overlay, backing)
    }

    /** The driver's is_allocated: the state of a sector, and the length of a run in that state. */
    method IsAllocated(sector: nat) returns (present: bool, n: nat)
      requires sector < |overlay|
      modifies `env
      ensures present == overlay[sector].Some? && n == Reported(overlay, sector, old(env)) && env == AfterRun(old(env))
    {
      present, n := overlay[sector].Some?, Reported(overlay, sector, env);
      env := AfterRun(env);
    }

    /** bdrv_read of allocated sectors. */
    method ReadOverlay(sector: nat, n: nat) returns (ok: bool, buf: seq<Sector>)
      requires sector + n <= |overlay| && forall x | sector <= x < sector + n :: overlay[x].Some?
      modifies `env
      ensures ok == NextIo(old(env)).Fine? && buf == Held(overlay, sector, n) && env == AfterIo(old(env))
    {
      ok, buf := NextIo(env).Fine?, Held(overlay, sector, n);
      env := AfterIo(env);
    }

    /** bdrv_write to the backing image. */
    method WriteBacking(sector: nat, buf: seq<Sector>) returns (ok: bool)
      modifies `backing, `env
      ensures ok == !WriteFails(old(backing), sector, |buf|, old(env)) && env == AfterIo(old(env))
      ensures backing == Written(old(backing), sector, buf, old(env))
    {
      ok := !WriteFails(backing, sector, |buf|, env);
      backing := Written(backing, sector, buf, env);
      env := AfterIo(env);
    }

    /** The copying loop and make_empty. */
    method CopyAndEmpty(canEmpty: bool) returns (ret: int)
      modifies `overlay, `backing, `env
      ensures Abs() == Transfer(old(Abs()), old(env), canEmpty).state
      ensures ret == Transfer(old(Abs()), old(env), canEmpty).ret
      ensures env.openRw == old(env).openRw && env.openRo == old(env).openRo
    {
      hide Reported, Written, Held;
      var sector: nat := 0;
      while sector < |overlay|
        invariant sector <= |overlay| == |old(overlay)| && overlay == old(overlay)
        invariant env.openRw == old(env).openRw && env.openRo == old(env).openRo
        invariant Copy(overlay, old(backing), 0, old(env)) == Copy(overlay, backing, sector, env)
        decreases |overlay| - sector
      {
        var present, n := IsAllocated(sector);
        if present {
          var ok, buf := ReadOverlay(sector, n);
          if !ok {
            return -EIO;
          }
          ok := WriteBacking(sector, buf);
          if !ok {
            return -EIO;
          }
        }
        sector := sector + n;
      }
      ret := 0;
      if canEmpty {
        ret := if env.empty < 0 then env.empty else 0;
        overlay := Emptied(overlay, env);
      }
    }

    /** bdrv_commit */
    method BdrvCommit(canEmpty: bool) returns (ret: int)
      modifies this
      ensures Abs() == Commit(old(Abs()), old(env), canEmpty).state
      ensures ret == Commit(old(Abs()), old(env), canEmpty).ret
      ensures SameImage(old(overlay), old(backing), overlay, backing)
      ensures !old(hasMedium) ==> ret == -ENOMEDIUM
      ensures old(hasMedium) && !old(hasBacking) ==> ret == -ENOTSUP
      ensures old(hasMedium) && old(hasBacking) && old(keepReadOnly) ==> ret == -EACCES
      ensures !old(hasMedium) || !old(hasBacking) || old(keepReadOnly) ==> Abs() == old(Abs())
    {
      hide Transfer, SameImage;
      CommitKeepsImage(Abs(), env, canEmpty);
      if !hasMedium {
        return -ENOMEDIUM;
      }
      if !hasBacking {
        return -ENOTSUP;
      }
      if keepReadOnly {
        return -EACCES;
      }
      var ro := readOnly;
      if ro {
        var rwRet := env.openRw;
        if rwRet < 0 {
          ret := env.openRo;
          if ret < 0 {
            hasMedium, hasBacking := false, false;
            return;
          }
          return rwRet;
        }
      }
      ret := CopyAndEmpty(canEmpty);
      if ro {
        ret := env.openRo;
        if ret < 0 {
          hasMedium, hasBacking := false, false;
          return;
        }
        ret := 0;
      }
    }
  }
}
