/** The rate-limited buffer between the migration code and a non-blocking backend. */
module BufferedFile {
  import opened Bytes

  const EAGAIN: int := 11
  const EINVAL: int := 22

  /**
   * A QEMUFileBuffered and its backend: `delivered` is what the backend has taken, `answers` what it
   * will say to the writes still to come. A backend with no answers left is never ready again.
   */
  datatype State = State(
    buffer: seq<bv8>, capacity: nat, frozen: bool, xfer: nat, limit: nat, error: int,
    delivered: seq<bv8>, answers: seq<int>)

  /** Everything accepted: what has been delivered, then what waits in the buffer. */
  function Stream(s: State): seq<bv8> {
    s.delivered + s.buffer
  }

  /** The backend only takes some of what it is offered, or says it is not ready. */
  ghost predicate Orderly(answers: seq<int>) {
    forall i | 0 <= i < |answers| :: answers[i] > 0 || answers[i] == -EAGAIN
  }

  /** The backend's reply to a write: how many bytes it took, at most those offered, or an error. */
  function Reply(s: State, data: seq<bv8>): (r: int)
    ensures r <= |data| || s.answers == []
  {
    if s.answers == [] then -EAGAIN else if s.answers[0] > |data| then |data| else s.answers[0]
  }

  function Offer(s: State, data: seq<bv8>): (t: State)
    ensures |t.answers| <= |s.answers| && (s.answers != [] ==> |t.answers| < |s.answers|)
  {
    var r := Reply(s, data);
    s.(answers := if s.answers == [] then [] else s.answers[1..],
       delivered := if 0 < r <= |data| then s.delivered + data[..r] else s.delivered)
  }

  /** The loop of buffered_flush, from `offset` on: the state, and how far it got. */
  function FlushFrom(s: State, offset: nat): (r: (State, nat))
    requires offset <= |s.buffer|
    ensures offset <= r.1 <= |s.buffer|
    decreases |s.buffer| - offset
  {
    if offset == |s.buffer| then (s, offset)
    else
      var data := s.buffer[offset..];
      var n, t := Reply(s, data), Offer(s, data);
      if n == -EAGAIN then (t.(frozen := true), offset)
      else if n <= 0 then (t.(error := n), offset)
      else FlushFrom(t, offset + n)
  }

  function Flush(s: State): State {
    if s.error != 0 then s
    else
      var r := FlushFrom(s, 0);
      r.0.(buffer := s.buffer[r.1..])
  }

  /** The loop of buffered_put_buffer: the state, and how far it got or -EINVAL. */
  function PutFrom(s: State, data: seq<bv8>, offset: nat): (r: (State, int))
    requires offset <= |data|
    ensures r.1 == -EINVAL || offset <= r.1 <= |data|
    decreases |data| - offset
  {
    if s.frozen || offset == |data| || s.xfer > s.limit then (s, offset)
    else
      var n, t := Reply(s, data[offset..]), Offer(s, data[offset..]);
      if n == -EAGAIN then (t.(frozen := true), offset)
      else if n <= 0 then (t.(error := n), -EINVAL)
      else PutFrom(t.(xfer := t.xfer + n), data, offset + n)
  }

  function Append(s: State, data: seq<bv8>): State {
    s.(buffer := s.buffer + data,
       capacity := if |data| > s.capacity - |s.buffer| then s.capacity + |data| + 1024 else s.capacity)
  }

  /** buffered_put_buffer */
  function Put(s: State, data: seq<bv8>): (State, int) {
    if s.error != 0 then (s, s.error)
    else
      var r := PutFrom(Flush(s.(frozen := false)), data, 0);
      if r.1 < 0 then r else (Append(r.0, data[r.1..]), |data|)
  }

  // ---- conservation ----

  ghost predicate WithinCapacity(s: State) {
    |s.buffer| <= s.capacity
  }

  /** One write to the backend. */
  lemma OfferMoves(s: State, data: seq<bv8>)
    requires data != []
    ensures var n, t := Reply(s, data), Offer(s, data);
            && n <= |data|
            && t == s.(answers := t.answers, delivered := t.delivered)
            && t.delivered == s.delivered + data[..if n > 0 then n else 0]
            && (Orderly(s.answers) ==> Orderly(t.answers) && (n > 0 || n == -EAGAIN))
            && |t.answers| <= |s.answers| && (s.answers != [] ==> |t.answers| < |s.answers|)
  {
  }

  lemma Slices(s: seq<bv8>, i: nat, n: nat, j: nat)
    requires i + n <= j <= |s|
    ensures s[i..][..n] + s[i + n..j] == s[i..j]
  {
  }

  /** Flushing moves the head of the buffer to the backend and loses nothing, whatever it answers. */
  lemma {:induction false} FlushFromMoves(s: State, offset: nat)
    requires offset <= |s.buffer|
    ensures var r := FlushFrom(s, offset);
            && r.0.delivered == s.delivered + s.buffer[offset..r.1]
            && r.0.buffer == s.buffer && r.0.capacity == s.capacity && r.0.limit == s.limit && r.0.xfer == s.xfer
            && (Orderly(s.answers) ==> Orderly(r.0.answers) && r.0.error == s.error)
            && (Orderly(s.answers) && r.1 < |s.buffer| ==> r.0.frozen)
            && (r.1 == |s.buffer| ==> r.0.error == s.error)
            && (s.answers != [] && offset < |s.buffer| ==> |r.0.answers| < |s.answers|)
            && |r.0.answers| <= |s.answers|
    decreases |s.buffer| - offset
  {
    hide Reply, Offer, Orderly, FlushFrom;
    FlushStep(s, offset);
    if offset < |s.buffer| {
      var data := s.buffer[offset..];
      var n, t := Reply(s, data), Offer(s, data);
      OfferMoves(s, data);
      if n > 0 {
        FlushFromMoves(t, offset + n);
        var end := FlushFrom(t, offset + n).1;
        Slices(s.buffer, offset, n, end);
        Associative(s.delivered, data[..n], s.buffer[offset + n..end]);
      }
    }
  }

  lemma FlushConserves(s: State)
    ensures var t := Flush(s);
            && Stream(t) == Stream(s)
            && (WithinCapacity(s) ==> WithinCapacity(t))
            && (Orderly(s.answers) ==> Orderly(t.answers) && t.error == s.error)
            && (Orderly(s.answers) && s.error == 0 && t.buffer != [] ==> t.frozen)
            && t.limit == s.limit && t.capacity == s.capacity && |t.answers| <= |s.answers|
            && (s.error == 0 && s.buffer != [] && s.answers != [] ==> |t.answers| < |s.answers|)
  {
    hide FlushFrom;
    if s.error == 0 {
      FlushFromMoves(s, 0);
      var n := FlushFrom(s, 0).1;
      assert s.buffer == s.buffer[..n] + s.buffer[n..];
    }
  }

  /** Putting delivers the head of the data, on top of what had been delivered. */
  lemma {:induction false} PutFromMoves(s: State, data: seq<bv8>, offset: nat)
    requires offset <= |data|
    ensures var r := PutFrom(s, data, offset);
            && (r.1 >= 0 ==> r.0.delivered == s.delivered + data[offset..r.1])
            && s.delivered <= r.0.delivered <= s.delivered + data[offset..]
            && r.0.buffer == s.buffer && r.0.capacity == s.capacity && r.0.limit == s.limit
            && (r.1 >= 0 ==> r.0.error == s.error)
            && (s.frozen || s.xfer > s.limit ==> r.1 == offset)
            && (r.1 >= 0 ==> r.0.xfer == s.xfer + (r.1 - offset))
            && (Orderly(s.answers) ==> Orderly(r.0.answers) && r.1 >= 0)
    decreases |data| - offset
  {
    hide Reply, Offer, Orderly, PutFrom;
    PutStep(s, data, offset);
    if !(s.frozen || offset == |data| || s.xfer > s.limit) {
      var rest := data[offset..];
      var n, t := Reply(s, rest), Offer(s, rest);
      OfferMoves(s, rest);
      if n > 0 {
        var u := t.(xfer := t.xfer + n);
        PutFromMoves(u, data, offset + n);
        var end := PutFrom(u, data, offset + n).1;
        if end >= 0 {
          Slices(data, offset, n, end);
          Associative(s.delivered, rest[..n], data[offset + n..end]);
        }
        Slices(data, offset, n, |data|);
        Associative(s.delivered, rest[..n], data[offset + n..|data|]);
      }
    }
  }

  lemma AppendKeeps(s: State, data: seq<bv8>)
    ensures Append(s, data).buffer == s.buffer + data
    ensures WithinCapacity(s) ==> WithinCapacity(Append(s, data))
  {
  }

  /** Why a flush stops: the buffer is empty, the backend is not ready, or it answered 0 or an error. */
  datatype Stop = Emptied | NotReady | Failed

  /** A flush of `n` bytes by the answers alone: the bytes left, the answers left, and why it stops. */
  function Flushing(n: nat, answers: seq<int>): (r: (nat, seq<int>, Stop))
    ensures r.0 <= n && (r.2.Emptied? <==> r.0 == 0)
  {
    if n == 0 then (0, answers, Emptied)
    else if answers == [] then (n, [], NotReady)
    else if answers[0] == -EAGAIN then (n, answers[1..], NotReady)
    else if answers[0] <= 0 then (n, answers[1..], Failed)
    else Flushing(if answers[0] > n then 0 else n - answers[0], answers[1..])
  }

  /**
   * New data overtakes old: the flush stops with bytes left on an answer that is neither a count nor
   * "not ready", there is data to put within the limit, and the backend takes some of it.
   */
  predicate Overtakes(s: State, n: nat) {
    var f := Flushing(|s.buffer|, s.answers);
    f.2.Failed? && n > 0 && s.xfer <= s.limit && f.1 != [] && f.1[0] > 0
  }

  /** What the backend has is the beginning of the stream, and a put that succeeds adds its data at the end. */
  ghost predicate Ordered(s: State, data: seq<bv8>) {
    var r := Put(s, data);
    r.0.delivered <= Stream(s) + data && (r.1 >= 0 ==> Stream(r.0) == Stream(s) + data)
  }

  lemma {:induction false} FlushFromStops(s: State, offset: nat)
    requires offset <= |s.buffer|
    ensures var r, f := FlushFrom(s, offset), Flushing(|s.buffer| - offset, s.answers);
            && |s.buffer| - r.1 == f.0 && r.0.answers == f.1
            && (r.0.frozen <==> s.frozen || f.2.NotReady?)
    decreases |s.buffer| - offset
  {
    hide Offer, Flushing, FlushFrom, Reply, Orderly;
    FlushStep(s, offset);
    FlushingStep(|s.buffer| - offset, s.answers);
    if offset < |s.buffer| {
      var data := s.buffer[offset..];
      OfferMoves(s, data);
      OfferAnswers(s, data);
      var n := Reply(s, data);
      if n > 0 {
        FlushFromStops(Offer(s, data), offset + n);
      }
    }
  }

  lemma OfferAnswers(s: State, data: seq<bv8>)
    ensures Offer(s, data).answers == if s.answers == [] then [] else s.answers[1..]
    ensures Reply(s, data) == if s.answers == [] then -EAGAIN else if s.answers[0] > |data| then |data| else s.answers[0]
  {
  }

  lemma FlushingStep(n: nat, answers: seq<int>)
    ensures Flushing(n, answers) ==
            if n == 0 then (0, answers, Emptied)
            else if answers == [] then (n, [], NotReady)
            else if answers[0] == -EAGAIN then (n, answers[1..], NotReady)
            else if answers[0] <= 0 then (n, answers[1..], Failed)
            else Flushing(if answers[0] > n then 0 else n - answers[0], answers[1..])
  {
  }

  /** The flush of a put by its answers. */
  lemma FlushStops(s: State)
    requires s.error == 0
    ensures var f, t := Flushing(|s.buffer|, s.answers), Flush(s.(frozen := false));
            && |t.buffer| == f.0 && t.answers == f.1 && (t.frozen <==> f.2.NotReady?)
            && t.xfer == s.xfer && t.limit == s.limit && Stream(t) == Stream(s)
  {
    hide FlushFrom;
    FlushFromStops(s.(frozen := false), 0);
    FlushFromMoves(s.(frozen := false), 0);
    FlushConserves(s.(frozen := false));
  }

  /** Outside the guard nothing is sent past bytes that wait. */
  lemma InOrder(s: State, data: seq<bv8>)
    requires s.error == 0 && !Overtakes(s, |data|)
    ensures Ordered(s, data)
  {
    hide PutFrom, Flush, Flushing, Reply, Offer;
    var f := Flush(s.(frozen := false));
    FlushStops(s);
    PutFromMoves(f, data, 0);
    var r := PutFrom(f, data, 0);
    if f.buffer == [] {
      assert data[0..] == data && f.delivered == Stream(s);
      if r.1 >= 0 {
        assert data == data[..r.1] + data[r.1..] && data[0..r.1] == data[..r.1];
        Associative(f.delivered, data[..r.1], data[r.1..]);
      }
    } else {
      NothingDirect(f, data);
      assert data[0..] == data;
      Associative(f.delivered, f.buffer, data);
    }
  }

  /** No byte goes directly unless the backend takes one. */
  lemma NothingDirect(f: State, data: seq<bv8>)
    requires f.frozen || data == [] || f.xfer > f.limit || f.answers == [] || f.answers[0] <= 0
    ensures var r := PutFrom(f, data, 0);
            r.0.delivered == f.delivered && r.0.buffer == f.buffer && r.1 <= 0
  {
    if !f.frozen && data != [] && f.xfer <= f.limit {
      assert data[0..] == data;
      OfferMoves(f, data);
    }
  }

  /** A byte of the data goes directly when the backend takes one. */
  lemma SomeDirect(f: State, data: seq<bv8>)
    requires !f.frozen && data != [] && f.xfer <= f.limit && f.answers != [] && f.answers[0] > 0
    ensures f.delivered + [data[0]] <= PutFrom(f, data, 0).0.delivered
  {
    hide PutFrom, Reply, Offer, Orderly;
    assert data[0..] == data;
    OfferMoves(f, data);
    OfferAnswers(f, data);
    var n, t := Reply(f, data), Offer(f, data);
    PutStep(f, data, 0);
    PutFromMoves(t.(xfer := t.xfer + n), data, n);
    HeadFirst(f.delivered, data, n);
  }

  lemma HeadFirst(a: seq<bv8>, data: seq<bv8>, n: nat)
    requires 0 < n <= |data|
    ensures a + [data[0]] <= a + data[..n]
  {
  }

  function Fill(n: nat, b: bv8): (r: seq<bv8>)
    ensures |r| == n && forall i | 0 <= i < n :: r[i] == b
  {
    seq(n, _ => b)
  }

  /** Inside the guard zeros that wait are overtaken by ones that are put. */
  lemma OutOfOrder(s: State, n: nat)
    requires s.error == 0 && Overtakes(s, n)
    ensures !Ordered(s.(buffer := Fill(|s.buffer|, 0)), Fill(n, 1))
  {
    hide PutFrom, Flush, Flushing, Reply, Offer, Fill;
    var z, data := s.(buffer := Fill(|s.buffer|, 0)), Fill(n, 1);
    var f := Flush(z.(frozen := false));
    FlushStops(z);
    SomeDirect(f, data);
    PutFromMoves(f, data, 0);
    var d := PutFrom(f, data, 0).0.delivered;
    var k := |f.delivered|;
    assert d[k] == 1;
    assert (Stream(z) + data)[k] == (f.delivered + f.buffer)[k] == f.buffer[0];
    assert Stream(z)[k] == z.buffer[k - |z.delivered|];
    assert Put(z, data).0.delivered == d;
  }

  /**
   * A put keeps the bytes in order, whatever they are, exactly when it does not overtake: a condition
   * on the lengths, the transfer count and the answers of the backend.
   */
  lemma OrderExact(s: State, n: nat)
    requires s.error == 0
    ensures (forall b: seq<bv8>, d: seq<bv8> | |b| == |s.buffer| && |d| == n :: Ordered(s.(buffer := b), d))
            <==> !Overtakes(s, n)
  {
    hide Ordered, Flushing;
    if Overtakes(s, n) {
      OutOfOrder(s, n);
    } else {
      forall b: seq<bv8>, d: seq<bv8> | |b| == |s.buffer| && |d| == n ensures Ordered(s.(buffer := b), d) {
        InOrder(s.(buffer := b), d);
      }
    }
  }

  lemma NeverOvertakes(s: State, n: nat)
    requires Orderly(s.answers)
    ensures !Overtakes(s, n)
  {
    OrderlyFlushing(|s.buffer|, s.answers);
  }

  lemma {:induction false} OrderlyFlushing(n: nat, answers: seq<int>)
    requires Orderly(answers)
    ensures !Flushing(n, answers).2.Failed?
  {
    if n > 0 && answers != [] && answers[0] > 0 {
      OrderlyFlushing(if answers[0] > n then 0 else n - answers[0], answers[1..]);
    }
  }

  /** With an orderly backend every put is accepted whole and nothing is lost or reordered. */
  lemma PutConserves(s: State, data: seq<bv8>)
    requires s.error == 0 && Orderly(s.answers) && WithinCapacity(s)
    ensures var r := Put(s, data);
            && r.1 == |data| && Stream(r.0) == Stream(s) + data
            && r.0.error == 0 && Orderly(r.0.answers) && WithinCapacity(r.0)
  {
    hide PutFrom, Flush;
    var f := Flush(s.(frozen := false));
    FlushConserves(s.(frozen := false));
    PutFromMoves(f, data, 0);
    AppendKeeps(PutFrom(f, data, 0).0, data[PutFrom(f, data, 0).1..]);
    NeverOvertakes(s, |data|);
    InOrder(s, data);
  }

  /**
   * An answer of 0 or an error stops the flush without freezing, the put loop does not look at the
   * error, and the new byte overtakes the one in the buffer. After an answer of 0 no error is set.
   */
  lemma BadAnswerReorders(answer: int)
    requires answer <= 0 && answer != -EAGAIN
    ensures var s := State([1], 1, false, 0, 10, 0, [], [answer, 1]);
            && Put(s, [2]).1 == 1 && Put(s, [2]).0.error == answer
            && Put(s, [2]).0.delivered == [2] && Put(s, [2]).0.buffer == [1]
  {
    var s := State([1], 1, false, 0, 10, 0, [], [answer, 1]);
    var f := s.(answers := [1], error := answer);
    assert s.buffer[0..] == s.buffer;
    assert Offer(s, s.buffer) == s.(answers := [1]);
    assert FlushFrom(s, 0) == (f, 0);
    assert Flush(s) == f;
    var t := f.(answers := [], delivered := [2], xfer := 1);
    var data: seq<bv8> := [2];
    assert data[0..][..1] == data;
    assert Reply(f, data[0..]) == 1;
    assert f.answers[1..] == [] && f.delivered + data == data;
    assert Offer(f, data[0..]) == f.(answers := [], delivered := [2]);
    assert PutFrom(f, data, 0) == PutFrom(t, data, 1) == (t, 1);
    assert data[1..] == [];
    assert Append(t, []).buffer == [1];
  }

  // ---- runs ----

  /** buffered_rate_tick: after an error it closes the file, whose loop then does nothing. */
  function Tick(s: State): State {
    if s.error != 0 then Close(s) else if s.frozen then s else Flush(s.(xfer := 0))
  }

  function SetRate(s: State, rate: nat): State {
    if s.error != 0 then s else s.(limit := rate / 10)
  }

  datatype Op = PutOp(data: seq<bv8>) | TickOp | RateOp(rate: nat)

  function Do(s: State, op: Op): State {
    match op
    case PutOp(data) => Put(s, data).0
    case TickOp => Tick(s)
    case RateOp(rate) => SetRate(s, rate)
  }

  function Run(s: State, ops: seq<Op>): State {
    if ops == [] then s else Do(Run(s, ops[..|ops| - 1]), ops[|ops| - 1])
  }

  /** All the bytes put in a run. */
  function AllData(ops: seq<Op>): seq<bv8> {
    if ops == [] then []
    else AllData(ops[..|ops| - 1]) + (if ops[|ops| - 1].PutOp? then ops[|ops| - 1].data else [])
  }

  /** In every run with an orderly backend: accepted is delivered followed by buffered, within capacity. */
  lemma {:induction false} RunConserves(s: State, ops: seq<Op>)
    requires s.error == 0 && Orderly(s.answers) && WithinCapacity(s)
    ensures var t := Run(s, ops);
            && Stream(t) == Stream(s) + AllData(ops)
            && t.error == 0 && Orderly(t.answers) && WithinCapacity(t)
  {
    hide Put, Flush, Orderly;
    if ops == [] {
      assert Stream(s) + [] == Stream(s);
    } else {
      var front, op := ops[..|ops| - 1], ops[|ops| - 1];
      RunConserves(s, front);
      var t := Run(s, front);
      match op
      case PutOp(data) =>
        PutConserves(t, data);
        Associative(Stream(s), AllData(front), data);
      case TickOp =>
        FlushConserves(t.(xfer := 0));
        assert AllData(front) + [] == AllData(front);
      case RateOp(rate) =>
        assert AllData(front) + [] == AllData(front);
    }
  }

  /** The loop of buffered_close, as far as the backend's answers go. */
  function Close(s: State): State
    decreases |s.answers|
  {
    if s.error == 0 && s.buffer != [] && s.answers != [] then
      FlushConserves(s);
      Close(Flush(s))
    else s
  }

  /** The loop's own condition for ending. */
  predicate Closed(s: State) {
    s.error != 0 || s.buffer == []
  }

  /** A close loop that ends with an orderly backend has delivered everything; any loses nothing. */
  lemma {:induction false} CloseDelivers(s: State)
    ensures Stream(Close(s)) == Stream(s)
    ensures Orderly(s.answers) && s.error == 0 && Closed(Close(s)) ==> Close(s).delivered == Stream(s)
    decreases |s.answers|
  {
    hide Flush, Orderly;
    FlushConserves(s);
    if s.error == 0 && s.buffer != [] && s.answers != [] {
      CloseDelivers(Flush(s));
    } else {
      assert s.buffer == [] ==> Stream(s) == s.delivered;
    }
  }

  /** A close loop goes on until nothing waits, an error is set, or the backend has no more to say. */
  lemma {:induction false} CloseEnds(s: State)
    ensures Closed(Close(s)) || Close(s).answers == []
    decreases |s.answers|
  {
    hide Flush;
    if s.error == 0 && s.buffer != [] && s.answers != [] {
      FlushConserves(s);
      CloseEnds(Flush(s));
    }
  }

  /** A tick of a file that is neither failed nor frozen starts a new period, and leaves bytes waiting
      only when the backend was not ready or gave a bad answer. */
  lemma TickSettles(s: State)
    requires s.error == 0 && !s.frozen
    ensures var t, f := Tick(s), Flushing(|s.buffer|, s.answers);
            && t.xfer == 0 && t.limit == s.limit && Stream(t) == Stream(s)
            && |t.buffer| == f.0 && t.answers == f.1
            && (t.buffer == [] || t.frozen || f.2.Failed?)
            && (Orderly(s.answers) ==> t.buffer == [] || t.frozen)
  {
    hide Flush, Flushing, Orderly;
    var u := s.(xfer := 0);
    FlushStops(u);
    FlushConserves(u);
    assert u.(frozen := false) == u;
  }

  /** Only what goes past the buffer is counted, and the count stops soon after the limit. */
  lemma {:induction false} PutFromBound(s: State, data: seq<bv8>, offset: nat)
    requires offset <= |data|
    ensures var r := PutFrom(s, data, offset).0;
            r.limit == s.limit && (r.xfer == s.xfer || s.xfer < r.xfer <= s.limit + |data| - offset)
    decreases |data| - offset
  {
    hide Reply, Offer;
    if !s.frozen && offset < |data| && s.xfer <= s.limit {
      var n, t := Reply(s, data[offset..]), Offer(s, data[offset..]);
      OfferMoves(s, data[offset..]);
      if n > 0 {
        PutFromBound(t.(xfer := t.xfer + n), data, offset + n);
      }
    }
  }

  lemma PutBound(s: State, data: seq<bv8>)
    ensures var r := Put(s, data).0; r.limit == s.limit && (r.xfer == s.xfer || r.xfer <= s.limit + |data|)
  {
    hide Flush, PutFrom;
    if s.error == 0 {
      FlushStops(s);
      PutFromBound(Flush(s.(frozen := false)), data, 0);
    }
  }

  /** Between two ticks the bytes that go past the buffer exceed the limit by less than one put, whatever
      the backend answers. */
  lemma {:induction false} PeriodBound(s: State, ops: seq<Op>, most: nat)
    requires s.xfer <= s.limit + most
    requires forall i | 0 <= i < |ops| :: ops[i].PutOp? && |ops[i].data| <= most
    ensures var t := Run(s, ops); t.limit == s.limit && t.xfer <= s.limit + most
  {
    hide Put;
    if ops != [] {
      var n := |ops| - 1;
      PeriodBound(s, ops[..n], most);
      PutBound(Run(s, ops[..n]), ops[n].data);
    }
  }

  /** A rate set before a tick holds for the period after it: a tick comes every tenth of a second. */
  lemma RateHolds(s: State, rate: nat, ops: seq<Op>, most: nat)
    requires s.error == 0 && !s.frozen
    requires forall i | 0 <= i < |ops| :: ops[i].PutOp? && |ops[i].data| <= most
    ensures Run(Tick(SetRate(s, rate)), ops).xfer <= rate / 10 + most
  {
    hide Tick, Run;
    TickSettles(SetRate(s, rate));
    PeriodBound(Tick(SetRate(s, rate)), ops, most);
  }

  // ---- the code ----

  class QemuFileBuffered {
    var buffer: seq<bv8>
    var capacity: nat
    var frozen: bool
    var xfer: nat
    var limit: nat
    /** The last error of the QEMUFile this buffers for. */
    var error: int
    var delivered: seq<bv8>
    var answers: seq<int>

    function Abs(): State
      reads this
    {
      State(buffer, capacity, frozen, xfer, limit, error, delivered, answers)
    }

    constructor (bytesPerSec: nat, answers: seq<int>)
      ensures Abs() == State([], 0, false, 0, bytesPerSec / 10, 0, [], answers)
    {
      buffer, capacity, frozen, xfer, limit, error := [], 0, false, 0, bytesPerSec / 10, 0;
      delivered, this.answers := [], answers;
    }

    /** The backend's put_buffer. */
    method Backend(data: seq<bv8>) returns (ret: int)
      modifies this`answers, this`delivered
      ensures ret == Reply(old(Abs()), data) && Abs() == Offer(old(Abs()), data)
    {
      ret := Reply(Abs(), data);
      if answers != [] {
        answers := answers[1..];
      }
      if 0 < ret <= |data| {
        delivered := delivered + data[..ret];
      }
    }

    method BufferedAppend(data: seq<bv8>)
      modifies this`buffer, this`capacity
      ensures Abs() == Append(old(Abs()), data)
    {
      if |data| > capacity - |buffer| {
        capacity := capacity + |data| + 1024;
      }
      buffer := buffer + data;
    }

    method BufferedFlush()
      modifies this
      ensures Abs() == Flush(old(Abs()))
    {
      hide Reply, Offer, FlushFrom;
      if error != 0 {
        return;
      }
      var offset := 0;
      ghost var goal := FlushFrom(Abs(), 0);
      while offset < |buffer|
        invariant 0 <= offset <= |buffer| && buffer == old(buffer)
        invariant FlushFrom(Abs(), offset) == goal
      {
        FlushStep(Abs(), offset);
        OfferMoves(Abs(), buffer[offset..]);
        var ret := Backend(buffer[offset..]);
        if ret == -EAGAIN {
          frozen := true;
          break;
        }
        if ret <= 0 {
          error := ret;
          break;
        }
        offset := offset + ret;
      }
      FlushStep(Abs(), offset);
      assert goal == (Abs(), offset);
      buffer := buffer[offset..];
    }

    /** buffered_put_buffer, apart from the call that tells the client the file is ready. */
    method BufferedPutBuffer(data: seq<bv8>) returns (ret: int)
      modifies this
      ensures (Abs(), ret) == Put(old(Abs()), data)
    {
      hide Reply, Offer, Flush, PutFrom;
      if error != 0 {
        return error;
      }
      frozen := false;
      BufferedFlush();
      var offset: int := 0;
      ghost var goal := PutFrom(Abs(), data, 0);
      while !frozen && offset < |data|
        invariant 0 <= offset <= |data|
        invariant PutFrom(Abs(), data, offset) == goal
        decreases |data| - offset
      {
        PutStep(Abs(), data, offset);
        if xfer > limit {
          break;
        }
        OfferMoves(Abs(), data[offset..]);
        var n := Backend(data[offset..]);
        if n == -EAGAIN {
          frozen := true;
          PutStep(Abs(), data, offset);
          break;
        }
        if n <= 0 {
          error, offset := n, -EINVAL;
          break;
        }
        offset := offset + n;
        xfer := xfer + n;
      }
      if offset >= 0 {
        PutStep(Abs(), data, offset);
        BufferedAppend(data[offset..]);
        offset := |data|;
      }
      return offset;
    }

    /** The loop of buffered_close, until it ends or the backend has no answers left. */
    method BufferedClose() returns (ended: bool)
      modifies this
      ensures Abs() == Close(old(Abs())) && ended == Closed(Abs())
    {
      hide Flush;
      while error == 0 && buffer != [] && answers != []
        invariant Close(Abs()) == Close(old(Abs()))
        decreases |answers|
      {
        FlushConserves(Abs());
        BufferedFlush();
      }
      return error != 0 || buffer == [];
    }

    /** buffered_rate_tick, up to the call that wakes the client. On an error it closes the file. */
    method BufferedRateTick()
      modifies this
      ensures Abs() == Tick(old(Abs()))
    {
      hide Flush;
      if error != 0 {
        var _ := BufferedClose();
        return;
      }
      if frozen {
        return;
      }
      xfer := 0;
      BufferedFlush();
    }
  }

  lemma FlushStep(s: State, offset: nat)
    requires offset <= |s.buffer|
    ensures if offset == |s.buffer| then FlushFrom(s, offset) == (s, offset)
            else
              var n, t := Reply(s, s.buffer[offset..]), Offer(s, s.buffer[offset..]);
              && (n == -EAGAIN ==> FlushFrom(s, offset) == (t.(frozen := true), offset))
              && (n <= 0 && n != -EAGAIN ==> FlushFrom(s, offset) == (t.(error := n), offset))
              && (n > 0 && offset + n <= |t.buffer| ==> FlushFrom(s, offset) == FlushFrom(t, offset + n))
  {
    hide Reply, Offer;
  }

  lemma PutStep(s: State, data: seq<bv8>, offset: nat)
    requires offset <= |data|
    ensures if s.frozen || offset == |data| || s.xfer > s.limit then PutFrom(s, data, offset) == (s, offset)
            else
              var n, t := Reply(s, data[offset..]), Offer(s, data[offset..]);
              && (n == -EAGAIN ==> PutFrom(s, data, offset) == (t.(frozen := true), offset))
              && (n <= 0 && n != -EAGAIN ==> PutFrom(s, data, offset) == (t.(error := n), -EINVAL))
              && (n > 0 && offset + n <= |data| ==>
                    PutFrom(s, data, offset) == PutFrom(t.(xfer := t.xfer + n), data, offset + n))
  {
    hide Reply, Offer;
  }
}
