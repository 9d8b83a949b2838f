/** multiwrite_merge itself: requests with vectors of buffers, merged in place in their array. */
module RequestMergeCode {
  import opened Bytes
  import opened RequestMerge

  const IOV_MAX: nat := 1024

  /** A write request: a start sector, a length in sectors and the buffers holding the data. */
  datatype Request = Request(sector: nat, nbSectors: nat, qiov: seq<seq<bv8>>)

  // ---- vectors ----

  /** The first `size` bytes of a vector: whole buffers, the last one cut if need be, empty ones left out. */
  function Cut(src: seq<seq<bv8>>, size: nat): (r: seq<seq<bv8>>)
    ensures |r| <= |src|
  {
    if src == [] || size == 0 then []
    else if src[0] == [] then Cut(src[1..], size)
    else if |src[0]| > size then [src[0][..size]]
    else [src[0]] + Cut(src[1..], size - |src[0]|)
  }

  lemma {:induction false} CutMeans(src: seq<seq<bv8>>, size: nat)
    ensures Flatten(Cut(src, size)) == Flatten(src)[..Min(size, |Flatten(src)|)]
  {
    hide Flatten;
    if src == [] || size == 0 {
      FlattenNone<bv8>();
    } else {
      var head, tail := src[0], src[1..];
      assert src == [head] + tail;
      FlattenCons(head, tail);
      if head == [] {
        CutMeans(tail, size);
        assert [] + Flatten(tail) == Flatten(tail);
      } else if |head| > size {
        FlattenOne(head[..size]);
        assert (head + Flatten(tail))[..size] == head[..size];
      } else {
        CutMeans(tail, size - |head|);
        FlattenCons(head, Cut(tail, size - |head|));
        PrefixBeyond(head, Flatten(tail), size);
      }
    }
  }

  lemma PrefixBeyond(a: seq<bv8>, b: seq<bv8>, size: nat)
    requires |a| <= size
    ensures (a + b)[..Min(size, |a + b|)] == a + b[..Min(size - |a|, |b|)]
  {
  }

  /** qemu_iovec_concat: append at most `size` bytes of `src`, cutting the last buffer if needed. */
  method IovecConcat(dst: seq<seq<bv8>>, src: seq<seq<bv8>>, size: nat) returns (r: seq<seq<bv8>>)
    ensures r == dst + Cut(src, size)
    ensures Flatten(r) == Flatten(dst) + Flatten(src)[..Min(size, |Flatten(src)|)]
  {
    r := dst;
    var done, i := 0, 0;
    assert src[0..] == src;
    while i < |src| && done != size
      invariant 0 <= i <= |src| && done <= size
      invariant r + Cut(src[i..], size - done) == dst + Cut(src, size)
    {
      hide Flatten;
      var iov := src[i];
      assert src[i..][1..] == src[i + 1..];
      if |iov| > 0 {
        if done + |iov| > size {
          r := r + [iov[..size - done]];
          break;
        }
        ghost var rest := Cut(src[i + 1..], size - done - |iov|);
        Associative(r, [iov], rest);
        r := r + [iov];
      }
      done := done + |iov|;
      i := i + 1;
    }
    CutMeans(src, size);
    FlattenAppend(dst, Cut(src, size));
  }

  // ---- requests ----

  /** The vector holds exactly the bytes of the request. */
  predicate Matches(r: Request) {
    |Flatten(r.qiov)| == 512 * r.nbSectors
  }

  function View(r: Request): Write {
    Write(512 * r.sector, Flatten(r.qiov))
  }

  function Views(reqs: seq<Request>): (ws: seq<Write>)
    ensures |ws| == |reqs|
  {
    seq(|reqs|, i requires 0 <= i < |reqs| => View(reqs[i]))
  }

  ghost predicate AllMatch(reqs: seq<Request>) {
    forall i | 0 <= i < |reqs| :: Matches(reqs[i])
  }

  ghost predicate SortedByStart(reqs: seq<Request>) {
    forall i, j | 0 <= i <= j < |reqs| :: reqs[i].sector <= reqs[j].sector
  }

  /** All the buffers of the requests. */
  function TotalIov(reqs: seq<Request>): nat {
    if reqs == [] then 0 else TotalIov(Front(reqs)) + |Last(reqs).qiov|
  }

  /** The merged request of two: the head of the first, a buffer of zeros for a gap, the second. */
  function JoinRequest(a: Request, b: Request): (r: Request)
    requires a.sector <= b.sector
    ensures |r.qiov| <= |a.qiov| + |b.qiov| + 1
  {
    var qiov := Cut(a.qiov, 512 * (b.sector - a.sector)) + GapBuffer(a, b) + Cut(b.qiov, |Flatten(b.qiov)|);
    Request(a.sector, |Flatten(qiov)| / 512, qiov)
  }

  function GapBuffer(a: Request, b: Request): (r: seq<seq<bv8>>)
    ensures |r| <= 1
  {
    if b.sector > a.sector + a.nbSectors then [Zeros(512 * (b.sector - a.sector - a.nbSectors))] else []
  }

  lemma JoinedSize(a: Request, b: Request)
    requires Matches(a) && Matches(b) && a.sector <= b.sector
    ensures |Join(View(a), View(b)).data| == 512 * (b.sector - a.sector + b.nbSectors)
  {
  }

  lemma GapBytes(a: Request, b: Request)
    requires Matches(a) && a.sector <= b.sector
    ensures Flatten(GapBuffer(a, b)) == if View(b).start > View(a).Stop() then Zeros(View(b).start - View(a).Stop()) else []
  {
    hide Zeros;
    if b.sector > a.sector + a.nbSectors {
      FlattenOne(Zeros(512 * (b.sector - a.sector - a.nbSectors)));
    }
  }

  lemma CutWhole(src: seq<seq<bv8>>)
    ensures Flatten(Cut(src, |Flatten(src)|)) == Flatten(src)
  {
    CutMeans(src, |Flatten(src)|);
    assert Flatten(src)[..|Flatten(src)|] == Flatten(src);
  }

  /** Joining requests joins what they write, and the vector of the result matches its sector count. */
  lemma JoinRequestMeans(a: Request, b: Request)
    requires Matches(a) && Matches(b) && a.sector <= b.sector
    ensures View(JoinRequest(a, b)) == Join(View(a), View(b)) && Matches(JoinRequest(a, b))
  {
    hide Zeros, GapBuffer, Flatten, Cut;
    var size := 512 * (b.sector - a.sector);
    var head, gap, tail := Cut(a.qiov, size), GapBuffer(a, b), Cut(b.qiov, |Flatten(b.qiov)|);
    CutMeans(a.qiov, size);
    CutWhole(b.qiov);
    GapBytes(a, b);
    FlattenAppend(head, gap);
    FlattenAppend(head + gap, tail);
    JoinedSize(a, b);
    assert Flatten(head + gap + tail) == Join(View(a), View(b)).data;
  }

  /** The joining branch of the merge loop. */
  method JoinRequests(a: Request, b: Request) returns (r: Request)
    requires a.sector <= b.sector
    ensures r == JoinRequest(a, b)
  {
    hide Flatten, Cut, Zeros;
    var last := a.sector + a.nbSectors;
    var qiov := IovecConcat([], a.qiov, 512 * (b.sector - a.sector));
    ghost var head := Cut(a.qiov, 512 * (b.sector - a.sector));
    assert qiov == head;
    if b.sector > last {
      qiov := qiov + [Zeros(512 * (b.sector - last))];
    }
    assert qiov == head + GapBuffer(a, b);
    qiov := IovecConcat(qiov, b.qiov, |Flatten(b.qiov)|);
    r := Request(a.sector, |Flatten(qiov)| / 512, qiov);
  }

  lemma InsertKeepsOrder(s: seq<Request>, x: Request, i: nat)
    requires SortedByStart(s) && i <= |s|
    requires i > 0 ==> s[i - 1].sector <= x.sector
    requires forall j | i <= j < |s| :: x.sector < s[j].sector
    ensures SortedByStart(s[..i] + [x] + s[i..])
  {
    var r := s[..i] + [x] + s[i..];
    forall j, k | 0 <= j <= k < |r| ensures r[j].sector <= r[k].sector {
      assert r[j] == if j < i then s[j] else if j == i then x else s[j - 1];
      assert r[k] == if k < i then s[k] else if k == i then x else s[k - 1];
    }
  }

  lemma InsertKeepsAll(s: seq<Request>, x: Request, i: nat)
    requires i <= |s|
    ensures multiset(s[..i] + [x] + s[i..]) == multiset(s) + multiset{x}
  {
    assert s == s[..i] + s[i..];
  }

  /** Insert a request behind those that start no later. */
  method InsertByStart(s: seq<Request>, x: Request) returns (r: seq<Request>)
    requires SortedByStart(s)
    ensures SortedByStart(r) && multiset(r) == multiset(s) + multiset{x}
  {
    var i := |s|;
    while i > 0 && s[i - 1].sector > x.sector
      invariant 0 <= i <= |s|
      invariant forall j | i <= j < |s| :: x.sector < s[j].sector
    {
      i := i - 1;
    }
    r := s[..i] + [x] + s[i..];
    InsertKeepsOrder(s, x, i);
    InsertKeepsAll(s, x, i);
  }

  /** Sorting by start sector: requests with the same start may come out in any order. */
  method SortRequests(s: seq<Request>) returns (r: seq<Request>)
    ensures SortedByStart(r) && multiset(r) == multiset(s)
  {
    r := [];
    for i := 0 to |s|
      invariant SortedByStart(r) && multiset(r) == multiset(s[..i])
    {
      assert s[..i + 1] == s[..i] + [s[i]];
      r := InsertByStart(r, s[i]);
    }
    assert s[..|s|] == s;
  }

  lemma MultisetKeeps(s: seq<Request>, r: seq<Request>)
    requires multiset(r) == multiset(s) && AllMatch(s)
    ensures |r| == |s| && AllMatch(r)
  {
    assert |r| == |multiset(r)| && |s| == |multiset(s)|;
    forall i | 0 <= i < |r| ensures Matches(r[i]) {
      assert r[i] in multiset(s);
    }
  }

  // ---- the merge ----

  lemma ViewsSorted(reqs: seq<Request>)
    requires SortedByStart(reqs)
    ensures Sorted(Views(reqs))
  {
  }

  /** The request starts no later than the end of the one standing before it. */
  predicate Touches(standing: Request, r: Request) {
    r.sector <= standing.sector + standing.nbSectors
  }

  /** The joined vector would fit. */
  predicate Fits(standing: Request, r: Request) {
    |standing.qiov| + |r.qiov| + 1 <= IOV_MAX
  }

  /** The decision of the merge loop: touching or agreed to by the driver, and short enough. */
  predicate Joined(standing: Request, r: Request, driver: (Request, Request) -> bool) {
    (Touches(standing, r) || driver(standing, r)) && Fits(standing, r)
  }

  /** The requests left when the sorted requests have been merged. */
  ghost function Left(sorted: seq<Request>, driver: (Request, Request) -> bool): (out: seq<Request>)
    requires SortedByStart(sorted) && sorted != []
    ensures 0 < |out| <= |sorted| && Last(out).sector <= Last(sorted).sector
  {
    if |sorted| == 1 then sorted
    else
      var out, r := Left(Front(sorted), driver), Last(sorted);
      if Joined(Last(out), r, driver) then Front(out) + [JoinRequest(Last(out), r)] else out + [r]
  }

  /** The request standing last when request `i` is looked at. */
  ghost function Standing(sorted: seq<Request>, i: nat, driver: (Request, Request) -> bool): Request
    requires SortedByStart(sorted) && 0 < i <= |sorted|
  {
    Last(Left(sorted[..i], driver))
  }

  /** Which requests are joined to the one standing. */
  ghost function Decisions(sorted: seq<Request>, driver: (Request, Request) -> bool): (joins: seq<bool>)
    requires SortedByStart(sorted)
    ensures |joins| == |sorted|
  {
    seq(|sorted|, i requires 0 <= i < |sorted| => i > 0 && Joined(Standing(sorted, i, driver), sorted[i], driver))
  }

  lemma FrontDecisions(sorted: seq<Request>, driver: (Request, Request) -> bool)
    requires SortedByStart(sorted) && |sorted| > 1
    ensures Front(Decisions(sorted, driver)) == Decisions(Front(sorted), driver)
    ensures Last(Decisions(sorted, driver)) == Joined(Last(Left(Front(sorted), driver)), Last(sorted), driver)
  {
    var n := |sorted| - 1;
    forall i | 0 <= i < n ensures Decisions(sorted, driver)[i] == Decisions(Front(sorted), driver)[i] {
      assert Front(sorted)[..i] == sorted[..i];
    }
    assert sorted[..n] == Front(sorted);
  }

  lemma FrontViews(reqs: seq<Request>)
    requires reqs != []
    ensures Front(Views(reqs)) == Views(Front(reqs)) && Last(Views(reqs)) == View(Last(reqs))
  {
  }

  lemma SnocViews(reqs: seq<Request>, r: Request)
    ensures Views(reqs + [r]) == Views(reqs) + [View(r)]
  {
  }

  lemma FrontOk(sorted: seq<Request>)
    requires SortedByStart(sorted) && |sorted| > 1 && AllMatch(sorted)
    ensures Front(sorted) != [] && SortedByStart(Front(sorted)) && AllMatch(Front(sorted)) && Matches(Last(sorted))
    ensures Sorted(Views(sorted)) && Sorted(Views(Front(sorted)))
  {
    ViewsSorted(sorted);
    ViewsSorted(Front(sorted));
  }

  lemma LeftUnfolds(sorted: seq<Request>, driver: (Request, Request) -> bool)
    requires SortedByStart(sorted) && |sorted| > 1 && SortedByStart(Front(sorted))
    ensures var out, r := Left(Front(sorted), driver), Last(sorted);
            && Last(out).sector <= r.sector
            && Left(sorted, driver) ==
               if Joined(Last(out), r, driver) then Front(out) + [JoinRequest(Last(out), r)] else out + [r]
  {
    hide Joined, JoinRequest;
  }

  lemma MatchesSnoc(reqs: seq<Request>, r: Request)
    requires AllMatch(reqs) && Matches(r)
    ensures AllMatch(reqs + [r]) && (reqs != [] ==> AllMatch(Front(reqs) + [r]) && Matches(Last(reqs)))
  {
  }

  /** The requests left write what the merge of the writes says, and their vectors match their counts. */
  lemma {:induction false} LeftMeans(sorted: seq<Request>, driver: (Request, Request) -> bool)
    requires SortedByStart(sorted) && sorted != [] && AllMatch(sorted)
    ensures Sorted(Views(sorted))
    ensures Views(Left(sorted, driver)) == Merged(Views(sorted), Decisions(sorted, driver))
    ensures AllMatch(Left(sorted, driver))
  {
    hide Left, Merged, Joined, View, Matches, AllMatch, JoinRequest, Join, Decisions, Views, Sorted, SortedByStart;
    ViewsSorted(sorted);
    if |sorted| == 1 {
      LeftMeansOne(sorted, driver);
    } else {
      var front, r := Front(sorted), Last(sorted);
      FrontOk(sorted);
      LeftMeans(front, driver);
      var out := Left(front, driver);
      LeftUnfolds(sorted, driver);
      FrontDecisions(sorted, driver);
      FrontViews(sorted);
      FrontViews(out);
      MergedUnfolds(Views(sorted), Decisions(sorted, driver));
      MatchesSnoc(out, r);
      if Joined(Last(out), r, driver) {
        JoinRequestMeans(Last(out), r);
        SnocViews(Front(out), JoinRequest(Last(out), r));
        MatchesSnoc(out, JoinRequest(Last(out), r));
      } else {
        SnocViews(out, r);
      }
    }
  }

  lemma LeftMeansOne(sorted: seq<Request>, driver: (Request, Request) -> bool)
    requires SortedByStart(sorted) && |sorted| == 1 && AllMatch(sorted) && Sorted(Views(sorted))
    ensures Views(Left(sorted, driver)) == Merged(Views(sorted), Decisions(sorted, driver))
    ensures AllMatch(Left(sorted, driver))
  {
  }

  /** Where the request standing ends is where the request before ends. */
  lemma {:induction false} StandingEnd(sorted: seq<Request>, i: nat, driver: (Request, Request) -> bool)
    requires SortedByStart(sorted) && 0 < i < |sorted| && AllMatch(sorted)
    ensures Matches(Standing(sorted, i, driver)) && Standing(sorted, i, driver).sector <= sorted[i].sector
    ensures Touches(Standing(sorted, i, driver), sorted[i]) <==> Views(sorted)[i].start <= Views(sorted)[i - 1].Stop()
  {
    var front := sorted[..i];
    LeftMeans(front, driver);
    FrontViews(front);
    FrontViews(Left(front, driver));
    assert Last(front) == sorted[i - 1] && Matches(Last(Left(front, driver)));
    assert Last(Views(front)) == Views(sorted)[i - 1];
  }

  // ---- the array ----

  /** After the requests up to `i`: the first `out + 1` entries are the requests left of them, the rest wait. */
  ghost predicate MergedSoFar(reqs: seq<Request>, sorted: seq<Request>, out: nat, i: nat,
                              driver: (Request, Request) -> bool)
    requires |reqs| == |sorted| && SortedByStart(sorted)
  {
    && out < i <= |sorted| && reqs[i..] == sorted[i..] && reqs[..out + 1] == Left(sorted[..i], driver)
  }

  lemma {:induction false} LeftStep(sorted: seq<Request>, i: nat, driver: (Request, Request) -> bool)
    requires SortedByStart(sorted) && 0 < i < |sorted|
    ensures var out := Left(sorted[..i], driver);
            && Last(out).sector <= sorted[i].sector
            && Left(sorted[..i + 1], driver) ==
               if Joined(Last(out), sorted[i], driver) then Front(out) + [JoinRequest(Last(out), sorted[i])]
               else out + [sorted[i]]
  {
    var now := sorted[..i + 1];
    assert Front(now) == sorted[..i] && Last(now) == sorted[i];
  }

  lemma {:induction false} TurnSees(reqs: seq<Request>, sorted: seq<Request>, out: nat, i: nat,
                                    driver: (Request, Request) -> bool)
    requires |reqs| == |sorted| && SortedByStart(sorted) && i < |sorted|
    requires MergedSoFar(reqs, sorted, out, i, driver)
    ensures reqs[i] == sorted[i] && reqs[out] == Standing(sorted, i, driver) && reqs[out].sector <= reqs[i].sector
  {
    hide Left;
    LeftStep(sorted, i, driver);
    assert reqs[i] == reqs[i..][0] == sorted[i..][0];
    assert Last(reqs[..out + 1]) == reqs[out];
  }

  lemma {:induction false} TurnKeeps(reqs: seq<Request>, sorted: seq<Request>, out: nat, i: nat,
                                     driver: (Request, Request) -> bool)
    requires |reqs| == |sorted| && SortedByStart(sorted) && i < |sorted|
    requires MergedSoFar(reqs, sorted, out, i, driver) && reqs[out].sector <= reqs[i].sector
    ensures Joined(reqs[out], reqs[i], driver) ==>
              MergedSoFar(reqs[out := JoinRequest(reqs[out], reqs[i])], sorted, out, i + 1, driver)
    ensures !Joined(reqs[out], reqs[i], driver) ==>
              MergedSoFar(reqs[out + 1 := reqs[i]], sorted, out + 1, i + 1, driver)
  {
    hide Left, Joined, JoinRequest;
    LeftStep(sorted, i, driver);
    TurnSees(reqs, sorted, out, i, driver);
    var left, joined := Left(sorted[..i], driver), JoinRequest(reqs[out], reqs[i]);
    assert left == reqs[..out] + [reqs[out]] && Front(left) == reqs[..out];
    var a, b := reqs[out := joined], reqs[out + 1 := reqs[i]];
    assert a[..out + 1] == reqs[..out] + [joined] && a[i + 1..] == reqs[i..][1..];
    assert b[..out + 2] == reqs[..out + 1] + [reqs[i]] && b[i + 1..] == reqs[i..][1..];
    assert sorted[i..][1..] == sorted[i + 1..];
  }

  /** One turn of the loop: request `i` is joined to request `out`, or becomes the next one left over. */
  method MergeNext(reqs: array<Request>, out: nat, i: nat, driver: (Request, Request) -> bool,
                   ghost sorted: seq<Request>)
    returns (newOut: nat)
    requires reqs.Length == |sorted| && SortedByStart(sorted) && i < |sorted|
    requires MergedSoFar(reqs[..], sorted, out, i, driver)
    modifies reqs
    ensures MergedSoFar(reqs[..], sorted, newOut, i + 1, driver)
  {
    hide Left, SortedByStart, JoinRequest;
    ghost var before := reqs[..];
    TurnSees(before, sorted, out, i, driver);
    TurnKeeps(before, sorted, out, i, driver);
    var last := reqs[out].sector + reqs[out].nbSectors;
    var merge := false;
    if reqs[i].sector <= last {
      merge := true;
    }
    if !merge {
      merge := driver(reqs[out], reqs[i]);
    }
    if |reqs[out].qiov| + |reqs[i].qiov| + 1 > IOV_MAX {
      merge := false;
    }
    assert merge == Joined(before[out], before[i], driver);
    if merge {
      var r := JoinRequests(reqs[out], reqs[i]);
      reqs[out] := r;
      assert reqs[..] == before[out := r];
      newOut := out;
    } else {
      newOut := out + 1;
      reqs[newOut] := reqs[i];
      assert reqs[..] == before[newOut := before[i]];
    }
  }

  /**
   * multiwrite_merge: sort the requests and join neighbours, in place. A request is joined to the
   * one standing before it exactly when the two touch or the driver agrees to that pair, and their
   * buffers together fit.
   */
  method MultiwriteMerge(reqs: array<Request>, driver: (Request, Request) -> bool)
    returns (left: nat, ghost sorted: seq<Request>)
    requires reqs.Length > 0 && AllMatch(reqs[..])
    modifies reqs
    ensures multiset(sorted) == multiset(old(reqs[..])) && |sorted| == reqs.Length && SortedByStart(sorted)
    ensures 0 < left <= reqs.Length && reqs[..left] == Left(sorted, driver)
    ensures AllMatch(sorted) && AllMatch(reqs[..left]) && Sorted(Views(sorted))
    ensures Views(reqs[..left]) == Merged(Views(sorted), Decisions(sorted, driver))
  {
    hide Left, Merged, Decisions, Sorted, Joined, JoinRequest;
    var order := SortRequests(reqs[..]);
    MultisetKeeps(reqs[..], order);
    sorted := order;
    forall i | 0 <= i < reqs.Length {
      reqs[i] := order[i];
    }
    assert reqs[..] == sorted;
    LeftOne(sorted, driver);
    var out := 0;
    for i := 1 to reqs.Length
      invariant MergedSoFar(reqs[..], sorted, out, i, driver)
    {
      out := MergeNext(reqs, out, i, driver, sorted);
    }
    left := out + 1;
    assert sorted[..reqs.Length] == sorted;
    LeftMeans(sorted, driver);
  }

  lemma LeftOne(sorted: seq<Request>, driver: (Request, Request) -> bool)
    requires SortedByStart(sorted) && sorted != []
    ensures MergedSoFar(sorted, sorted, 0, 1, driver)
  {
  }

  // ---- what the merge means for the disk ----

  /** Gap bytes are zeroed only where the driver agreed to join the request standing and the next one. */
  lemma GapsAgreed(sorted: seq<Request>, driver: (Request, Request) -> bool, p: nat)
    requires SortedByStart(sorted) && AllMatch(sorted)
    ensures InGap(Views(sorted), Decisions(sorted, driver), p) ==>
              exists i :: 0 < i < |sorted| && driver(Standing(sorted, i, driver), sorted[i])
                          && View(sorted[i - 1]).Stop() <= p < View(sorted[i]).start
  {
    hide Left, View, Fits, SortedByStart, AllMatch, Standing, Touches;
    var ws, joins := Views(sorted), Decisions(sorted, driver);
    if InGap(ws, joins, p) {
      var i :| 1 <= i < |ws| && joins[i] && ws[i - 1].Stop() <= p < ws[i].start;
      StandingEnd(sorted, i, driver);
      assert driver(Standing(sorted, i, driver), sorted[i]);
    }
  }

  /** Request `i` touches the one standing and is not joined because their buffers together are too many. */
  ghost predicate CappedAt(sorted: seq<Request>, i: nat, driver: (Request, Request) -> bool)
    requires SortedByStart(sorted) && 0 < i < |sorted|
  {
    Touches(Standing(sorted, i, driver), sorted[i]) && !Fits(Standing(sorted, i, driver), sorted[i])
  }

  ghost predicate HitsCap(sorted: seq<Request>, driver: (Request, Request) -> bool)
    requires SortedByStart(sorted)
  {
    exists i | 0 < i < |sorted| :: CappedAt(sorted, i, driver)
  }

  lemma CappedFront(sorted: seq<Request>, i: nat, driver: (Request, Request) -> bool)
    requires SortedByStart(sorted) && 0 < i < |sorted|
    ensures i < |sorted| - 1 ==> CappedAt(sorted, i, driver) == CappedAt(Front(sorted), i, driver)
    ensures i == |sorted| - 1 ==> Standing(sorted, i, driver) == Last(Left(Front(sorted), driver))
  {
    hide Left;
    if i < |sorted| - 1 {
      assert sorted[..i] == Front(sorted)[..i];
    } else {
      assert sorted[..i] == Front(sorted);
    }
  }

  lemma HitsCapFront(sorted: seq<Request>, driver: (Request, Request) -> bool)
    requires SortedByStart(sorted) && |sorted| > 1
    ensures HitsCap(sorted, driver) <==>
              || HitsCap(Front(sorted), driver)
              || (Touches(Last(Left(Front(sorted), driver)), Last(sorted))
                  && !Fits(Last(Left(Front(sorted), driver)), Last(sorted)))
  {
    hide Left, Standing;
    forall i | 0 < i < |sorted|
      ensures i < |sorted| - 1 ==> CappedAt(sorted, i, driver) == CappedAt(Front(sorted), i, driver)
      ensures i == |sorted| - 1 ==> Standing(sorted, i, driver) == Last(Left(Front(sorted), driver))
    {
      CappedFront(sorted, i, driver);
    }
    assert Standing(sorted, |sorted| - 1, driver) == Last(Left(Front(sorted), driver));
    assert CappedAt(sorted, |sorted| - 1, driver) ==> HitsCap(sorted, driver);
    if HitsCap(Front(sorted), driver) {
      var i :| 0 < i < |Front(sorted)| && CappedAt(Front(sorted), i, driver);
      assert CappedAt(sorted, i, driver);
    }
  }

  /**
   * The requests left are pairwise separated, so that they may complete in any order, exactly when
   * no touching pair is left unjoined for having too many buffers.
   */
  lemma {:induction false} ApartExact(sorted: seq<Request>, driver: (Request, Request) -> bool)
    requires SortedByStart(sorted) && sorted != [] && AllMatch(sorted)
    ensures Apart(Views(Left(sorted, driver))) <==> !HitsCap(sorted, driver)
  {
    if |sorted| > 1 {
      hide HitsCap, JoinRequest, Decisions, Merged, Join, Left, AllMatch, SortedByStart, Apart, Views, Sorted, Flatten;
      var out, r := Left(Front(sorted), driver), Last(sorted);
      FrontOk(sorted);
      ApartExact(Front(sorted), driver);
      HitsCapFront(sorted, driver);
      LeftMeans(Front(sorted), driver);
      LeftUnfolds(sorted, driver);
      MatchesSnoc(out, r);
      FrontViews(out);
      if Joined(Last(out), r, driver) {
        var j := JoinRequest(Last(out), r);
        JoinStart(Last(out), r);
        ApartReplace(Views(Front(out)), View(Last(out)), View(j));
        SnocViews(Front(out), j);
      } else {
        ApartSnoc(Views(out), View(r));
        SnocViews(out, r);
      }
      LastView(out);
    } else {
      ApartOne(sorted, driver);
    }
  }

  lemma JoinStart(a: Request, b: Request)
    requires a.sector <= b.sector
    ensures View(JoinRequest(a, b)).start == View(a).start
  {
  }

  lemma LastView(out: seq<Request>)
    requires out != []
    ensures Views(out) != [] && Views(out) == Views(Front(out)) + [View(Last(out))]
  {
  }

  lemma ApartOne(sorted: seq<Request>, driver: (Request, Request) -> bool)
    requires SortedByStart(sorted) && |sorted| == 1
    ensures Apart(Views(Left(sorted, driver))) && !HitsCap(sorted, driver)
  {
  }

  /** Only where the last one starts matters to the ones before it. */
  lemma ApartReplace(front: seq<Write>, a: Write, b: Write)
    requires a.start == b.start
    ensures Apart(front + [a]) <==> Apart(front + [b])
  {
    forall g, h | 0 <= g < h <= |front|
      ensures (front + [a])[g].Stop() == (front + [b])[g].Stop() && (front + [a])[h].start == (front + [b])[h].start
    {
    }
  }

  lemma ApartSnoc(out: seq<Write>, w: Write)
    requires out != [] && Last(out).start <= w.start
    ensures Apart(out + [w]) <==> Apart(out) && Last(out).Stop() < w.start
  {
    var now, n := out + [w], |out|;
    if Apart(now) {
      assert now[n - 1].Stop() < now[n].start;
      forall g, h | 0 <= g < h < n ensures out[g].Stop() < out[h].start {
        assert now[g].Stop() < now[h].start;
      }
    }
    if Apart(out) && Last(out).Stop() < w.start {
      forall g, h | 0 <= g < h < |now| ensures now[g].Stop() < now[h].start {
        if h == n && g < n - 1 {
          assert out[g].Stop() < out[n - 1].start;
        }
      }
    }
  }

  /** With few buffers in all no pair is refused. */
  lemma {:induction false} FewBuffers(sorted: seq<Request>, driver: (Request, Request) -> bool)
    requires SortedByStart(sorted) && sorted != []
    ensures |Last(Left(sorted, driver)).qiov| + 1 <= TotalIov(sorted) + |sorted|
    ensures TotalIov(sorted) + |sorted| <= IOV_MAX ==> !HitsCap(sorted, driver)
  {
    if |sorted| == 1 {
      assert Front(sorted) == [];
    } else {
      FewBuffers(Front(sorted), driver);
      hide HitsCap, JoinRequest;
      HitsCapFront(sorted, driver);
    }
  }

  /** When no pair is refused and the driver agrees to no pair that comes up, the touching ones are joined. */
  lemma PlainMerge(sorted: seq<Request>, driver: (Request, Request) -> bool)
    requires SortedByStart(sorted) && AllMatch(sorted) && !HitsCap(sorted, driver)
    requires forall i | 0 < i < |sorted| :: !driver(Standing(sorted, i, driver), sorted[i])
    ensures Decisions(sorted, driver) == Touching(Views(sorted))
  {
    var joins := Decisions(sorted, driver);
    forall i | 0 <= i < |joins| ensures joins[i] == Touching(Views(sorted))[i] {
      if i > 0 {
        StandingEnd(sorted, i, driver);
        assert !CappedAt(sorted, i, driver);
        assert !driver(Standing(sorted, i, driver), sorted[i]);
      }
    }
  }
}
