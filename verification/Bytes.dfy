/** Overwriting part of a buffer, and joining buffers. */
module Bytes {
  /** `o` with the elements from `at` on overwritten by `c`. */
  function Splice<T>(o: seq<T>, at: nat, c: seq<T>): (r: seq<T>)
    requires at + |c| <= |o|
    ensures |r| == |o|
  {
    o[..at] + c + o[at + |c|..]
  }

  lemma SpliceParts<T>(o: seq<T>, at: nat, c: seq<T>, r: seq<T>)
    requires at + |c| <= |o| == |r|
    requires r[..at + |c|] == o[..at] + c && r[at + |c|..] == o[at + |c|..]
    ensures r == Splice(o, at, c)
  {
    assert r == r[..at + |c|] + r[at + |c|..];
  }

  lemma SpliceRead<T>(o: seq<T>, at: nat, c: seq<T>)
    requires at + |c| <= |o|
    ensures Splice(o, at, c)[at..at + |c|] == c
    ensures Splice(o, at, c)[at + |c|..] == o[at + |c|..]
  {
  }

  lemma SpliceAll<T>(o: seq<T>, c: seq<T>)
    requires |c| == |o|
    ensures Splice(o, 0, c) == c
  {
  }

  lemma SpliceTwice<T>(o: seq<T>, at: nat, a: seq<T>, b: seq<T>)
    requires at + |a| <= |o| && |a| == |b|
    ensures Splice(Splice(o, at, a), at, b) == Splice(o, at, b)
  {
  }

  /** Two neighbouring pieces written one after the other make one piece. */
  lemma SpliceJoin<T>(o: seq<T>, at: nat, a: seq<T>, b: seq<T>)
    requires at + |a| + |b| <= |o|
    ensures Splice(Splice(o, at, a), at + |a|, b) == Splice(o, at, a + b)
  {
  }

  lemma Associative<T>(a: seq<T>, b: seq<T>, c: seq<T>)
    ensures a + b + c == a + (b + c)
  {
  }

  lemma Associative4<T>(a: seq<T>, b: seq<T>, c: seq<T>, d: seq<T>)
    ensures a + b + c + d == a + (b + (c + d)) == a + (b + c) + d
  {
  }

  /** The elements of a list of pieces. */
  function Flatten<T>(parts: seq<seq<T>>): seq<T> {
    if parts == [] then [] else Flatten(parts[..|parts| - 1]) + parts[|parts| - 1]
  }

  lemma {:induction false} FlattenAppend<T>(a: seq<seq<T>>, b: seq<seq<T>>)
    ensures Flatten(a + b) == Flatten(a) + Flatten(b)
  {
    if b == [] {
      assert a + b == a;
    } else {
      var n := |b| - 1;
      assert (a + b)[..|a + b| - 1] == a + b[..n];
      assert (a + b)[|a + b| - 1] == b[n];
      FlattenAppend(a, b[..n]);
      Associative(Flatten(a), Flatten(b[..n]), b[n]);
    }
  }

  lemma FlattenCons<T>(a: seq<T>, b: seq<seq<T>>)
    ensures Flatten([a] + b) == a + Flatten(b)
  {
    FlattenAppend([a], b);
    FlattenOne(a);
  }

  lemma FlattenNone<T>()
    ensures Flatten<T>([]) == []
  {
  }

  lemma FlattenOne<T>(a: seq<T>)
    ensures Flatten([a]) == a
  {
    assert [a][..0] == [];
    assert Flatten<T>([]) + a == a;
  }
}
