/** The bytes of a QEMUFile: numbers and names as they are put and got. */
module QemuFile {
  import Words

  type Byte = x: nat | x < 256

  const EIO: int := 5
  const EINVAL: int := 22

  // ---- numbers ----

  function Pow256(k: nat): nat {
    if k == 0 then 1 else 256 * Pow256(k - 1)
  }

  /** The low `k` bytes of a number, the most significant first. */
  function Be(n: nat, k: nat): (s: seq<Byte>)
    ensures |s| == k
  {
    if k == 0 then [] else Be(n / 256, k - 1) + [n % 256]
  }

  function FromBe(s: seq<Byte>): nat {
    if s == [] then 0 else 256 * FromBe(s[..|s| - 1]) + s[|s| - 1]
  }

  lemma {:induction false} BeRoundTrip(n: nat, k: nat)
    requires n < Pow256(k)
    ensures FromBe(Be(n, k)) == n
  {
    if k > 0 {
      assert Be(n, k)[..k - 1] == Be(n / 256, k - 1);
      BeRoundTrip(n / 256, k - 1);
    }
  }

  /** Byte `i` of a number of `k` bytes, the most significant first. */
  lemma {:induction false} BeAt(n: nat, k: nat, i: nat)
    requires i < k
    ensures Pow256(k - 1 - i) > 0 && Be(n, k)[i] == n / Pow256(k - 1 - i) % 256
  {
    PowPositive(k - 1 - i);
    if i < k - 1 {
      BeAt(n / 256, k - 1, i);
      DivideTwice(n, Pow256(k - 2 - i));
    }
  }

  lemma {:induction false} PowPositive(k: nat)
    ensures Pow256(k) > 0
  {
    if k > 0 {
      PowPositive(k - 1);
    }
  }

  lemma DivideTwice(n: nat, p: nat)
    requires p > 0
    ensures n / 256 / p == n / (256 * p)
  {
    var q, r := n / 256, n % 256;
    var a, b := q / p, q % p;
    assert n == 256 * (p * a + b) + r == (256 * p) * a + (256 * b + r);
    assert 256 * b + r < 256 * p;
    Words.QuotientUnique(n, 256 * p, a, 256 * b + r);
  }

  lemma Pow256Of8()
    ensures Pow256(8) == 0x1_0000_0000_0000_0000
  {
    assert Pow256(4) == 0x1_0000_0000;
  }

  // ---- flags and names ----

  predicate HasFlag(flags: nat, flag: nat)
    requires flag > 0
  {
    flags / flag % 2 == 1
  }

  /** A name is a C string shorter than the 256 bytes of a name buffer. */
  predicate ValidName(id: seq<Byte>) {
    |id| < 256 && 0 !in id
  }

  /** A name with its length in front, unless the record continues the block before. */
  function NameField(id: seq<Byte>, cont: bool): seq<Byte>
    requires |id| < 256
  {
    if cont then [] else [|id|] + id
  }

  // ---- reading ----

  /** What is left of the input, and whether a read has run past its end. */
  datatype Stream = Stream(input: seq<Byte>, error: bool)

  function Zeros(n: nat): seq<Byte> {
    seq(n, _ => 0)
  }

  /** Read `n` bytes; past the end of the input they are zero and an error is noted. */
  function Get(s: Stream, n: nat): (r: (seq<Byte>, Stream))
    ensures |r.0| == n && |r.1.input| <= |s.input|
    ensures n > 0 && s.input != [] ==> |r.1.input| < |s.input|
    ensures r.1.error <==> s.error || n > |s.input|
  {
    if n <= |s.input| then (s.input[..n], Stream(s.input[n..], s.error))
    else (s.input + Zeros(n - |s.input|), Stream([], true))
  }

  lemma GetPrefix(a: seq<Byte>, b: seq<Byte>, error: bool)
    ensures Get(Stream(a + b, error), |a|) == (a, Stream(b, error))
  {
  }

  /** The bytes before the first zero: what string comparison sees of a buffer. */
  function CString(s: seq<Byte>): seq<Byte> {
    if s == [] || s[0] == 0 then [] else [s[0]] + CString(s[1..])
  }

  lemma {:induction false} CStringOfName(s: seq<Byte>)
    requires 0 !in s
    ensures CString(s) == s
  {
    if s != [] {
      CStringOfName(s[1..]);
    }
  }

  lemma {:induction false} FromZeros(n: nat)
    ensures FromBe(Zeros(n)) == 0
  {
    if n > 0 {
      assert Zeros(n)[..n - 1] == Zeros(n - 1);
      FromZeros(n - 1);
    }
  }

  /** Read a length byte and as many bytes of a name. */
  function GetName(s: Stream): (r: (seq<Byte>, Stream))
    ensures |r.1.input| <= |s.input| && (s.input != [] ==> |r.1.input| < |s.input|)
    ensures s.error ==> r.1.error
  {
    var len := Get(s, 1);
    Get(len.1, len.0[0])
  }

  /** At the end of the input lengths read as zero. */
  lemma ReadsAtEnd(s: Stream)
    ensures s.input == [] ==> FromBe(Get(GetName(s).1, 8).0) == 0
  {
    if s.input == [] {
      assert GetName(s).1.input == [];
      assert [] + Zeros(8) == Zeros(8);
      FromZeros(8);
    }
  }

  lemma GetNameField(id: seq<Byte>, rest: seq<Byte>)
    requires |id| < 256
    ensures GetName(Stream(NameField(id, false) + rest, false)) == (id, Stream(rest, false))
  {
    assert NameField(id, false) + rest == [|id|] + (id + rest);
    GetPrefix([|id|], id + rest, false);
    GetPrefix(id, rest, false);
  }

  // ---- more input ----

  function Longer(s: Stream, more: seq<Byte>): Stream {
    s.(input := s.input + more)
  }

  /** A read that stays within the input does not depend on what follows it. */
  lemma GetLonger(s: Stream, n: nat, more: seq<Byte>)
    requires !Get(s, n).1.error
    ensures Get(Longer(s, more), n) == (Get(s, n).0, Longer(Get(s, n).1, more))
  {
    assert (s.input + more)[..n] == s.input[..n];
    assert (s.input + more)[n..] == s.input[n..] + more;
  }

  lemma GetNameLonger(s: Stream, more: seq<Byte>)
    requires !GetName(s).1.error
    ensures GetName(Longer(s, more)) == (GetName(s).0, Longer(GetName(s).1, more))
  {
    var len := Get(s, 1);
    GetLonger(s, 1, more);
    GetLonger(len.1, len.0[0], more);
  }
}
