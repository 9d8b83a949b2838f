/** AES_cbc_encrypt: cipher block chaining (section 6.2 of NIST SP 800-38A) with the source's
    treatment of a partial last block. */
module Cbc {
  import opened GaloisField
  import opened AesCipher
  import opened Aes
  import opened Bytes
  import AesKeys

  function XorBytes(a: seq<bv8>, b: seq<bv8>): (r: seq<bv8>)
    requires |a| == |b|
    ensures |r| == |a|
  {
    seq(|a|, i requires 0 <= i < |a| => Add(a[i], b[i]))
  }

  lemma XorTwice(a: seq<bv8>, b: seq<bv8>)
    requires |a| == |b|
    ensures XorBytes(XorBytes(a, b), b) == a
  {
    forall i | 0 <= i < |a|
      ensures XorBytes(XorBytes(a, b), b)[i] == a[i]
    {
      CancelAdd(a[i], b[i]);
    }
  }

  lemma CancelAdd(a: bv8, b: bv8)
    ensures Add(Add(a, b), b) == a
  {
  }

  function RoundUp(n: nat): nat {
    (n + 15) / 16 * 16
  }

  /** The input block of the cipher for the last `m` bytes of a message, `|m| <= 16`: the missing
      bytes are those of the chaining value. */
  function Chained(iv: Block, m: seq<bv8>): Block
    requires |m| <= 16
  {
    XorBytes(m, iv[..|m|]) + iv[|m|..]
  }

  /** The ciphertext of `msg`, a whole number of blocks long. */
  function Encrypted(e: Block -> Block, iv: Block, msg: seq<bv8>): (c: seq<bv8>)
    ensures |c| == RoundUp(|msg|)
    decreases |msg|
  {
    if |msg| == 0 then []
    else if |msg| < 16 then e(Chained(iv, msg))
    else
      var c := e(Chained(iv, msg[..16]));
      c + Encrypted(e, c, msg[16..])
  }

  /** The chaining value left behind by encryption. */
  function EncryptedIv(e: Block -> Block, iv: Block, msg: seq<bv8>): Block
    decreases |msg|
  {
    if |msg| == 0 then iv
    else if |msg| < 16 then e(Chained(iv, msg))
    else EncryptedIv(e, e(Chained(iv, msg[..16])), msg[16..])
  }

  /** The first `n` bytes of plaintext of the blocks `c`. */
  function Decrypted(d: Block -> Block, iv: Block, c: seq<bv8>, n: nat): (msg: seq<bv8>)
    requires |c| == RoundUp(n)
    ensures |msg| == n
    decreases n
  {
    if n == 0 then []
    else if n < 16 then XorBytes(d(c[..16])[..n], iv[..n])
    else XorBytes(d(c[..16]), iv) + Decrypted(d, c[..16], c[16..], n - 16)
  }

  /** The chaining value left behind by decrypting whole blocks. */
  function DecryptedIv(iv: Block, c: seq<bv8>): Block
    requires |c| == 0 || 16 <= |c|
  {
    if |c| == 0 then iv else c[|c| - 16..]
  }

  // ---- laws ----

  /** Decryption undoes encryption for messages of every length. */
  lemma {:induction false} DecryptedEncrypted(e: Block -> Block, d: Block -> Block, iv: Block, msg: seq<bv8>)
    requires forall b: Block :: d(e(b)) == b
    ensures Decrypted(d, iv, Encrypted(e, iv, msg), |msg|) == msg
    decreases |msg|
  {
    hide XorBytes, RoundUp;
    var c := Encrypted(e, iv, msg);
    if |msg| == 0 {
    } else if |msg| < 16 {
      var n := |msg|;
      RoundUpPart(n);
      assert c[..16] == e(Chained(iv, msg));
      assert Chained(iv, msg)[..n] == XorBytes(msg, iv[..n]);
      XorTwice(msg, iv[..n]);
    } else {
      var head := e(Chained(iv, msg[..16]));
      RoundUpBlock(16, |msg| - 16);
      assert c[..16] == head && c[16..] == Encrypted(e, head, msg[16..]);
      assert Chained(iv, msg[..16]) == XorBytes(msg[..16], iv) by {
        assert iv[..16] == iv;
      }
      XorTwice(msg[..16], iv);
      DecryptedEncrypted(e, d, head, msg[16..]);
      assert msg == msg[..16] + msg[16..];
    }
  }

  /** A message may be split at any block boundary, carrying the chaining value over. */
  lemma {:induction false} EncryptedSplit(e: Block -> Block, iv: Block, a: seq<bv8>, b: seq<bv8>)
    requires |a| % 16 == 0
    ensures Encrypted(e, iv, a + b) == Encrypted(e, iv, a) + Encrypted(e, EncryptedIv(e, iv, a), b)
    ensures EncryptedIv(e, iv, a + b) == EncryptedIv(e, EncryptedIv(e, iv, a), b)
    decreases |a|
  {
    if |a| == 0 {
      assert a + b == b;
    } else {
      var head := e(Chained(iv, a[..16]));
      assert (a + b)[..16] == a[..16] && (a + b)[16..] == a[16..] + b;
      EncryptedSplit(e, head, a[16..], b);
    }
  }

  lemma RoundUpBlock(k: nat, n: nat)
    requires k % 16 == 0
    ensures RoundUp(k + n) == k + RoundUp(n)
  {
  }

  lemma {:induction false} DecryptedSplit(d: Block -> Block, iv: Block, a: seq<bv8>, b: seq<bv8>, n: nat)
    requires |a| % 16 == 0 && |b| == RoundUp(n)
    ensures |a| == RoundUp(|a|) && |a + b| == RoundUp(|a| + n)
    ensures Decrypted(d, iv, a + b, |a| + n) == Decrypted(d, iv, a, |a|) + Decrypted(d, DecryptedIv(iv, a), b, n)
    decreases |a|
  {
    hide RoundUp, XorBytes, DecryptedIv;
    RoundUpBlock(|a|, n);
    RoundUpBlock(|a|, 0);
    RoundUpZero();
    if |a| == 0 {
      assert a + b == b;
      NothingBefore(iv);
    } else {
      var head := a[..16];
      assert (a + b)[..16] == head && (a + b)[16..] == a[16..] + b;
      DecryptedSplit(d, head, a[16..], b, n);
      LastBlock(iv, a);
      var x := XorBytes(d(head), iv);
      assert Decrypted(d, iv, a + b, |a| + n) == x + Decrypted(d, head, a[16..] + b, |a| - 16 + n);
      assert Decrypted(d, iv, a, |a|) == x + Decrypted(d, head, a[16..], |a| - 16);
      Associative(x, Decrypted(d, head, a[16..], |a| - 16), Decrypted(d, DecryptedIv(iv, a), b, n));
    }
  }

  lemma NothingBefore(iv: Block)
    ensures DecryptedIv(iv, []) == iv
  {
  }

  lemma RoundUpZero()
    ensures RoundUp(0) == 0
  {
  }

  lemma LastBlock(iv: Block, a: seq<bv8>)
    requires 16 == |a| || 32 <= |a|
    ensures DecryptedIv(a[..16], a[16..]) == DecryptedIv(iv, a)
  {
    var s := a[16..];
    if |a| == 16 {
      assert a[|a| - 16..] == a[..16];
    } else {
      assert s[|s| - 16..] == a[|a| - 16..];
    }
  }

  /** The carried chaining value of decryption also composes. */
  lemma DecryptedIvSplit(iv: Block, a: seq<bv8>, b: seq<bv8>)
    requires (|a| == 0 || 16 <= |a|) && (|b| == 0 || 16 <= |b|)
    ensures DecryptedIv(iv, a + b) == DecryptedIv(DecryptedIv(iv, a), b)
  {
    if |b| == 0 {
      assert a + b == a;
    } else {
      assert (a + b)[|a + b| - 16..] == b[|b| - 16..];
    }
  }

  // ---- chaining, byte by byte ----

  /** The 16 bytes before position `at` of the ciphertext. */
  function Previous(iv: Block, c: seq<bv8>, at: nat): Block
    requires at == 0 || 16 <= at <= |c|
  {
    if at == 0 then iv else c[at - 16..at]
  }

  /** The input of the cipher at position `at`: each byte of the message xor the byte before it in the
      ciphertext, and that byte alone where the message has ended. */
  function ChainInput(prev: Block, msg: seq<bv8>, at: nat): Block {
    seq(16, i requires 0 <= i < 16 => if at + i < |msg| then msg[at + i] ^ prev[i] else prev[i])
  }

  /** `c` is the CBC ciphertext of `msg`: each block is the cipher of its chained input. */
  ghost predicate ChainedCipher(e: Block -> Block, iv: Block, msg: seq<bv8>, c: seq<bv8>) {
    && |msg| <= |c| < |msg| + 16 && |c| % 16 == 0
    && forall j: nat {:trigger e(ChainInput(Previous(iv, c, 16 * j), msg, 16 * j))} | 16 * j < |msg| ::
         c[16 * j..16 * j + 16] == e(ChainInput(Previous(iv, c, 16 * j), msg, 16 * j))
  }

  /** `msg` is the CBC plaintext of `c`: each byte is that of the deciphered block xor the byte before
      it in the ciphertext. */
  ghost predicate ChainedPlain(d: Block -> Block, iv: Block, c: seq<bv8>, msg: seq<bv8>) {
    && |msg| <= |c| < |msg| + 16 && |c| % 16 == 0
    && forall k | 0 <= k < |msg| ::
         (var at := k / 16 * 16; msg[k] == d(c[at..at + 16])[k - at] ^ Previous(iv, c, at)[k - at])
  }

  lemma XorAt(a: seq<bv8>, b: seq<bv8>, i: nat)
    requires i < |a| == |b|
    ensures XorBytes(a, b)[i] == a[i] ^ b[i]
  {
  }

  lemma ChainedInput(iv: Block, msg: seq<bv8>)
    requires 0 < |msg|
    ensures Chained(iv, if |msg| < 16 then msg else msg[..16]) == ChainInput(iv, msg, 0)
  {
    hide XorBytes;
    var m := if |msg| < 16 then msg else msg[..16];
    forall i | 0 <= i < 16
      ensures Chained(iv, m)[i] == ChainInput(iv, msg, 0)[i]
    {
      if i < |m| {
        XorAt(m, iv[..|m|], i);
      }
    }
  }

  lemma ChainInputRest(prev: Block, msg: seq<bv8>, at: nat)
    requires 16 <= at && 16 <= |msg|
    ensures ChainInput(prev, msg[16..], at - 16) == ChainInput(prev, msg, at)
  {
    forall i | 0 <= i < 16
      ensures ChainInput(prev, msg[16..], at - 16)[i] == ChainInput(prev, msg, at)[i]
    {
      assert at + i < |msg| ==> msg[16..][at - 16 + i] == msg[at + i];
    }
  }

  lemma PreviousRest(iv: Block, head: Block, rest: seq<bv8>, at: nat)
    requires 16 <= at && (at == 16 || 32 <= at <= |head + rest|)
    ensures Previous(head, rest, at - 16) == Previous(iv, head + rest, at)
  {
    if at > 16 {
      assert rest[at - 32..at - 16] == (head + rest)[at - 16..at];
    } else {
      assert (head + rest)[0..16] == head;
    }
  }

  lemma {:induction false} EncryptedAt(e: Block -> Block, iv: Block, msg: seq<bv8>, j: nat)
    requires 16 * j < |msg|
    ensures var c := Encrypted(e, iv, msg);
            16 * j + 16 <= |c| && c[16 * j..16 * j + 16] == e(ChainInput(Previous(iv, c, 16 * j), msg, 16 * j))
    decreases j
  {
    hide Chained, ChainInput, Previous, RoundUp;
    var c := Encrypted(e, iv, msg);
    RoundUpAbove(|msg|);
    RoundUpWhole(|msg|);
    ChainedInput(iv, msg);
    PreviousFirst(iv, c);
    if |msg| < 16 {
      assert c[0..16] == c;
    } else {
      var head := e(Chained(iv, msg[..16]));
      var rest := Encrypted(e, head, msg[16..]);
      if j == 0 {
        assert c[0..16] == head;
      } else {
        EncryptedAt(e, head, msg[16..], j - 1);
        assert c[16 * j..16 * j + 16] == rest[16 * (j - 1)..16 * (j - 1) + 16];
        PreviousRest(iv, head, rest, 16 * j);
        ChainInputRest(Previous(iv, c, 16 * j), msg, 16 * j);
      }
    }
  }

  lemma PreviousFirst(iv: Block, c: seq<bv8>)
    ensures Previous(iv, c, 0) == iv
  {
  }

  lemma RoundUpWhole(n: nat)
    ensures RoundUp(n) % 16 == 0
  {
  }

  /** The recursive form chains as the standard says, and leaves the last block as chaining value. */
  lemma {:induction false} EncryptedChains(e: Block -> Block, iv: Block, msg: seq<bv8>)
    ensures ChainedCipher(e, iv, msg, Encrypted(e, iv, msg))
    ensures EncryptedIv(e, iv, msg) == Previous(iv, Encrypted(e, iv, msg), RoundUp(|msg|))
    decreases |msg|
  {
    hide Chained, ChainInput, RoundUp, Encrypted;
    RoundUpAbove(|msg|);
    RoundUpWhole(|msg|);
    forall j: nat | 16 * j < |msg|
      ensures (var c := Encrypted(e, iv, msg);
               c[16 * j..16 * j + 16] == e(ChainInput(Previous(iv, c, 16 * j), msg, 16 * j)))
    {
      EncryptedAt(e, iv, msg, j);
    }
    LastIv(e, iv, msg);
  }

  lemma {:induction false} LastIv(e: Block -> Block, iv: Block, msg: seq<bv8>)
    ensures EncryptedIv(e, iv, msg) == Previous(iv, Encrypted(e, iv, msg), RoundUp(|msg|))
    decreases |msg|
  {
    hide Chained, RoundUp;
    if |msg| == 0 {
      RoundUpZero();
    } else if |msg| < 16 {
      RoundUpPart(|msg|);
      var c := Encrypted(e, iv, msg);
      assert c[0..16] == c;
    } else {
      var head := e(Chained(iv, msg[..16]));
      LastIv(e, head, msg[16..]);
      RoundUpBlock(16, |msg| - 16);
      RoundUpAbove(|msg| - 16);
      RoundUpWhole(|msg| - 16);
      PreviousRest(iv, head, Encrypted(e, head, msg[16..]), RoundUp(|msg|));
    }
  }

  lemma {:induction false} DecryptedAt(d: Block -> Block, iv: Block, c: seq<bv8>, n: nat, k: nat)
    requires |c| == RoundUp(n) && k < n
    ensures k / 16 * 16 + 16 <= |c|
    ensures (var at := k / 16 * 16;
             Decrypted(d, iv, c, n)[k] == d(c[at..at + 16])[k - at] ^ Previous(iv, c, at)[k - at])
    decreases n
  {
    hide XorBytes, RoundUp, Previous;
    RoundUpAbove(n);
    RoundUpWhole(n);
    PreviousFirst(iv, c);
    var head := c[..16];
    assert c[0..16] == head;
    if n < 16 {
      XorAt(d(head)[..n], iv[..n], k);
    } else if k < 16 {
      XorAt(d(head), iv, k);
    } else {
      var rest, at := c[16..], k / 16 * 16;
      RoundUpBlock(16, n - 16);
      DecryptedAt(d, head, rest, n - 16, k - 16);
      assert head + rest == c;
      assert (k - 16) / 16 * 16 == at - 16;
      assert rest[at - 16..at] == c[at..at + 16];
      PreviousRest(iv, head, rest, at);
    }
  }

  lemma DecryptedChains(d: Block -> Block, iv: Block, c: seq<bv8>, n: nat)
    requires |c| == RoundUp(n)
    ensures ChainedPlain(d, iv, c, Decrypted(d, iv, c, n))
  {
    hide RoundUp, Decrypted, Previous;
    RoundUpAbove(n);
    RoundUpWhole(n);
    forall k | 0 <= k < n
      ensures (var at := k / 16 * 16;
               && at + 16 <= |c|
               && Decrypted(d, iv, c, n)[k] == d(c[at..at + 16])[k - at] ^ Previous(iv, c, at)[k - at])
    {
      DecryptedAt(d, iv, c, n, k);
    }
  }

  // ---- the code ----

  function Encryptor(sb: SBox, w: seq<bv32>, rounds: nat): Block -> Block
    requires rounds > 0 && 4 * (rounds + 1) <= |w|
  {
    (b: Block) => EncryptBlock(sb, w, rounds, b)
  }

  function Decryptor(sb: SBox, w: seq<bv32>, rounds: nat): Block -> Block
    requires rounds > 0 && 4 * (rounds + 1) <= |w|
  {
    (b: Block) => DecryptBlock(sb, w, rounds, b)
  }

  /** `for (n = 0; n < len; ++n) tmp[n] = in[n] ^ ivec[n]; for (; n < 16; ++n) tmp[n] = ivec[n]` */
  method ChainInto(tmp: array<bv8>, inp: array<bv8>, at: nat, len: nat, ivec: array<bv8>)
    requires tmp.Length == ivec.Length == 16 && len <= 16 && at + len <= inp.Length
    requires tmp != inp && tmp != ivec
    modifies tmp
    ensures tmp[..] == Chained(ivec[..], inp[..][at..at + len])
  {
    hide Add;
    for n := 0 to len
      invariant forall i | 0 <= i < n :: tmp[i] == Add(inp[at + i], ivec[i])
    {
      tmp[n] := Add(inp[at + n], ivec[n]);
    }
    for n := len to 16
      invariant forall i | 0 <= i < len :: tmp[i] == Add(inp[at + i], ivec[i])
      invariant forall i | len <= i < n :: tmp[i] == ivec[i]
    {
      tmp[n] := ivec[n];
    }
  }

  method Copy(src: array<bv8>, from: nat, dst: array<bv8>, to: nat)
    requires from + 16 <= src.Length && to + 16 <= dst.Length
    modifies dst
    ensures dst[..] == Splice(old(dst[..]), to, old(src[..])[from..from + 16])
  {
    var buf := src[from..from + 16];
    forall i | 0 <= i < 16 {
      dst[to + i] := buf[i];
    }
  }

  /** One more block, or the partial last block, of a message. */
  lemma EncryptOne(e: Block -> Block, iv: Block, msg: seq<bv8>, at: nat, len: nat)
    requires at % 16 == 0 && 0 < len <= 16 && at + len <= |msg|
    ensures (var c := e(Chained(EncryptedIv(e, iv, msg[..at]), msg[at..at + len]));
             && Encrypted(e, iv, msg[..at + len]) == Encrypted(e, iv, msg[..at]) + c
             && EncryptedIv(e, iv, msg[..at + len]) == c)
  {
    hide Chained;
    var m := msg[at..at + len];
    assert msg[..at + len] == msg[..at] + m;
    EncryptedSplit(e, iv, msg[..at], m);
    assert len == 16 ==> m[..16] == m && m[16..] == [];
  }

  /** One pass of the encryption loop: a whole block. */
  method EncryptWhole(sb: SBox, inp: array<bv8>, out: array<bv8>, at: nat, key: AesKey, ivec: array<bv8>)
    requires key.Valid() && ivec.Length == 16 && ivec != inp && ivec != out
    requires at + 16 <= inp.Length && at + 16 <= out.Length
    modifies out, ivec
    ensures (var c := EncryptBlock(sb, key.rdKey[..], key.rounds, Chained(old(ivec[..]), old(inp[..])[at..at + 16]));
             out[..] == Splice(old(out[..]), at, c) && ivec[..] == c)
  {
    hide EncryptBlock, Chained, Splice;
    var tmp := new bv8[16];
    ChainInto(tmp, inp, at, 16, ivec);
    assert tmp[..][0..16] == tmp[..];
    AesEncrypt(sb, tmp, 0, out, at, key);
    Copy(out, at, ivec, 0);
    SpliceRead(old(out[..]), at, EncryptBlock(sb, key.rdKey[..], key.rounds, tmp[..]));
    SpliceAll(old(ivec[..]), out[..][at..at + 16]);
  }

  /** The partial last block: encrypted in the temporary buffer, then copied out whole. */
  method EncryptTail(sb: SBox, inp: array<bv8>, out: array<bv8>, at: nat, len: nat, key: AesKey, ivec: array<bv8>)
    requires key.Valid() && ivec.Length == 16 && ivec != inp && ivec != out && len <= 16
    requires at + len <= inp.Length && at + 16 <= out.Length
    modifies out, ivec
    ensures (var c := EncryptBlock(sb, key.rdKey[..], key.rounds, Chained(old(ivec[..]), old(inp[..])[at..at + len]));
             out[..] == Splice(old(out[..]), at, c) && ivec[..] == c)
  {
    hide EncryptBlock, Chained, Splice;
    var tmp := new bv8[16];
    ChainInto(tmp, inp, at, len, ivec);
    ghost var m := tmp[..];
    assert m[0..16] == m;
    AesEncrypt(sb, tmp, 0, tmp, 0, key);
    SpliceAll(m, EncryptBlock(sb, key.rdKey[..], key.rounds, m));
    assert tmp[..][0..16] == tmp[..];
    Copy(tmp, 0, out, at);
    Copy(tmp, 0, ivec, 0);
    SpliceAll(old(ivec[..]), tmp[..]);
  }

  /** The state after `at` bytes: what was written, what was left alone, and the chaining value. */
  ghost predicate EncryptedSoFar(e: Block -> Block, iv: Block, msg: seq<bv8>, rest: seq<bv8>, o: seq<bv8>, v: seq<bv8>,
                                 at: nat)
  {
    && at <= |msg| && RoundUp(at) <= |rest|
    && o == Encrypted(e, iv, msg[..at]) + rest[RoundUp(at)..]
    && v == EncryptedIv(e, iv, msg[..at])
  }

  lemma EncryptedStep(e: Block -> Block, iv: Block, msg: seq<bv8>, rest: seq<bv8>, o: seq<bv8>, v: Block, at: nat,
                      len: nat)
    requires EncryptedSoFar(e, iv, msg, rest, o, v, at)
    requires at % 16 == 0 && 0 < len <= 16 && at + len <= |msg| && at + 16 <= |rest|
    ensures |o| == |rest|
    ensures (var c := e(Chained(v, msg[at..at + len]));
             EncryptedSoFar(e, iv, msg, rest, Splice(o, at, c), c, at + len))
  {
    hide Chained, Encrypted, EncryptedIv;
    RoundUpBlock(at, len);
    RoundUpBlock(at, 0);
    assert RoundUp(len) == 16;
    EncryptOne(e, iv, msg, at, len);
    Spliced(Encrypted(e, iv, msg[..at]), rest, at, e(Chained(v, msg[at..at + len])));
  }

  lemma NothingEncrypted(e: Block -> Block, iv: Block, msg: seq<bv8>, rest: seq<bv8>)
    ensures EncryptedSoFar(e, iv, msg, rest, rest, iv, 0)
  {
    assert rest == [] + rest[0..];
  }

  lemma AllEncrypted(e: Block -> Block, iv: Block, msg: seq<bv8>, rest: seq<bv8>, o: seq<bv8>, v: seq<bv8>)
    requires EncryptedSoFar(e, iv, msg, rest, o, v, |msg|)
    ensures RoundUp(|msg|) <= |rest|
    ensures o == Encrypted(e, iv, msg) + rest[RoundUp(|msg|)..] && v == EncryptedIv(e, iv, msg)
    ensures RoundUp(|msg|) <= |o| && ChainedCipher(e, iv, msg, o[..RoundUp(|msg|)])
    ensures |msg| > 0 ==> 16 <= RoundUp(|msg|) && v == o[RoundUp(|msg|) - 16..RoundUp(|msg|)]
  {
    hide Encrypted, EncryptedIv, ChainedCipher;
    assert msg[..|msg|] == msg;
    assert o[..RoundUp(|msg|)] == Encrypted(e, iv, msg);
    EncryptedChains(e, iv, msg);
  }

  /** AES_cbc_encrypt with `enc` set. Input and output may be the same buffer. */
  method CbcEncrypt(sb: SBox, inp: array<bv8>, out: array<bv8>, length: nat, key: AesKey, ivec: array<bv8>)
    requires key.Valid() && ivec.Length == 16 && ivec != inp && ivec != out
    requires length <= inp.Length && RoundUp(length) <= out.Length
    modifies out, ivec
    ensures (var e := Encryptor(sb, key.rdKey[..], key.rounds);
             && out[..] == Encrypted(e, old(ivec[..]), old(inp[..])[..length]) + old(out[..])[RoundUp(length)..]
             && ivec[..] == EncryptedIv(e, old(ivec[..]), old(inp[..])[..length])
             && ChainedCipher(e, old(ivec[..]), old(inp[..])[..length], out[..][..RoundUp(length)]))
  {
    hide ChainedCipher, EncryptBlock, Chained, Encrypted, EncryptedIv, EncryptedSoFar, RoundUp, Splice;
    ghost var e, iv, msg := Encryptor(sb, key.rdKey[..], key.rounds), ivec[..], inp[..][..length];
    ghost var rest, source := out[..], inp[..];
    NothingEncrypted(e, iv, msg, rest);
    RoundUpAbove(length);
    var len: int, at := length, 0;
    while len >= 16
      invariant 0 <= len && at + len == length && at % 16 == 0
      invariant EncryptedSoFar(e, iv, msg, rest, out[..], ivec[..], at)
      invariant inp[at..] == source[at..]
    {
      EncryptedStep(e, iv, msg, rest, out[..], ivec[..], at, 16);
      SameSlice(inp[..], source, at, 16, length);
      ghost var before, o := inp[..], out[..];
      EncryptWhole(sb, inp, out, at, key, ivec);
      SpliceRead(o, at, ivec[..]);
      SameTail(inp[..], before, source, at);
      len := len - 16;
      at := at + 16;
    }
    if len > 0 {
      RoundUpBlock(at, len);
      RoundUpPart(len);
      EncryptedStep(e, iv, msg, rest, out[..], ivec[..], at, len);
      SameSlice(inp[..], source, at, len, length);
      EncryptTail(sb, inp, out, at, len, key, ivec);
    }
    AllEncrypted(e, iv, msg, rest, out[..], ivec[..]);
  }

  lemma SameTail(a: seq<bv8>, b: seq<bv8>, c: seq<bv8>, at: nat)
    requires |a| == |b| == |c| && at + 16 <= |a| && b[at..] == c[at..] && a[at + 16..] == b[at + 16..]
    ensures a[at + 16..] == c[at + 16..]
  {
    assert b[at + 16..] == b[at..][16..];
    assert c[at + 16..] == c[at..][16..];
  }

  lemma RoundUpAbove(n: nat)
    ensures n <= RoundUp(n) < n + 16
  {
  }

  lemma RoundUpPart(n: nat)
    requires n < 16
    ensures RoundUp(n) == if n == 0 then 0 else 16
  {
  }

  /** Bytes not yet consumed are still those of the message `b[..n]`. */
  lemma SameSlice(a: seq<bv8>, b: seq<bv8>, at: nat, len: nat, n: nat)
    requires |a| == |b| && at + len <= n <= |a| && a[at..] == b[at..]
    ensures a[at..at + len] == b[..n][at..at + len]
  {
    assert a[at..at + len] == a[at..][..len];
    assert b[..n][at..at + len] == b[at..][..len];
  }

  lemma Spliced(p: seq<bv8>, rest: seq<bv8>, at: nat, c: seq<bv8>)
    requires |p| == at && at + 16 <= |rest| && |c| == 16
    ensures (var o := p + rest[at..]; o[..at] + c + o[at + 16..] == (p + c) + rest[at + 16..])
  {
  }

  // ---- decryption ----

  /** `for (n = 0; n < len; ++n) out[n] = src[n] ^ ivec[n]` */
  method XorInto(src: seq<bv8>, out: array<bv8>, at: nat, len: nat, ivec: array<bv8>)
    requires len <= |src| && len <= ivec.Length && at + len <= out.Length && out != ivec
    modifies out
    ensures out[..] == Splice(old(out[..]), at, XorBytes(src[..len], ivec[..][..len]))
  {
    hide Add;
    for n := 0 to len
      invariant forall i | 0 <= i < n :: out[at + i] == Add(src[i], ivec[i])
      invariant forall i | 0 <= i < at :: out[i] == old(out[i])
      invariant forall i | at + len <= i < out.Length :: out[i] == old(out[i])
    {
      out[at + n] := Add(src[n], ivec[n]);
    }
  }

  /** One pass of the decryption loop. The ciphertext block is saved first, so that the output may
      overwrite it. */
  method DecryptWhole(sb: SBox, inp: array<bv8>, out: array<bv8>, at: nat, key: AesKey, ivec: array<bv8>)
    requires key.Valid() && ivec.Length == 16 && ivec != inp && ivec != out
    requires at + 16 <= inp.Length && at + 16 <= out.Length
    modifies out, ivec
    ensures (var c := old(inp[..])[at..at + 16];
             var m := XorBytes(DecryptBlock(sb, key.rdKey[..], key.rounds, c), old(ivec[..]));
             out[..] == Splice(old(out[..]), at, m) && ivec[..] == c)
  {
    hide DecryptBlock, XorBytes, Splice;
    var tmp := new bv8[16];
    ghost var o, c, iv := out[..], inp[..][at..at + 16], ivec[..];
    ghost var plain := DecryptBlock(sb, key.rdKey[..], key.rounds, c);
    SpliceAll(tmp[..], c);
    Copy(inp, at, tmp, 0);
    AesDecrypt(sb, inp, at, out, at, key);
    SpliceRead(o, at, plain);
    WholeSlices(plain, iv);
    XorInto(out[..][at..at + 16], out, at, 16, ivec);
    SpliceTwice(o, at, plain, XorBytes(plain, iv));
    assert tmp[..][0..16] == tmp[..];
    Copy(tmp, 0, ivec, 0);
    SpliceAll(iv, c);
  }

  /** The partial last block. */
  method DecryptTail(sb: SBox, inp: array<bv8>, out: array<bv8>, at: nat, len: nat, key: AesKey, ivec: array<bv8>)
    requires key.Valid() && ivec.Length == 16 && ivec != inp && ivec != out && len <= 16
    requires at + 16 <= inp.Length && at + len <= out.Length
    modifies out, ivec
    ensures (var d := DecryptBlock(sb, key.rdKey[..], key.rounds, old(inp[..])[at..at + 16]);
             && out[..] == Splice(old(out[..]), at, XorBytes(d[..len], old(ivec[..])[..len]))
             && ivec[..] == d)
  {
    hide DecryptBlock, XorBytes, Splice;
    var tmp := new bv8[16];
    ghost var c := inp[..][at..at + 16];
    ghost var plain := DecryptBlock(sb, key.rdKey[..], key.rounds, c);
    SpliceAll(tmp[..], c);
    Copy(inp, at, tmp, 0);
    assert tmp[..][0..16] == tmp[..];
    AesDecrypt(sb, tmp, 0, tmp, 0, key);
    SpliceAll(c, plain);
    XorInto(tmp[..], out, at, len, ivec);
    assert tmp[..][0..16] == plain;
    SpliceAll(ivec[..], plain);
    Copy(tmp, 0, ivec, 0);
  }

  ghost predicate DecryptedSoFar(d: Block -> Block, iv: Block, c: seq<bv8>, rest: seq<bv8>, o: seq<bv8>, v: seq<bv8>,
                                 at: nat)
  {
    && RoundUp(at) <= |c| && at <= |rest|
    && o == Decrypted(d, iv, c[..RoundUp(at)], at) + rest[at..]
    && (at % 16 == 0 ==> RoundUp(at) == at && v == DecryptedIv(iv, c[..at]))
    && (at % 16 != 0 ==> 16 <= RoundUp(at) && v == d(c[RoundUp(at) - 16..RoundUp(at)]))
  }

  lemma DecryptedStep(d: Block -> Block, iv: Block, c: seq<bv8>, rest: seq<bv8>, o: seq<bv8>, v: Block, at: nat,
                      len: nat, v': seq<bv8>)
    requires DecryptedSoFar(d, iv, c, rest, o, v, at)
    requires at % 16 == 0 && 0 < len <= 16 && at + 16 <= |c| && at + len <= |rest|
    requires v' == if len == 16 then c[at..at + 16] else d(c[at..at + 16])
    ensures |o| == |rest|
    ensures (var m := XorBytes(d(c[at..at + 16])[..len], v[..len]);
             DecryptedSoFar(d, iv, c, rest, Splice(o, at, m), v', at + len))
  {
    hide Decrypted, XorBytes, DecryptedIv, RoundUp;
    DecryptOne(d, iv, c, at, len);
    SplicedPart(Decrypted(d, iv, c[..at], at), rest, at, XorBytes(d(c[at..at + 16])[..len], v[..len]));
  }

  lemma NothingDecrypted(d: Block -> Block, iv: Block, c: seq<bv8>, rest: seq<bv8>)
    ensures DecryptedSoFar(d, iv, c, rest, rest, iv, 0)
  {
    assert rest == [] + rest[0..];
  }

  lemma AllDecrypted(d: Block -> Block, iv: Block, c: seq<bv8>, rest: seq<bv8>, o: seq<bv8>, v: seq<bv8>, n: nat)
    requires DecryptedSoFar(d, iv, c, rest, o, v, n) && |c| == RoundUp(n)
    ensures o == Decrypted(d, iv, c, n) + rest[n..]
    ensures n % 16 != 0 ==> 16 <= |c|
    ensures v == if n % 16 == 0 then DecryptedIv(iv, c) else d(c[|c| - 16..])
    ensures n <= |o| && ChainedPlain(d, iv, c, o[..n])
  {
    hide Decrypted, ChainedPlain;
    assert c[..RoundUp(n)] == c;
    assert o[..n] == Decrypted(d, iv, c, n);
    DecryptedChains(d, iv, c, n);
  }

  /** One whole block, seen from the loop of `CbcDecrypt`. */
  lemma DecryptedWhole(d: Block -> Block, iv: Block, c: seq<bv8>, rest: seq<bv8>, o: seq<bv8>, v: Block, at: nat)
    requires DecryptedSoFar(d, iv, c, rest, o, v, at)
    requires at % 16 == 0 && at + 16 <= |c| && at + 16 <= |rest|
    ensures |o| == |rest|
    ensures (var b := c[at..at + 16];
             var m := XorBytes(d(b), v);
             && DecryptedSoFar(d, iv, c, rest, Splice(o, at, m), b, at + 16)
             && Splice(o, at, m)[at + 16..] == o[at + 16..])
  {
    hide Decrypted, XorBytes, DecryptedIv, RoundUp, DecryptedSoFar, Splice;
    var b := c[at..at + 16];
    DecryptedStep(d, iv, c, rest, o, v, at, 16, b);
    WholeSlices(d(b), v);
    SpliceRead(o, at, XorBytes(d(b), v));
  }

  /** AES_cbc_encrypt with `enc` clear. Input and output may be the same buffer. */
  method CbcDecrypt(sb: SBox, inp: array<bv8>, out: array<bv8>, length: nat, key: AesKey, ivec: array<bv8>)
    requires key.Valid() && ivec.Length == 16 && ivec != inp && ivec != out
    requires RoundUp(length) <= inp.Length && length <= out.Length
    modifies out, ivec
    ensures (var d := Decryptor(sb, key.rdKey[..], key.rounds);
             var c := old(inp[..])[..RoundUp(length)];
             && out[..] == Decrypted(d, old(ivec[..]), c, length) + old(out[..])[length..]
             && (ivec[..] == if length % 16 == 0 then DecryptedIv(old(ivec[..]), c) else d(c[|c| - 16..]))
             && ChainedPlain(d, old(ivec[..]), c, out[..][..length]))
  {
    hide ChainedPlain, DecryptBlock, Decrypted, DecryptedIv, DecryptedSoFar, RoundUp, XorBytes, Splice;
    ghost var d, iv, c := Decryptor(sb, key.rdKey[..], key.rounds), ivec[..], inp[..][..RoundUp(length)];
    ghost var rest, source := out[..], inp[..];
    NothingDecrypted(d, iv, c, rest);
    RoundUpAbove(length);
    var len: int, at := length, 0;
    while len >= 16
      invariant 0 <= len && at + len == length && at % 16 == 0
      invariant DecryptedSoFar(d, iv, c, rest, out[..], ivec[..], at)
      invariant inp[at..] == source[at..]
    {
      DecryptedWhole(d, iv, c, rest, out[..], ivec[..], at);
      SameSlice(inp[..], source, at, 16, RoundUp(length));
      ghost var before := inp[..];
      DecryptWhole(sb, inp, out, at, key, ivec);
      SameTail(inp[..], before, source, at);
      len := len - 16;
      at := at + 16;
    }
    if len > 0 {
      RoundUpBlock(at, len);
      RoundUpPart(len);
      SameSlice(inp[..], source, at, 16, RoundUp(length));
      ghost var o, v := out[..], ivec[..];
      DecryptTail(sb, inp, out, at, len, key, ivec);
      DecryptedStep(d, iv, c, rest, o, v, at, len, ivec[..]);
    }
    AllDecrypted(d, iv, c, rest, out[..], ivec[..], length);
  }

  lemma WholeSlices(a: Block, b: Block)
    ensures a[..16] == a && b[..16] == b
  {
  }

  lemma SplicedPart(p: seq<bv8>, rest: seq<bv8>, at: nat, c: seq<bv8>)
    requires |p| == at && at + |c| <= |rest|
    ensures (var o := p + rest[at..]; o[..at] + c + o[at + |c|..] == (p + c) + rest[at + |c|..])
  {
  }

  lemma DecryptOne(d: Block -> Block, iv: Block, c: seq<bv8>, at: nat, len: nat)
    requires at % 16 == 0 && 0 < len <= 16 && at + 16 <= |c|
    ensures RoundUp(at) == at && RoundUp(at + len) == at + 16
    ensures (var prev := DecryptedIv(iv, c[..at]);
             Decrypted(d, iv, c[..at + 16], at + len) ==
             Decrypted(d, iv, c[..at], at) + XorBytes(d(c[at..at + 16])[..len], prev[..len]))
    ensures DecryptedIv(iv, c[..at + 16]) == c[at..at + 16]
  {
    hide XorBytes;
    var b := c[at..at + 16];
    assert c[..at + 16] == c[..at] + b;
    assert RoundUp(len) == 16;
    RoundUpBlock(at, len);
    RoundUpBlock(at, 0);
    DecryptedSplit(d, iv, c[..at], b, len);
    assert b[..16] == b && b[16..] == [];
    var prev := DecryptedIv(iv, c[..at]);
    assert Decrypted(d, prev, b, len) == XorBytes(d(b)[..len], prev[..len]) by {
      if len == 16 {
        assert d(b)[..16] == d(b) && prev[..16] == prev;
        assert Decrypted(d, b, [], 0) == [];
      }
    }
  }

  // ---- the round trip through the two directions ----

  /** What AES_cbc_encrypt produced under the encryption schedule of a key decrypts, under the
      decryption schedule of the same key and the same initial vector, to the original message, for
      every key size and every message length. */
  lemma CbcRoundTrip(sb: SBox, bytes: seq<bv8>, bits: nat, ek: seq<bv32>, dk: seq<bv32>, iv: Block, msg: seq<bv8>)
    requires sb.Valid() && AesKeys.LegalBits(bits) && 8 * |bytes| >= bits && |ek| == |dk| == 60
    requires (var rounds := bits / 32 + 6;
              var w := AesKeys.KeyExpansion(sb, AesKeys.KeyWords(bytes, bits / 32), 4 * (rounds + 1));
              && ek[..4 * (rounds + 1)] == w
              && RoundKeys(dk, rounds) == InverseSchedule(RoundKeys(w, rounds)))
    ensures (var rounds := bits / 32 + 6;
             Decrypted(Decryptor(sb, dk, rounds), iv, Encrypted(Encryptor(sb, ek, rounds), iv, msg), |msg|) == msg)
  {
    hide EncryptBlock, DecryptBlock, AesKeys.KeyExpansion, AesKeys.KeyWords, InverseSchedule, RoundKeys;
    var rounds := bits / 32 + 6;
    var e, d := Encryptor(sb, ek, rounds), Decryptor(sb, dk, rounds);
    forall b: Block
      ensures d(e(b)) == b
    {
      AesKeys.DecryptUndoesEncrypt(sb, bytes, bits, ek, dk, b);
    }
    DecryptedEncrypted(e, d, iv, msg);
  }
}
