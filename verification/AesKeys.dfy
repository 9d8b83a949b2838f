/** The key schedules: AES_set_encrypt_key and AES_set_decrypt_key, proved against section 5.2 and
    section 5.3.5 of FIPS 197, and the round trip through both of them. */
module AesKeys {
  import opened GaloisField
  import opened AesCipher
  import opened AesTables
  import opened Aes
  import opened AesBytes
  import Words

  // ---- section 5.2 ----

  function RotWord(w: bv32): bv32 {
    var c := Unpack(w);
    Pack(Column(c.r1, c.r2, c.r3, c.r0))
  }

  function SubWord(sb: SBox, w: bv32): bv32 {
    Pack(SubColumn(sb, Unpack(w)))
  }

  /** The powers of x. */
  function XPower(i: nat): bv8 {
    if i == 0 then 1 else Xtime(XPower(i - 1))
  }

  /** Rcon[i] of the standard, for `i` from 1 up. */
  function Rcon(i: nat): bv32
    requires i > 0
  {
    Pack(Column(XPower(i - 1), 0, 0, 0))
  }

  /** The word that is added to the word `nk` places back. */
  function Temp(sb: SBox, nk: nat, i: nat, prev: bv32): bv32
    requires 0 < nk <= i
  {
    if i % nk == 0 then
      assert i / nk > 0 by { if i < nk { assert false; } assert i / nk >= 1; }
      Xor(SubWord(sb, RotWord(prev)), Rcon(i / nk))
    else if nk > 6 && i % nk == 4 then SubWord(sb, prev)
    else prev
  }

  /** The first `n` words of the expanded key. */
  function KeyExpansion(sb: SBox, key: seq<bv32>, n: nat): (w: seq<bv32>)
    requires 4 <= |key|
    ensures |w| == n
  {
    if n <= |key| then key[..n]
    else
      var w := KeyExpansion(sb, key, n - 1);
      w + [Xor(w[n - 1 - |key|], Temp(sb, |key|, n - 1, w[n - 2]))]
  }

  /** The cipher key as words. */
  function KeyWords(bytes: seq<bv8>, nk: nat): seq<bv32>
    requires 4 * nk <= |bytes|
  {
    seq(nk, i requires 0 <= i < nk => GetU32(bytes, 4 * i))
  }

  // ---- the code's expressions ----

  /** The table rcon[] of the source. */
  const RCON: seq<bv32> := [
    0x01000000, 0x02000000, 0x04000000, 0x08000000, 0x10000000,
    0x20000000, 0x40000000, 0x80000000, 0x1B000000, 0x36000000
  ]

  lemma RconTable(i: nat)
    requires i < 10
    ensures RCON[i] == Rcon(i + 1)
  {
    assert XPower(0) == 0x01;
    assert XPower(1) == 0x02;
    assert XPower(2) == 0x04;
    assert XPower(3) == 0x08;
    assert XPower(4) == 0x10;
    assert XPower(5) == 0x20;
    assert XPower(6) == 0x40;
    assert XPower(7) == 0x80;
    assert XPower(8) == 0x1b;
    assert XPower(9) == 0x36;
  }

  /** `x ^ (Te4[..] & 0xff000000) ^ ... ^ (Te4[..] & 0x000000ff)` with bytes `c` of the word. */
  function AddSubBytes(sb: SBox, x: bv32, c: Column): bv32 {
    Xor(Xor(Xor(Xor(x, Keep(Te4(sb, c.r0), 0xff000000)), Keep(Te4(sb, c.r1), 0x00ff0000)),
            Keep(Te4(sb, c.r2), 0x0000ff00)), Keep(Te4(sb, c.r3), 0x000000ff))
  }

  lemma AddSubBytesMeans(sb: SBox, x: bv32, c: Column)
    ensures AddSubBytes(sb, x, c) == Xor(x, Pack(SubColumn(sb, c)))
  {
    hide Pack, Xor, Keep;
    var m0, m1 := Keep(Te4(sb, c.r0), 0xff000000), Keep(Te4(sb, c.r1), 0x00ff0000);
    var m2, m3 := Keep(Te4(sb, c.r2), 0x0000ff00), Keep(Te4(sb, c.r3), 0x000000ff);
    MaskedBytes(sb.sub(c.r0), sb.sub(c.r1), sb.sub(c.r2), sb.sub(c.r3));
    XorAssoc(x, m0, m1);
    XorAssoc(x, Xor(m0, m1), m2);
    XorAssoc(x, Xor(Xor(m0, m1), m2), m3);
  }

  /** The expression for the first word of each step. */
  function RotStep(sb: SBox, x: bv32, temp: bv32, rcon: bv32): bv32 {
    var c := Unpack(temp);
    Xor(AddSubBytes(sb, x, Column(c.r1, c.r2, c.r3, c.r0)), rcon)
  }

  lemma RotStepMeans(sb: SBox, x: bv32, temp: bv32, rcon: bv32)
    ensures RotStep(sb, x, temp, rcon) == Xor(x, Xor(SubWord(sb, RotWord(temp)), rcon))
  {
    hide Pack, Unpack, Xor, AddSubBytes;
    var c := Unpack(temp);
    var rot := Column(c.r1, c.r2, c.r3, c.r0);
    AddSubBytesMeans(sb, x, rot);
    UnpackPack(rot);
    XorAssoc(x, Pack(SubColumn(sb, rot)), rcon);
  }

  // ---- section 5.2, byte by byte ----

  const ROUND_CONSTANTS: seq<bv8> := [0x01, 0x02, 0x04, 0x08, 0x10, 0x20, 0x40, 0x80, 0x1b, 0x36]

  /** What byte `r` of word `i` has beside byte `r` of the word `nk` places back: a byte of the word
      before, which every `nk` words is the next byte further on, substituted, with a constant in the
      first byte; long keys substitute once more in between. */
  function Fed(sb: SBox, nk: nat, w: seq<bv32>, i: nat, r: nat): bv8
    requires 0 < nk <= i < |w| <= 11 * nk && r < 4
  {
    if i % nk == 0 then
      assert i / nk <= 10;
      sb.sub(ByteOf(w[i - 1], (r + 1) % 4)) ^ (if r == 0 then ROUND_CONSTANTS[i / nk - 1] else 0)
    else if nk > 6 && i % nk == 4 then sb.sub(ByteOf(w[i - 1], r))
    else ByteOf(w[i - 1], r)
  }

  /** `w` is the schedule of the key `bytes`: the key itself, then each byte from the bytes before. */
  ghost predicate Expanded(sb: SBox, bytes: seq<bv8>, nk: nat, w: seq<bv32>)
    requires 0 < nk && 4 * nk <= |bytes| && nk <= |w| <= 11 * nk
  {
    && (forall i, r | 0 <= i < nk && 0 <= r < 4 :: ByteOf(w[i], r) == bytes[4 * i + r])
    && (forall i, r | nk <= i < |w| && 0 <= r < 4 :: ByteOf(w[i], r) == ByteOf(w[i - nk], r) ^ Fed(sb, nk, w, i, r))
  }

  lemma XorByte(a: bv32, b: bv32, r: nat)
    requires r < 4
    ensures ByteOf(Xor(a, b), r) == ByteOf(a, r) ^ ByteOf(b, r)
  {
    hide Pack, Unpack, Xor, ByteOf, Add;
    var c, d := Unpack(a), Unpack(b);
    PackUnpack(a);
    PackUnpack(b);
    PackXor(c, d);
    PackByte(AddColumn(c, d), r);
    UnpackByte(a, r);
    UnpackByte(b, r);
    AddIsXor(ByteOf(a, r), ByteOf(b, r));
  }

  lemma PackByte(c: Column, r: nat)
    requires r < 4
    ensures ByteOf(Pack(c), r) == RowOf(c, r)
  {
    hide Pack;
    UnpackPack(c);
  }

  lemma SubWordByte(sb: SBox, w: bv32, r: nat)
    requires r < 4
    ensures ByteOf(SubWord(sb, w), r) == sb.sub(ByteOf(w, r))
  {
    hide Pack, Unpack, ByteOf;
    PackByte(SubColumn(sb, Unpack(w)), r);
    UnpackByte(w, r);
  }

  lemma RotWordByte(w: bv32, r: nat)
    requires r < 4
    ensures ByteOf(RotWord(w), r) == ByteOf(w, (r + 1) % 4)
  {
    hide Pack, Unpack, ByteOf;
    var c := Unpack(w);
    PackByte(Column(c.r1, c.r2, c.r3, c.r0), r);
    UnpackByte(w, (r + 1) % 4);
  }

  lemma RconByte(q: nat, r: nat)
    requires 0 < q <= 10 && r < 4
    ensures ByteOf(Rcon(q), r) == if r == 0 then ROUND_CONSTANTS[q - 1] else 0
  {
    hide Rcon;
    RconTable(q - 1);
    RconTableByte(q - 1, r);
  }

  lemma RconTableByte(i: nat, r: nat)
    requires i < 10 && r < 4
    ensures ByteOf(RCON[i], r) == if r == 0 then ROUND_CONSTANTS[i] else 0
  {
  }

  lemma TempByte(sb: SBox, nk: nat, w: seq<bv32>, i: nat, r: nat)
    requires 0 < nk <= i < |w| <= 11 * nk && r < 4
    ensures ByteOf(Temp(sb, nk, i, w[i - 1]), r) == Fed(sb, nk, w, i, r)
  {
    hide ByteOf, Xor, SubWord, RotWord, Rcon;
    var prev := w[i - 1];
    if i % nk == 0 {
      assert 0 < i / nk <= 10;
      XorByte(SubWord(sb, RotWord(prev)), Rcon(i / nk), r);
      SubWordByte(sb, RotWord(prev), r);
      RotWordByte(prev, r);
      RconByte(i / nk, r);
    } else {
      SubWordByte(sb, prev, r);
    }
  }

  lemma {:induction false} ExpansionAt(sb: SBox, key: seq<bv32>, n: nat, i: nat)
    requires 4 <= |key| && i < n
    ensures var w := KeyExpansion(sb, key, n);
            w[i] == if i < |key| then key[i] else Xor(w[i - |key|], Temp(sb, |key|, i, w[i - 1]))
  {
    hide Xor, Temp;
    if |key| < n && i < n - 1 {
      ExpansionAt(sb, key, n - 1, i);
    }
  }

  /** The words of section 5.2 are the schedule byte by byte. */
  lemma ExpansionByBytes(sb: SBox, bytes: seq<bv8>, nk: nat, n: nat)
    requires 4 <= nk && 4 * nk <= |bytes| && nk <= n <= 11 * nk
    ensures Expanded(sb, bytes, nk, KeyExpansion(sb, KeyWords(bytes, nk), n))
  {
    hide KeyExpansion, ByteOf, Fed, Temp, Xor, Pack;
    var key := KeyWords(bytes, nk);
    var w := KeyExpansion(sb, key, n);
    forall i, r | 0 <= i < nk && 0 <= r < 4
      ensures ByteOf(w[i], r) == bytes[4 * i + r]
    {
      ExpansionAt(sb, key, n, i);
      PackByte(Column(bytes[4 * i], bytes[4 * i + 1], bytes[4 * i + 2], bytes[4 * i + 3]), r);
    }
    forall i, r | nk <= i < |w| && 0 <= r < 4
      ensures ByteOf(w[i], r) == ByteOf(w[i - nk], r) ^ Fed(sb, nk, w, i, r)
    {
      ExpansionAt(sb, key, n, i);
      XorByte(w[i - nk], Temp(sb, nk, i, w[i - 1]), r);
      TempByte(sb, nk, w, i, r);
    }
  }

  // ---- AES_set_encrypt_key ----

  lemma TempChain(sb: SBox, nk: nat, n: nat, q: nat, r: nat, prev: bv32)
    requires 0 < nk <= n && n == nk * q + r && 0 < r < nk && (nk <= 6 || r != 4)
    ensures Temp(sb, nk, n, prev) == prev
  {
    Words.QuotientUnique(n, nk, q, r);
  }

  lemma TempRot(sb: SBox, nk: nat, n: nat, i: nat, prev: bv32)
    requires 0 < nk <= n && n == nk * (i + 1)
    ensures Temp(sb, nk, n, prev) == Xor(SubWord(sb, RotWord(prev)), Rcon(i + 1))
  {
    hide Xor, SubWord, RotWord, Rcon;
    Words.QuotientUnique(n, nk, i + 1, 0);
  }

  lemma TempSub(sb: SBox, nk: nat, n: nat, q: nat, prev: bv32)
    requires 6 < nk <= n && n == nk * q + 4
    ensures Temp(sb, nk, n, prev) == SubWord(sb, prev)
  {
    hide SubWord;
    Words.QuotientUnique(n, nk, q, 4);
  }

  /** `rk[n] = rk[n - nk] ^ rk[n - 1]` */
  method StoreChain(ghost sb: SBox, ghost key: seq<bv32>, rk: array<bv32>, n: nat, nk: nat, ghost q: nat,
                    ghost r: nat)
    requires 4 <= |key| == nk <= n < rk.Length
    requires rk[..n] == KeyExpansion(sb, key, n)
    requires n == nk * q + r && 0 < r < nk && (nk <= 6 || r != 4)
    modifies rk
    ensures rk[..n + 1] == KeyExpansion(sb, key, n + 1)
  {
    hide Xor, Temp;
    TempChain(sb, nk, n, q, r, rk[n - 1]);
    rk[n] := Xor(rk[n - nk], rk[n - 1]);
    assert rk[..n] == old(rk[..n]);
  }

  /** `rk[n] = rk[n - nk] ^ (Te4[..] & ..) ^ .. ^ rcon[i]` */
  method StoreRot(sb: SBox, ghost key: seq<bv32>, rk: array<bv32>, n: nat, nk: nat, i: nat)
    requires 4 <= |key| == nk <= n < rk.Length
    requires rk[..n] == KeyExpansion(sb, key, n)
    requires n == nk * (i + 1) && i < 10
    modifies rk
    ensures rk[..n + 1] == KeyExpansion(sb, key, n + 1)
  {
    hide Xor, Temp, SubWord, RotWord, Rcon, RotStep;
    TempRot(sb, nk, n, i, rk[n - 1]);
    var temp := rk[n - 1];
    RotStepMeans(sb, rk[n - nk], temp, RCON[i]);
    RconTable(i);
    rk[n] := RotStep(sb, rk[n - nk], temp, RCON[i]);
    assert rk[..n] == old(rk[..n]);
  }

  /** `rk[n] = rk[n - nk] ^ (Te4[..] & ..) ^ ..`, the extra substitution of 256-bit keys. */
  method StoreSub(sb: SBox, ghost key: seq<bv32>, rk: array<bv32>, n: nat, nk: nat, ghost q: nat)
    requires 6 < |key| == nk <= n < rk.Length
    requires rk[..n] == KeyExpansion(sb, key, n)
    requires n == nk * q + 4
    modifies rk
    ensures rk[..n + 1] == KeyExpansion(sb, key, n + 1)
  {
    hide Xor, Temp, AddSubBytes;
    TempSub(sb, nk, n, q, rk[n - 1]);
    var temp := rk[n - 1];
    AddSubBytesMeans(sb, rk[n - nk], Unpack(temp));
    rk[n] := AddSubBytes(sb, rk[n - nk], Unpack(temp));
    assert rk[..n] == old(rk[..n]);
  }

  method Expand128(sb: SBox, ghost key: seq<bv32>, rk: array<bv32>)
    requires |key| == 4 && rk.Length == 60 && rk[..4] == key
    modifies rk
    ensures rk[..44] == KeyExpansion(sb, key, 44)
  {
    hide KeyExpansion;
    FirstWords(sb, key);
    var i, at := 0, 0;
    while true
      invariant 0 <= i < 10 && at == 4 * i
      invariant rk[..at + 4] == KeyExpansion(sb, key, at + 4)
      decreases 10 - i
    {
      StoreRot(sb, key, rk, at + 4, 4, i);
      StoreChain(sb, key, rk, at + 5, 4, i + 1, 1);
      StoreChain(sb, key, rk, at + 6, 4, i + 1, 2);
      StoreChain(sb, key, rk, at + 7, 4, i + 1, 3);
      i := i + 1;
      if i == 10 {
        return;
      }
      at := at + 4;
    }
  }

  method Expand192(sb: SBox, ghost key: seq<bv32>, rk: array<bv32>)
    requires |key| == 6 && rk.Length == 60 && rk[..6] == key
    modifies rk
    ensures rk[..52] == KeyExpansion(sb, key, 52)
  {
    hide KeyExpansion;
    FirstWords(sb, key);
    var i, at := 0, 0;
    while true
      invariant 0 <= i < 8 && at == 6 * i
      invariant rk[..at + 6] == KeyExpansion(sb, key, at + 6)
      decreases 8 - i
    {
      StoreRot(sb, key, rk, at + 6, 6, i);
      StoreChain(sb, key, rk, at + 7, 6, i + 1, 1);
      StoreChain(sb, key, rk, at + 8, 6, i + 1, 2);
      StoreChain(sb, key, rk, at + 9, 6, i + 1, 3);
      i := i + 1;
      if i == 8 {
        return;
      }
      StoreChain(sb, key, rk, at + 10, 6, i, 4);
      StoreChain(sb, key, rk, at + 11, 6, i, 5);
      at := at + 6;
    }
  }

  method Expand256(sb: SBox, ghost key: seq<bv32>, rk: array<bv32>)
    requires |key| == 8 && rk.Length == 60 && rk[..8] == key
    modifies rk
    ensures rk[..60] == KeyExpansion(sb, key, 60)
  {
    hide KeyExpansion;
    FirstWords(sb, key);
    var i, at := 0, 0;
    while true
      invariant 0 <= i < 7 && at == 8 * i
      invariant rk[..at + 8] == KeyExpansion(sb, key, at + 8)
      decreases 7 - i
    {
      StoreRot(sb, key, rk, at + 8, 8, i);
      StoreChain(sb, key, rk, at + 9, 8, i + 1, 1);
      StoreChain(sb, key, rk, at + 10, 8, i + 1, 2);
      StoreChain(sb, key, rk, at + 11, 8, i + 1, 3);
      i := i + 1;
      if i == 7 {
        return;
      }
      StoreSub(sb, key, rk, at + 12, 8, i);
      StoreChain(sb, key, rk, at + 13, 8, i, 5);
      StoreChain(sb, key, rk, at + 14, 8, i, 6);
      StoreChain(sb, key, rk, at + 15, 8, i, 7);
      at := at + 8;
    }
  }

  lemma FirstWords(sb: SBox, key: seq<bv32>)
    requires 4 <= |key|
    ensures KeyExpansion(sb, key, |key|) == key
  {
  }

  predicate LegalBits(bits: int) {
    bits == 128 || bits == 192 || bits == 256
  }

  /** AES_set_encrypt_key */
  method SetEncryptKey(sb: SBox, userKey: array?<bv8>, bits: int, key: AesKey?) returns (status: int)
    requires userKey != null && LegalBits(bits) ==> 8 * userKey.Length >= bits
    requires key != null ==> key.rdKey.Length == 60
    modifies if key == null then {} else {key, key.rdKey}
    ensures status == -1 <==> userKey == null || key == null
    ensures userKey != null && key != null ==> status == if LegalBits(bits) then 0 else -2
    ensures status != 0 && key != null ==> unchanged(key) && unchanged(key.rdKey)
    ensures status == 0 ==>
              && key.Valid() && key.rounds == bits / 32 + 6
              && key.rdKey[..4 * (key.rounds + 1)] ==
                 KeyExpansion(sb, KeyWords(userKey[..], bits / 32), 4 * (key.rounds + 1))
              && Expanded(sb, userKey[..], bits / 32, key.rdKey[..4 * (key.rounds + 1)])
  {
    hide KeyExpansion, KeyWords, Expanded;
    if userKey == null || key == null {
      return -1;
    }
    if bits != 128 && bits != 192 && bits != 256 {
      return -2;
    }
    var rk := key.rdKey;
    if bits == 128 {
      key.rounds := 10;
    } else if bits == 192 {
      key.rounds := 12;
    } else {
      key.rounds := 14;
    }
    NoKeyWords(userKey[..]);
    LoadTwo(userKey, rk, 0);
    LoadTwo(userKey, rk, 2);
    if bits == 128 {
      Expand128(sb, KeyWords(userKey[..], 4), rk);
      ExpansionByBytes(sb, userKey[..], 4, 44);
      return 0;
    }
    LoadTwo(userKey, rk, 4);
    if bits == 192 {
      Expand192(sb, KeyWords(userKey[..], 6), rk);
      ExpansionByBytes(sb, userKey[..], 6, 52);
      return 0;
    }
    LoadTwo(userKey, rk, 6);
    Expand256(sb, KeyWords(userKey[..], 8), rk);
    ExpansionByBytes(sb, userKey[..], 8, 60);
    return 0;
  }

  lemma NoKeyWords(bytes: seq<bv8>)
    ensures KeyWords(bytes, 0) == []
  {
  }

  /** `rk[i] = GETU32(userKey + 4 * i)` for two neighbouring words. */
  method LoadTwo(userKey: array<bv8>, rk: array<bv32>, i: nat)
    requires 4 * (i + 2) <= userKey.Length && i + 2 <= rk.Length
    requires rk[..i] == KeyWords(userKey[..], i)
    modifies rk
    ensures rk[..i + 2] == KeyWords(userKey[..], i + 2)
  {
    hide Pack;
    rk[i] := GetU32(userKey[..], 4 * i);
    rk[i + 1] := GetU32(userKey[..], 4 * (i + 1));
    assert rk[..i] == old(rk[..i]);
  }

  // ---- AES_set_decrypt_key ----

  /** `b` is `a` with round keys `i` and `j` exchanged. */
  ghost predicate Exchanged(a: seq<bv32>, b: seq<bv32>, i: nat, j: nat) {
    && |a| == |b| && i < j && 4 * (j + 1) <= |a|
    && b[4 * i] == a[4 * j] && b[4 * i + 1] == a[4 * j + 1]
    && b[4 * i + 2] == a[4 * j + 2] && b[4 * i + 3] == a[4 * j + 3]
    && b[4 * j] == a[4 * i] && b[4 * j + 1] == a[4 * i + 1]
    && b[4 * j + 2] == a[4 * i + 2] && b[4 * j + 3] == a[4 * i + 3]
    && (forall m | 0 <= m < |a| && !(4 * i <= m < 4 * i + 4) && !(4 * j <= m < 4 * j + 4) :: b[m] == a[m])
  }

  /** `temp = rk[a]; rk[a] = rk[b]; rk[b] = temp` */
  method SwapWords(rk: array<bv32>, a: nat, b: nat)
    requires a < b < rk.Length
    modifies rk
    ensures rk[a] == old(rk[b]) && rk[b] == old(rk[a])
    ensures forall m | 0 <= m < rk.Length && m != a && m != b :: rk[m] == old(rk[m])
  {
    var temp := rk[a];
    rk[a] := rk[b];
    rk[b] := temp;
  }

  /** The four exchanges of one iteration. */
  method SwapRoundKeys(rk: array<bv32>, i: nat, j: nat)
    requires i < j && 4 * (j + 1) <= rk.Length
    modifies rk
    ensures Exchanged(old(rk[..]), rk[..], i, j)
  {
    SwapWords(rk, 4 * i, 4 * j);
    SwapWords(rk, 4 * i + 1, 4 * j + 1);
    SwapWords(rk, 4 * i + 2, 4 * j + 2);
    SwapWords(rk, 4 * i + 3, 4 * j + 3);
  }

  /** Round keys outside `lo..hi` are exchanged with their mirror images, the others are not. */
  ghost predicate Mirrored(keys: seq<State>, w: seq<bv32>, lo: int, hi: int) {
    && 0 < |keys| && 4 * |keys| <= |w|
    && forall k: nat | k < |keys| ::
         RoundKey(w, k) == keys[if lo <= k <= hi then k else |keys| - 1 - k]
  }

  lemma SwapMirrors(keys: seq<State>, w: seq<bv32>, w': seq<bv32>, i: nat, j: nat)
    requires Exchanged(w, w', i, j) && i + j == |keys| - 1 && Mirrored(keys, w, i, j)
    ensures Mirrored(keys, w', i + 1, j - 1)
  {
    forall k: nat | k < |keys|
      ensures RoundKey(w', k) == keys[if i + 1 <= k <= j - 1 then k else |keys| - 1 - k]
    {
      assert RoundKey(w, j) == keys[j];
      assert RoundKey(w, i) == keys[i];
      ExchangedKey(w, w', i, j, k);
    }
  }

  lemma ExchangedKey(w: seq<bv32>, w': seq<bv32>, i: nat, j: nat, k: nat)
    requires Exchanged(w, w', i, j) && 4 * (k + 1) <= |w|
    ensures RoundKey(w', k) == RoundKey(w, if k == i then j else if k == j then i else k)
  {
    hide StateOf;
    var p := 4 * k;
    if k != i && k != j {
      assert w'[p] == w[p] && w'[p + 1] == w[p + 1] && w'[p + 2] == w[p + 2] && w'[p + 3] == w[p + 3];
    }
  }

  method ReverseRoundKeys(rk: array<bv32>, rounds: nat)
    requires 0 < rounds && 4 * (rounds + 1) <= rk.Length
    modifies rk
    ensures forall k: nat | k <= rounds :: RoundKey(rk[..], k) == old(RoundKey(rk[..], rounds - k))
  {
    hide StateOf, RoundKey;
    ghost var keys := RoundKeys(rk[..], rounds);
    var i, j := 0, rounds;
    while i < j
      invariant 0 <= i && j <= rounds && i + j == rounds
      invariant Mirrored(keys, rk[..], i, j)
    {
      ghost var w := rk[..];
      SwapRoundKeys(rk, i, j);
      SwapMirrors(keys, w, rk[..], i, j);
      i, j := i + 1, j - 1;
    }
    forall k: nat | k <= rounds
      ensures RoundKey(rk[..], k) == keys[rounds - k]
    {
      assert i <= k <= j ==> k == rounds - k;
    }
  }

  /** `rk[m] = Td0[..] ^ ..` for the four words of one round key. */
  method InvMixRoundKey(sb: SBox, rk: array<bv32>, k: nat)
    requires sb.Valid() && 4 * (k + 1) <= rk.Length
    modifies rk
    ensures RoundKey(rk[..], k) == InvMixColumns(old(RoundKey(rk[..], k)))
    ensures forall m | 0 <= m < rk.Length && m / 4 != k :: rk[m] == old(rk[m])
  {
    hide InvMixWord, InvMixColumn, Unpack;
    var m := 4 * k;
    InvMixWordMixes(sb, rk[m]);
    InvMixWordMixes(sb, rk[m + 1]);
    InvMixWordMixes(sb, rk[m + 2]);
    InvMixWordMixes(sb, rk[m + 3]);
    rk[m] := InvMixWord(sb, rk[m]);
    rk[m + 1] := InvMixWord(sb, rk[m + 1]);
    rk[m + 2] := InvMixWord(sb, rk[m + 2]);
    rk[m + 3] := InvMixWord(sb, rk[m + 3]);
  }

  method InvMixMiddle(sb: SBox, rk: array<bv32>, rounds: nat)
    requires sb.Valid() && 0 < rounds && 4 * (rounds + 1) <= rk.Length
    modifies rk
    ensures forall k: nat | k <= rounds ::
              RoundKey(rk[..], k) ==
              (if k == 0 || k == rounds then old(RoundKey(rk[..], k)) else InvMixColumns(old(RoundKey(rk[..], k))))
  {
    hide StateOf, InvMixColumns;
    ghost var w := rk[..];
    var i := 1;
    while i < rounds
      invariant 1 <= i <= rounds
      invariant forall k: nat | k <= rounds ::
                  RoundKey(rk[..], k) ==
                  (if 1 <= k < i then InvMixColumns(RoundKey(w, k)) else RoundKey(w, k))
    {
      ghost var before := rk[..];
      InvMixRoundKey(sb, rk, i);
      forall k: nat | k <= rounds && k != i
        ensures RoundKey(rk[..], k) == RoundKey(before, k)
      {
      }
      i := i + 1;
    }
  }

  /** AES_set_decrypt_key */
  method SetDecryptKey(sb: SBox, userKey: array?<bv8>, bits: int, key: AesKey?) returns (status: int)
    requires sb.Valid()
    requires userKey != null && LegalBits(bits) ==> 8 * userKey.Length >= bits
    requires key != null ==> key.rdKey.Length == 60
    modifies if key == null then {} else {key, key.rdKey}
    ensures status == -1 <==> userKey == null || key == null
    ensures userKey != null && key != null ==> status == if LegalBits(bits) then 0 else -2
    ensures status != 0 && key != null ==> unchanged(key) && unchanged(key.rdKey)
    ensures status == 0 ==>
              && key.Valid() && key.rounds == bits / 32 + 6
              && RoundKeys(key.rdKey[..], key.rounds) ==
                 InverseSchedule(RoundKeys(
                   KeyExpansion(sb, KeyWords(userKey[..], bits / 32), 4 * (key.rounds + 1)), key.rounds))
  {
    hide KeyExpansion, KeyWords, RoundKey, RoundKeys, InvMixColumns, InverseSchedule;
    status := SetEncryptKey(sb, userKey, bits, key);
    if status < 0 {
      return status;
    }
    var rounds := key.rounds;
    ghost var w := key.rdKey[..];
    ReverseRoundKeys(key.rdKey, rounds);
    InvMixMiddle(sb, key.rdKey, rounds);
    InvertedSchedule(w, key.rdKey[..], rounds);
    return 0;
  }

  lemma InvertedSchedule(w: seq<bv32>, dk: seq<bv32>, rounds: nat)
    requires 0 < rounds && 4 * (rounds + 1) <= |w| == |dk|
    requires forall k: nat | k <= rounds ::
               RoundKey(dk, k) == if k == 0 || k == rounds then RoundKey(w, rounds - k)
                                  else InvMixColumns(RoundKey(w, rounds - k))
    ensures RoundKeys(dk, rounds) == InverseSchedule(RoundKeys(w[..4 * (rounds + 1)], rounds))
  {
    hide StateOf, InvMixColumns;
    assert RoundKeys(w[..4 * (rounds + 1)], rounds) == RoundKeys(w, rounds);
  }

  // ---- the round trip ----

  /** For every cipher key of a legal size and every block, decrypting under the decryption
      schedule what was encrypted under the encryption schedule gives the block back. `ek` and
      `dk` are any schedules that meet the contracts of the two key setup routines. */
  lemma DecryptUndoesEncrypt(sb: SBox, bytes: seq<bv8>, bits: nat, ek: seq<bv32>, dk: seq<bv32>, b: Block)
    requires sb.Valid() && LegalBits(bits) && 8 * |bytes| >= bits && |ek| == |dk| == 60
    requires (var rounds := bits / 32 + 6;
              var w := KeyExpansion(sb, KeyWords(bytes, bits / 32), 4 * (rounds + 1));
              && ek[..4 * (rounds + 1)] == w
              && RoundKeys(dk, rounds) == InverseSchedule(RoundKeys(w, rounds)))
    ensures DecryptBlock(sb, dk, bits / 32 + 6, EncryptBlock(sb, ek, bits / 32 + 6, b)) == b
  {
    hide KeyExpansion, KeyWords, Cipher, EquivalentInverseCipher, StateOf, ToBlock, ToState, InverseSchedule;
    var rounds := bits / 32 + 6;
    assert RoundKeys(ek, rounds) == RoundKeys(ek[..4 * (rounds + 1)], rounds);
    var s := ToState(b);
    var c := Cipher(sb, RoundKeys(ek, rounds), s);
    ToStateToBlock(c);
    InverseCipherUndoesCipher(sb, RoundKeys(ek, rounds), s);
    ToBlockToState(b);
  }

  lemma ToStateToBlock(s: State)
    ensures ToState(ToBlock(s)) == s
  {
  }
}
