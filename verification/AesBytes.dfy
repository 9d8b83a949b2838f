/** The cipher of FIPS 197 once more, byte by byte: where each byte of a round comes from and what
    it is multiplied by. */
module AesBytes {
  import opened GaloisField
  import opened AesCipher
  import opened AesTables
  import opened Aes

  /** Byte `r` of a word, the most significant first. */
  function ByteOf(w: bv32, r: nat): bv8
    requires r < 4
  {
    if r == 0 then (w >> 24) as bv8
    else if r == 1 then ((w >> 16) & 0xff) as bv8
    else if r == 2 then ((w >> 8) & 0xff) as bv8
    else (w & 0xff) as bv8
  }

  /** The bytes of round key `k`. */
  function KeyBytes(w: seq<bv32>, k: nat): Block
    requires 4 * (k + 1) <= |w|
  {
    seq(16, i requires 0 <= i < 16 => ByteOf(w[4 * k + i / 4], i % 4))
  }

  /** Twice a byte, modulo x^8 + x^4 + x^3 + x + 1. */
  function Double(a: bv8): bv8 {
    if a < 0x80 then a << 1 else (a << 1) ^ 0x1b
  }

  /** Before a round the byte that ends up in row `r` of column `c` is `r` columns further on. */
  function Origin(c: nat, r: nat): (i: nat)
    requires r < 4
    ensures i < 16
  {
    4 * ((c + r) % 4) + r
  }

  /** 2, 3, 1 and 1 times four bytes of a column, and a byte of the key. */
  function Mixed(x: bv8, y: bv8, z: bv8, u: bv8, k: bv8): bv8 {
    Double(x) ^ Double(y) ^ y ^ z ^ u ^ k
  }

  /** Byte `r` of column `c` after a full round, from the bytes from its own row down. */
  function RoundByte(sub: bv8 -> bv8, s: Block, k: Block, c: nat, r: nat): bv8
    requires c < 4 && r < 4
  {
    Mixed(sub(s[Origin(c, r)]), sub(s[Origin(c, (r + 1) % 4)]), sub(s[Origin(c, (r + 2) % 4)]),
          sub(s[Origin(c, (r + 3) % 4)]), k[4 * c + r])
  }

  /** The bytes after the first key and `n` full rounds. */
  function BytesAfter(sub: bv8 -> bv8, keys: seq<Block>, b: Block, n: nat): Block
    requires n < |keys|
  {
    if n == 0 then seq(16, i requires 0 <= i < 16 => b[i] ^ keys[0][i])
    else
      var s := BytesAfter(sub, keys, b, n - 1);
      seq(16, i requires 0 <= i < 16 => RoundByte(sub, s, keys[n], i / 4, i % 4))
  }

  /** The last round does not mix. */
  function ByteCipher(sub: bv8 -> bv8, keys: seq<Block>, b: Block): Block
    requires |keys| >= 2
  {
    var n := |keys| - 1;
    var s := BytesAfter(sub, keys, b, n - 1);
    seq(16, i requires 0 <= i < 16 => sub(s[Origin(i / 4, i % 4)]) ^ keys[n][i])
  }

  lemma DoubleIsXtime(a: bv8)
    ensures Double(a) == Xtime(a)
  {
  }

  lemma AddAssoc(a: bv8, b: bv8, c: bv8)
    ensures Add(Add(a, b), c) == Add(a, Add(b, c))
  {
  }

  lemma FlatSum(d: bv8, e: bv8, b: bv8, x: bv8, y: bv8, k: bv8)
    ensures d ^ e ^ b ^ x ^ y ^ k == Add(Add(Add(Add(Add(d, e), b), x), y), k)
  {
  }

  /** The sum of a round byte, from any of its four terms on. */
  lemma MixSum(x: bv8, y: bv8, z: bv8, u: bv8, k: bv8)
    ensures Mixed(x, y, z, u, k) == Add(Sum(Mul02(x), Mul03(y), z, u), k) == Add(Sum(u, Mul02(x), Mul03(y), z), k)
    ensures Mixed(x, y, z, u, k) == Add(Sum(z, u, Mul02(x), Mul03(y)), k) == Add(Sum(Mul03(y), z, u, Mul02(x)), k)
  {
    hide Add, Xtime, Double;
    DoubleIsXtime(x);
    DoubleIsXtime(y);
    var d, m := Mul02(x), Mul03(y);
    FlatSum(Double(x), Double(y), y, z, u, k);
    AddAssoc(d, Xtime(y), y);
    AddAssoc(Add(d, m), z, u);
    Regroup(u, d, m, z);
    Regroup(z, u, d, m);
    Regroup(m, z, u, d);
  }

  function RowOf(c: Column, r: nat): bv8
    requires r < 4
  {
    if r == 0 then c.r0 else if r == 1 then c.r1 else if r == 2 then c.r2 else c.r3
  }

  function ColumnOf(s: State, c: nat): Column
    requires c < 4
  {
    if c == 0 then s.c0 else if c == 1 then s.c1 else if c == 2 then s.c2 else s.c3
  }

  lemma BlockAt(s: State, c: nat, r: nat)
    requires c < 4 && r < 4
    ensures ToBlock(s)[4 * c + r] == RowOf(ColumnOf(s, c), r)
  {
    var c0, c1, c2, c3 := ColumnBytes(s.c0), ColumnBytes(s.c1), ColumnBytes(s.c2), ColumnBytes(s.c3);
    FourthsAt(c0, c1, c2, c3, c, r);
    ColumnBytesAt(ColumnOf(s, c), r);
  }

  lemma ColumnBytesAt(c: Column, r: nat)
    requires r < 4
    ensures ColumnBytes(c)[r] == RowOf(c, r)
  {
  }

  lemma FourthsAt(a: seq<bv8>, b: seq<bv8>, c: seq<bv8>, d: seq<bv8>, i: nat, r: nat)
    requires |a| == |b| == |c| == |d| == 4 && i < 4 && r < 4
    ensures (a + b + c + d)[4 * i + r] == (if i == 0 then a else if i == 1 then b else if i == 2 then c else d)[r]
  {
  }

  // ---- one round ----

  lemma ShiftedAt(sb: SBox, s: State, c: nat, r: nat)
    requires c < 4 && r < 4
    ensures RowOf(ColumnOf(ShiftRows(SubBytes(sb, s)), c), r) == sb.sub(ToBlock(s)[Origin(c, r)])
  {
    hide ToBlock;
    BlockAt(s, (c + r) % 4, r);
  }

  lemma MixedAt(a: Column, r: nat, k: bv8)
    requires r < 4
    ensures Add(RowOf(MixColumn(a), r), k)
            == Mixed(RowOf(a, r), RowOf(a, (r + 1) % 4), RowOf(a, (r + 2) % 4), RowOf(a, (r + 3) % 4), k)
  {
    hide Add, Mul02, Mul03, Mixed, Sum;
    MixSum(RowOf(a, r), RowOf(a, (r + 1) % 4), RowOf(a, (r + 2) % 4), RowOf(a, (r + 3) % 4), k);
  }

  lemma AddedAt(s: State, k: State, c: nat, r: nat)
    requires c < 4 && r < 4
    ensures ToBlock(AddRoundKey(s, k))[4 * c + r] == Add(RowOf(ColumnOf(s, c), r), ToBlock(k)[4 * c + r])
  {
    hide ToBlock, Add;
    BlockAt(AddRoundKey(s, k), c, r);
    BlockAt(k, c, r);
  }

  lemma RoundAt(sb: SBox, s: State, k: State, c: nat, r: nat)
    requires c < 4 && r < 4
    ensures ToBlock(Round(sb, s, k))[4 * c + r] == RoundByte(sb.sub, ToBlock(s), ToBlock(k), c, r)
  {
    hide ToBlock, Add, Mixed, MixColumn, ShiftRows, SubBytes, AddRoundKey, RowOf, Origin;
    var t := ShiftRows(SubBytes(sb, s));
    AddedAt(MixColumns(t), k, c, r);
    MixedColumn(t, c);
    MixedAt(ColumnOf(t, c), r, ToBlock(k)[4 * c + r]);
    ShiftedAt(sb, s, c, r);
    ShiftedAt(sb, s, c, (r + 1) % 4);
    ShiftedAt(sb, s, c, (r + 2) % 4);
    ShiftedAt(sb, s, c, (r + 3) % 4);
  }

  lemma MixedColumn(t: State, c: nat)
    requires c < 4
    ensures ColumnOf(MixColumns(t), c) == MixColumn(ColumnOf(t, c))
  {
  }

  // ---- the whole cipher ----

  /** The bytes of round keys. */
  function Blocks(keys: seq<State>): (r: seq<Block>)
    ensures |r| == |keys| && forall k | 0 <= k < |keys| :: r[k] == ToBlock(keys[k])
  {
    seq(|keys|, k requires 0 <= k < |keys| => ToBlock(keys[k]))
  }

  lemma {:induction false} RoundsByBytes(sb: SBox, keys: seq<State>, b: Block, n: nat)
    requires n < |keys|
    ensures ToBlock(Rounds(sb, keys, ToState(b), n)) == BytesAfter(sb.sub, Blocks(keys), b, n)
  {
    hide ToBlock, Round, RoundByte, AddRoundKey, ToState;
    var now := ToBlock(Rounds(sb, keys, ToState(b), n));
    var expected := BytesAfter(sb.sub, Blocks(keys), b, n);
    if n > 0 {
      RoundsByBytes(sb, keys, b, n - 1);
    }
    forall i | 0 <= i < 16
      ensures now[i] == expected[i]
    {
      assert i == 4 * (i / 4) + i % 4;
      if n == 0 {
        AddedAt(ToState(b), keys[0], i / 4, i % 4);
        InputAt(b, i / 4, i % 4);
        AddIsXor(b[i], ToBlock(keys[0])[i]);
      } else {
        RoundAt(sb, Rounds(sb, keys, ToState(b), n - 1), keys[n], i / 4, i % 4);
      }
    }
  }

  lemma InputAt(b: Block, c: nat, r: nat)
    requires c < 4 && r < 4
    ensures RowOf(ColumnOf(ToState(b), c), r) == b[4 * c + r]
  {
    hide ToBlock, ToState;
    BlockAt(ToState(b), c, r);
    ToBlockToState(b);
  }

  lemma AddIsXor(a: bv8, b: bv8)
    ensures Add(a, b) == a ^ b
  {
  }

  lemma CipherByBytes(sb: SBox, keys: seq<State>, b: Block)
    requires |keys| >= 2
    ensures ToBlock(Cipher(sb, keys, ToState(b))) == ByteCipher(sb.sub, Blocks(keys), b)
  {
    hide ToBlock, Rounds, BytesAfter, AddRoundKey, ToState, ShiftRows, SubBytes, Add, RowOf, ColumnOf, Origin;
    var n := |keys| - 1;
    var s := Rounds(sb, keys, ToState(b), n - 1);
    RoundsByBytes(sb, keys, b, n - 1);
    forall i | 0 <= i < 16
      ensures ToBlock(Cipher(sb, keys, ToState(b)))[i] == ByteCipher(sb.sub, Blocks(keys), b)[i]
    {
      assert i == 4 * (i / 4) + i % 4;
      AddedAt(ShiftRows(SubBytes(sb, s)), keys[n], i / 4, i % 4);
      ShiftedAt(sb, s, i / 4, i % 4);
      AddIsXor(sb.sub(ToBlock(s)[Origin(i / 4, i % 4)]), ToBlock(keys[n])[i]);
    }
  }

  lemma UnpackByte(w: bv32, r: nat)
    requires r < 4
    ensures RowOf(Unpack(w), r) == ByteOf(w, r)
  {
  }

  lemma KeyBlock(w: seq<bv32>, k: nat)
    requires 4 * (k + 1) <= |w|
    ensures ToBlock(RoundKey(w, k)) == KeyBytes(w, k)
  {
    hide ToBlock, Unpack, ByteOf, RowOf;
    forall i | 0 <= i < 16
      ensures ToBlock(RoundKey(w, k))[i] == KeyBytes(w, k)[i]
    {
      assert i == 4 * (i / 4) + i % 4;
      BlockAt(RoundKey(w, k), i / 4, i % 4);
      UnpackByte(w[4 * k + i / 4], i % 4);
    }
  }

  /** What AES_encrypt computes, byte by byte from the schedule and the block. */
  lemma EncryptByBytes(sb: SBox, w: seq<bv32>, rounds: nat, b: Block)
    requires rounds > 0 && 4 * (rounds + 1) <= |w|
    ensures EncryptBlock(sb, w, rounds, b)
            == ByteCipher(sb.sub, seq(rounds + 1, k requires 0 <= k <= rounds => KeyBytes(w, k)), b)
  {
    hide ToBlock, Cipher, ByteCipher, KeyBytes, RoundKey, ToState;
    var keys := RoundKeys(w, rounds);
    CipherByBytes(sb, keys, b);
    forall k | 0 <= k <= rounds
      ensures Blocks(keys)[k] == KeyBytes(w, k)
    {
      KeyBlock(w, k);
    }
    assert Blocks(keys) == seq(rounds + 1, k requires 0 <= k <= rounds => KeyBytes(w, k));
  }
}
