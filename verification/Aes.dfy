/** AES_set_encrypt_key, AES_set_decrypt_key, AES_encrypt and AES_decrypt. */
module Aes {
  import opened GaloisField
  import opened AesCipher
  import opened AesTables
  import opened Bytes

  // ---- blocks, states and schedules ----

  type Block = b: seq<bv8> | |b| == 16 witness seq(16, _ => 0)

  function StateOf(w0: bv32, w1: bv32, w2: bv32, w3: bv32): State {
    State(Unpack(w0), Unpack(w1), Unpack(w2), Unpack(w3))
  }

  /** Section 3.4 of FIPS 197: the input bytes fill the columns of the state in order. */
  function ToState(b: Block): State {
    State(Column(b[0], b[1], b[2], b[3]), Column(b[4], b[5], b[6], b[7]),
          Column(b[8], b[9], b[10], b[11]), Column(b[12], b[13], b[14], b[15]))
  }

  function ToBlock(s: State): Block {
    ColumnBytes(s.c0) + ColumnBytes(s.c1) + ColumnBytes(s.c2) + ColumnBytes(s.c3)
  }

  function ColumnBytes(c: Column): (bytes: seq<bv8>)
    ensures |bytes| == 4
  {
    [c.r0, c.r1, c.r2, c.r3]
  }

  lemma ToBlockToState(b: Block)
    ensures ToBlock(ToState(b)) == b
  {
  }

  /** The round keys held in the first `4 * (rounds + 1)` words of a key schedule. */
  function RoundKeys(w: seq<bv32>, rounds: nat): seq<State>
    requires 4 * (rounds + 1) <= |w|
  {
    seq(rounds + 1, k requires 0 <= k <= rounds => RoundKey(w, k))
  }

  function RoundKey(w: seq<bv32>, k: nat): State
    requires 4 * (k + 1) <= |w|
  {
    StateOf(w[4 * k], w[4 * k + 1], w[4 * k + 2], w[4 * k + 3])
  }

  /** What AES_encrypt computes, in the terms of FIPS 197. */
  function EncryptBlock(sb: SBox, w: seq<bv32>, rounds: nat, b: Block): Block
    requires rounds > 0 && 4 * (rounds + 1) <= |w|
  {
    ToBlock(Cipher(sb, RoundKeys(w, rounds), ToState(b)))
  }

  /** What AES_decrypt computes, in the terms of FIPS 197. */
  function DecryptBlock(sb: SBox, w: seq<bv32>, rounds: nat, b: Block): Block
    requires rounds > 0 && 4 * (rounds + 1) <= |w|
  {
    ToBlock(EquivalentInverseCipher(sb, RoundKeys(w, rounds), ToState(b)))
  }

  // ---- rounds on words ----

  lemma TeRound(sb: SBox, s0: bv32, s1: bv32, s2: bv32, s3: bv32, k0: bv32, k1: bv32, k2: bv32, k3: bv32)
    ensures StateOf(TeWord(sb, s0, s1, s2, s3, k0), TeWord(sb, s1, s2, s3, s0, k1),
                    TeWord(sb, s2, s3, s0, s1, k2), TeWord(sb, s3, s0, s1, s2, k3)) ==
            Round(sb, StateOf(s0, s1, s2, s3), StateOf(k0, k1, k2, k3))
  {
    hide TeWord, Unpack, MixColumn, AddColumn;
    TeWordMixes(sb, s0, s1, s2, s3, k0);
    TeWordMixes(sb, s1, s2, s3, s0, k1);
    TeWordMixes(sb, s2, s3, s0, s1, k2);
    TeWordMixes(sb, s3, s0, s1, s2, k3);
  }

  lemma TdRound(sb: SBox, s0: bv32, s1: bv32, s2: bv32, s3: bv32, k0: bv32, k1: bv32, k2: bv32, k3: bv32)
    ensures StateOf(TdWord(sb, s0, s3, s2, s1, k0), TdWord(sb, s1, s0, s3, s2, k1),
                    TdWord(sb, s2, s1, s0, s3, k2), TdWord(sb, s3, s2, s1, s0, k3)) ==
            InvRound(sb, StateOf(s0, s1, s2, s3), StateOf(k0, k1, k2, k3))
  {
    hide TdWord, Unpack, InvMixColumn, AddColumn;
    TdWordMixes(sb, s0, s3, s2, s1, k0);
    TdWordMixes(sb, s1, s0, s3, s2, k1);
    TdWordMixes(sb, s2, s1, s0, s3, k2);
    TdWordMixes(sb, s3, s2, s1, s0, k3);
  }

  lemma Te4Round(sb: SBox, t0: bv32, t1: bv32, t2: bv32, t3: bv32, k0: bv32, k1: bv32, k2: bv32, k3: bv32)
    ensures StateOf(Te4Word(sb, t0, t1, t2, t3, k0), Te4Word(sb, t1, t2, t3, t0, k1),
                    Te4Word(sb, t2, t3, t0, t1, k2), Te4Word(sb, t3, t0, t1, t2, k3)) ==
            AddRoundKey(ShiftRows(SubBytes(sb, StateOf(t0, t1, t2, t3))), StateOf(k0, k1, k2, k3))
  {
    hide Te4Word, Unpack, AddColumn;
    Te4WordSubstitutes(sb, t0, t1, t2, t3, k0);
    Te4WordSubstitutes(sb, t1, t2, t3, t0, k1);
    Te4WordSubstitutes(sb, t2, t3, t0, t1, k2);
    Te4WordSubstitutes(sb, t3, t0, t1, t2, k3);
  }

  lemma Td4Round(sb: SBox, t0: bv32, t1: bv32, t2: bv32, t3: bv32, k0: bv32, k1: bv32, k2: bv32, k3: bv32)
    ensures StateOf(Td4Word(sb, t0, t3, t2, t1, k0), Td4Word(sb, t1, t0, t3, t2, k1),
                    Td4Word(sb, t2, t1, t0, t3, k2), Td4Word(sb, t3, t2, t1, t0, k3)) ==
            AddRoundKey(InvShiftRows(InvSubBytes(sb, StateOf(t0, t1, t2, t3))), StateOf(k0, k1, k2, k3))
  {
    hide Td4Word, Unpack, AddColumn;
    Td4WordSubstitutes(sb, t0, t3, t2, t1, k0);
    Td4WordSubstitutes(sb, t1, t0, t3, t2, k1);
    Td4WordSubstitutes(sb, t2, t1, t0, t3, k2);
    Td4WordSubstitutes(sb, t3, t2, t1, t0, k3);
  }

  lemma InitialWord(c: Column, k: bv32)
    ensures Unpack(Xor(Pack(c), k)) == AddColumn(c, Unpack(k))
  {
    hide Pack, Unpack, Xor, AddColumn;
    PackUnpack(k);
    PackXor(c, Unpack(k));
    UnpackPack(AddColumn(c, Unpack(k)));
  }

  lemma InitialState(b: Block, k0: bv32, k1: bv32, k2: bv32, k3: bv32)
    ensures StateOf(Xor(GetU32(b, 0), k0), Xor(GetU32(b, 4), k1), Xor(GetU32(b, 8), k2), Xor(GetU32(b, 12), k3)) ==
            AddRoundKey(ToState(b), StateOf(k0, k1, k2, k3))
  {
    hide Pack, Unpack, Xor, AddColumn;
    var s := ToState(b);
    InitialWord(s.c0, k0);
    InitialWord(s.c1, k1);
    InitialWord(s.c2, k2);
    InitialWord(s.c3, k3);
  }

  function GetU32(b: seq<bv8>, i: nat): bv32
    requires i + 4 <= |b|
  {
    Pack(Column(b[i], b[i + 1], b[i + 2], b[i + 3]))
  }

  /** One word of the schedule's round key `k`. */
  lemma RoundKeyAt(w: seq<bv32>, rounds: nat, k: nat)
    requires 4 * (rounds + 1) <= |w| && k <= rounds
    ensures RoundKeys(w, rounds)[k] == StateOf(w[4 * k], w[4 * k + 1], w[4 * k + 2], w[4 * k + 3])
  {
  }

  /** PUTU32 of the four result words. */
  method PutBlock(out: array<bv8>, at: nat, s0: bv32, s1: bv32, s2: bv32, s3: bv32)
    requires at + 16 <= out.Length
    modifies out
    ensures out[..] == Splice(old(out[..]), at, ToBlock(StateOf(s0, s1, s2, s3)))
  {
    hide Unpack, ColumnBytes, Splice;
    ghost var before, tail := out[..], out[at + 16..];
    PutU32(out, at, s0);
    assert out[at + 4..][12..] == tail;
    PutU32(out, at + 4, s1);
    assert out[at + 8..][8..] == tail;
    PutU32(out, at + 8, s2);
    assert out[at + 12..][4..] == tail;
    PutU32(out, at + 12, s3);
    SpliceParts(before, at, ToBlock(StateOf(s0, s1, s2, s3)), out[..]);
  }

  method PutU32(out: array<bv8>, at: nat, w: bv32)
    requires at + 4 <= out.Length
    modifies out
    ensures out[..at + 4] == old(out[..at]) + ColumnBytes(Unpack(w))
    ensures out[at + 4..] == old(out[at + 4..])
  {
    hide Unpack;
    var c := Unpack(w);
    out[at] := c.r0;
    out[at + 1] := c.r1;
    out[at + 2] := c.r2;
    out[at + 3] := c.r3;
  }

  /** AES_KEY */
  class AesKey {
    const rdKey: array<bv32>
    var rounds: nat

    ghost predicate Valid()
      reads this
    {
      rdKey.Length == 60 && (rounds == 10 || rounds == 12 || rounds == 14)
    }

    constructor ()
      ensures rdKey.Length == 60 && fresh(rdKey)
    {
      rdKey := new bv32[60];
      rounds := 0;
    }
  }

  lemma RoundKeysCount(w: seq<bv32>, rounds: nat)
    requires 4 * (rounds + 1) <= |w|
    ensures |RoundKeys(w, rounds)| == rounds + 1
  {
  }

  lemma InitialRounds(sb: SBox, keys: seq<State>, input: State)
    requires |keys| > 0
    ensures Rounds(sb, keys, input, 0) == AddRoundKey(input, keys[0])
  {
  }

  lemma InitialInvRounds(sb: SBox, keys: seq<State>, input: State)
    requires |keys| > 0
    ensures InvRounds(sb, keys, input, 0) == AddRoundKey(input, keys[0])
  {
  }

  /** Nr - 1 full rounds, two at a time as the loop of the source takes them. */
  method EncryptRounds(sb: SBox, rd: array<bv32>, rounds: nat, a0: bv32, a1: bv32, a2: bv32, a3: bv32,
                       ghost input: State)
    returns (t0: bv32, t1: bv32, t2: bv32, t3: bv32, rk: nat)
    requires rounds > 0 && rounds % 2 == 0 && 4 * (rounds + 1) <= rd.Length
    requires StateOf(a0, a1, a2, a3) == Rounds(sb, RoundKeys(rd[..], rounds), input, 0)
    ensures rk == 4 * rounds
    ensures StateOf(t0, t1, t2, t3) == Rounds(sb, RoundKeys(rd[..], rounds), input, rounds - 1)
  {
    hide TeWord, Round, StateOf, RoundKeys;
    RoundKeysCount(rd[..], rounds);
    ghost var w, keys := rd[..], RoundKeys(rd[..], rounds);
    var s0, s1, s2, s3 := a0, a1, a2, a3;
    t0, t1, t2, t3 := a0, a1, a2, a3;
    var r := rounds / 2;
    rk := 0;
    ghost var k := 0;
    while true
      invariant 0 < r && rk == 4 * k && k + 2 * r == rounds
      invariant |keys| == rounds + 1 && StateOf(s0, s1, s2, s3) == Rounds(sb, keys, input, k)
      decreases r
    {
      TeRound(sb, s0, s1, s2, s3, rd[rk + 4], rd[rk + 5], rd[rk + 6], rd[rk + 7]);
      RoundKeyAt(w, rounds, k + 1);
      t0 := TeWord(sb, s0, s1, s2, s3, rd[rk + 4]);
      t1 := TeWord(sb, s1, s2, s3, s0, rd[rk + 5]);
      t2 := TeWord(sb, s2, s3, s0, s1, rd[rk + 6]);
      t3 := TeWord(sb, s3, s0, s1, s2, rd[rk + 7]);
      assert StateOf(t0, t1, t2, t3) == Rounds(sb, keys, input, k + 1);
      rk := rk + 8;
      k := k + 2;
      r := r - 1;
      if r == 0 {
        break;
      }
      TeRound(sb, t0, t1, t2, t3, rd[rk], rd[rk + 1], rd[rk + 2], rd[rk + 3]);
      RoundKeyAt(w, rounds, k);
      s0 := TeWord(sb, t0, t1, t2, t3, rd[rk]);
      s1 := TeWord(sb, t1, t2, t3, t0, rd[rk + 1]);
      s2 := TeWord(sb, t2, t3, t0, t1, rd[rk + 2]);
      s3 := TeWord(sb, t3, t0, t1, t2, rd[rk + 3]);
      assert StateOf(s0, s1, s2, s3) == Rounds(sb, keys, input, k);
    }
  }

  /** AES_encrypt. Input and output may be the same buffer. */
  method AesEncrypt(sb: SBox, inp: array<bv8>, inAt: nat, out: array<bv8>, outAt: nat, key: AesKey)
    requires key.Valid() && inAt + 16 <= inp.Length && outAt + 16 <= out.Length
    modifies out
    ensures out[..] == Splice(old(out[..]), outAt,
                              EncryptBlock(sb, key.rdKey[..], key.rounds, old(inp[..])[inAt..inAt + 16]))
  {
    hide Te4Word, Xor, Pack, AddRoundKey, StateOf, RoundKeys, ToState, ToBlock, Splice, Rounds;
    var b, rd := inp[..][inAt..inAt + 16], key.rdKey;
    RoundKeysCount(rd[..], key.rounds);
    ghost var keys := RoundKeys(rd[..], key.rounds);
    var s0 := Xor(GetU32(b, 0), rd[0]);
    var s1 := Xor(GetU32(b, 4), rd[1]);
    var s2 := Xor(GetU32(b, 8), rd[2]);
    var s3 := Xor(GetU32(b, 12), rd[3]);
    InitialState(b, rd[0], rd[1], rd[2], rd[3]);
    RoundKeyAt(rd[..], key.rounds, 0);
    InitialRounds(sb, keys, ToState(b));
    var t0, t1, t2, t3, rk := EncryptRounds(sb, rd, key.rounds, s0, s1, s2, s3, ToState(b));
    Te4Round(sb, t0, t1, t2, t3, rd[rk], rd[rk + 1], rd[rk + 2], rd[rk + 3]);
    RoundKeyAt(rd[..], key.rounds, key.rounds);
    s0 := Te4Word(sb, t0, t1, t2, t3, rd[rk + 0]);
    s1 := Te4Word(sb, t1, t2, t3, t0, rd[rk + 1]);
    s2 := Te4Word(sb, t2, t3, t0, t1, rd[rk + 2]);
    s3 := Te4Word(sb, t3, t0, t1, t2, rd[rk + 3]);
    assert |keys| == key.rounds + 1;
    assert StateOf(s0, s1, s2, s3) == Cipher(sb, keys, ToState(b));
    PutBlock(out, outAt, s0, s1, s2, s3);
  }

  /** Nr - 1 full rounds, two at a time as the loop of the source takes them. */
  method DecryptRounds(sb: SBox, rd: array<bv32>, rounds: nat, a0: bv32, a1: bv32, a2: bv32, a3: bv32,
                       ghost input: State)
    returns (t0: bv32, t1: bv32, t2: bv32, t3: bv32, rk: nat)
    requires rounds > 0 && rounds % 2 == 0 && 4 * (rounds + 1) <= rd.Length
    requires StateOf(a0, a1, a2, a3) == InvRounds(sb, RoundKeys(rd[..], rounds), input, 0)
    ensures rk == 4 * rounds
    ensures StateOf(t0, t1, t2, t3) == InvRounds(sb, RoundKeys(rd[..], rounds), input, rounds - 1)
  {
    hide TdWord, InvRound, StateOf, RoundKeys;
    RoundKeysCount(rd[..], rounds);
    ghost var w, keys := rd[..], RoundKeys(rd[..], rounds);
    var s0, s1, s2, s3 := a0, a1, a2, a3;
    t0, t1, t2, t3 := a0, a1, a2, a3;
    var r := rounds / 2;
    rk := 0;
    ghost var k := 0;
    while true
      invariant 0 < r && rk == 4 * k && k + 2 * r == rounds
      invariant |keys| == rounds + 1 && StateOf(s0, s1, s2, s3) == InvRounds(sb, keys, input, k)
      decreases r
    {
      TdRound(sb, s0, s1, s2, s3, rd[rk + 4], rd[rk + 5], rd[rk + 6], rd[rk + 7]);
      RoundKeyAt(w, rounds, k + 1);
      t0 := TdWord(sb, s0, s3, s2, s1, rd[rk + 4]);
      t1 := TdWord(sb, s1, s0, s3, s2, rd[rk + 5]);
      t2 := TdWord(sb, s2, s1, s0, s3, rd[rk + 6]);
      t3 := TdWord(sb, s3, s2, s1, s0, rd[rk + 7]);
      assert StateOf(t0, t1, t2, t3) == InvRounds(sb, keys, input, k + 1);
      rk := rk + 8;
      k := k + 2;
      r := r - 1;
      if r == 0 {
        break;
      }
      TdRound(sb, t0, t1, t2, t3, rd[rk], rd[rk + 1], rd[rk + 2], rd[rk + 3]);
      RoundKeyAt(w, rounds, k);
      s0 := TdWord(sb, t0, t3, t2, t1, rd[rk]);
      s1 := TdWord(sb, t1, t0, t3, t2, rd[rk + 1]);
      s2 := TdWord(sb, t2, t1, t0, t3, rd[rk + 2]);
      s3 := TdWord(sb, t3, t2, t1, t0, rd[rk + 3]);
      assert StateOf(s0, s1, s2, s3) == InvRounds(sb, keys, input, k);
    }
  }

  /** AES_decrypt. Input and output may be the same buffer. */
  method AesDecrypt(sb: SBox, inp: array<bv8>, inAt: nat, out: array<bv8>, outAt: nat, key: AesKey)
    requires key.Valid() && inAt + 16 <= inp.Length && outAt + 16 <= out.Length
    modifies out
    ensures out[..] == Splice(old(out[..]), outAt,
                              DecryptBlock(sb, key.rdKey[..], key.rounds, old(inp[..])[inAt..inAt + 16]))
  {
    hide Td4Word, Xor, Pack, AddRoundKey, StateOf, RoundKeys, ToState, ToBlock, Splice, InvRounds;
    var b, rd := inp[..][inAt..inAt + 16], key.rdKey;
    RoundKeysCount(rd[..], key.rounds);
    ghost var keys := RoundKeys(rd[..], key.rounds);
    var s0 := Xor(GetU32(b, 0), rd[0]);
    var s1 := Xor(GetU32(b, 4), rd[1]);
    var s2 := Xor(GetU32(b, 8), rd[2]);
    var s3 := Xor(GetU32(b, 12), rd[3]);
    InitialState(b, rd[0], rd[1], rd[2], rd[3]);
    RoundKeyAt(rd[..], key.rounds, 0);
    InitialInvRounds(sb, keys, ToState(b));
    var t0, t1, t2, t3, rk := DecryptRounds(sb, rd, key.rounds, s0, s1, s2, s3, ToState(b));
    Td4Round(sb, t0, t1, t2, t3, rd[rk], rd[rk + 1], rd[rk + 2], rd[rk + 3]);
    RoundKeyAt(rd[..], key.rounds, key.rounds);
    s0 := Td4Word(sb, t0, t3, t2, t1, rd[rk + 0]);
    s1 := Td4Word(sb, t1, t0, t3, t2, rd[rk + 1]);
    s2 := Td4Word(sb, t2, t1, t0, t3, rd[rk + 2]);
    s3 := Td4Word(sb, t3, t2, t1, t0, rd[rk + 3]);
    assert |keys| == key.rounds + 1;
    assert StateOf(s0, s1, s2, s3) == EquivalentInverseCipher(sb, keys, ToState(b));
    PutBlock(out, outAt, s0, s1, s2, s3);
  }
}
