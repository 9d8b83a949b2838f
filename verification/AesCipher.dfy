/** The cipher, inverse cipher and key expansion as FIPS 197 defines them, on a state of four
    columns, and the proof that the equivalent inverse cipher undoes the cipher. */
module AesCipher {
  import opened GaloisField

  /** A substitution box and its inverse. Nothing below depends on which one it is. */
  datatype SBox = SBox(sub: bv8 -> bv8, inv: bv8 -> bv8) {
    ghost predicate Valid() {
      forall x: bv8 {:trigger sub(x)} :: inv(sub(x)) == x
    }
  }

  datatype State = State(c0: Column, c1: Column, c2: Column, c3: Column)

  // ---- the transformations of sections 5.1 and 5.3 ----

  function SubColumn(sb: SBox, c: Column): Column {
    Column(sb.sub(c.r0), sb.sub(c.r1), sb.sub(c.r2), sb.sub(c.r3))
  }

  function InvSubColumn(sb: SBox, c: Column): Column {
    Column(sb.inv(c.r0), sb.inv(c.r1), sb.inv(c.r2), sb.inv(c.r3))
  }

  function SubBytes(sb: SBox, s: State): State {
    State(SubColumn(sb, s.c0), SubColumn(sb, s.c1), SubColumn(sb, s.c2), SubColumn(sb, s.c3))
  }

  function InvSubBytes(sb: SBox, s: State): State {
    State(InvSubColumn(sb, s.c0), InvSubColumn(sb, s.c1),
          InvSubColumn(sb, s.c2), InvSubColumn(sb, s.c3))
  }

  /** Row `r` moves left by `r` columns. */
  function ShiftRows(s: State): State {
    State(Column(s.c0.r0, s.c1.r1, s.c2.r2, s.c3.r3),
          Column(s.c1.r0, s.c2.r1, s.c3.r2, s.c0.r3),
          Column(s.c2.r0, s.c3.r1, s.c0.r2, s.c1.r3),
          Column(s.c3.r0, s.c0.r1, s.c1.r2, s.c2.r3))
  }

  /** Row `r` moves right by `r` columns. */
  function InvShiftRows(s: State): State {
    State(Column(s.c0.r0, s.c3.r1, s.c2.r2, s.c1.r3),
          Column(s.c1.r0, s.c0.r1, s.c3.r2, s.c2.r3),
          Column(s.c2.r0, s.c1.r1, s.c0.r2, s.c3.r3),
          Column(s.c3.r0, s.c2.r1, s.c1.r2, s.c0.r3))
  }

  function MixColumns(s: State): State {
    State(MixColumn(s.c0), MixColumn(s.c1), MixColumn(s.c2), MixColumn(s.c3))
  }

  function InvMixColumns(s: State): State {
    State(InvMixColumn(s.c0), InvMixColumn(s.c1), InvMixColumn(s.c2), InvMixColumn(s.c3))
  }

  function AddRoundKey(s: State, k: State): State {
    State(AddColumn(s.c0, k.c0), AddColumn(s.c1, k.c1), AddColumn(s.c2, k.c2), AddColumn(s.c3, k.c3))
  }

  // ---- cipher and equivalent inverse cipher, for any schedule of round keys ----

  function Round(sb: SBox, s: State, k: State): State {
    AddRoundKey(MixColumns(ShiftRows(SubBytes(sb, s))), k)
  }

  function InvRound(sb: SBox, s: State, k: State): State {
    AddRoundKey(InvMixColumns(InvShiftRows(InvSubBytes(sb, s))), k)
  }

  /** The state after the initial key addition and `k` full rounds. */
  function Rounds(sb: SBox, keys: seq<State>, input: State, k: nat): State
    requires k < |keys|
  {
    if k == 0 then AddRoundKey(input, keys[0]) else Round(sb, Rounds(sb, keys, input, k - 1), keys[k])
  }

  function InvRounds(sb: SBox, keys: seq<State>, input: State, k: nat): State
    requires k < |keys|
  {
    if k == 0 then AddRoundKey(input, keys[0])
    else InvRound(sb, InvRounds(sb, keys, input, k - 1), keys[k])
  }

  /** Section 5.1: all rounds but the last mix columns. */
  function Cipher(sb: SBox, keys: seq<State>, input: State): State
    requires |keys| >= 2
  {
    var n := |keys| - 1;
    AddRoundKey(ShiftRows(SubBytes(sb, Rounds(sb, keys, input, n - 1))), keys[n])
  }

  /** Section 5.3.5: the same order of transformations as the cipher. */
  function EquivalentInverseCipher(sb: SBox, keys: seq<State>, input: State): State
    requires |keys| >= 2
  {
    var n := |keys| - 1;
    AddRoundKey(InvShiftRows(InvSubBytes(sb, InvRounds(sb, keys, input, n - 1))), keys[n])
  }

  /** Section 5.3.5: the round keys in reverse order, all but the outer two inverse-mixed. */
  function InverseSchedule(keys: seq<State>): seq<State> {
    seq(|keys|, i requires 0 <= i < |keys| =>
      var k := keys[|keys| - 1 - i];
      if i == 0 || i == |keys| - 1 then k else InvMixColumns(k))
  }

  // ---- each transformation is undone ----

  lemma SubBytesInverse(sb: SBox, s: State)
    requires sb.Valid()
    ensures InvShiftRows(InvSubBytes(sb, ShiftRows(SubBytes(sb, s)))) == s
  {
  }

  lemma MixColumnsInverse(s: State)
    ensures InvMixColumns(MixColumns(s)) == s
  {
    hide MixColumn, InvMixColumn;
    MixColumnInverse(s.c0);
    MixColumnInverse(s.c1);
    MixColumnInverse(s.c2);
    MixColumnInverse(s.c3);
  }

  lemma InvMixColumnsLinear(s: State, k: State)
    ensures InvMixColumns(AddRoundKey(s, k)) == AddRoundKey(InvMixColumns(s), InvMixColumns(k))
  {
    hide AddColumn, InvMixColumn;
    InvMixColumnLinear(s.c0, k.c0);
    InvMixColumnLinear(s.c1, k.c1);
    InvMixColumnLinear(s.c2, k.c2);
    InvMixColumnLinear(s.c3, k.c3);
  }

  lemma AddRoundKeyTwice(s: State, k: State)
    ensures AddRoundKey(AddRoundKey(s, k), k) == s
  {
    hide AddColumn;
    AddTwice(s.c0, k.c0);
    AddTwice(s.c1, k.c1);
    AddTwice(s.c2, k.c2);
    AddTwice(s.c3, k.c3);
  }

  /** One inverse round under the inverse-mixed key removes one round. */
  lemma InvRoundUndoesRound(sb: SBox, s: State, k: State)
    requires sb.Valid()
    ensures InvRound(sb, ShiftRows(SubBytes(sb, Round(sb, s, k))), InvMixColumns(k)) ==
            ShiftRows(SubBytes(sb, s))
  {
    hide SubBytes, InvSubBytes, ShiftRows, InvShiftRows, MixColumns, InvMixColumns, AddRoundKey;
    var m := MixColumns(ShiftRows(SubBytes(sb, s)));
    SubBytesInverse(sb, Round(sb, s, k));
    InvMixColumnsLinear(m, k);
    AddRoundKeyTwice(InvMixColumns(m), InvMixColumns(k));
    MixColumnsInverse(ShiftRows(SubBytes(sb, s)));
  }

  /** After `k` inverse rounds the state is the one the cipher had after `n - 1 - k` rounds,
      substituted and shifted. */
  lemma {:induction false} InvRoundsTrackRounds(sb: SBox, keys: seq<State>, input: State, k: nat)
    requires sb.Valid() && |keys| >= 2 && k < |keys| - 1
    ensures InvRounds(sb, InverseSchedule(keys), Cipher(sb, keys, input), k) ==
            ShiftRows(SubBytes(sb, Rounds(sb, keys, input, |keys| - 2 - k)))
  {
    hide SubBytes, ShiftRows, AddRoundKey, InvMixColumns, Round, InvRound;
    var n := |keys| - 1;
    var inverse := InverseSchedule(keys);
    if k == 0 {
      AddRoundKeyTwice(ShiftRows(SubBytes(sb, Rounds(sb, keys, input, n - 1))), keys[n]);
    } else {
      InvRoundsTrackRounds(sb, keys, input, k - 1);
      var s := Rounds(sb, keys, input, n - 1 - k);
      assert inverse[k] == InvMixColumns(keys[n - k]);
      assert Rounds(sb, keys, input, n - k) == Round(sb, s, keys[n - k]);
      InvRoundUndoesRound(sb, s, keys[n - k]);
    }
  }

  /** The equivalent inverse cipher under the inverse schedule undoes the cipher, for every
      schedule of at least two round keys, every substitution box and every block. */
  lemma InverseCipherUndoesCipher(sb: SBox, keys: seq<State>, input: State)
    requires sb.Valid() && |keys| >= 2
    ensures EquivalentInverseCipher(sb, InverseSchedule(keys), Cipher(sb, keys, input)) == input
  {
    hide SubBytes, ShiftRows, AddRoundKey, InvSubBytes, InvShiftRows, InvRounds, Cipher;
    var n := |keys| - 1;
    InvRoundsTrackRounds(sb, keys, input, n - 1);
    SubBytesInverse(sb, Rounds(sb, keys, input, 0));
    AddRoundKeyTwice(input, keys[0]);
    assert InverseSchedule(keys)[n] == keys[0];
  }
}
