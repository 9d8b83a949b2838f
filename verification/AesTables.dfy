/** The 32-bit words and lookup tables of aes.c.

    The tables are given by the formulas in the comment at the head of aes.c, from the
    substitution box. Each expression the code builds from table entries is shown to be one
    column of the corresponding FIPS 197 transformation. */
module AesTables {
  import opened GaloisField
  import opened AesCipher

  // ---- words and columns ----

  /** GETU32: four bytes, most significant first. */
  function Pack(c: Column): bv32 {
    ((c.r0 as bv32) << 24) ^ ((c.r1 as bv32) << 16) ^ ((c.r2 as bv32) << 8) ^ (c.r3 as bv32)
  }

  /** The byte extractions of the round code, and PUTU32. */
  function Unpack(w: bv32): Column {
    Column((w >> 24) as bv8, ((w >> 16) & 0xff) as bv8, ((w >> 8) & 0xff) as bv8, (w & 0xff) as bv8)
  }

  function Xor(a: bv32, b: bv32): bv32 {
    a ^ b
  }

  /** `w & mask` */
  function Keep(w: bv32, mask: bv32): bv32 {
    w & mask
  }

  lemma UnpackPack(c: Column)
    ensures Unpack(Pack(c)) == c
  {
  }

  lemma PackUnpack(w: bv32)
    ensures Pack(Unpack(w)) == w
  {
  }

  lemma PackXor(a: Column, b: Column)
    ensures Xor(Pack(a), Pack(b)) == Pack(AddColumn(a, b))
  {
  }

  lemma XorAssoc(a: bv32, b: bv32, c: bv32)
    ensures Xor(Xor(a, b), c) == Xor(a, Xor(b, c))
  {
  }

  // ---- tables ----

  function Te0(sb: SBox, x: bv8): bv32 {
    var s := sb.sub(x);
    Pack(Column(Mul02(s), s, s, Mul03(s)))
  }

  function Te1(sb: SBox, x: bv8): bv32 {
    var s := sb.sub(x);
    Pack(Column(Mul03(s), Mul02(s), s, s))
  }

  function Te2(sb: SBox, x: bv8): bv32 {
    var s := sb.sub(x);
    Pack(Column(s, Mul03(s), Mul02(s), s))
  }

  function Te3(sb: SBox, x: bv8): bv32 {
    var s := sb.sub(x);
    Pack(Column(s, s, Mul03(s), Mul02(s)))
  }

  function Te4(sb: SBox, x: bv8): bv32 {
    Pack(Same(sb.sub(x)))
  }

  function Td0(sb: SBox, x: bv8): bv32 {
    var s := sb.inv(x);
    Pack(Column(Mul0e(s), Mul09(s), Mul0d(s), Mul0b(s)))
  }

  function Td1(sb: SBox, x: bv8): bv32 {
    var s := sb.inv(x);
    Pack(Column(Mul0b(s), Mul0e(s), Mul09(s), Mul0d(s)))
  }

  function Td2(sb: SBox, x: bv8): bv32 {
    var s := sb.inv(x);
    Pack(Column(Mul0d(s), Mul0b(s), Mul0e(s), Mul09(s)))
  }

  function Td3(sb: SBox, x: bv8): bv32 {
    var s := sb.inv(x);
    Pack(Column(Mul09(s), Mul0d(s), Mul0b(s), Mul0e(s)))
  }

  function Td4(sb: SBox, x: bv8): bv32 {
    Pack(Same(sb.inv(x)))
  }

  function Same(s: bv8): Column {
    Column(s, s, s, s)
  }

  // ---- expressions of the code ----

  /** `a ^ b ^ c ^ d ^ k`, as C associates it. */
  function Xor5(a: bv32, b: bv32, c: bv32, d: bv32, k: bv32): bv32 {
    Xor(Xor(Xor(Xor(a, b), c), d), k)
  }

  /** One word of a full encryption round. */
  function TeWord(sb: SBox, a: bv32, b: bv32, c: bv32, d: bv32, k: bv32): bv32 {
    Xor5(Te0(sb, Unpack(a).r0), Te1(sb, Unpack(b).r1), Te2(sb, Unpack(c).r2), Te3(sb, Unpack(d).r3), k)
  }

  /** One word of a full decryption round. */
  function TdWord(sb: SBox, a: bv32, b: bv32, c: bv32, d: bv32, k: bv32): bv32 {
    Xor5(Td0(sb, Unpack(a).r0), Td1(sb, Unpack(b).r1), Td2(sb, Unpack(c).r2), Td3(sb, Unpack(d).r3), k)
  }

  /** One word of the last encryption round. */
  function Te4Word(sb: SBox, a: bv32, b: bv32, c: bv32, d: bv32, k: bv32): bv32 {
    Xor5(Keep(Te4(sb, Unpack(a).r0), 0xff000000), Keep(Te4(sb, Unpack(b).r1), 0x00ff0000),
         Keep(Te4(sb, Unpack(c).r2), 0x0000ff00), Keep(Te4(sb, Unpack(d).r3), 0x000000ff), k)
  }

  /** One word of the last decryption round. */
  function Td4Word(sb: SBox, a: bv32, b: bv32, c: bv32, d: bv32, k: bv32): bv32 {
    Xor5(Keep(Td4(sb, Unpack(a).r0), 0xff000000), Keep(Td4(sb, Unpack(b).r1), 0x00ff0000),
         Keep(Td4(sb, Unpack(c).r2), 0x0000ff00), Keep(Td4(sb, Unpack(d).r3), 0x000000ff), k)
  }

  /** `Te4[x] & 0xff` */
  function Te4Low(sb: SBox, x: bv8): bv8 {
    Unpack(Te4(sb, x)).r3
  }

  /** The inverse mixing of a key word: `Td0[Te4[..] & 0xff] ^ ...`. */
  function InvMixWord(sb: SBox, w: bv32): bv32 {
    var c := Unpack(w);
    Xor(Xor(Xor(Td0(sb, Te4Low(sb, c.r0)), Td1(sb, Te4Low(sb, c.r1))), Td2(sb, Te4Low(sb, c.r2))),
        Td3(sb, Te4Low(sb, c.r3)))
  }

  // ---- what they mean ----

  lemma Xor4Columns(a: Column, b: Column, c: Column, d: Column)
    ensures Xor(Xor(Xor(Pack(a), Pack(b)), Pack(c)), Pack(d)) ==
            Pack(Column(Sum(a.r0, b.r0, c.r0, d.r0), Sum(a.r1, b.r1, c.r1, d.r1),
                        Sum(a.r2, b.r2, c.r2, d.r2), Sum(a.r3, b.r3, c.r3, d.r3)))
  {
    hide Pack, Xor, Add;
    PackXor(a, b);
    PackXor(c, d);
    XorAssoc(Xor(Pack(a), Pack(b)), Pack(c), Pack(d));
    PackXor(AddColumn(a, b), AddColumn(c, d));
  }

  lemma TeWordMixes(sb: SBox, a: bv32, b: bv32, c: bv32, d: bv32, k: bv32)
    ensures Unpack(TeWord(sb, a, b, c, d, k)) ==
            AddColumn(MixColumn(Column(sb.sub(Unpack(a).r0), sb.sub(Unpack(b).r1),
                                       sb.sub(Unpack(c).r2), sb.sub(Unpack(d).r3))), Unpack(k))
  {
    hide Pack, Unpack, Xor, Add, Sum, AddColumn, Mul02, Mul03;
    var p, q, r, s := sb.sub(Unpack(a).r0), sb.sub(Unpack(b).r1), sb.sub(Unpack(c).r2), sb.sub(Unpack(d).r3);
    Xor4Columns(Column(Mul02(p), p, p, Mul03(p)), Column(Mul03(q), Mul02(q), q, q),
                Column(r, Mul03(r), Mul02(r), r), Column(s, s, Mul03(s), Mul02(s)));
    var m := MixColumn(Column(p, q, r, s));
    PackUnpack(k);
    PackXor(m, Unpack(k));
    UnpackPack(AddColumn(m, Unpack(k)));
  }

  lemma InverseColumns(p: bv8, q: bv8, r: bv8, s: bv8)
    ensures Xor(Xor(Xor(Pack(Column(Mul0e(p), Mul09(p), Mul0d(p), Mul0b(p))),
                        Pack(Column(Mul0b(q), Mul0e(q), Mul09(q), Mul0d(q)))),
                    Pack(Column(Mul0d(r), Mul0b(r), Mul0e(r), Mul09(r)))),
                Pack(Column(Mul09(s), Mul0d(s), Mul0b(s), Mul0e(s)))) ==
            Pack(InvMixColumn(Column(p, q, r, s)))
  {
    hide Pack, Xor, Add, Mul09, Mul0b, Mul0d, Mul0e;
    Xor4Columns(Column(Mul0e(p), Mul09(p), Mul0d(p), Mul0b(p)), Column(Mul0b(q), Mul0e(q), Mul09(q), Mul0d(q)),
                Column(Mul0d(r), Mul0b(r), Mul0e(r), Mul09(r)), Column(Mul09(s), Mul0d(s), Mul0b(s), Mul0e(s)));
    Regroup(Mul09(p), Mul0e(q), Mul0b(r), Mul0d(s));
    Regroup(Mul0d(p), Mul09(q), Mul0e(r), Mul0b(s));
    Regroup(Mul09(q), Mul0e(r), Mul0b(s), Mul0d(p));
    Regroup(Mul0e(s), Mul0b(p), Mul0d(q), Mul09(r));
  }

  lemma TdWordMixes(sb: SBox, a: bv32, b: bv32, c: bv32, d: bv32, k: bv32)
    ensures Unpack(TdWord(sb, a, b, c, d, k)) ==
            AddColumn(InvMixColumn(Column(sb.inv(Unpack(a).r0), sb.inv(Unpack(b).r1),
                                          sb.inv(Unpack(c).r2), sb.inv(Unpack(d).r3))), Unpack(k))
  {
    hide Pack, Unpack, Xor, AddColumn, InvMixColumn, Mul09, Mul0b, Mul0d, Mul0e;
    var p, q, r, s := sb.inv(Unpack(a).r0), sb.inv(Unpack(b).r1), sb.inv(Unpack(c).r2), sb.inv(Unpack(d).r3);
    InverseColumns(p, q, r, s);
    var m := InvMixColumn(Column(p, q, r, s));
    PackUnpack(k);
    PackXor(m, Unpack(k));
    UnpackPack(AddColumn(m, Unpack(k)));
  }

  lemma MaskedBytes(p: bv8, q: bv8, r: bv8, s: bv8)
    ensures Xor(Xor(Xor(Keep(Pack(Same(p)), 0xff000000), Keep(Pack(Same(q)), 0x00ff0000)),
                    Keep(Pack(Same(r)), 0x0000ff00)), Keep(Pack(Same(s)), 0x000000ff)) == Pack(Column(p, q, r, s))
  {
  }

  lemma Te4WordSubstitutes(sb: SBox, a: bv32, b: bv32, c: bv32, d: bv32, k: bv32)
    ensures Unpack(Te4Word(sb, a, b, c, d, k)) ==
            AddColumn(Column(sb.sub(Unpack(a).r0), sb.sub(Unpack(b).r1),
                             sb.sub(Unpack(c).r2), sb.sub(Unpack(d).r3)), Unpack(k))
  {
    hide Pack, Unpack, Xor, Keep, AddColumn;
    var m := Column(sb.sub(Unpack(a).r0), sb.sub(Unpack(b).r1), sb.sub(Unpack(c).r2), sb.sub(Unpack(d).r3));
    MaskedBytes(m.r0, m.r1, m.r2, m.r3);
    PackUnpack(k);
    PackXor(m, Unpack(k));
    UnpackPack(AddColumn(m, Unpack(k)));
  }

  lemma Td4WordSubstitutes(sb: SBox, a: bv32, b: bv32, c: bv32, d: bv32, k: bv32)
    ensures Unpack(Td4Word(sb, a, b, c, d, k)) ==
            AddColumn(Column(sb.inv(Unpack(a).r0), sb.inv(Unpack(b).r1),
                             sb.inv(Unpack(c).r2), sb.inv(Unpack(d).r3)), Unpack(k))
  {
    hide Pack, Unpack, Xor, Keep, AddColumn;
    var m := Column(sb.inv(Unpack(a).r0), sb.inv(Unpack(b).r1), sb.inv(Unpack(c).r2), sb.inv(Unpack(d).r3));
    MaskedBytes(m.r0, m.r1, m.r2, m.r3);
    PackUnpack(k);
    PackXor(m, Unpack(k));
    UnpackPack(AddColumn(m, Unpack(k)));
  }

  lemma InvMixWordMixes(sb: SBox, w: bv32)
    requires sb.Valid()
    ensures Unpack(InvMixWord(sb, w)) == InvMixColumn(Unpack(w))
  {
    hide Pack, Unpack, Xor, InvMixColumn, Mul09, Mul0b, Mul0d, Mul0e;
    var c := Unpack(w);
    UnpackPack(Same(sb.sub(c.r0)));
    UnpackPack(Same(sb.sub(c.r1)));
    UnpackPack(Same(sb.sub(c.r2)));
    UnpackPack(Same(sb.sub(c.r3)));
    InverseColumns(c.r0, c.r1, c.r2, c.r3);
    UnpackPack(InvMixColumn(c));
  }
}
