/** GF(2^8) with the reduction polynomial of section 4.2 of FIPS 197, and the column mixing of
    sections 5.1.3 and 5.3.3.

    The facts that need bit-vector reasoning are the small lemmas about `Add` and `Xtime`; the
    matrix identities are derived from those by equational reasoning only. */
module GaloisField {
  /** Addition is exclusive or. */
  function Add(a: bv8, b: bv8): bv8 {
    a ^ b
  }

  /** Multiplication by x: shift, and reduce by x^8 + x^4 + x^3 + x + 1. The reduction is written
      without a branch. */
  function Xtime(a: bv8): bv8 {
    var t := a >> 7;
    (a << 1) ^ t ^ (t << 1) ^ (t << 3) ^ (t << 4)
  }

  lemma XtimeLinear(a: bv8, b: bv8)
    ensures Xtime(Add(a, b)) == Add(Xtime(a), Xtime(b))
  {
  }

  lemma Regroup(a: bv8, b: bv8, c: bv8, d: bv8)
    ensures Add(Add(a, b), Add(c, d)) == Add(Add(a, c), Add(b, d))
    ensures Add(Add(a, b), Add(c, d)) == Add(Add(b, c), Add(d, a))
  {
  }

  lemma AddZero(a: bv8)
    ensures Add(Add(a, 0), Add(0, 0)) == a
  {
  }

  // ---- multiplication by the constants of the mixing matrices ----

  function Mul02(a: bv8): bv8 { Xtime(a) }
  function Mul03(a: bv8): bv8 { Add(Xtime(a), a) }
  function Mul09(a: bv8): bv8 { Add(Xtime(Xtime(Xtime(a))), a) }
  function Mul0b(a: bv8): bv8 { Add(Xtime(Mul05(a)), a) }
  function Mul0d(a: bv8): bv8 { Add(Xtime(Xtime(Mul03(a))), a) }
  function Mul0e(a: bv8): bv8 { Xtime(Mul07(a)) }
  function Mul05(a: bv8): bv8 { Add(Xtime(Xtime(a)), a) }
  function Mul07(a: bv8): bv8 { Add(Xtime(Mul03(a)), a) }

  lemma Mul09Linear(a: bv8, b: bv8)
    ensures Mul09(Add(a, b)) == Add(Mul09(a), Mul09(b))
  {
    hide Xtime, Add;
    XtimeLinear(a, b);
    XtimeLinear(Xtime(a), Xtime(b));
    XtimeLinear(Xtime(Xtime(a)), Xtime(Xtime(b)));
    Regroup(Xtime(Xtime(Xtime(a))), Xtime(Xtime(Xtime(b))), a, b);
  }

  lemma Mul0bLinear(a: bv8, b: bv8)
    ensures Mul0b(Add(a, b)) == Add(Mul0b(a), Mul0b(b))
  {
    hide Xtime, Add;
    XtimeLinear(a, b);
    XtimeLinear(Xtime(a), Xtime(b));
    Regroup(Xtime(Xtime(a)), Xtime(Xtime(b)), a, b);
    XtimeLinear(Mul05(a), Mul05(b));
    Regroup(Xtime(Mul05(a)), Xtime(Mul05(b)), a, b);
  }

  lemma Mul03Linear(a: bv8, b: bv8)
    ensures Mul03(Add(a, b)) == Add(Mul03(a), Mul03(b))
  {
    hide Xtime, Add;
    XtimeLinear(a, b);
    Regroup(Xtime(a), Xtime(b), a, b);
  }

  lemma Mul0dLinear(a: bv8, b: bv8)
    ensures Mul0d(Add(a, b)) == Add(Mul0d(a), Mul0d(b))
  {
    hide Xtime, Add;
    Mul03Linear(a, b);
    XtimeLinear(Mul03(a), Mul03(b));
    XtimeLinear(Xtime(Mul03(a)), Xtime(Mul03(b)));
    Regroup(Xtime(Xtime(Mul03(a))), Xtime(Xtime(Mul03(b))), a, b);
  }

  lemma Mul0eLinear(a: bv8, b: bv8)
    ensures Mul0e(Add(a, b)) == Add(Mul0e(a), Mul0e(b))
  {
    hide Xtime, Add;
    Mul03Linear(a, b);
    XtimeLinear(Mul03(a), Mul03(b));
    Regroup(Xtime(Mul03(a)), Xtime(Mul03(b)), a, b);
    XtimeLinear(Mul07(a), Mul07(b));
  }

  // ---- columns ----

  /** One column of the cipher state, row 0 first. */
  datatype Column = Column(r0: bv8, r1: bv8, r2: bv8, r3: bv8)

  function Sum(a: bv8, b: bv8, c: bv8, d: bv8): bv8 {
    Add(Add(a, b), Add(c, d))
  }

  lemma SumLinear(a: bv8, b: bv8, c: bv8, d: bv8, a': bv8, b': bv8, c': bv8, d': bv8)
    ensures Sum(Add(a, a'), Add(b, b'), Add(c, c'), Add(d, d')) ==
            Add(Sum(a, b, c, d), Sum(a', b', c', d'))
  {
    hide Add;
    Regroup(a, a', b, b');
    Regroup(c, c', d, d');
    Regroup(Add(a, b), Add(a', b'), Add(c, d), Add(c', d'));
  }

  function AddColumn(a: Column, b: Column): Column {
    Column(Add(a.r0, b.r0), Add(a.r1, b.r1), Add(a.r2, b.r2), Add(a.r3, b.r3))
  }

  lemma AddTwice(a: Column, b: Column)
    ensures AddColumn(AddColumn(a, b), b) == a
  {
  }

  /** Section 5.1.3: the column times {03}x^3 + {01}x^2 + {01}x + {02}. */
  function MixColumn(c: Column): Column {
    Column(
      Sum(Mul02(c.r0), Mul03(c.r1), c.r2, c.r3),
      Sum(c.r0, Mul02(c.r1), Mul03(c.r2), c.r3),
      Sum(c.r0, c.r1, Mul02(c.r2), Mul03(c.r3)),
      Sum(Mul03(c.r0), c.r1, c.r2, Mul02(c.r3)))
  }

  /** One row of the inverse matrix: {0e}a + {0b}b + {0d}c + {09}d. */
  function InvRow(a: bv8, b: bv8, c: bv8, d: bv8): bv8 {
    Sum(Mul0e(a), Mul0b(b), Mul0d(c), Mul09(d))
  }

  /** Section 5.3.3: the column times {0b}x^3 + {0d}x^2 + {09}x + {0e}. */
  function InvMixColumn(c: Column): Column {
    Column(
      InvRow(c.r0, c.r1, c.r2, c.r3),
      InvRow(c.r1, c.r2, c.r3, c.r0),
      InvRow(c.r2, c.r3, c.r0, c.r1),
      InvRow(c.r3, c.r0, c.r1, c.r2))
  }

  lemma InvRowLinear(a: bv8, b: bv8, c: bv8, d: bv8, a': bv8, b': bv8, c': bv8, d': bv8)
    ensures InvRow(Add(a, a'), Add(b, b'), Add(c, c'), Add(d, d')) ==
            Add(InvRow(a, b, c, d), InvRow(a', b', c', d'))
  {
    hide Add, Sum, Mul09, Mul0b, Mul0d, Mul0e;
    Mul0eLinear(a, a');
    Mul0bLinear(b, b');
    Mul0dLinear(c, c');
    Mul09Linear(d, d');
    SumLinear(Mul0e(a), Mul0b(b), Mul0d(c), Mul09(d), Mul0e(a'), Mul0b(b'), Mul0d(c'), Mul09(d'));
  }

  /** InvMixColumn distributes over AddRoundKey: the fact behind section 5.3.5. */
  lemma InvMixColumnLinear(a: Column, b: Column)
    ensures InvMixColumn(AddColumn(a, b)) == AddColumn(InvMixColumn(a), InvMixColumn(b))
  {
    hide InvRow, Add;
    InvRowLinear(a.r0, a.r1, a.r2, a.r3, b.r0, b.r1, b.r2, b.r3);
    InvRowLinear(a.r1, a.r2, a.r3, a.r0, b.r1, b.r2, b.r3, b.r0);
    InvRowLinear(a.r2, a.r3, a.r0, a.r1, b.r2, b.r3, b.r0, b.r1);
    InvRowLinear(a.r3, a.r0, a.r1, a.r2, b.r3, b.r0, b.r1, b.r2);
  }

  // The first row of the inverse matrix times each column of the mixing matrix.
  lemma InverseEntry0(a: bv8)
    ensures InvRow(Mul02(a), a, a, Mul03(a)) == a
  {
  }

  lemma InverseEntry1(a: bv8)
    ensures InvRow(Mul03(a), Mul02(a), a, a) == 0
  {
  }

  lemma InverseEntry2(a: bv8)
    ensures InvRow(a, Mul03(a), Mul02(a), a) == 0
  {
  }

  lemma InverseEntry3(a: bv8)
    ensures InvRow(a, a, Mul03(a), Mul02(a)) == 0
  {
  }

  /** The first row of the inverse matrix times the mixed column is the first entry. */
  lemma InverseRow(c: Column)
    ensures (var m := MixColumn(c); InvRow(m.r0, m.r1, m.r2, m.r3) == c.r0)
  {
    hide Add, InvRow, Mul02, Mul03;
    InverseEntry0(c.r0);
    InverseEntry1(c.r1);
    InverseEntry2(c.r2);
    InverseEntry3(c.r3);
    InvRowLinear(Mul02(c.r0), c.r0, c.r0, Mul03(c.r0), Mul03(c.r1), Mul02(c.r1), c.r1, c.r1);
    InvRowLinear(c.r2, Mul03(c.r2), Mul02(c.r2), c.r2, c.r3, c.r3, Mul03(c.r3), Mul02(c.r3));
    InvRowLinear(Add(Mul02(c.r0), Mul03(c.r1)), Add(c.r0, Mul02(c.r1)), Add(c.r0, c.r1),
                 Add(Mul03(c.r0), c.r1), Add(c.r2, c.r3), Add(Mul03(c.r2), c.r3),
                 Add(Mul02(c.r2), Mul03(c.r3)), Add(c.r2, Mul02(c.r3)));
    AddZero(c.r0);
  }

  function Rotate(c: Column): Column {
    Column(c.r1, c.r2, c.r3, c.r0)
  }

  lemma MixRotates(c: Column)
    ensures MixColumn(Rotate(c)) == Rotate(MixColumn(c))
  {
    hide Add, Mul02, Mul03;
    Regroup(c.r0, Mul02(c.r1), Mul03(c.r2), c.r3);
    Regroup(c.r0, c.r1, Mul02(c.r2), Mul03(c.r3));
    Regroup(Mul03(c.r0), c.r1, c.r2, Mul02(c.r3));
    Regroup(Mul02(c.r0), Mul03(c.r1), c.r2, c.r3);
  }

  /** InvMixColumn undoes MixColumn. */
  lemma MixColumnInverse(c: Column)
    ensures InvMixColumn(MixColumn(c)) == c
  {
    hide InvRow, MixColumn;
    var c1 := Rotate(c);
    var c2 := Rotate(c1);
    var c3 := Rotate(c2);
    InverseRow(c);
    InverseRow(c1);
    InverseRow(c2);
    InverseRow(c3);
    MixRotates(c);
    MixRotates(c1);
    MixRotates(c2);
  }
}
