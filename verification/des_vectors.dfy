/**
 * Values that are published for DES: the cipher function at zero, and the
 * answer for key 133457799BBCDFF1 and block 0123456789ABCDEF, followed digit by
 * digit through the sixteen rounds.
 */
module DesVectors {
  import opened Words
  import opened DesTables
  import opened DesReference
  import opened DesDigits
  import Des

  function Key(): Block { Pair(Hex(1, 3, 3, 4, 5, 7, 7, 9), Hex(9, 11, 11, 12, 13, 15, 15, 1)) }
  function Plain(): Block { Pair(Hex(0, 1, 2, 3, 4, 5, 6, 7), Hex(8, 9, 10, 11, 12, 13, 14, 15)) }
  function Answer(): Block { Pair(Hex(8, 5, 14, 8, 1, 3, 5, 4), Hex(0, 15, 0, 10, 11, 4, 0, 5)) }

  /** The two halves of the permuted block, and the half each round adds. */
  function Added(n: nat): Hex {
    if n == 0 then Hex(12, 12, 0, 0, 12, 12, 15, 15)
    else if n == 1 then Hex(15, 0, 10, 10, 15, 0, 10, 10)
    else if n == 2 then Hex(14, 15, 4, 10, 6, 5, 4, 4)
    else if n == 3 then Hex(12, 12, 0, 1, 7, 7, 0, 9)
    else if n == 4 then Hex(10, 2, 5, 12, 0, 11, 15, 4)
    else if n == 5 then Hex(7, 7, 2, 2, 0, 0, 4, 5)
    else if n == 6 then Hex(8, 10, 4, 15, 10, 6, 3, 7)
    else if n == 7 then Hex(14, 9, 6, 7, 12, 13, 6, 9)
    else if n == 8 then Hex(0, 6, 4, 10, 11, 10, 1, 0)
    else if n == 9 then Hex(13, 5, 6, 9, 4, 11, 9, 0)
    else if n == 10 then Hex(2, 4, 7, 12, 12, 6, 7, 10)
    else if n == 11 then Hex(11, 7, 13, 5, 13, 7, 11, 2)
    else if n == 12 then Hex(12, 5, 7, 8, 3, 12, 7, 8)
    else if n == 13 then Hex(7, 5, 11, 13, 1, 8, 5, 8)
    else if n == 14 then Hex(1, 8, 12, 3, 1, 5, 5, 10)
    else if n == 15 then Hex(12, 2, 8, 12, 9, 6, 0, 13)
    else if n == 16 then Hex(4, 3, 4, 2, 3, 2, 3, 4)
    else Hex(0, 10, 4, 12, 13, 9, 9, 5)
  }

  /** The halves of the key before round n. */
  function C(n: nat): Half {
    if n == 0 then Half(15, 0, 12, 12, 10, 10, 15)
    else if n == 1 then Half(14, 1, 9, 9, 5, 5, 15)
    else if n == 2 then Half(12, 3, 3, 2, 10, 11, 15)
    else if n == 3 then Half(0, 12, 12, 10, 10, 15, 15)
    else if n == 4 then Half(3, 3, 2, 10, 11, 15, 12)
    else if n == 5 then Half(12, 12, 10, 10, 15, 15, 0)
    else if n == 6 then Half(3, 2, 10, 11, 15, 12, 3)
    else if n == 7 then Half(12, 10, 10, 15, 15, 0, 12)
    else if n == 8 then Half(2, 10, 11, 15, 12, 3, 3)
    else if n == 9 then Half(5, 5, 7, 15, 8, 6, 6)
    else if n == 10 then Half(5, 5, 15, 14, 1, 9, 9)
    else if n == 11 then Half(5, 7, 15, 8, 6, 6, 5)
    else if n == 12 then Half(5, 15, 14, 1, 9, 9, 5)
    else if n == 13 then Half(7, 15, 8, 6, 6, 5, 5)
    else if n == 14 then Half(15, 14, 1, 9, 9, 5, 5)
    else if n == 15 then Half(15, 8, 6, 6, 5, 5, 7)
    else Half(15, 0, 12, 12, 10, 10, 15)
  }

  function D(n: nat): Half {
    if n == 0 then Half(5, 5, 6, 6, 7, 8, 15)
    else if n == 1 then Half(10, 10, 12, 12, 15, 1, 14)
    else if n == 2 then Half(5, 5, 9, 9, 14, 3, 13)
    else if n == 3 then Half(5, 6, 6, 7, 8, 15, 5)
    else if n == 4 then Half(5, 9, 9, 14, 3, 13, 5)
    else if n == 5 then Half(6, 6, 7, 8, 15, 5, 5)
    else if n == 6 then Half(9, 9, 14, 3, 13, 5, 5)
    else if n == 7 then Half(6, 7, 8, 15, 5, 5, 6)
    else if n == 8 then Half(9, 14, 3, 13, 5, 5, 9)
    else if n == 9 then Half(3, 12, 7, 10, 10, 11, 3)
    else if n == 10 then Half(15, 1, 14, 10, 10, 12, 12)
    else if n == 11 then Half(12, 7, 10, 10, 11, 3, 3)
    else if n == 12 then Half(1, 14, 10, 10, 12, 12, 15)
    else if n == 13 then Half(7, 10, 10, 11, 3, 3, 12)
    else if n == 14 then Half(14, 10, 10, 12, 12, 15, 1)
    else if n == 15 then Half(10, 10, 11, 3, 3, 12, 7)
    else Half(5, 5, 6, 6, 7, 8, 15)
  }

  /** The subkey of round n. */
  function Q(n: nat): Groups {
    if n == 0 then Groups(Hex(0, 2, 1, 3, 3, 1, 1, 2), Hex(3, 8, 5, 7, 15, 3, 0, 9))
    else if n == 1 then Groups(Hex(0, 0, 3, 1, 2, 2, 3, 3), Hex(15, 13, 13, 12, 11, 14, 3, 2))
    else if n == 2 then Groups(Hex(1, 1, 2, 0, 0, 2, 2, 1), Hex(10, 15, 9, 5, 8, 6, 15, 12))
    else if n == 3 then Groups(Hex(0, 2, 3, 0, 2, 3, 0, 1), Hex(14, 5, 11, 11, 11, 9, 10, 14))
    else if n == 4 then Groups(Hex(1, 0, 2, 1, 2, 3, 0, 2), Hex(15, 7, 8, 3, 13, 10, 7, 4))
    else if n == 5 then Groups(Hex(0, 2, 0, 2, 0, 1, 2, 3), Hex(12, 13, 10, 15, 10, 3, 6, 7))
    else if n == 6 then Groups(Hex(3, 0, 0, 3, 3, 3, 2, 2), Hex(13, 4, 9, 11, 14, 0, 1, 14))
    else if n == 7 then Groups(Hex(3, 2, 2, 2, 2, 1, 3, 3), Hex(14, 12, 4, 13, 8, 9, 7, 13))
    else if n == 8 then Groups(Hex(2, 1, 3, 3, 3, 0, 0, 1), Hex(12, 6, 7, 5, 13, 15, 15, 0))
    else if n == 9 then Groups(Hex(2, 1, 1, 1, 2, 2, 1, 1), Hex(6, 15, 6, 3, 7, 2, 12, 7))
    else if n == 10 then Groups(Hex(0, 1, 3, 1, 3, 3, 0, 0), Hex(4, 10, 15, 9, 11, 6, 7, 3))
    else if n == 11 then Groups(Hex(1, 1, 1, 3, 3, 0, 1, 3), Hex(14, 11, 3, 10, 2, 3, 15, 4))
    else if n == 12 then Groups(Hex(3, 2, 1, 1, 2, 3, 3, 1), Hex(2, 14, 11, 8, 15, 5, 4, 0))
    else if n == 13 then Groups(Hex(1, 2, 0, 3, 2, 2, 0, 2), Hex(11, 10, 7, 11, 14, 7, 14, 13))
    else if n == 14 then Groups(Hex(3, 3, 0, 1, 1, 1, 2, 0), Hex(7, 12, 3, 6, 7, 9, 14, 5))
    else Groups(Hex(2, 3, 2, 1, 1, 3, 1, 3), Hex(9, 9, 11, 5, 1, 0, 15, 10))
  }

  /** What the S-boxes give in round n. */
  function S(n: nat): Hex {
    if n == 0 then Hex(5, 12, 8, 2, 11, 5, 9, 7)
    else if n == 1 then Hex(15, 8, 13, 0, 3, 10, 10, 14)
    else if n == 2 then Hex(2, 7, 1, 0, 14, 1, 6, 15)
    else if n == 3 then Hex(2, 1, 14, 13, 9, 15, 3, 10)
    else if n == 4 then Hex(5, 0, 12, 8, 3, 1, 14, 11)
    else if n == 5 then Hex(4, 1, 15, 3, 4, 12, 3, 13)
    else if n == 6 then Hex(1, 0, 7, 5, 4, 0, 10, 13)
    else if n == 7 then Hex(6, 12, 1, 8, 7, 12, 10, 14)
    else if n == 8 then Hex(1, 1, 0, 12, 5, 7, 7, 7)
    else if n == 9 then Hex(13, 10, 0, 4, 5, 2, 7, 5)
    else if n == 10 then Hex(7, 3, 0, 5, 13, 1, 0, 1)
    else if n == 11 then Hex(7, 11, 8, 11, 2, 6, 3, 5)
    else if n == 12 then Hex(9, 10, 13, 1, 8, 11, 4, 15)
    else if n == 13 then Hex(6, 4, 7, 9, 9, 10, 15, 1)
    else if n == 14 then Hex(11, 2, 14, 8, 8, 13, 3, 12)
    else Hex(10, 7, 8, 3, 2, 4, 2, 9)
  }

  predicate KeyStep(n: nat) {
    1 <= At(SHIFT_ROWS, n) <= 2 &&
    C(n + 1) == TurnBy(C(n), At(SHIFT_ROWS, n)) && D(n + 1) == TurnBy(D(n), At(SHIFT_ROWS, n)) &&
    Compress(C(n + 1), D(n + 1)) == Q(n)
  }

  predicate BoxStep(n: nat) {
    Boxed(Added(n + 1), Q(n)) == S(n)
  }

  predicate SumStep(n: nat) {
    Sum(Permuted(S(n)), Added(n)) == Added(n + 2)
  }

  lemma Keys0()
    ensures At(SHIFT_ROWS, 0) == 1
    ensures TurnBy(Half(15, 0, 12, 12, 10, 10, 15), 1) == Half(14, 1, 9, 9, 5, 5, 15)
    ensures TurnBy(Half(5, 5, 6, 6, 7, 8, 15), 1) == Half(10, 10, 12, 12, 15, 1, 14)
    ensures Compress(Half(14, 1, 9, 9, 5, 5, 15), Half(10, 10, 12, 12, 15, 1, 14)) ==
            Groups(Hex(0, 2, 1, 3, 3, 1, 1, 2), Hex(3, 8, 5, 7, 15, 3, 0, 9))
  {
  }

  lemma Keys1()
    ensures At(SHIFT_ROWS, 1) == 1
    ensures TurnBy(Half(14, 1, 9, 9, 5, 5, 15), 1) == Half(12, 3, 3, 2, 10, 11, 15)
    ensures TurnBy(Half(10, 10, 12, 12, 15, 1, 14), 1) == Half(5, 5, 9, 9, 14, 3, 13)
    ensures Compress(Half(12, 3, 3, 2, 10, 11, 15), Half(5, 5, 9, 9, 14, 3, 13)) ==
            Groups(Hex(0, 0, 3, 1, 2, 2, 3, 3), Hex(15, 13, 13, 12, 11, 14, 3, 2))
  {
  }

  lemma Keys2()
    ensures At(SHIFT_ROWS, 2) == 2
    ensures TurnBy(Half(12, 3, 3, 2, 10, 11, 15), 2) == Half(0, 12, 12, 10, 10, 15, 15)
    ensures TurnBy(Half(5, 5, 9, 9, 14, 3, 13), 2) == Half(5, 6, 6, 7, 8, 15, 5)
    ensures Compress(Half(0, 12, 12, 10, 10, 15, 15), Half(5, 6, 6, 7, 8, 15, 5)) ==
            Groups(Hex(1, 1, 2, 0, 0, 2, 2, 1), Hex(10, 15, 9, 5, 8, 6, 15, 12))
  {
  }

  lemma Keys3()
    ensures At(SHIFT_ROWS, 3) == 2
    ensures TurnBy(Half(0, 12, 12, 10, 10, 15, 15), 2) == Half(3, 3, 2, 10, 11, 15, 12)
    ensures TurnBy(Half(5, 6, 6, 7, 8, 15, 5), 2) == Half(5, 9, 9, 14, 3, 13, 5)
    ensures Compress(Half(3, 3, 2, 10, 11, 15, 12), Half(5, 9, 9, 14, 3, 13, 5)) ==
            Groups(Hex(0, 2, 3, 0, 2, 3, 0, 1), Hex(14, 5, 11, 11, 11, 9, 10, 14))
  {
  }

  lemma Keys4()
    ensures At(SHIFT_ROWS, 4) == 2
    ensures TurnBy(Half(3, 3, 2, 10, 11, 15, 12), 2) == Half(12, 12, 10, 10, 15, 15, 0)
    ensures TurnBy(Half(5, 9, 9, 14, 3, 13, 5), 2) == Half(6, 6, 7, 8, 15, 5, 5)
    ensures Compress(Half(12, 12, 10, 10, 15, 15, 0), Half(6, 6, 7, 8, 15, 5, 5)) ==
            Groups(Hex(1, 0, 2, 1, 2, 3, 0, 2), Hex(15, 7, 8, 3, 13, 10, 7, 4))
  {
  }

  lemma Keys5()
    ensures At(SHIFT_ROWS, 5) == 2
    ensures TurnBy(Half(12, 12, 10, 10, 15, 15, 0), 2) == Half(3, 2, 10, 11, 15, 12, 3)
    ensures TurnBy(Half(6, 6, 7, 8, 15, 5, 5), 2) == Half(9, 9, 14, 3, 13, 5, 5)
    ensures Compress(Half(3, 2, 10, 11, 15, 12, 3), Half(9, 9, 14, 3, 13, 5, 5)) ==
            Groups(Hex(0, 2, 0, 2, 0, 1, 2, 3), Hex(12, 13, 10, 15, 10, 3, 6, 7))
  {
  }

  lemma Keys6()
    ensures At(SHIFT_ROWS, 6) == 2
    ensures TurnBy(Half(3, 2, 10, 11, 15, 12, 3), 2) == Half(12, 10, 10, 15, 15, 0, 12)
    ensures TurnBy(Half(9, 9, 14, 3, 13, 5, 5), 2) == Half(6, 7, 8, 15, 5, 5, 6)
    ensures Compress(Half(12, 10, 10, 15, 15, 0, 12), Half(6, 7, 8, 15, 5, 5, 6)) ==
            Groups(Hex(3, 0, 0, 3, 3, 3, 2, 2), Hex(13, 4, 9, 11, 14, 0, 1, 14))
  {
  }

  lemma Keys7()
    ensures At(SHIFT_ROWS, 7) == 2
    ensures TurnBy(Half(12, 10, 10, 15, 15, 0, 12), 2) == Half(2, 10, 11, 15, 12, 3, 3)
    ensures TurnBy(Half(6, 7, 8, 15, 5, 5, 6), 2) == Half(9, 14, 3, 13, 5, 5, 9)
    ensures Compress(Half(2, 10, 11, 15, 12, 3, 3), Half(9, 14, 3, 13, 5, 5, 9)) ==
            Groups(Hex(3, 2, 2, 2, 2, 1, 3, 3), Hex(14, 12, 4, 13, 8, 9, 7, 13))
  {
  }

  lemma Keys8()
    ensures At(SHIFT_ROWS, 8) == 1
    ensures TurnBy(Half(2, 10, 11, 15, 12, 3, 3), 1) == Half(5, 5, 7, 15, 8, 6, 6)
    ensures TurnBy(Half(9, 14, 3, 13, 5, 5, 9), 1) == Half(3, 12, 7, 10, 10, 11, 3)
    ensures Compress(Half(5, 5, 7, 15, 8, 6, 6), Half(3, 12, 7, 10, 10, 11, 3)) ==
            Groups(Hex(2, 1, 3, 3, 3, 0, 0, 1), Hex(12, 6, 7, 5, 13, 15, 15, 0))
  {
  }

  lemma Keys9()
    ensures At(SHIFT_ROWS, 9) == 2
    ensures TurnBy(Half(5, 5, 7, 15, 8, 6, 6), 2) == Half(5, 5, 15, 14, 1, 9, 9)
    ensures TurnBy(Half(3, 12, 7, 10, 10, 11, 3), 2) == Half(15, 1, 14, 10, 10, 12, 12)
    ensures Compress(Half(5, 5, 15, 14, 1, 9, 9), Half(15, 1, 14, 10, 10, 12, 12)) ==
            Groups(Hex(2, 1, 1, 1, 2, 2, 1, 1), Hex(6, 15, 6, 3, 7, 2, 12, 7))
  {
  }

  lemma Keys10()
    ensures At(SHIFT_ROWS, 10) == 2
    ensures TurnBy(Half(5, 5, 15, 14, 1, 9, 9), 2) == Half(5, 7, 15, 8, 6, 6, 5)
    ensures TurnBy(Half(15, 1, 14, 10, 10, 12, 12), 2) == Half(12, 7, 10, 10, 11, 3, 3)
    ensures Compress(Half(5, 7, 15, 8, 6, 6, 5), Half(12, 7, 10, 10, 11, 3, 3)) ==
            Groups(Hex(0, 1, 3, 1, 3, 3, 0, 0), Hex(4, 10, 15, 9, 11, 6, 7, 3))
  {
  }

  lemma Keys11()
    ensures At(SHIFT_ROWS, 11) == 2
    ensures TurnBy(Half(5, 7, 15, 8, 6, 6, 5), 2) == Half(5, 15, 14, 1, 9, 9, 5)
    ensures TurnBy(Half(12, 7, 10, 10, 11, 3, 3), 2) == Half(1, 14, 10, 10, 12, 12, 15)
    ensures Compress(Half(5, 15, 14, 1, 9, 9, 5), Half(1, 14, 10, 10, 12, 12, 15)) ==
            Groups(Hex(1, 1, 1, 3, 3, 0, 1, 3), Hex(14, 11, 3, 10, 2, 3, 15, 4))
  {
  }

  lemma Keys12()
    ensures At(SHIFT_ROWS, 12) == 2
    ensures TurnBy(Half(5, 15, 14, 1, 9, 9, 5), 2) == Half(7, 15, 8, 6, 6, 5, 5)
    ensures TurnBy(Half(1, 14, 10, 10, 12, 12, 15), 2) == Half(7, 10, 10, 11, 3, 3, 12)
    ensures Compress(Half(7, 15, 8, 6, 6, 5, 5), Half(7, 10, 10, 11, 3, 3, 12)) ==
            Groups(Hex(3, 2, 1, 1, 2, 3, 3, 1), Hex(2, 14, 11, 8, 15, 5, 4, 0))
  {
  }

  lemma Keys13()
    ensures At(SHIFT_ROWS, 13) == 2
    ensures TurnBy(Half(7, 15, 8, 6, 6, 5, 5), 2) == Half(15, 14, 1, 9, 9, 5, 5)
    ensures TurnBy(Half(7, 10, 10, 11, 3, 3, 12), 2) == Half(14, 10, 10, 12, 12, 15, 1)
    ensures Compress(Half(15, 14, 1, 9, 9, 5, 5), Half(14, 10, 10, 12, 12, 15, 1)) ==
            Groups(Hex(1, 2, 0, 3, 2, 2, 0, 2), Hex(11, 10, 7, 11, 14, 7, 14, 13))
  {
  }

  lemma Keys14()
    ensures At(SHIFT_ROWS, 14) == 2
    ensures TurnBy(Half(15, 14, 1, 9, 9, 5, 5), 2) == Half(15, 8, 6, 6, 5, 5, 7)
    ensures TurnBy(Half(14, 10, 10, 12, 12, 15, 1), 2) == Half(10, 10, 11, 3, 3, 12, 7)
    ensures Compress(Half(15, 8, 6, 6, 5, 5, 7), Half(10, 10, 11, 3, 3, 12, 7)) ==
            Groups(Hex(3, 3, 0, 1, 1, 1, 2, 0), Hex(7, 12, 3, 6, 7, 9, 14, 5))
  {
  }

  lemma Keys15()
    ensures At(SHIFT_ROWS, 15) == 1
    ensures TurnBy(Half(15, 8, 6, 6, 5, 5, 7), 1) == Half(15, 0, 12, 12, 10, 10, 15)
    ensures TurnBy(Half(10, 10, 11, 3, 3, 12, 7), 1) == Half(5, 5, 6, 6, 7, 8, 15)
    ensures Compress(Half(15, 0, 12, 12, 10, 10, 15), Half(5, 5, 6, 6, 7, 8, 15)) ==
            Groups(Hex(2, 3, 2, 1, 1, 3, 1, 3), Hex(9, 9, 11, 5, 1, 0, 15, 10))
  {
  }

  lemma Cells0()
    ensures Cell(S1, 0, 12) == 5 && Cell(S2, 1, 8) == 12 && Cell(S3, 0, 15) == 8 && Cell(S4, 2, 13) == 2
    ensures Cell(S5, 3, 0) == 11 && Cell(S6, 2, 3) == 5 && Cell(S7, 0, 10) == 9 && Cell(S8, 3, 3) == 7
  {
  }

  lemma Boxes0()
    ensures Boxed(Hex(15, 0, 10, 10, 15, 0, 10, 10),
                  Groups(Hex(0, 2, 1, 3, 3, 1, 1, 2), Hex(3, 8, 5, 7, 15, 3, 0, 9))) == Hex(5, 12, 8, 2, 11, 5, 9, 7)
  {
    hide Cell;
    Cells0();
  }

  lemma Sums0()
    ensures SumStep(0)
  {
  }

  lemma Cells1()
    ensures Cell(S1, 1, 1) == 15 && Cell(S2, 0, 2) == 8 && Cell(S3, 0, 9) == 13 && Cell(S4, 1, 6) == 0
    ensures Cell(S5, 2, 13) == 3 && Cell(S6, 2, 11) == 10 && Cell(S7, 1, 7) == 10 && Cell(S8, 2, 6) == 14
  {
  }

  lemma Boxes1()
    ensures Boxed(Hex(14, 15, 4, 10, 6, 5, 4, 4),
                  Groups(Hex(0, 0, 3, 1, 2, 2, 3, 3), Hex(15, 13, 13, 12, 11, 14, 3, 2))) == Hex(15, 8, 13, 0, 3, 10, 10, 14)
  {
    hide Cell;
    Cells1();
  }

  lemma Sums1()
    ensures SumStep(1)
  {
  }

  lemma Cells2()
    ensures Cell(S1, 2, 6) == 2 && Cell(S2, 1, 3) == 7 && Cell(S3, 2, 9) == 1 && Cell(S4, 0, 4) == 0
    ensures Cell(S5, 2, 15) == 14 && Cell(S6, 0, 1) == 1 && Cell(S7, 1, 15) == 6 && Cell(S8, 0, 5) == 15
  {
  }

  lemma Boxes2()
    ensures Boxed(Hex(12, 12, 0, 1, 7, 7, 0, 9),
                  Groups(Hex(1, 1, 2, 0, 0, 2, 2, 1), Hex(10, 15, 9, 5, 8, 6, 15, 12))) == Hex(2, 7, 1, 0, 14, 1, 6, 15)
  {
    hide Cell;
    Cells2();
  }

  lemma Sums2()
    ensures SumStep(2)
  {
  }

  lemma Cells3()
    ensures Cell(S1, 0, 4) == 2 && Cell(S2, 2, 7) == 1 && Cell(S3, 2, 14) == 14 && Cell(S4, 2, 7) == 13
    ensures Cell(S5, 3, 11) == 9 && Cell(S6, 2, 2) == 15 && Cell(S7, 2, 5) == 3 && Cell(S8, 2, 10) == 10
  {
  }

  lemma Boxes3()
    ensures Boxed(Hex(10, 2, 5, 12, 0, 11, 15, 4),
                  Groups(Hex(0, 2, 3, 0, 2, 3, 0, 1), Hex(14, 5, 11, 11, 11, 9, 10, 14))) == Hex(2, 1, 14, 13, 9, 15, 3, 10)
  {
    hide Cell;
    Cells3();
  }

  lemma Sums3()
    ensures SumStep(3)
  {
  }

  lemma Cells4()
    ensures Cell(S1, 3, 8) == 5 && Cell(S2, 2, 0) == 0 && Cell(S3, 0, 10) == 12 && Cell(S4, 1, 1) == 8
    ensures Cell(S5, 2, 13) == 3 && Cell(S6, 3, 10) == 1 && Cell(S7, 0, 3) == 14 && Cell(S8, 2, 1) == 11
  {
  }

  lemma Boxes4()
    ensures Boxed(Hex(7, 7, 2, 2, 0, 0, 4, 5),
                  Groups(Hex(1, 0, 2, 1, 2, 3, 0, 2), Hex(15, 7, 8, 3, 13, 10, 7, 4))) == Hex(5, 0, 12, 8, 3, 1, 14, 11)
  {
    hide Cell;
    Cells4();
  }

  lemma Sums4()
    ensures SumStep(4)
  {
  }

  lemma Cells5()
    ensures Cell(S1, 3, 4) == 4 && Cell(S2, 2, 7) == 1 && Cell(S3, 1, 14) == 15 && Cell(S4, 3, 0) == 3
    ensures Cell(S5, 2, 0) == 4 && Cell(S6, 1, 5) == 12 && Cell(S7, 2, 5) == 3 && Cell(S8, 0, 0) == 13
  {
  }

  lemma Boxes5()
    ensures Boxed(Hex(8, 10, 4, 15, 10, 6, 3, 7),
                  Groups(Hex(0, 2, 0, 2, 0, 1, 2, 3), Hex(12, 13, 10, 15, 10, 3, 6, 7))) == Hex(4, 1, 15, 3, 4, 12, 3, 13)
  {
    hide Cell;
    Cells5();
  }

  lemma Sums5()
    ensures SumStep(5)
  {
  }

  lemma Cells6()
    ensures Cell(S1, 0, 3) == 1 && Cell(S2, 0, 13) == 0 && Cell(S3, 2, 15) == 7 && Cell(S4, 2, 12) == 5
    ensures Cell(S5, 0, 2) == 4 && Cell(S6, 3, 13) == 0 && Cell(S7, 1, 7) == 10 && Cell(S8, 3, 7) == 13
  {
  }

  lemma Boxes6()
    ensures Boxed(Hex(14, 9, 6, 7, 12, 13, 6, 9),
                  Groups(Hex(3, 0, 0, 3, 3, 3, 2, 2), Hex(13, 4, 9, 11, 14, 0, 1, 14))) == Hex(1, 0, 7, 5, 4, 0, 10, 13)
  {
    hide Cell;
    Cells6();
  }

  lemma Sums6()
    ensures SumStep(6)
  {
  }

  lemma Cells7()
    ensures Cell(S1, 3, 14) == 6 && Cell(S2, 2, 10) == 12 && Cell(S3, 3, 0) == 1 && Cell(S4, 3, 7) == 8
    ensures Cell(S5, 3, 3) == 7 && Cell(S6, 3, 3) == 12 && Cell(S7, 3, 6) == 10 && Cell(S8, 1, 13) == 14
  {
  }

  lemma Boxes7()
    ensures Boxed(Hex(0, 6, 4, 10, 11, 10, 1, 0),
                  Groups(Hex(3, 2, 2, 2, 2, 1, 3, 3), Hex(14, 12, 4, 13, 8, 9, 7, 13))) == Hex(6, 12, 1, 8, 7, 12, 10, 14)
  {
    hide Cell;
    Cells7();
  }

  lemma Sums7()
    ensures SumStep(7)
  {
  }

  lemma Cells8()
    ensures Cell(S1, 2, 1) == 1 && Cell(S2, 3, 3) == 1 && Cell(S3, 0, 1) == 0 && Cell(S4, 3, 12) == 12
    ensures Cell(S5, 0, 9) == 5 && Cell(S6, 1, 4) == 7 && Cell(S7, 2, 6) == 7 && Cell(S8, 2, 0) == 7
  {
  }

  lemma Boxes8()
    ensures Boxed(Hex(13, 5, 6, 9, 4, 11, 9, 0),
                  Groups(Hex(2, 1, 3, 3, 3, 0, 0, 1), Hex(12, 6, 7, 5, 13, 15, 15, 0))) == Hex(1, 1, 0, 12, 5, 7, 7, 7)
  {
    hide Cell;
    Cells8();
  }

  lemma Sums8()
    ensures SumStep(8)
  {
  }

  lemma Cells9()
    ensures Cell(S1, 2, 4) == 13 && Cell(S2, 1, 11) == 10 && Cell(S3, 0, 1) == 0 && Cell(S4, 2, 15) == 4
    ensures Cell(S5, 2, 11) == 5 && Cell(S6, 2, 4) == 2 && Cell(S7, 0, 11) == 7 && Cell(S8, 3, 13) == 5
  {
  }

  lemma Boxes9()
    ensures Boxed(Hex(2, 4, 7, 12, 12, 6, 7, 10),
                  Groups(Hex(2, 1, 1, 1, 2, 2, 1, 1), Hex(6, 15, 6, 3, 7, 2, 12, 7))) == Hex(13, 10, 0, 4, 5, 2, 7, 5)
  {
    hide Cell;
    Cells9();
  }

  lemma Sums9()
    ensures SumStep(9)
  {
  }

  lemma Cells10()
    ensures Cell(S1, 0, 15) == 7 && Cell(S2, 2, 13) == 3 && Cell(S3, 1, 2) == 0 && Cell(S4, 2, 12) == 5
    ensures Cell(S5, 1, 6) == 13 && Cell(S6, 0, 1) == 1 && Cell(S7, 2, 12) == 0 && Cell(S8, 3, 1) == 1
  {
  }

  lemma Boxes10()
    ensures Boxed(Hex(11, 7, 13, 5, 13, 7, 11, 2),
                  Groups(Hex(0, 1, 3, 1, 3, 3, 0, 0), Hex(4, 10, 15, 9, 11, 6, 7, 3))) == Hex(7, 3, 0, 5, 13, 1, 0, 1)
  {
    hide Cell;
    Cells10();
  }

  lemma Sums10()
    ensures SumStep(10)
  {
  }

  lemma Cells11()
    ensures Cell(S1, 1, 2) == 7 && Cell(S2, 1, 14) == 11 && Cell(S3, 2, 4) == 8 && Cell(S4, 1, 2) == 11
    ensures Cell(S5, 2, 1) == 2 && Cell(S6, 2, 15) == 6 && Cell(S7, 0, 8) == 3 && Cell(S8, 0, 12) == 5
  {
  }

  lemma Boxes11()
    ensures Boxed(Hex(12, 5, 7, 8, 3, 12, 7, 8),
                  Groups(Hex(1, 1, 1, 3, 3, 0, 1, 3), Hex(14, 11, 3, 10, 2, 3, 15, 4))) == Hex(7, 11, 8, 11, 2, 6, 3, 5)
  {
    hide Cell;
    Cells11();
  }

  lemma Sums11()
    ensures SumStep(11)
  {
  }

  lemma Cells12()
    ensures Cell(S1, 3, 5) == 9 && Cell(S2, 1, 11) == 10 && Cell(S3, 2, 0) == 13 && Cell(S4, 3, 5) == 1
    ensures Cell(S5, 1, 14) == 8 && Cell(S6, 1, 13) == 11 && Cell(S7, 2, 1) == 4 && Cell(S8, 3, 8) == 15
  {
  }

  lemma Boxes12()
    ensures Boxed(Hex(7, 5, 11, 13, 1, 8, 5, 8),
                  Groups(Hex(3, 2, 1, 1, 2, 3, 3, 1), Hex(2, 14, 11, 8, 15, 5, 4, 0))) == Hex(9, 10, 13, 1, 8, 11, 4, 15)
  {
    hide Cell;
    Cells12();
  }

  lemma Sums12()
    ensures SumStep(12)
  {
  }

  lemma Cells13()
    ensures Cell(S1, 0, 10) == 6 && Cell(S2, 1, 2) == 4 && Cell(S3, 0, 11) == 7 && Cell(S4, 3, 8) == 9
    ensures Cell(S5, 0, 15) == 9 && Cell(S6, 0, 2) == 10 && Cell(S7, 3, 11) == 15 && Cell(S8, 0, 7) == 1
  {
  }

  lemma Boxes13()
    ensures Boxed(Hex(1, 8, 12, 3, 1, 5, 5, 10),
                  Groups(Hex(1, 2, 0, 3, 2, 2, 0, 2), Hex(11, 10, 7, 11, 14, 7, 14, 13))) == Hex(6, 4, 7, 9, 9, 10, 15, 1)
  {
    hide Cell;
    Cells13();
  }

  lemma Sums13()
    ensures SumStep(13)
  {
  }

  lemma Cells14()
    ensures Cell(S1, 1, 11) == 11 && Cell(S2, 2, 14) == 2 && Cell(S3, 1, 11) == 14 && Cell(S4, 0, 10) == 8
    ensures Cell(S5, 1, 14) == 8 && Cell(S6, 3, 15) == 13 && Cell(S7, 3, 14) == 3 && Cell(S8, 1, 8) == 12
  {
  }

  lemma Boxes14()
    ensures Boxed(Hex(12, 2, 8, 12, 9, 6, 0, 13),
                  Groups(Hex(3, 3, 0, 1, 1, 1, 2, 0), Hex(7, 12, 3, 6, 7, 9, 14, 5))) == Hex(11, 2, 14, 8, 8, 13, 3, 12)
  {
    hide Cell;
    Cells14();
  }

  lemma Sums14()
    ensures SumStep(14)
  {
  }

  lemma Cells15()
    ensures Cell(S1, 2, 13) == 10 && Cell(S2, 3, 10) == 7 && Cell(S3, 0, 15) == 8 && Cell(S4, 1, 7) == 3
    ensures Cell(S5, 1, 2) == 2 && Cell(S6, 1, 2) == 4 && Cell(S7, 1, 12) == 2 && Cell(S8, 1, 14) == 9
  {
  }

  lemma Boxes15()
    ensures Boxed(Hex(4, 3, 4, 2, 3, 2, 3, 4),
                  Groups(Hex(2, 3, 2, 1, 1, 3, 1, 3), Hex(9, 9, 11, 5, 1, 0, 15, 10))) == Hex(10, 7, 8, 3, 2, 4, 2, 9)
  {
    hide Cell;
    Cells15();
  }

  lemma Sums15()
    ensures SumStep(15)
  {
  }

  lemma KeysFollow(n: nat)
    requires n < 16
    ensures KeyStep(n)
  {
    hide TurnBy, Compress, At;
    if n == 0 {
      Keys0();
    } else if n == 1 {
      Keys1();
    } else if n == 2 {
      Keys2();
    } else if n == 3 {
      Keys3();
    } else if n == 4 {
      Keys4();
    } else if n == 5 {
      Keys5();
    } else if n == 6 {
      Keys6();
    } else if n == 7 {
      Keys7();
    } else if n == 8 {
      Keys8();
    } else if n == 9 {
      Keys9();
    } else if n == 10 {
      Keys10();
    } else if n == 11 {
      Keys11();
    } else if n == 12 {
      Keys12();
    } else if n == 13 {
      Keys13();
    } else if n == 14 {
      Keys14();
    } else {
      Keys15();
    }
  }

  lemma BoxesFollow(n: nat)
    requires n < 16
    ensures BoxStep(n)
  {
    hide Boxed;
    if n == 0 {
      Boxes0();
    } else if n == 1 {
      Boxes1();
    } else if n == 2 {
      Boxes2();
    } else if n == 3 {
      Boxes3();
    } else if n == 4 {
      Boxes4();
    } else if n == 5 {
      Boxes5();
    } else if n == 6 {
      Boxes6();
    } else if n == 7 {
      Boxes7();
    } else if n == 8 {
      Boxes8();
    } else if n == 9 {
      Boxes9();
    } else if n == 10 {
      Boxes10();
    } else if n == 11 {
      Boxes11();
    } else if n == 12 {
      Boxes12();
    } else if n == 13 {
      Boxes13();
    } else if n == 14 {
      Boxes14();
    } else {
      Boxes15();
    }
  }

  lemma SumsFollow(n: nat)
    requires n < 16
    ensures SumStep(n)
  {
    hide *;
    if n == 0 {
      Sums0();
    } else if n == 1 {
      Sums1();
    } else if n == 2 {
      Sums2();
    } else if n == 3 {
      Sums3();
    } else if n == 4 {
      Sums4();
    } else if n == 5 {
      Sums5();
    } else if n == 6 {
      Sums6();
    } else if n == 7 {
      Sums7();
    } else if n == 8 {
      Sums8();
    } else if n == 9 {
      Sums9();
    } else if n == 10 {
      Sums10();
    } else if n == 11 {
      Sums11();
    } else if n == 12 {
      Sums12();
    } else if n == 13 {
      Sums13();
    } else if n == 14 {
      Sums14();
    } else {
      Sums15();
    }
  }

  lemma {:induction false} ExampleReaches(n: nat)
    requires n <= 16
    ensures Reached(Key(), InitialPermutation(Plain()), n, Added(n), Added(n + 1), C(n), D(n))
  {
    if n == 0 {
      ExampleStarts();
    } else {
      hide *;
      hide Reached;
      ExampleReaches(n - 1);
      KeysFollow(n - 1);
      BoxesFollow(n - 1);
      SumsFollow(n - 1);
      ExampleAdvances(n - 1);
    }
  }

  lemma ExampleAdvances(n: nat)
    requires n < 16 && KeyStep(n) && BoxStep(n) && SumStep(n)
    requires Reached(Key(), InitialPermutation(Plain()), n, Added(n), Added(n + 1), C(n), D(n))
    ensures Reached(Key(), InitialPermutation(Plain()), n + 1, Added(n + 1), Added(n + 2), C(n + 1), D(n + 1))
  {
    hide Reached, TurnBy, Boxed, Sum, Permuted, Compress, Added, C, D, Q, S, Key, Plain, InitialPermutation, At;
    Advance(Key(), InitialPermutation(Plain()), n, Added(n), Added(n + 1), C(n), D(n), C(n + 1), D(n + 1));
  }

  lemma StartDigits()
    ensures InitialLeft(Hex(0, 1, 2, 3, 4, 5, 6, 7), Hex(8, 9, 10, 11, 12, 13, 14, 15)) == Added(0)
    ensures InitialRight(Hex(0, 1, 2, 3, 4, 5, 6, 7), Hex(8, 9, 10, 11, 12, 13, 14, 15)) == Added(1)
    ensures LeftKey(Hex(1, 3, 3, 4, 5, 7, 7, 9), Hex(9, 11, 11, 12, 13, 15, 15, 1)) == C(0)
    ensures RightKey(Hex(1, 3, 3, 4, 5, 7, 7, 9), Hex(9, 11, 11, 12, 13, 15, 15, 1)) == D(0)
  {
  }

  lemma ExampleStarts()
    ensures Reached(Key(), InitialPermutation(Plain()), 0, Added(0), Added(1), C(0), D(0))
  {
    hide InitialLeft, InitialRight, LeftKey, RightKey, Halved, Rotated, KeyHalf, InitialPermutation, Pair, Added, C, D;
    StartDigits();
    InitialIsDigits(Hex(0, 1, 2, 3, 4, 5, 6, 7), Hex(8, 9, 10, 11, 12, 13, 14, 15));
    KeyHalvesLeft(Hex(1, 3, 3, 4, 5, 7, 7, 9), Hex(9, 11, 11, 12, 13, 15, 15, 1));
    KeyHalvesRight(Hex(1, 3, 3, 4, 5, 7, 7, 9), Hex(9, 11, 11, 12, 13, 15, 15, 1));
    assert Schedule(Key())[..0] == [];
  }

  lemma AnswerDigits()
    ensures InitialLeft(Hex(8, 5, 14, 8, 1, 3, 5, 4), Hex(0, 15, 0, 10, 11, 4, 0, 5)) == Added(17)
    ensures InitialRight(Hex(8, 5, 14, 8, 1, 3, 5, 4), Hex(0, 15, 0, 10, 11, 4, 0, 5)) == Added(16)
  {
  }

  /** The cipher gives the published answer for the published key and block. */
  lemma PublishedAnswer()
    ensures Cipher(Plain(), Schedule(Key()), Salting(Zero()), 1) == Answer()
  {
    hide InitialLeft, InitialRight, InitialPermutation, FinalPermutation, Halved, Pair, Added, C, D, Schedule, Rounds;
    var ks, b := Schedule(Key()), InitialPermutation(Plain());
    ExampleReaches(16);
    assert ks[..16] == ks;
    AnswerDigits();
    InitialIsDigits(Hex(8, 5, 14, 8, 1, 3, 5, 4), Hex(0, 15, 0, 10, 11, 4, 0, 5));
    assert Passes(b, ks, Salting(Zero()), 0) == b;
    assert Passes(b, ks, Salting(Zero()), 1) == Swap(Pair(Added(16), Added(17)));
    SwapPair(Added(16), Added(17));
    FinalUndoesInitial(Answer());
  }

  lemma SwapPair(l: Hex, r: Hex)
    ensures Swap(Pair(l, r)) == Pair(r, l)
  {
    hide W;
  }

  // ---- The cipher function at zero ----

  lemma ZeroCells()
    ensures Cell(S1, 0, 0) == 14 && Cell(S2, 0, 0) == 15 && Cell(S3, 0, 0) == 10 && Cell(S4, 0, 0) == 7
    ensures Cell(S5, 0, 0) == 2 && Cell(S6, 0, 0) == 12 && Cell(S7, 0, 0) == 4 && Cell(S8, 0, 0) == 13
  {
  }

  lemma ZeroBoxed()
    ensures Boxed(Hex(0, 0, 0, 0, 0, 0, 0, 0), Groups(Hex(0, 0, 0, 0, 0, 0, 0, 0), Hex(0, 0, 0, 0, 0, 0, 0, 0))) ==
            Hex(14, 15, 10, 7, 2, 12, 4, 13)
    ensures Permuted(Hex(14, 15, 10, 7, 2, 12, 4, 13)) == Hex(13, 8, 13, 8, 13, 11, 11, 12)
  {
    hide Cell;
    ZeroCells();
  }

  /** On a zero half, a zero subkey and no salt the cipher function gives D8D8DBBC. */
  lemma CipherFunctionAtZero()
    ensures CipherFunction(Zero(), Subkey(Zero(), Zero()), Zero()) == W(Hex(13, 8, 13, 8, 13, 11, 11, 12))
  {
    hide CipherFunction, Boxed, Permuted;
    var z := Hex(0, 0, 0, 0, 0, 0, 0, 0);
    assert W(z) == Zero();
    assert SameKey(Subkey(Zero(), Zero()), Groups(z, z));
    ZeroBoxed();
    CipherFunctionIsDigits(z, Subkey(Zero(), Zero()), Groups(z, z));
  }

  /** The engine enciphers the published block to the published answer and deciphers it back. */
  method EncipherPublished() returns (c: Block, d: Block)
    ensures c == Answer() && d == Plain()
  {
    hide Key, Plain, Answer, Cipher, Schedule;
    var e := new Des.Engine();
    e.SetKey(Key());
    var status;
    status, c := e.DoDes(Plain(), 1);
    PublishedAnswer();
    status, d := e.DoDes(c, -1);
    CipherUndone(Plain(), Schedule(Key()), Salting(Zero()), 1);
  }
}
