/**
 * The design of the S-boxes, entry by entry: each row is a permutation, and
 * inputs one bit apart lead to outputs at least two bits apart.
 */
module DesBoxes {
  import opened Words
  import opened DesTables
  import opened DesReference
  import opened DesDigits

  /** Two digits that differ in at least two bits. */
  predicate Far(x: Nibble, y: Nibble) {
    !(B8(x) == B8(y) && B4(x) == B4(y) && B2(x) == B2(y)) && !(B8(x) == B8(y) && B4(x) == B4(y) && B1(x) == B1(y)) &&
    !(B8(x) == B8(y) && B2(x) == B2(y) && B1(x) == B1(y)) && !(B4(x) == B4(y) && B2(x) == B2(y) && B1(x) == B1(y))
  }

  /** Eight entries in which columns that differ in one bit, or in the two upper ones, are far apart. */
  predicate Spread(s: seq<Nibble>)
    requires |s| == 8
  {
    Far(s[0], s[1]) && Far(s[2], s[3]) && Far(s[4], s[5]) && Far(s[6], s[7]) &&
    Far(s[0], s[2]) && Far(s[1], s[3]) && Far(s[4], s[6]) && Far(s[5], s[7]) &&
    Far(s[0], s[4]) && Far(s[1], s[5]) && Far(s[2], s[6]) && Far(s[3], s[7]) &&
    Far(s[0], s[6]) && Far(s[1], s[7]) && Far(s[2], s[4]) && Far(s[3], s[5])
  }

  predicate Apart(s: seq<Nibble>, t: seq<Nibble>)
    requires |s| == |t| == 8
  {
    Far(s[0], t[0]) && Far(s[1], t[1]) && Far(s[2], t[2]) && Far(s[3], t[3]) &&
    Far(s[4], t[4]) && Far(s[5], t[5]) && Far(s[6], t[6]) && Far(s[7], t[7])
  }

  /** A row of a box in two parts: every digit is there, and neighbouring columns are far apart. */
  predicate GoodRow(s: seq<Nibble>, t: seq<Nibble>) {
    |s| == |t| == 8 && (forall v: Nibble :: v in s || v in t) && Spread(s) && Spread(t) && Apart(s, t)
  }

  /** Rows that differ in the last bit of the input. */
  predicate Lasts(s: seq<seq<Nibble>>) {
    Square(s) && Apart(s[0], s[2]) && Apart(s[1], s[3]) && Apart(s[4], s[6]) && Apart(s[5], s[7])
  }

  /** Rows that differ in the first bit of the input. */
  predicate Firsts(s: seq<seq<Nibble>>) {
    Square(s) && Apart(s[0], s[4]) && Apart(s[1], s[5]) && Apart(s[2], s[6]) && Apart(s[3], s[7])
  }

  predicate GoodBox(s: seq<seq<Nibble>>) {
    Lasts(s) && Firsts(s) && GoodRow(s[0], s[1]) && GoodRow(s[2], s[3]) && GoodRow(s[4], s[5]) && GoodRow(s[6], s[7])
  }

  lemma Row10()
    ensures |S1| == 8 && GoodRow(S1[0], S1[1])
  {
  }

  lemma Row11()
    ensures |S1| == 8 && GoodRow(S1[2], S1[3])
  {
  }

  lemma Row12()
    ensures |S1| == 8 && GoodRow(S1[4], S1[5])
  {
  }

  lemma Row13()
    ensures |S1| == 8 && GoodRow(S1[6], S1[7])
  {
  }

  lemma Lasts1()
    ensures Lasts(S1)
  {
  }

  lemma Firsts1()
    ensures Firsts(S1)
  {
  }

  lemma Row20()
    ensures |S2| == 8 && GoodRow(S2[0], S2[1])
  {
  }

  lemma Row21()
    ensures |S2| == 8 && GoodRow(S2[2], S2[3])
  {
  }

  lemma Row22()
    ensures |S2| == 8 && GoodRow(S2[4], S2[5])
  {
  }

  lemma Row23()
    ensures |S2| == 8 && GoodRow(S2[6], S2[7])
  {
  }

  lemma Lasts2()
    ensures Lasts(S2)
  {
  }

  lemma Firsts2()
    ensures Firsts(S2)
  {
  }

  lemma Row30()
    ensures |S3| == 8 && GoodRow(S3[0], S3[1])
  {
  }

  lemma Row31()
    ensures |S3| == 8 && GoodRow(S3[2], S3[3])
  {
  }

  lemma Row32()
    ensures |S3| == 8 && GoodRow(S3[4], S3[5])
  {
  }

  lemma Row33()
    ensures |S3| == 8 && GoodRow(S3[6], S3[7])
  {
  }

  lemma Lasts3()
    ensures Lasts(S3)
  {
  }

  lemma Firsts3()
    ensures Firsts(S3)
  {
  }

  lemma Row40()
    ensures |S4| == 8 && GoodRow(S4[0], S4[1])
  {
  }

  lemma Row41()
    ensures |S4| == 8 && GoodRow(S4[2], S4[3])
  {
  }

  lemma Row42()
    ensures |S4| == 8 && GoodRow(S4[4], S4[5])
  {
  }

  lemma Row43()
    ensures |S4| == 8 && GoodRow(S4[6], S4[7])
  {
  }

  lemma Lasts4()
    ensures Lasts(S4)
  {
  }

  lemma Firsts4()
    ensures Firsts(S4)
  {
  }

  lemma Row50()
    ensures |S5| == 8 && GoodRow(S5[0], S5[1])
  {
  }

  lemma Row51()
    ensures |S5| == 8 && GoodRow(S5[2], S5[3])
  {
  }

  lemma Row52()
    ensures |S5| == 8 && GoodRow(S5[4], S5[5])
  {
  }

  lemma Row53()
    ensures |S5| == 8 && GoodRow(S5[6], S5[7])
  {
  }

  lemma Lasts5()
    ensures Lasts(S5)
  {
  }

  lemma Firsts5()
    ensures Firsts(S5)
  {
  }

  lemma Row60()
    ensures |S6| == 8 && GoodRow(S6[0], S6[1])
  {
  }

  lemma Row61()
    ensures |S6| == 8 && GoodRow(S6[2], S6[3])
  {
  }

  lemma Row62()
    ensures |S6| == 8 && GoodRow(S6[4], S6[5])
  {
  }

  lemma Row63()
    ensures |S6| == 8 && GoodRow(S6[6], S6[7])
  {
  }

  lemma Lasts6()
    ensures Lasts(S6)
  {
  }

  lemma Firsts6()
    ensures Firsts(S6)
  {
  }

  lemma Row70()
    ensures |S7| == 8 && GoodRow(S7[0], S7[1])
  {
  }

  lemma Row71()
    ensures |S7| == 8 && GoodRow(S7[2], S7[3])
  {
  }

  lemma Row72()
    ensures |S7| == 8 && GoodRow(S7[4], S7[5])
  {
  }

  lemma Row73()
    ensures |S7| == 8 && GoodRow(S7[6], S7[7])
  {
  }

  lemma Lasts7()
    ensures Lasts(S7)
  {
  }

  lemma Firsts7()
    ensures Firsts(S7)
  {
  }

  lemma Row80()
    ensures |S8| == 8 && GoodRow(S8[0], S8[1])
  {
  }

  lemma Row81()
    ensures |S8| == 8 && GoodRow(S8[2], S8[3])
  {
  }

  lemma Row82()
    ensures |S8| == 8 && GoodRow(S8[4], S8[5])
  {
  }

  lemma Row83()
    ensures |S8| == 8 && GoodRow(S8[6], S8[7])
  {
  }

  lemma Lasts8()
    ensures Lasts(S8)
  {
  }

  lemma Firsts8()
    ensures Firsts(S8)
  {
  }

  lemma GoodBoxes(g: nat)
    requires g < 8
    ensures GoodBox(Box(g))
  {
    hide GoodRow, Lasts, Firsts;
    if g == 0 {
      Lasts1(); Firsts1(); Row10(); Row11(); Row12(); Row13();
    } else if g == 1 {
      Lasts2(); Firsts2(); Row20(); Row21(); Row22(); Row23();
    } else if g == 2 {
      Lasts3(); Firsts3(); Row30(); Row31(); Row32(); Row33();
    } else if g == 3 {
      Lasts4(); Firsts4(); Row40(); Row41(); Row42(); Row43();
    } else if g == 4 {
      Lasts5(); Firsts5(); Row50(); Row51(); Row52(); Row53();
    } else if g == 5 {
      Lasts6(); Firsts6(); Row60(); Row61(); Row62(); Row63();
    } else if g == 6 {
      Lasts7(); Firsts7(); Row70(); Row71(); Row72(); Row73();
    } else {
      Lasts8(); Firsts8(); Row80(); Row81(); Row82(); Row83();
    }
  }

  lemma GoodRowAt(g: nat, row: nat)
    requires g < 8 && row < 4
    ensures Square(Box(g)) && GoodRow(Box(g)[2 * row], Box(g)[2 * row + 1])
  {
    hide GoodRow, Box, Firsts;
    GoodBoxes(g);
  }

  /** Each row of each S-box is a permutation of 0, ..., 15: every digit stands in one of its sixteen columns. */
  lemma RowIsPermutation(g: nat, row: nat, v: Nibble) returns (col: nat)
    requires g < 8 && row < 4
    ensures col < 16 && Entry(Sboxes(), g, 16 * row + col) == v
  {
    hide Spread, Apart, Entry, Sboxes, Box;
    GoodRowAt(g, row);
    var s, t := Box(g)[2 * row], Box(g)[2 * row + 1];
    if v in s {
      col :| 0 <= col < 8 && s[col] == v;
    } else {
      var k :| 0 <= k < 8 && t[k] == v;
      col := 8 + k;
    }
    EntryIsCell(g, row, col);
  }

  /** One of eight places. */
  function Place(b4: bool, b2: bool, b1: bool): (k: nat)
    ensures k < 8
  {
    if b4 then (if b2 then (if b1 then 7 else 6) else (if b1 then 5 else 4))
    else (if b2 then (if b1 then 3 else 2) else (if b1 then 1 else 0))
  }

  lemma SpreadAt(s: seq<Nibble>, b4: bool, b2: bool, b1: bool)
    requires |s| == 8 && Spread(s)
    ensures Far(s[Place(b4, b2, b1)], s[Place(b4, b2, !b1)])
    ensures Far(s[Place(b4, b2, b1)], s[Place(b4, !b2, b1)])
    ensures Far(s[Place(b4, b2, b1)], s[Place(!b4, b2, b1)])
    ensures Far(s[Place(b4, b2, b1)], s[Place(!b4, !b2, b1)])
  {
    hide B8, B4, B2, B1;
  }

  lemma ApartAt(s: seq<Nibble>, t: seq<Nibble>, k: nat)
    requires |s| == |t| == 8 && Apart(s, t) && k < 8
    ensures Far(s[k], t[k]) && Far(t[k], s[k])
  {
    hide B8, B4, B2, B1;
  }

  /** Half a row of a box, and the entry it holds for an input. */
  lemma CellPlace(g: nat, first: bool, b8: bool, b4: bool, b2: bool, b1: bool, last: bool)
    requires g < 8 && Square(Box(g))
    ensures var k := 2 * RowOf(first, last) + (if b8 then 1 else 0);
            Substitute(Sboxes(), g, [first, b8, b4, b2, b1, last]) == Box(g)[k][Place(b4, b2, b1)]
  {
    hide Sboxes, Entry, Box, Substitute;
    SubstituteIsCell(g, [first, b8, b4, b2, b1, last]);
  }

  lemma CrossedAt(s: seq<seq<Nibble>>, first: bool, last: bool, h: nat, k: nat)
    requires Lasts(s) && Firsts(s) && h < 2 && k < 8
    ensures Far(s[2 * RowOf(first, last) + h][k], s[2 * RowOf(first, !last) + h][k])
    ensures Far(s[2 * RowOf(first, last) + h][k], s[2 * RowOf(!first, last) + h][k])
  {
    hide Far, Apart;
    if first {
      ApartAt(s[2 * RowOf(false, last) + h], s[2 * RowOf(true, last) + h], k);
    } else {
      ApartAt(s[2 * RowOf(false, last) + h], s[2 * RowOf(true, last) + h], k);
    }
    if last {
      ApartAt(s[2 * RowOf(first, false) + h], s[2 * RowOf(first, true) + h], k);
    } else {
      ApartAt(s[2 * RowOf(first, false) + h], s[2 * RowOf(first, true) + h], k);
    }
  }

  /** Changing the first or the last bit of what enters an S-box changes at least two bits of what leaves it. */
  lemma OuterBitSpreads(g: nat, first: bool, b8: bool, b4: bool, b2: bool, b1: bool, last: bool)
    requires g < 8
    ensures var x := Substitute(Sboxes(), g, [first, b8, b4, b2, b1, last]);
            Far(x, Substitute(Sboxes(), g, [!first, b8, b4, b2, b1, last])) &&
            Far(x, Substitute(Sboxes(), g, [first, b8, b4, b2, b1, !last]))
  {
    hide Sboxes, Entry, Box, Substitute, Far, Lasts, Firsts, GoodRow, Place, RowOf;
    GoodBoxes(g);
    assert Square(Box(g)) by {
      GoodRowAt(g, 0);
    }
    CellPlace(g, first, b8, b4, b2, b1, last);
    CellPlace(g, !first, b8, b4, b2, b1, last);
    CellPlace(g, first, b8, b4, b2, b1, !last);
    CrossedAt(Box(g), first, last, if b8 then 1 else 0, Place(b4, b2, b1));
  }

  /** So does changing one of the four bits between them, or the middle two together. */
  lemma InnerBitSpreads(g: nat, first: bool, b8: bool, b4: bool, b2: bool, b1: bool, last: bool)
    requires g < 8
    ensures var x := Substitute(Sboxes(), g, [first, b8, b4, b2, b1, last]);
            Far(x, Substitute(Sboxes(), g, [first, !b8, b4, b2, b1, last])) &&
            Far(x, Substitute(Sboxes(), g, [first, b8, !b4, b2, b1, last])) &&
            Far(x, Substitute(Sboxes(), g, [first, b8, b4, !b2, b1, last])) &&
            Far(x, Substitute(Sboxes(), g, [first, b8, b4, b2, !b1, last])) &&
            Far(x, Substitute(Sboxes(), g, [first, b8, !b4, !b2, b1, last]))
  {
    hide Sboxes, Entry, Box, Substitute, Far, Spread, Apart, Place, RowOf;
    var row := RowOf(first, last);
    GoodRowAt(g, row);
    CellPlace(g, first, b8, b4, b2, b1, last);
    CellPlace(g, first, !b8, b4, b2, b1, last);
    CellPlace(g, first, b8, !b4, b2, b1, last);
    CellPlace(g, first, b8, b4, !b2, b1, last);
    CellPlace(g, first, b8, b4, b2, !b1, last);
    CellPlace(g, first, b8, !b4, !b2, b1, last);
    SpreadAt(Box(g)[2 * row + (if b8 then 1 else 0)], b4, b2, b1);
    ApartAt(Box(g)[2 * row], Box(g)[2 * row + 1], Place(b4, b2, b1));
  }
}
