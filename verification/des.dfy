/**
 * The DES engine of src/crypt.c: tables compiled once, a key schedule and a salt
 * mask that are cached, and the rounds. Its methods are proved to compute the
 * reference definition of DesReference.
 */
module Des {
  import opened Words
  import opened Masks
  import opened DesTables
  import opened DesReference

  const BLOCK: Shape := Shape(64, 8, 8, 8)
  const KEY: Shape := Shape(64, 8, 7, 8)
  const COMP: Shape := Shape(56, 7, 7, 8)
  const SBITS: Shape := Shape(32, 8, 8, 4)

  // ---- Inverting the permutation tables ----

  /** inv[q] is the index of the entry that names position q, counting both from 0. */
  ghost predicate Inverts(inv: seq<nat>, t: seq<nat>, m: nat) {
    |inv| == m && forall q, i :: 0 <= q < m && 0 <= i < |t| ==> (inv[q] == i <==> t[i] == q + 1)
  }

  method Invert(t: seq<nat>, m: nat) returns (inv: seq<nat>)
    requires Injection(t, m) && |t| <= 255
    ensures Inverts(inv, t, m)
  {
    inv := seq(m, q => 255);
    for i := 0 to |t|
      invariant |inv| == m
      invariant forall q :: 0 <= q < m ==> inv[q] < i || inv[q] == 255
      invariant forall q, x :: 0 <= q < m && 0 <= x < i ==> (inv[q] == x <==> t[x] == q + 1)
    {
      inv := inv[t[i] - 1 := i];
    }
  }

  /** Where each input bit goes in the half of the output that starts at entry base. */
  function Half(inv: seq<nat>, base: nat, n: nat): (places: seq<int>)
    ensures |places| == |inv|
  {
    seq(|inv|, q requires 0 <= q < |inv| => if base <= inv[q] < base + n then inv[q] - base + 32 - n else -1)
  }

  lemma HalfRoutes(inv: seq<nat>, t: seq<nat>, m: nat, base: nat, n: nat)
    requires Injection(t, m) && Inverts(inv, t, m) && base + n <= |t| && n <= 32
    ensures Routes(Half(inv, base, n), Sources(t, base, n))
  {
    var places, from := Half(inv, base, n), Sources(t, base, n);
    forall q, o | 0 <= q < |places| && 0 <= o < |from|
      ensures places[q] == 32 - |from| + o <==> q == from[o]
    {
      assert inv[q] == base + o <==> t[base + o] == q + 1;
    }
  }

  lemma BackRoutes(rows: seq<seq<nat>>, back: seq<seq<nat>>, perm: seq<nat>, from: seq<nat>, base: nat)
    requires |perm| == 64 && |from| == 32 && base + 32 <= 64
    requires forall q: nat :: q < 64 ==> Undone(rows, back, 64, q)
    requires forall i :: 0 <= i < 64 ==> perm[i] == At(rows, i) - 1
    requires forall o :: 0 <= o < 32 ==> from[o] == At(back, base + o)
    requires forall o :: 0 <= o < 32 ==> from[o] < 64 && At(rows, from[o]) == base + o + 1
    ensures Routes(Half(perm, base, 32), from)
  {
    forall q, o | 0 <= q < 64 && 0 <= o < 32
      ensures Half(perm, base, 32)[q] == o <==> q == from[o]
    {
      assert Undone(rows, back, 64, q);
    }
  }

  lemma FinalRoutes(half: nat)
    requires half < 2
    ensures Routes(Half(Sources(Ip(), 0, 64), 32 * half, 32), FpFrom(half))
  {
    IpInjection();
    forall q: nat | q < 64
      ensures Undone(IP_ROWS, IP_BACK, 64, q)
    {
      IpUndone(q);
    }
    forall o | 0 <= o < 32
      ensures FpFrom(half)[o] < 64 && At(IP_ROWS, FpFrom(half)[o]) == 32 * half + o + 1
    {
      IpNamed(32 * half + o);
    }
    BackRoutes(IP_ROWS, IP_BACK, Sources(Ip(), 0, 64), FpFrom(half), 32 * half);
  }

  lemma BlockCovered(from: seq<nat>)
    requires |from| <= 32 && forall o :: 0 <= o < |from| ==> from[o] < 64
    ensures BLOCK.Valid() && Covered(from, BLOCK)
  {
  }

  lemma ParityFree(from: seq<nat>)
    requires |from| <= 32 && forall o :: 0 <= o < |from| ==> from[o] < 64 && (from[o] + 1) % 8 != 0
    ensures KEY.Valid() && Covered(from, KEY)
  {
  }

  lemma KeyCovered(half: nat)
    requires half < 2
    ensures KEY.Valid() && Covered(KeyFrom(half), KEY)
  {
    var from := KeyFrom(half);
    forall o | 0 <= o < 28
      ensures from[o] < 64 && (from[o] + 1) % 8 != 0
    {
      KeyParity(28 * half + o);
    }
    ParityFree(from);
  }

  lemma CompCovered(half: nat)
    requires half < 2
    ensures COMP.Valid() && Covered(CompFrom(half), COMP)
  {
  }

  lemma SbitsCovered()
    ensures SBITS.Valid() && Covered(PFrom(), SBITS)
  {
  }

  method PermutationTables() returns (il: seq<seq<Word>>, ir: seq<seq<Word>>, fl: seq<seq<Word>>, fr: seq<seq<Word>>)
    ensures Computes(il, BLOCK, IpFrom(0)) && Computes(ir, BLOCK, IpFrom(1))
    ensures Computes(fl, BLOCK, FpFrom(0)) && Computes(fr, BLOCK, FpFrom(1))
  {
    IpInjection();
    var initPerm := Invert(Ip(), 64);
    HalfRoutes(initPerm, Ip(), 64, 0, 32);
    HalfRoutes(initPerm, Ip(), 64, 32, 32);
    BlockCovered(IpFrom(0));
    BlockCovered(IpFrom(1));
    il := Compile(Half(initPerm, 0, 32), BLOCK, IpFrom(0));
    ir := Compile(Half(initPerm, 32, 32), BLOCK, IpFrom(1));
    var finalPerm := Sources(Ip(), 0, 64);
    FinalRoutes(0);
    FinalRoutes(1);
    BlockCovered(FpFrom(0));
    BlockCovered(FpFrom(1));
    fl := Compile(Half(finalPerm, 0, 32), BLOCK, FpFrom(0));
    fr := Compile(Half(finalPerm, 32, 32), BLOCK, FpFrom(1));
  }

  method KeyTables() returns (kl: seq<seq<Word>>, kr: seq<seq<Word>>)
    ensures Computes(kl, KEY, KeyFrom(0)) && Computes(kr, KEY, KeyFrom(1))
  {
    KeyPermInjection();
    var inv := Invert(KeyPerm(), 64);
    HalfRoutes(inv, KeyPerm(), 64, 0, 28);
    HalfRoutes(inv, KeyPerm(), 64, 28, 28);
    KeyCovered(0);
    KeyCovered(1);
    kl := Compile(Half(inv, 0, 28), KEY, KeyFrom(0));
    kr := Compile(Half(inv, 28, 28), KEY, KeyFrom(1));
  }

  method CompressionTables() returns (cl: seq<seq<Word>>, cr: seq<seq<Word>>)
    ensures Computes(cl, COMP, CompFrom(0)) && Computes(cr, COMP, CompFrom(1))
  {
    CompPermInjection();
    var inv := Invert(CompPerm(), 56);
    HalfRoutes(inv, CompPerm(), 56, 0, 24);
    HalfRoutes(inv, CompPerm(), 56, 24, 24);
    CompCovered(0);
    CompCovered(1);
    cl := Compile(Half(inv, 0, 24), COMP, CompFrom(0));
    cr := Compile(Half(inv, 24, 24), COMP, CompFrom(1));
  }

  method PboxTable() returns (p: seq<seq<Word>>)
    ensures Computes(p, SBITS, PFrom())
  {
    PboxInjection();
    var unPbox := Invert(Pbox(), 32);
    HalfRoutes(unPbox, Pbox(), 32, 0, 32);
    SbitsCovered();
    p := Compile(Half(unPbox, 0, 32), SBITS, PFrom());
  }

  // ---- The expansion, the salt and the key ----

  /** A short bit string at the low end of a word. */
  function Padded(b: seq<bool>): Word
    requires |b| <= 32
  {
    seq(32, i requires 0 <= i < 32 => i >= 32 - |b| && b[i - (32 - |b|)])
  }

  /** The constants 0x00000001, 0xf8000000, 0x1f800000, 0x01f80000, 0x001f8000 of the source as spans. */
  function ExpandLeft(r: Word): Word {
    Or(Or(Or(Or(Shl(And(r, Span(31, 32)), 23), Shr(And(r, Span(0, 5)), 9)),
             Shr(And(r, Span(3, 9)), 11)), Shr(And(r, Span(7, 13)), 13)), Shr(And(r, Span(11, 17)), 15))
  }

  /** The constants 0x0001f800, 0x00001f80, 0x000001f8, 0x0000001f, 0x80000000 as spans. */
  function ExpandRight(r: Word): Word {
    Or(Or(Or(Or(Shl(And(r, Span(15, 21)), 7), Shl(And(r, Span(19, 25)), 5)),
             Shl(And(r, Span(23, 29)), 3)), Shl(And(r, Span(27, 32)), 1)), Shr(And(r, Span(0, 1)), 31))
  }

  lemma ExpandLeftBit(r: Word, i: nat)
    requires i < 32
    ensures ExpandLeft(r)[i] == (i >= 8 && Expansion(r)[i - 8])
  {
  }

  lemma ExpandRightBit(r: Word, i: nat)
    requires i < 32
    ensures ExpandRight(r)[i] == (i >= 8 && Expansion(r)[i + 16])
  {
  }

  /** The shifts and masks are the expansion of FIPS 46-3. */
  lemma ExpandIsExpansion(r: Word)
    ensures ExpandLeft(r) == Padded(Expansion(r)[..24])
    ensures ExpandRight(r) == Padded(Expansion(r)[24..])
  {
    var e := Expansion(r);
    forall i | 0 <= i < 32
      ensures ExpandLeft(r)[i] == Padded(e[..24])[i] && ExpandRight(r)[i] == Padded(e[24..])[i]
    {
      ExpandLeftBit(r, i);
      ExpandRightBit(r, i);
    }
  }

  predicate TopClear(w: Word) {
    forall i :: 0 <= i < 8 ==> !w[i]
  }

  lemma MixedBit(e: seq<bool>, saltbits: Word, k: Subkey, i: nat)
    requires |e| == 48 && 8 <= i < 32
    ensures Mixed(Salted(e, saltbits), k)[i - 8] == ((if saltbits[i] then e[i + 16] else e[i - 8]) != k.l[i])
    ensures Mixed(Salted(e, saltbits), k)[i + 16] == ((if saltbits[i] then e[i - 8] else e[i + 16]) != k.r[i])
  {
    assert KeyBits(k)[i - 8] == k.l[i] && KeyBits(k)[i + 16] == k.r[i];
    var x := Salted(e, saltbits);
    assert x[i - 8] == if saltbits[i] then e[i + 16] else e[i - 8];
    assert x[i + 16] == if saltbits[i] then e[i - 8] else e[i + 16];
  }

  /** The exchange under the salt mask and the key addition, on both halves. */
  lemma MixIsMixed(e: seq<bool>, saltbits: Word, k: Subkey, a: Word, b: Word, f: Word)
    requires |e| == 48 && TopClear(saltbits) && TopClear(k.l) && TopClear(k.r)
    requires a == Padded(e[..24]) && b == Padded(e[24..]) && f == And(Xor(a, b), saltbits)
    ensures Xor(a, Xor(f, k.l)) == Padded(Mixed(Salted(e, saltbits), k)[..24])
    ensures Xor(b, Xor(f, k.r)) == Padded(Mixed(Salted(e, saltbits), k)[24..])
  {
    var m := Mixed(Salted(e, saltbits), k);
    forall i | 0 <= i < 32
      ensures Xor(a, Xor(f, k.l))[i] == Padded(m[..24])[i] && Xor(b, Xor(f, k.r))[i] == Padded(m[24..])[i]
    {
      if i >= 8 {
        MixedBit(e, saltbits, k, i);
      }
    }
  }

  // ---- The merged S-boxes ----

  /** The row reordering of u_sbox. */
  function Reordered(j: nat): (b: nat)
    requires j < 64
    ensures b < 64
  {
    j / 32 * 32 + j % 2 * 16 + j / 2 % 16
  }

  lemma ReorderedParts(outer: nat, inner: nat, last: nat)
    requires outer < 2 && inner < 16 && last < 2
    ensures Reordered(32 * outer + 2 * inner + last) == 16 * (2 * outer + last) + inner
  {
  }

  lemma ValueParts(c: seq<bool>)
    requires |c| == 6
    ensures Value(c) == 32 * Value([c[0]]) + 2 * Value(c[1..5]) + Value([c[5]])
    ensures Value([c[0], c[5]]) == 2 * Value([c[0]]) + Value([c[5]])
  {
    var outer, inner, last := [c[0]], c[1..5], [c[5]];
    assert c == (outer + inner) + last && [c[0], c[5]] == outer + last;
    ValueOfConcat(outer + inner, last);
    ValueOfConcat(outer, inner);
    ValueOfConcat(outer, last);
    assert Pow2(1) == 2 && Pow2(4) == 16;
  }

  lemma ReorderedValue(c: seq<bool>)
    requires |c| == 6
    ensures Value(c) < 64 && Reordered(Value(c)) == 16 * Value([c[0], c[5]]) + Value(c[1..5])
  {
    assert Value([c[0]]) < 2 && Value([c[5]]) < 2;
    assert Value(c[1..5]) < 16 by {
      assert Pow2(4) == 16;
    }
    ValueParts(c);
    ReorderedParts(Value([c[0]]), Value(c[1..5]), Value([c[5]]));
  }

  /** Reading the reordered box at the plain number is reading the S-box by row and column. */
  lemma ReorderedIsSubstitute(boxes: Boxes, box: nat, c: seq<bool>)
    requires |c| == 6
    ensures Value(c) < 64 && Entry(boxes, box, Reordered(Value(c))) == Substitute(boxes, box, c)
  {
    ReorderedValue(c);
  }

  method MergedRow(hi: seq<nat>, lo: seq<nat>) returns (row: seq<nat>)
    requires |hi| == 64 && |lo| == 64
    ensures |row| == 4096 && forall v :: 0 <= v < 4096 ==> row[v] == 16 * hi[v / 64] + lo[v % 64]
  {
    row := [];
    for i := 0 to 64
      invariant |row| == 64 * i
      invariant forall v :: 0 <= v < 64 * i ==> row[v] == 16 * hi[v / 64] + lo[v % 64]
    {
      for j := 0 to 64
        invariant |row| == 64 * i + j
        invariant forall v :: 0 <= v < 64 * i + j ==> row[v] == 16 * hi[v / 64] + lo[v % 64]
      {
        row := row + [16 * hi[i] + lo[j]];
      }
    }
  }

  ghost predicate MergedAt(row: seq<nat>, boxes: Boxes, b: nat, v: nat)
    requires v < |row|
  {
    v < 4096 && row[v] == 16 * Entry(boxes, 2 * b, Reordered(v / 64)) + Entry(boxes, 2 * b + 1, Reordered(v % 64))
  }

  /** Table b answers twelve input bits with the four output bits of box 2b and the four of box 2b + 1. */
  ghost predicate IsMerged(m: seq<seq<nat>>, boxes: Boxes) {
    |m| == 4 && forall b :: 0 <= b < 4 ==> |m[b]| == 4096 && forall v: nat :: v < 4096 ==> MergedAt(m[b], boxes, b, v)
  }

  method MergedBoxes(boxes: Boxes) returns (m: seq<seq<nat>>)
    requires |boxes| == 8 && forall b :: 0 <= b < 8 ==> |boxes[b]| == 64
    ensures IsMerged(m, boxes)
  {
    var u: seq<seq<nat>> := [];
    for x := 0 to 8
      invariant |u| == x
      invariant forall y :: 0 <= y < x ==> |u[y]| == 64
      invariant forall y, j :: 0 <= y < x && 0 <= j < 64 ==> u[y][j] == Entry(boxes, y, Reordered(j))
    {
      var row: seq<nat> := [];
      for j := 0 to 64
        invariant |row| == j
        invariant forall i :: 0 <= i < j ==> row[i] == Entry(boxes, x, Reordered(i))
      {
        row := row + [boxes[x][Reordered(j)]];
      }
      u := u + [row];
    }
    m := [];
    for b := 0 to 4
      invariant |m| == b
      invariant forall c :: 0 <= c < b ==> |m[c]| == 4096 && forall v: nat :: v < 4096 ==> MergedAt(m[c], boxes, c, v)
    {
      var row := MergedRow(u[2 * b], u[2 * b + 1]);
      forall v: nat | v < 4096
        ensures MergedAt(row, boxes, b, v)
      {
        assert row[v] == 16 * u[2 * b][v / 64] + u[2 * b + 1][v % 64];
      }
      m := m + [row];
    }
  }

  /** Twelve bits as two groups of six. */
  lemma TwelveBits(c: seq<bool>)
    requires |c| == 12
    ensures Value(c) < 4096 && Value(c) / 64 == Value(c[..6]) && Value(c) % 64 == Value(c[6..])
  {
    assert Pow2(6) == 64;
    var hi, lo := Value(c[..6]), Value(c[6..]);
    assert hi < 64 && lo < 64;
    hide Value, Pow2;
    assert c == c[..6] + c[6..];
    ValueOfConcat(c[..6], c[6..]);
    assert Value(c) == 64 * hi + lo;
  }

  lemma MergedByte(m: seq<seq<nat>>, boxes: Boxes, b: nat, c: seq<bool>)
    requires IsMerged(m, boxes) && b < 4 && |c| == 12
    ensures Value(c) < 4096
    ensures m[b][Value(c)] == 16 * Substitute(boxes, 2 * b, c[..6]) + Substitute(boxes, 2 * b + 1, c[6..])
  {
    hide Substitute, Entry, Value, Reordered;
    TwelveBits(c);
    ReorderedIsSubstitute(boxes, 2 * b, c[..6]);
    ReorderedIsSubstitute(boxes, 2 * b + 1, c[6..]);
    assert MergedAt(m[b], boxes, b, Value(c));
  }

  lemma SubstitutionBit(boxes: Boxes, x: seq<bool>, box: nat, t: nat)
    requires |x| == 48 && box < 8 && t < 4
    ensures Substitution(boxes, x)[4 * box + t] == BitAt(Substitute(boxes, box, x[6 * box..6 * box + 6]), 4, t)
  {
    assert (4 * box + t) / 4 == box && (4 * box + t) % 4 == t;
  }

  lemma NibblesAreByte(hi: Nibble, lo: Nibble, y: seq<bool>)
    requires |y| == 8 && forall t :: 0 <= t < 4 ==> y[t] == BitAt(hi, 4, t) && y[t + 4] == BitAt(lo, 4, t)
    ensures Value(y) == 16 * hi as nat + lo
  {
    var v: nat := 16 * hi as nat + lo;
    assert Pow2(4) == 16 && Pow2(8) == 256 by {
      assert Pow2(6) == 64;
    }
    forall j | 0 <= j < 8
      ensures BitAt(v, 8, j) == y[j]
    {
      BitOfPair(hi, lo, 4, 4, j);
      if j >= 4 {
        assert y[j - 4 + 4] == BitAt(lo, 4, j - 4);
      }
    }
    BitsDetermine(v, y);
  }

  lemma SubstitutionByte(boxes: Boxes, x: seq<bool>, b: nat, c: seq<bool>, y: seq<bool>)
    requires |x| == 48 && b < 4 && c == x[12 * b..12 * b + 12] && y == Substitution(boxes, x)[8 * b..8 * b + 8]
    ensures Value(y) == 16 * Substitute(boxes, 2 * b, c[..6]) + Substitute(boxes, 2 * b + 1, c[6..])
  {
    hide Substitute, Substitution, BitAt, Value;
    var h, l := 2 * b, 2 * b + 1;
    var hi, lo := Substitute(boxes, h, c[..6]), Substitute(boxes, l, c[6..]);
    assert x[6 * h..6 * h + 6] == c[..6];
    assert x[6 * l..6 * l + 6] == c[6..];
    forall t | 0 <= t < 4
      ensures y[t] == BitAt(hi, 4, t) && y[t + 4] == BitAt(lo, 4, t)
    {
      SubstitutionBit(boxes, x, h, t);
      SubstitutionBit(boxes, x, l, t);
      assert y[t] == Substitution(boxes, x)[4 * h + t];
      assert y[t + 4] == Substitution(boxes, x)[4 * l + t];
    }
    NibblesAreByte(hi, lo, y);
  }

  lemma OrZero(w: Word)
    ensures Or(Zero(), w) == w
  {
  }

  lemma FourLookups(p: seq<seq<Word>>, cs: seq<seq<bool>>)
    requires |p| == 4 && |cs| == 4 && forall k :: 0 <= k < 4 ==> |p[k]| == Pow2(|cs[k]|)
    ensures Lookup(p, cs) ==
            Or(Or(Or(p[0][Value(cs[0])], p[1][Value(cs[1])]), p[2][Value(cs[2])]), p[3][Value(cs[3])])
  {
    assert p[..3][..2] == p[..2] && cs[..3][..2] == cs[..2];
    assert p[..2][..1] == p[..1] && cs[..2][..1] == cs[..1];
    assert p[..1][..0] == [] && cs[..1][..0] == [];
    assert Lookup(p[..1], cs[..1]) == p[0][Value(cs[0])] by {
      assert Lookup(p[..1][..0], cs[..1][..0]) == Zero();
      OrZero(p[0][Value(cs[0])]);
    }
    assert Lookup(p[..2], cs[..2]) == Or(Lookup(p[..1], cs[..1]), p[1][Value(cs[1])]);
    assert Lookup(p[..3], cs[..3]) == Or(Lookup(p[..2], cs[..2]), p[2][Value(cs[2])]);
  }

  lemma PaddedParts(x: seq<bool>, w: Word)
    requires |x| == 24 && w == Padded(x)
    ensures Value(w[..20]) == Value(x[..12]) && Value(w[20..]) == Value(x[12..])
  {
    assert w[..20] == w[..8] + x[..12];
    ValueOfConcat(w[..8], x[..12]);
    ValueOfZeros(w[..8]);
    assert w[20..] == x[12..];
  }

  // ---- The key schedule ----

  /** The shift pair of the source rotates the low 28 bits, provided the top four are clear. */
  lemma ShiftsRotate(k: Word, c: seq<bool>, s: nat)
    requires |c| == 28 && k == Padded(c) && s <= 28
    ensures Or(Shl(k, s), Shr(k, 28 - s))[4..] == Rotated(c, s)
  {
    var t := Or(Shl(k, s), Shr(k, 28 - s));
    forall i | 0 <= i < 28
      ensures t[4..][i] == Rotated(c, s)[i]
    {
      if i + s < 28 {
        assert (i + s) % 28 == i + s;
      } else if i + s < 56 {
        assert (i + s) % 28 == i + s - 28;
      }
    }
  }

  lemma TotalShiftBound(round: nat)
    requires round < 16
    ensures TotalShift(round) <= 28
  {
    TotalShiftEarly(round);
    TotalShiftLate(round);
  }

  lemma TotalShiftEarly(round: nat)
    ensures round < 8 ==> TotalShift(round) <= 14
    ensures TotalShift(7) == 14
  {
    assert TotalShift(1) == 2;
    assert TotalShift(3) == 6;
    assert TotalShift(5) == 10;
    assert TotalShift(7) == 14;
  }

  lemma TotalShiftLate(round: nat)
    ensures 8 <= round < 16 ==> TotalShift(round) <= 28
  {
    TotalShiftEarly(7);
    assert TotalShift(9) == 17;
    assert TotalShift(11) == 21;
    assert TotalShift(13) == 25;
    assert TotalShift(15) == 28;
  }

  lemma SelectPadded(bits: seq<bool>, from: seq<nat>)
    requires |from| <= 32 && forall o :: 0 <= o < |from| ==> from[o] < |bits|
    ensures Select(bits, from) == Padded(Select(bits, from)[32 - |from|..])
  {
  }

  lemma SelectTopClear(bits: seq<bool>, from: seq<nat>)
    requires |from| <= 24 && forall o :: 0 <= o < |from| ==> from[o] < |bits|
    ensures TopClear(Select(bits, from))
  {
  }

  predicate Clean(ks: seq<Subkey>) {
    forall i :: 0 <= i < |ks| ==> TopClear(ks[i].l) && TopClear(ks[i].r)
  }

  lemma SaltTopClear(salt: Word)
    ensures TopClear(SaltMask(salt))
  {
  }

  datatype Option<T> = None | Some(value: T)

  /** The arrays des_init fills. */
  datatype Tables = Tables(
    ipL: seq<seq<Word>>, ipR: seq<seq<Word>>, fpL: seq<seq<Word>>, fpR: seq<seq<Word>>,
    keyL: seq<seq<Word>>, keyR: seq<seq<Word>>, compL: seq<seq<Word>>, compR: seq<seq<Word>>,
    psbox: seq<seq<Word>>, mSbox: seq<seq<nat>>)

  ghost predicate Permutes(t: Tables) {
    Computes(t.ipL, BLOCK, IpFrom(0)) && Computes(t.ipR, BLOCK, IpFrom(1)) &&
    Computes(t.fpL, BLOCK, FpFrom(0)) && Computes(t.fpR, BLOCK, FpFrom(1))
  }

  ghost predicate Schedules(t: Tables) {
    Computes(t.keyL, KEY, KeyFrom(0)) && Computes(t.keyR, KEY, KeyFrom(1)) &&
    Computes(t.compL, COMP, CompFrom(0)) && Computes(t.compR, COMP, CompFrom(1))
  }

  ghost predicate Substitutes(t: Tables) {
    Computes(t.psbox, SBITS, PFrom()) && IsMerged(t.mSbox, Sboxes())
  }

  datatype Part = BlockPart | KeyPart | BoxPart

  ghost predicate Works(t: Tables, part: Part) {
    match part
    case BlockPart => Permutes(t)
    case KeyPart => Schedules(t)
    case BoxPart => Substitutes(t)
  }

  ghost predicate Ready(t: Tables) {
    forall part: Part :: Works(t, part)
  }

  /** The subkeys are those of the last key set, if one was, and decipher in reverse. */
  ghost predicate KeysFresh(enKeys: seq<Subkey>, deKeys: seq<Subkey>, oldRawKey: Block, lastKey: Option<Block>) {
    |enKeys| == 16 && Clean(enKeys) && deKeys == Reversed(enKeys) &&
    (lastKey.Some? ==> enKeys == Schedule(lastKey.value)) &&
    (oldRawKey != Block(Zero(), Zero()) ==> lastKey == Some(oldRawKey))
  }

  method BuildTables() returns (t: Tables)
    ensures Ready(t)
  {
    var m := MergedBoxes(Sboxes());
    var il, ir, fl, fr := PermutationTables();
    var kl, kr := KeyTables();
    var cl, cr := CompressionTables();
    var p := PboxTable();
    t := Tables(il, ir, fl, fr, kl, kr, cl, cr, p, m);
    assert Works(t, BlockPart);
    assert Works(t, KeyPart);
    assert Works(t, BoxPart);
  }

  lemma SingleLeft(n: nat)
    requires n < 31
    ensures Shl(Single(n + 1), 1) == Single(n)
  {
  }

  lemma SingleRight(n: nat)
    requires n < 32
    ensures Shr(Single(n), 1) == Single(n + 1)
  {
  }

  lemma MaskedBit(w: Word, n: nat)
    requires n < 32
    ensures And(w, Single(n)) != Zero() <==> w[n]
  {
    if w[n] {
      assert And(w, Single(n))[n];
    } else {
      assert And(w, Single(n)) == Zero();
    }
  }

  /** The salt loop: the low 24 bits of the salt, reversed. */
  method ComputeSaltMask(salt: Word) returns (mask: Word)
    ensures mask == SaltMask(salt)
  {
    mask := Zero();
    var saltbit, obit := Single(31), Single(8);
    for i := 0 to 24
      invariant saltbit == Single(31 - i) && obit == Single(8 + i)
      invariant forall x :: 0 <= x < 32 ==> mask[x] == (8 <= x < 8 + i && salt[39 - x])
    {
      MaskedBit(salt, 31 - i);
      if And(salt, saltbit) != Zero() {
        mask := Or(mask, obit);
      }
      SingleLeft(30 - i);
      SingleRight(8 + i);
      saltbit, obit := Shl(saltbit, 1), Shr(obit, 1);
    }
  }

  // ---- What one lookup in each table gives ----

  function Looked(table: seq<seq<Word>>, shape: Shape, bits: seq<bool>): Word
    requires shape.Valid() && |bits| == shape.width && |table| == shape.count
    requires forall k :: 0 <= k < shape.count ==> |table[k]| == Pow2(shape.n)
  {
    Lookup(table, Cut(bits, shape))
  }

  lemma LookedIs(table: seq<seq<Word>>, shape: Shape, from: seq<nat>, bits: seq<bool>)
    requires Computes(table, shape, from) && |bits| == shape.width
    ensures Looked(table, shape, bits) == Select(bits, from)
  {
    assert Agrees(table, shape, from, bits);
  }

  method Initial(t: Tables, b: Block) returns (c: Block)
    requires Ready(t)
    ensures c == InitialPermutation(b)
  {
    assert Works(t, BlockPart);
    LookedIs(t.ipL, BLOCK, IpFrom(0), b.Bits());
    LookedIs(t.ipR, BLOCK, IpFrom(1), b.Bits());
    c := Block(Looked(t.ipL, BLOCK, b.Bits()), Looked(t.ipR, BLOCK, b.Bits()));
  }

  method Final(t: Tables, b: Block) returns (c: Block)
    requires Ready(t)
    ensures c == FinalPermutation(b)
  {
    assert Works(t, BlockPart);
    LookedIs(t.fpL, BLOCK, FpFrom(0), b.Bits());
    LookedIs(t.fpR, BLOCK, FpFrom(1), b.Bits());
    c := Block(Looked(t.fpL, BLOCK, b.Bits()), Looked(t.fpR, BLOCK, b.Bits()));
  }

  method SplitKey(t: Tables, raw: Block) returns (k0: Word, k1: Word)
    requires Ready(t)
    ensures k0 == Padded(KeyHalf(raw, 0)) && k1 == Padded(KeyHalf(raw, 1))
  {
    assert Works(t, KeyPart);
    LookedIs(t.keyL, KEY, KeyFrom(0), raw.Bits());
    LookedIs(t.keyR, KEY, KeyFrom(1), raw.Bits());
    SelectPadded(raw.Bits(), KeyFrom(0));
    SelectPadded(raw.Bits(), KeyFrom(1));
    k0 := Looked(t.keyL, KEY, raw.Bits());
    k1 := Looked(t.keyR, KEY, raw.Bits());
  }

  method Compress(t: Tables, raw: Block, k0: Word, k1: Word, round: nat, shifts: nat) returns (k: Subkey)
    requires Ready(t) && round < 16 && shifts == TotalShift(round)
    requires k0 == Padded(KeyHalf(raw, 0)) && k1 == Padded(KeyHalf(raw, 1))
    ensures k == RoundKey(raw, round) && TopClear(k.l) && TopClear(k.r)
  {
    TotalShiftBound(round);
    ShiftsRotate(k0, KeyHalf(raw, 0), shifts);
    ShiftsRotate(k1, KeyHalf(raw, 1), shifts);
    var t0 := Or(Shl(k0, shifts), Shr(k0, 28 - shifts));
    var t1 := Or(Shl(k1, shifts), Shr(k1, 28 - shifts));
    var cd := t0[4..] + t1[4..];
    assert Works(t, KeyPart);
    LookedIs(t.compL, COMP, CompFrom(0), cd);
    LookedIs(t.compR, COMP, CompFrom(1), cd);
    SelectTopClear(cd, CompFrom(0));
    SelectTopClear(cd, CompFrom(1));
    k := Subkey(Looked(t.compL, COMP, cd), Looked(t.compR, COMP, cd));
  }

  lemma ScheduleStep(raw: Block, en: seq<Subkey>, k: Subkey, round: nat)
    requires round < 16 && en == Schedule(raw)[..round] && k == RoundKey(raw, round)
    ensures en + [k] == Schedule(raw)[..round + 1]
  {
  }

  lemma ReversedStep(en: seq<Subkey>, k: Subkey)
    ensures Reversed(en + [k]) == [k] + Reversed(en)
  {
    assert (en + [k])[..|en|] == en;
  }

  /** The schedule loop of des_setkey. */
  method ComputeSchedule(t: Tables, raw: Block) returns (en: seq<Subkey>, de: seq<Subkey>)
    requires Ready(t)
    ensures en == Schedule(raw) && de == Reversed(en) && Clean(en)
  {
    var k0, k1 := SplitKey(t, raw);
    en, de := [], [];
    var shifts := 0;
    for round := 0 to 16
      invariant |en| == round && Clean(en) && de == Reversed(en)
      invariant shifts == if round == 0 then 0 else TotalShift(round - 1)
      invariant en == Schedule(raw)[..round]
    {
      shifts := shifts + At(SHIFT_ROWS, round);
      var k := Compress(t, raw, k0, k1, round, shifts);
      ScheduleStep(raw, en, k, round);
      ReversedStep(en, k);
      en, de := en + [k], [k] + de;
    }
    assert Schedule(raw)[..16] == Schedule(raw);
  }

  /** The body of one round up to the exclusive or with the left half. */
  method RoundFunction(t: Tables, saltbits: Word, r: Word, k: Subkey) returns (f: Word)
    requires Ready(t) && TopClear(saltbits) && TopClear(k.l) && TopClear(k.r)
    ensures f == CipherFunction(r, k, saltbits)
  {
    var r48l, r48r := ExpandLeft(r), ExpandRight(r);
    ghost var x := Mixed(Salted(Expansion(r), saltbits), k);
    ExpandIsExpansion(r);
    f := And(Xor(r48l, r48r), saltbits);
    MixIsMixed(Expansion(r), saltbits, k, r48l, r48r, f);
    r48l := Xor(r48l, Xor(f, k.l));
    r48r := Xor(r48r, Xor(f, k.r));
    f := MergedLookup(t, r48l, r48r, x);
  }

  method MergedLookup(t: Tables, r48l: Word, r48r: Word, ghost x: seq<bool>) returns (f: Word)
    requires Ready(t) && |x| == 48 && r48l == Padded(x[..24]) && r48r == Padded(x[24..])
    ensures f == Select(Substitution(Sboxes(), x), PFrom())
  {
    ghost var y := Substitution(Sboxes(), x);
    ghost var cs := Cut(y, SBITS);
    assert Works(t, BoxPart);
    MergedIndices(t.mSbox, Sboxes(), x, r48l, r48r);
    var m0, m1 := t.mSbox[0][Value(r48l[..20])], t.mSbox[1][Value(r48l[20..])];
    var m2, m3 := t.mSbox[2][Value(r48r[..20])], t.mSbox[3][Value(r48r[20..])];
    assert Pow2(8) == 256 by {
      assert Pow2(6) == 64;
    }
    f := Or(Or(Or(t.psbox[0][m0], t.psbox[1][m1]), t.psbox[2][m2]), t.psbox[3][m3]);
    FourLookups(t.psbox, cs);
    LookedIs(t.psbox, SBITS, PFrom(), y);
  }

  /** The four merged lookups give the four bytes of the substitution. */
  lemma MergedIndices(m: seq<seq<nat>>, boxes: Boxes, x: seq<bool>, r48l: Word, r48r: Word)
    requires IsMerged(m, boxes) && |x| == 48 && r48l == Padded(x[..24]) && r48r == Padded(x[24..])
    ensures var cs := Cut(Substitution(boxes, x), SBITS);
            Value(r48l[..20]) < 4096 && m[0][Value(r48l[..20])] == Value(cs[0]) &&
            Value(r48l[20..]) < 4096 && m[1][Value(r48l[20..])] == Value(cs[1]) &&
            Value(r48r[..20]) < 4096 && m[2][Value(r48r[..20])] == Value(cs[2]) &&
            Value(r48r[20..]) < 4096 && m[3][Value(r48r[20..])] == Value(cs[3])
  {
    PaddedParts(x[..24], r48l);
    PaddedParts(x[24..], r48r);
    assert x[..24][..12] == x[0..12] && x[..24][12..] == x[12..24];
    assert x[24..][..12] == x[24..36] && x[24..][12..] == x[36..48];
    MergedChunk(m, boxes, x, 0);
    MergedChunk(m, boxes, x, 1);
    MergedChunk(m, boxes, x, 2);
    MergedChunk(m, boxes, x, 3);
  }

  lemma MergedChunk(m: seq<seq<nat>>, boxes: Boxes, x: seq<bool>, b: nat)
    requires IsMerged(m, boxes) && |x| == 48 && b < 4
    ensures Value(x[12 * b..12 * b + 12]) < 4096
    ensures m[b][Value(x[12 * b..12 * b + 12])] == Value(Cut(Substitution(boxes, x), SBITS)[b])
  {
    var c := x[12 * b..12 * b + 12];
    var y := Substitution(boxes, x)[8 * b..8 * b + 8];
    MergedByte(m, boxes, b, c);
    SubstitutionByte(boxes, x, b, c, y);
  }

  lemma ReversedClean(ks: seq<Subkey>)
    requires Clean(ks)
    ensures Clean(Reversed(ks))
  {
  }

  ghost predicate SaltsAt(f: RoundFunction, saltbits: Word, r: Word, k: Subkey) {
    f(r, k) == CipherFunction(r, k, saltbits)
  }

  /** f is the cipher function under this salt. */
  ghost predicate Salts(f: RoundFunction, saltbits: Word) {
    forall r: Word, k: Subkey :: SaltsAt(f, saltbits, r, k)
  }

  /** The sixteen rounds and the exchange of the halves. */
  method OnePass(t: Tables, saltbits: Word, ks: seq<Subkey>, b: Block, ghost g: RoundFunction) returns (c: Block)
    requires Ready(t) && TopClear(saltbits) && |ks| == 16 && Clean(ks) && Salts(g, saltbits)
    ensures c == Swap(Rounds(b, ks, g))
  {
    var l, r, f := b.l, b.r, b.r;
    for round := 0 to 16
      invariant Block(l, r) == Rounds(b, ks[..round], g)
      invariant round > 0 ==> f == r
    {
      assert SaltsAt(g, saltbits, r, ks[round]);
      f := RoundFunction(t, saltbits, r, ks[round]);
      f := Xor(f, l);
      assert ks[..round + 1][..round] == ks[..round];
      l := r;
      r := f;
    }
    assert ks[..16] == ks;
    r := l;
    l := f;
    c := Block(l, r);
  }

  method AllPasses(t: Tables, saltbits: Word, ks: seq<Subkey>, start: Block, n: nat, ghost g: RoundFunction)
    returns (c: Block)
    requires Ready(t) && TopClear(saltbits) && |ks| == 16 && Clean(ks) && Salts(g, saltbits)
    ensures c == Passes(start, ks, g, n)
  {
    c := start;
    var left := n;
    ghost var done: nat := 0;
    while left > 0
      invariant left >= 0 && left + done == n
      invariant c == Passes(start, ks, g, done)
    {
      c := OnePass(t, saltbits, ks, c, g);
      left, done := left - 1, done + 1;
    }
  }

  method Crypt(t: Tables, saltbits: Word, ks: seq<Subkey>, b: Block, n: nat, ghost g: RoundFunction) returns (c: Block)
    requires Ready(t) && TopClear(saltbits) && |ks| == 16 && Clean(ks) && Salts(g, saltbits)
    ensures c == Cipher(b, ks, g, n)
  {
    c := Initial(t, b);
    c := AllPasses(t, saltbits, ks, c, n, g);
    c := Final(t, c);
  }

  lemma SaltingSalts(saltbits: Word)
    ensures Salts(Salting(saltbits), saltbits)
  {
    forall r: Word, k: Subkey
      ensures SaltsAt(Salting(saltbits), saltbits, r, k)
    {
    }
  }

  /** The per-thread state of the engine. */
  class Engine {
    var initialised: bool
    var tables: Tables
    var saltbits: Word
    var oldSalt: Word
    var oldRawKey: Block
    var enKeys: seq<Subkey>
    var deKeys: seq<Subkey>
    ghost var lastKey: Option<Block>

    /** The caches hold what a fresh computation from the last key and salt would give. */
    ghost predicate Valid()
      reads this
    {
      && (initialised ==> Ready(tables))
      && saltbits == SaltMask(oldSalt)
      && KeysFresh(enKeys, deKeys, oldRawKey, lastKey)
    }

    constructor ()
      ensures Valid() && !initialised && saltbits == Zero() && lastKey == None
    {
      var k := Subkey(Zero(), Zero());
      initialised := false;
      tables := Tables([], [], [], [], [], [], [], [], [], []);
      saltbits, oldSalt := Zero(), Zero();
      oldRawKey := Block(Zero(), Zero());
      enKeys := seq(16, i => k);
      deKeys := Reversed(seq(16, i => k));
      lastKey := None;
      assert Zero() == SaltMask(Zero());
    }

    /** des_init: also forgets the salt and the key that were cached. */
    method Init()
      requires Valid()
      modifies this
      ensures Valid() && initialised && saltbits == Zero() && oldSalt == Zero()
      ensures oldRawKey == Block(Zero(), Zero())
      ensures enKeys == old(enKeys) && deKeys == old(deKeys) && lastKey == old(lastKey)
    {
      oldRawKey := Block(Zero(), Zero());
      saltbits, oldSalt := Zero(), Zero();
      assert Zero() == SaltMask(Zero());
      tables := BuildTables();
      initialised := true;
    }

    /** setup_salt. */
    method SetupSalt(salt: Word)
      requires Valid()
      modifies this
      ensures Valid() && saltbits == SaltMask(salt) && oldSalt == salt && oldRawKey == old(oldRawKey)
      ensures enKeys == old(enKeys) && deKeys == old(deKeys) && lastKey == old(lastKey)
      ensures initialised == old(initialised) && tables == old(tables)
    {
      if salt == oldSalt {
        return;
      }
      oldSalt := salt;
      saltbits := ComputeSaltMask(salt);
    }

    /** des_setkey. */
    method SetKey(raw: Block)
      requires Valid()
      modifies this
      ensures Valid() && initialised
      ensures lastKey == Some(raw) && enKeys == Schedule(raw) && deKeys == Reversed(Schedule(raw))
      ensures oldSalt == if old(initialised) then old(oldSalt) else Zero()
      ensures saltbits == if old(initialised) then old(saltbits) else Zero()
      ensures old(initialised) ==> tables == old(tables)
    {
      if !initialised {
        Init();
      }
      if raw != Block(Zero(), Zero()) && raw == oldRawKey {
        return;
      }
      oldRawKey := raw;
      enKeys, deKeys := ComputeSchedule(tables, raw);
      lastKey := Some(raw);
    }

    /** do_des with the current salt: status 1 and no output when the count is zero. */
    method DoDes(b: Block, count: int) returns (status: int, c: Block)
      requires Valid() && initialised && count > -0x8000_0000
      ensures count == 0 ==> status == 1
      ensures count != 0 ==> status == 0
      ensures count > 0 ==> c == Cipher(b, enKeys, Salting(saltbits), count)
      ensures count < 0 ==> c == Cipher(b, deKeys, Salting(saltbits), -count)
    {
      hide Salting, Salts, Cipher;
      if count == 0 {
        return 1, b;
      }
      var ks, n := enKeys, count;
      if count < 0 {
        ks, n := deKeys, -count;
        ReversedClean(enKeys);
      }
      SaltTopClear(oldSalt);
      SaltingSalts(saltbits);
      c := Crypt(tables, saltbits, ks, b, n, Salting(saltbits));
      status := 0;
    }
  }

  /** What DoDes computes with count n is undone by what it computes with count -n, and the other way round. */
  lemma CountAndMinusCount(e: Engine, b: Block, n: nat, g: RoundFunction)
    requires e.Valid() && n >= 1
    ensures Cipher(Cipher(b, e.enKeys, g, n), e.deKeys, g, n) == b
    ensures Cipher(Cipher(b, e.deKeys, g, n), e.enKeys, g, n) == b
  {
    CipherUndone(b, e.enKeys, g, n);
    DecipherUndone(b, e.enKeys, g, n);
  }
}
