/**
 * DES as FIPS 46-3 defines it, one bit at a time, with the salt that crypt()
 * adds to the expansion: the definition the engine of src/crypt.c is measured
 * against. Bit 0 of a block is the standard's bit 1.
 */
module DesReference {
  import opened Words
  import opened Masks
  import opened DesTables

  datatype Block = Block(l: Word, r: Word) {
    function Bits(): (b: seq<bool>)
      ensures |b| == 64
    {
      l + r
    }
  }

  /** A 48-bit subkey, each half at the low end of a word. */
  datatype Subkey = Subkey(l: Word, r: Word)

  lemma SameBits(a: Block, b: Block)
    requires forall p :: 0 <= p < 64 ==> a.Bits()[p] == b.Bits()[p]
    ensures a == b
  {
    assert a.l == a.Bits()[..32] && a.r == a.Bits()[32..];
    assert b.l == b.Bits()[..32] && b.r == b.Bits()[32..];
    assert a.Bits() == b.Bits();
  }

  // ---- Permutations ----

  /** Entries base, ..., base + n - 1 of a permutation table, numbered from 0. */
  function Sources(t: seq<nat>, base: nat, n: nat): (f: seq<nat>)
    requires base + n <= |t| && forall i :: 0 <= i < |t| ==> t[i] >= 1
    ensures |f| == n && forall o :: 0 <= o < n ==> f[o] == t[base + o] - 1
  {
    seq(n, o requires 0 <= o < n => t[base + o] - 1)
  }

  function IpFrom(half: nat): (f: seq<nat>)
    requires half < 2
    ensures |f| == 32 && forall o :: 0 <= o < 32 ==> f[o] == At(IP_ROWS, 32 * half + o) - 1 && f[o] < 64
  {
    IpInjection();
    Sources(Ip(), 32 * half, 32)
  }

  lemma BackInBlock()
    ensures forall p: nat :: p < 64 ==> At(IP_BACK, p) < 64
  {
    forall p: nat | p < 64
      ensures At(IP_BACK, p) < 64
    {
      IpNamed(p);
    }
  }

  function FpFrom(half: nat): (f: seq<nat>)
    requires half < 2
    ensures |f| == 32 && forall o :: 0 <= o < 32 ==> f[o] == At(IP_BACK, 32 * half + o) && f[o] < 64
  {
    BackInBlock();
    Flat(IP_BACK, 64)[32 * half..32 * half + 32]
  }

  function InitialPermutation(b: Block): Block {
    Block(Select(b.Bits(), IpFrom(0)), Select(b.Bits(), IpFrom(1)))
  }

  function FinalPermutation(b: Block): Block {
    Block(Select(b.Bits(), FpFrom(0)), Select(b.Bits(), FpFrom(1)))
  }

  lemma InitialBit(b: Block, p: nat)
    requires p < 64
    ensures 1 <= At(IP_ROWS, p) <= 64 && InitialPermutation(b).Bits()[p] == b.Bits()[At(IP_ROWS, p) - 1]
  {
    IpUndone(p);
    var half := p / 32;
    assert IpFrom(half)[p - 32 * half] == At(IP_ROWS, p) - 1;
  }

  lemma FinalBit(b: Block, p: nat)
    requires p < 64
    ensures At(IP_BACK, p) < 64 && FinalPermutation(b).Bits()[p] == b.Bits()[At(IP_BACK, p)]
  {
    IpNamed(p);
    var half := p / 32;
    assert FpFrom(half)[p - 32 * half] == At(IP_BACK, p);
  }

  /** The final permutation undoes the initial one. */
  lemma FinalUndoesInitial(b: Block)
    ensures FinalPermutation(InitialPermutation(b)) == b
  {
    var c := FinalPermutation(InitialPermutation(b));
    forall p | 0 <= p < 64
      ensures c.Bits()[p] == b.Bits()[p]
    {
      FinalBit(InitialPermutation(b), p);
      IpNamed(p);
      InitialBit(b, At(IP_BACK, p));
    }
    SameBits(c, b);
  }

  /** The initial permutation undoes the final one. */
  lemma InitialUndoesFinal(b: Block)
    ensures InitialPermutation(FinalPermutation(b)) == b
  {
    var c := InitialPermutation(FinalPermutation(b));
    forall p | 0 <= p < 64
      ensures c.Bits()[p] == b.Bits()[p]
    {
      InitialBit(FinalPermutation(b), p);
      IpUndone(p);
      FinalBit(b, At(IP_ROWS, p) - 1);
    }
    SameBits(c, b);
  }

  // ---- Key schedule ----

  function KeyFrom(half: nat): (f: seq<nat>)
    requires half < 2
    ensures |f| == 28 && forall o :: 0 <= o < 28 ==> f[o] == At(KEY_ROWS, 28 * half + o) - 1 && f[o] < 64
  {
    KeyPermInjection();
    Sources(KeyPerm(), 28 * half, 28)
  }

  function CompFrom(half: nat): (f: seq<nat>)
    requires half < 2
    ensures |f| == 24 && forall o :: 0 <= o < 24 ==> f[o] == At(COMP_ROWS, 24 * half + o) - 1 && f[o] < 56
  {
    CompPermInjection();
    Sources(CompPerm(), 24 * half, 24)
  }

  /** Rotation to the left. */
  function Rotated(c: seq<bool>, s: nat): (d: seq<bool>)
    requires |c| > 0
    ensures |d| == |c|
  {
    seq(|c|, i requires 0 <= i < |c| => c[(i + s) % |c|])
  }

  /** How far the halves have been rotated in a round, counting from 0. */
  function TotalShift(round: nat): nat {
    if round == 0 then At(SHIFT_ROWS, 0) else TotalShift(round - 1) + At(SHIFT_ROWS, round)
  }

  /** The half of the key that the key permutation picks out. */
  function KeyHalf(key: Block, half: nat): (c: seq<bool>)
    requires half < 2
    ensures |c| == 28
  {
    Select(key.Bits(), KeyFrom(half))[4..]
  }

  /** The subkey of one round: both halves rotated, then compressed. */
  function RoundKey(key: Block, round: nat): Subkey {
    var s := TotalShift(round);
    var cd := Rotated(KeyHalf(key, 0), s) + Rotated(KeyHalf(key, 1), s);
    Subkey(Select(cd, CompFrom(0)), Select(cd, CompFrom(1)))
  }

  function Schedule(key: Block): (ks: seq<Subkey>)
    ensures |ks| == 16
  {
    seq(16, round requires 0 <= round < 16 => RoundKey(key, round))
  }

  // ---- Salt ----

  /** Bit 8 + i of the salt mask is bit i of the salt, counted from the low end. */
  function SaltMask(salt: Word): Word {
    seq(32, i requires 0 <= i < 32 => i >= 8 && salt[39 - i])
  }

  // ---- The cipher function ----

  /** The expansion: six bits for every four, overlapping on both sides. */
  function Expansion(r: Word): (e: seq<bool>)
    ensures |e| == 48
  {
    seq(48, i requires 0 <= i < 48 => r[(4 * (i / 6) + i % 6 + 31) % 32])
  }

  /** Where the salt has a bit, the two halves of the expansion are exchanged. */
  function Salted(e: seq<bool>, saltbits: Word): (x: seq<bool>)
    requires |e| == 48
    ensures |x| == 48
  {
    seq(48, i requires 0 <= i < 48 => if saltbits[8 + i % 24] then e[(i + 24) % 48] else e[i])
  }

  function KeyBits(k: Subkey): (b: seq<bool>)
    ensures |b| == 48
  {
    k.l[8..] + k.r[8..]
  }

  function Mixed(x: seq<bool>, k: Subkey): (y: seq<bool>)
    requires |x| == 48
    ensures |y| == 48
  {
    seq(48, i requires 0 <= i < 48 => x[i] != KeyBits(k)[i])
  }

  /** S-box lookup: the outer bits choose the row, the inner four the column. */
  function Substitute(boxes: Boxes, box: nat, c: seq<bool>): Nibble
    requires |c| == 6
  {
    Entry(boxes, box, 16 * Value([c[0], c[5]]) + Value(c[1..5]))
  }

  function Substitution(boxes: Boxes, x: seq<bool>): (y: seq<bool>)
    requires |x| == 48
    ensures |y| == 32
  {
    seq(32, p requires 0 <= p < 32 => BitAt(Substitute(boxes, p / 4, x[6 * (p / 4)..6 * (p / 4) + 6]), 4, p % 4))
  }

  function PFrom(): (f: seq<nat>)
    ensures |f| == 32 && forall o :: 0 <= o < 32 ==> f[o] == At(PBOX_ROWS, o) - 1 && f[o] < 32
  {
    PboxInjection();
    Sources(Pbox(), 0, 32)
  }

  function CipherFunction(r: Word, k: Subkey, saltbits: Word): Word {
    Select(Substitution(Sboxes(), Mixed(Salted(Expansion(r), saltbits), k)), PFrom())
  }

  type RoundFunction = (Word, Subkey) -> Word

  /** The cipher function under one salt. */
  function Salting(saltbits: Word): RoundFunction {
    (r: Word, k: Subkey) => CipherFunction(r, k, saltbits)
  }

  // ---- Rounds, for any round function ----

  function Round(b: Block, k: Subkey, f: RoundFunction): Block {
    Block(b.r, Xor(f(b.r, k), b.l))
  }

  function Rounds(b: Block, ks: seq<Subkey>, f: RoundFunction): Block {
    if |ks| == 0 then b else Round(Rounds(b, ks[..|ks| - 1], f), ks[|ks| - 1], f)
  }

  function Swap(b: Block): Block {
    Block(b.r, b.l)
  }

  /** All the rounds, then the exchange of the halves, n times over. */
  function Passes(b: Block, ks: seq<Subkey>, f: RoundFunction, n: nat): Block {
    if n == 0 then b else Swap(Rounds(Passes(b, ks, f, n - 1), ks, f))
  }

  /** What the engine computes: n passes between the two permutations. */
  function Cipher(b: Block, ks: seq<Subkey>, f: RoundFunction, n: nat): Block {
    FinalPermutation(Passes(InitialPermutation(b), ks, f, n))
  }

  function Reversed(ks: seq<Subkey>): (rs: seq<Subkey>)
    ensures |rs| == |ks| && forall i :: 0 <= i < |ks| ==> rs[i] == ks[|ks| - 1 - i]
  {
    if |ks| == 0 then [] else [ks[|ks| - 1]] + Reversed(ks[..|ks| - 1])
  }

  lemma RoundUndone(b: Block, k: Subkey, f: RoundFunction)
    ensures Round(Swap(Round(b, k, f)), k, f) == Swap(b)
  {
    var w := f(b.r, k);
    assert Xor(w, Xor(w, b.l)) == b.l;
  }

  /** Running the rounds on after a first one. */
  lemma {:induction false} RoundsFrom(b: Block, k: Subkey, ks: seq<Subkey>, f: RoundFunction)
    ensures Rounds(b, [k] + ks, f) == Rounds(Round(b, k, f), ks, f)
  {
    var all := [k] + ks;
    if |ks| == 0 {
      assert all[..0] == [];
      assert Rounds(b, all[..0], f) == b;
    } else {
      var n := |ks| - 1;
      assert all[..n + 1] == [k] + ks[..n] && all[n + 1] == ks[n];
      RoundsFrom(b, k, ks[..n], f);
    }
  }

  lemma {:induction false} RoundsUndone(b: Block, ks: seq<Subkey>, f: RoundFunction)
    ensures Rounds(Swap(Rounds(b, ks, f)), Reversed(ks), f) == Swap(b)
  {
    if |ks| > 0 {
      var k, front := ks[|ks| - 1], ks[..|ks| - 1];
      var c := Rounds(b, front, f);
      RoundsFrom(Swap(Round(c, k, f)), k, Reversed(front), f);
      RoundUndone(c, k, f);
      RoundsUndone(b, front, f);
    }
  }

  lemma {:induction false} PassesFrom(b: Block, ks: seq<Subkey>, f: RoundFunction, n: nat)
    ensures Passes(b, ks, f, n + 1) == Passes(Passes(b, ks, f, 1), ks, f, n)
  {
    if n > 0 {
      PassesFrom(b, ks, f, n - 1);
    }
  }

  lemma {:induction false} PassesUndone(b: Block, ks: seq<Subkey>, f: RoundFunction, n: nat)
    ensures Passes(Passes(b, ks, f, n), Reversed(ks), f, n) == b
  {
    if n > 0 {
      var c := Passes(b, ks, f, n - 1);
      var d := Swap(Rounds(c, ks, f));
      assert d == Passes(b, ks, f, n);
      PassesFrom(d, Reversed(ks), f, n - 1);
      assert Passes(d, Reversed(ks), f, 1) == c by {
        assert Passes(d, Reversed(ks), f, 0) == d;
        RoundsUndone(c, ks, f);
      }
      PassesUndone(b, ks, f, n - 1);
    }
  }

  /** Deciphering n times with the subkeys reversed undoes enciphering n times, for every block. */
  lemma CipherUndone(b: Block, ks: seq<Subkey>, f: RoundFunction, n: nat)
    ensures Cipher(Cipher(b, ks, f, n), Reversed(ks), f, n) == b
  {
    var c := Passes(InitialPermutation(b), ks, f, n);
    InitialUndoesFinal(c);
    PassesUndone(InitialPermutation(b), ks, f, n);
    FinalUndoesInitial(b);
  }

  lemma {:induction false} ReversedTwice(ks: seq<Subkey>)
    ensures Reversed(Reversed(ks)) == ks
  {
    var rr := Reversed(Reversed(ks));
    forall i | 0 <= i < |ks|
      ensures rr[i] == ks[i]
    {
      assert Reversed(ks)[|ks| - 1 - i] == ks[i];
    }
  }

  /** And enciphering undoes deciphering. */
  lemma DecipherUndone(b: Block, ks: seq<Subkey>, f: RoundFunction, n: nat)
    ensures Cipher(Cipher(b, Reversed(ks), f, n), ks, f, n) == b
  {
    ReversedTwice(ks);
    CipherUndone(b, Reversed(ks), f, n);
  }
}
