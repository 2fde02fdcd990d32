/**
 * The constant tables of the DES engine of src/crypt.c, written in rows of eight,
 * and the proof that each permutation table names every position at most once.
 */
module DesTables {
  type Nibble = n: nat | n < 16

  // Initial permutation, key permutation, key compression and P-box, numbered from 1.
  const IP_ROWS: seq<seq<nat>> := [
    [58, 50, 42, 34, 26, 18, 10, 2],
    [60, 52, 44, 36, 28, 20, 12, 4],
    [62, 54, 46, 38, 30, 22, 14, 6],
    [64, 56, 48, 40, 32, 24, 16, 8],
    [57, 49, 41, 33, 25, 17, 9, 1],
    [59, 51, 43, 35, 27, 19, 11, 3],
    [61, 53, 45, 37, 29, 21, 13, 5],
    [63, 55, 47, 39, 31, 23, 15, 7]
  ]

  const KEY_ROWS: seq<seq<nat>> := [
    [57, 49, 41, 33, 25, 17, 9, 1],
    [58, 50, 42, 34, 26, 18, 10, 2],
    [59, 51, 43, 35, 27, 19, 11, 3],
    [60, 52, 44, 36, 63, 55, 47, 39],
    [31, 23, 15, 7, 62, 54, 46, 38],
    [30, 22, 14, 6, 61, 53, 45, 37],
    [29, 21, 13, 5, 28, 20, 12, 4]
  ]

  const COMP_ROWS: seq<seq<nat>> := [
    [14, 17, 11, 24, 1, 5, 3, 28],
    [15, 6, 21, 10, 23, 19, 12, 4],
    [26, 8, 16, 7, 27, 20, 13, 2],
    [41, 52, 31, 37, 47, 55, 30, 40],
    [51, 45, 33, 48, 44, 49, 39, 56],
    [34, 53, 46, 42, 50, 36, 29, 32]
  ]

  const PBOX_ROWS: seq<seq<nat>> := [
    [16, 7, 20, 21, 29, 12, 28, 17],
    [1, 15, 23, 26, 5, 18, 31, 10],
    [2, 8, 24, 14, 32, 27, 3, 9],
    [19, 13, 30, 6, 22, 11, 4, 25]
  ]

  // Where each position is named, numbered from 0; 0 also stands for positions never named.
  const IP_BACK: seq<seq<nat>> := [
    [39, 7, 47, 15, 55, 23, 63, 31],
    [38, 6, 46, 14, 54, 22, 62, 30],
    [37, 5, 45, 13, 53, 21, 61, 29],
    [36, 4, 44, 12, 52, 20, 60, 28],
    [35, 3, 43, 11, 51, 19, 59, 27],
    [34, 2, 42, 10, 50, 18, 58, 26],
    [33, 1, 41, 9, 49, 17, 57, 25],
    [32, 0, 40, 8, 48, 16, 56, 24]
  ]

  const KEY_BACK: seq<seq<nat>> := [
    [7, 15, 23, 55, 51, 43, 35, 0],
    [6, 14, 22, 54, 50, 42, 34, 0],
    [5, 13, 21, 53, 49, 41, 33, 0],
    [4, 12, 20, 52, 48, 40, 32, 0],
    [3, 11, 19, 27, 47, 39, 31, 0],
    [2, 10, 18, 26, 46, 38, 30, 0],
    [1, 9, 17, 25, 45, 37, 29, 0],
    [0, 8, 16, 24, 44, 36, 28, 0]
  ]

  const COMP_BACK: seq<seq<nat>> := [
    [4, 23, 6, 15, 5, 9, 19, 17],
    [0, 11, 2, 14, 22, 0, 8, 18],
    [1, 0, 13, 21, 10, 0, 12, 3],
    [0, 16, 20, 7, 46, 30, 26, 47],
    [34, 40, 0, 45, 27, 0, 38, 31],
    [24, 43, 0, 36, 33, 42, 28, 35],
    [37, 44, 32, 25, 41, 0, 29, 39]
  ]

  const PBOX_BACK: seq<seq<nat>> := [
    [8, 16, 22, 30, 12, 27, 1, 17],
    [23, 15, 29, 5, 25, 19, 9, 0],
    [7, 13, 24, 2, 3, 28, 10, 18],
    [31, 11, 21, 6, 4, 26, 14, 20]
  ]

  const SHIFT_ROWS: seq<seq<nat>> := [
    [1, 1, 2, 2, 2, 2, 2, 2],
    [1, 2, 2, 2, 2, 2, 2, 1]
  ]

  const S1: seq<seq<Nibble>> := [
    [14, 4, 13, 1, 2, 15, 11, 8],
    [3, 10, 6, 12, 5, 9, 0, 7],
    [0, 15, 7, 4, 14, 2, 13, 1],
    [10, 6, 12, 11, 9, 5, 3, 8],
    [4, 1, 14, 8, 13, 6, 2, 11],
    [15, 12, 9, 7, 3, 10, 5, 0],
    [15, 12, 8, 2, 4, 9, 1, 7],
    [5, 11, 3, 14, 10, 0, 6, 13]
  ]

  const S2: seq<seq<Nibble>> := [
    [15, 1, 8, 14, 6, 11, 3, 4],
    [9, 7, 2, 13, 12, 0, 5, 10],
    [3, 13, 4, 7, 15, 2, 8, 14],
    [12, 0, 1, 10, 6, 9, 11, 5],
    [0, 14, 7, 11, 10, 4, 13, 1],
    [5, 8, 12, 6, 9, 3, 2, 15],
    [13, 8, 10, 1, 3, 15, 4, 2],
    [11, 6, 7, 12, 0, 5, 14, 9]
  ]

  const S3: seq<seq<Nibble>> := [
    [10, 0, 9, 14, 6, 3, 15, 5],
    [1, 13, 12, 7, 11, 4, 2, 8],
    [13, 7, 0, 9, 3, 4, 6, 10],
    [2, 8, 5, 14, 12, 11, 15, 1],
    [13, 6, 4, 9, 8, 15, 3, 0],
    [11, 1, 2, 12, 5, 10, 14, 7],
    [1, 10, 13, 0, 6, 9, 8, 7],
    [4, 15, 14, 3, 11, 5, 2, 12]
  ]

  const S4: seq<seq<Nibble>> := [
    [7, 13, 14, 3, 0, 6, 9, 10],
    [1, 2, 8, 5, 11, 12, 4, 15],
    [13, 8, 11, 5, 6, 15, 0, 3],
    [4, 7, 2, 12, 1, 10, 14, 9],
    [10, 6, 9, 0, 12, 11, 7, 13],
    [15, 1, 3, 14, 5, 2, 8, 4],
    [3, 15, 0, 6, 10, 1, 13, 8],
    [9, 4, 5, 11, 12, 7, 2, 14]
  ]

  const S5: seq<seq<Nibble>> := [
    [2, 12, 4, 1, 7, 10, 11, 6],
    [8, 5, 3, 15, 13, 0, 14, 9],
    [14, 11, 2, 12, 4, 7, 13, 1],
    [5, 0, 15, 10, 3, 9, 8, 6],
    [4, 2, 1, 11, 10, 13, 7, 8],
    [15, 9, 12, 5, 6, 3, 0, 14],
    [11, 8, 12, 7, 1, 14, 2, 13],
    [6, 15, 0, 9, 10, 4, 5, 3]
  ]

  const S6: seq<seq<Nibble>> := [
    [12, 1, 10, 15, 9, 2, 6, 8],
    [0, 13, 3, 4, 14, 7, 5, 11],
    [10, 15, 4, 2, 7, 12, 9, 5],
    [6, 1, 13, 14, 0, 11, 3, 8],
    [9, 14, 15, 5, 2, 8, 12, 3],
    [7, 0, 4, 10, 1, 13, 11, 6],
    [4, 3, 2, 12, 9, 5, 15, 10],
    [11, 14, 1, 7, 6, 0, 8, 13]
  ]

  const S7: seq<seq<Nibble>> := [
    [4, 11, 2, 14, 15, 0, 8, 13],
    [3, 12, 9, 7, 5, 10, 6, 1],
    [13, 0, 11, 7, 4, 9, 1, 10],
    [14, 3, 5, 12, 2, 15, 8, 6],
    [1, 4, 11, 13, 12, 3, 7, 14],
    [10, 15, 6, 8, 0, 5, 9, 2],
    [6, 11, 13, 8, 1, 4, 10, 7],
    [9, 5, 0, 15, 14, 2, 3, 12]
  ]

  const S8: seq<seq<Nibble>> := [
    [13, 2, 8, 4, 6, 15, 11, 1],
    [10, 9, 3, 14, 5, 0, 12, 7],
    [1, 15, 13, 8, 10, 3, 7, 4],
    [12, 5, 6, 11, 0, 14, 9, 2],
    [7, 11, 4, 1, 9, 12, 14, 2],
    [0, 6, 10, 13, 15, 3, 5, 8],
    [2, 1, 14, 7, 4, 10, 8, 13],
    [15, 12, 9, 0, 3, 5, 6, 11]
  ]

  function At(rows: seq<seq<nat>>, i: nat): nat {
    if i / 8 < |rows| && i % 8 < |rows[i / 8]| then rows[i / 8][i % 8] else 0
  }

  function Flat(rows: seq<seq<nat>>, n: nat): (t: seq<nat>)
    ensures |t| == n && forall i :: 0 <= i < n ==> t[i] == At(rows, i)
  {
    seq(n, i requires 0 <= i < n => At(rows, i))
  }

  function Ip(): seq<nat> { Flat(IP_ROWS, 64) }
  function KeyPerm(): seq<nat> { Flat(KEY_ROWS, 56) }
  function CompPerm(): seq<nat> { Flat(COMP_ROWS, 48) }
  function Pbox(): seq<nat> { Flat(PBOX_ROWS, 32) }

  /** The eight S-boxes, numbered as in the source: sixteen entries to a row. */
  type Boxes = seq<seq<Nibble>>

  function Entry(boxes: Boxes, box: nat, i: nat): Nibble {
    if box < |boxes| && i < |boxes[box]| then boxes[box][i] else 0
  }

  function FlatBox(rows: seq<seq<Nibble>>): (t: seq<Nibble>)
    ensures |t| == 64
  {
    seq(64, i requires 0 <= i < 64 => if i / 8 < |rows| && i % 8 < |rows[i / 8]| then rows[i / 8][i % 8] else 0)
  }

  function Sboxes(): (boxes: Boxes)
    ensures |boxes| == 8 && forall b :: 0 <= b < 8 ==> |boxes[b]| == 64
  {
    [FlatBox(S1), FlatBox(S2), FlatBox(S3), FlatBox(S4), FlatBox(S5), FlatBox(S6), FlatBox(S7), FlatBox(S8)]
  }

  /** Every entry of the table names a position in 1..m, and no two the same. */
  predicate Injection(t: seq<nat>, m: nat) {
    (forall i :: 0 <= i < |t| ==> 1 <= t[i] <= m) &&
    forall i, j :: 0 <= i < |t| && 0 <= j < |t| && t[i] == t[j] ==> i == j
  }

  predicate Undone(rows: seq<seq<nat>>, back: seq<seq<nat>>, m: nat, i: nat) {
    1 <= At(rows, i) <= m && At(back, At(rows, i) - 1) == i
  }

  lemma InjectionFrom(rows: seq<seq<nat>>, back: seq<seq<nat>>, n: nat, m: nat)
    requires forall i: nat :: i < n ==> Undone(rows, back, m, i)
    ensures Injection(Flat(rows, n), m)
  {
    var t := Flat(rows, n);
    forall i, j | 0 <= i < n && 0 <= j < n && t[i] == t[j]
      ensures i == j
    {
      assert Undone(rows, back, m, i) && Undone(rows, back, m, j);
    }
    forall i | 0 <= i < n
      ensures 1 <= t[i] <= m
    {
      assert Undone(rows, back, m, i);
    }
  }

  lemma IpUndone0(i: nat)
    requires 0 <= i < 16
    ensures Undone(IP_ROWS, IP_BACK, 64, i)
  {
  }

  lemma IpUndone1(i: nat)
    requires 16 <= i < 32
    ensures Undone(IP_ROWS, IP_BACK, 64, i)
  {
  }

  lemma IpUndone2(i: nat)
    requires 32 <= i < 48
    ensures Undone(IP_ROWS, IP_BACK, 64, i)
  {
  }

  lemma IpUndone3(i: nat)
    requires 48 <= i < 64
    ensures Undone(IP_ROWS, IP_BACK, 64, i)
  {
  }

  lemma IpInjection()
    ensures Injection(Ip(), 64)
  {
    forall i: nat | i < 64
      ensures Undone(IP_ROWS, IP_BACK, 64, i)
    {
      IpUndone(i);
    }
    InjectionFrom(IP_ROWS, IP_BACK, 64, 64);
  }

  lemma KeyPermUndone0(i: nat)
    requires 0 <= i < 14
    ensures Undone(KEY_ROWS, KEY_BACK, 64, i)
  {
  }

  lemma KeyPermUndone1(i: nat)
    requires 14 <= i < 28
    ensures Undone(KEY_ROWS, KEY_BACK, 64, i)
  {
  }

  lemma KeyPermUndone2(i: nat)
    requires 28 <= i < 42
    ensures Undone(KEY_ROWS, KEY_BACK, 64, i)
  {
  }

  lemma KeyPermUndone3(i: nat)
    requires 42 <= i < 56
    ensures Undone(KEY_ROWS, KEY_BACK, 64, i)
  {
  }

  lemma KeyPermInjection()
    ensures Injection(KeyPerm(), 64)
  {
    forall i: nat | i < 56
      ensures Undone(KEY_ROWS, KEY_BACK, 64, i)
    {
      if i < 14 {
        KeyPermUndone0(i);
      } else if i < 28 {
        KeyPermUndone1(i);
      } else if i < 42 {
        KeyPermUndone2(i);
      } else {
        KeyPermUndone3(i);
      }
    }
    InjectionFrom(KEY_ROWS, KEY_BACK, 56, 64);
  }

  lemma CompPermUndone0(i: nat)
    requires 0 <= i < 16
    ensures Undone(COMP_ROWS, COMP_BACK, 56, i)
  {
  }

  lemma CompPermUndone1(i: nat)
    requires 16 <= i < 32
    ensures Undone(COMP_ROWS, COMP_BACK, 56, i)
  {
  }

  lemma CompPermUndone2(i: nat)
    requires 32 <= i < 48
    ensures Undone(COMP_ROWS, COMP_BACK, 56, i)
  {
  }

  lemma CompPermInjection()
    ensures Injection(CompPerm(), 56)
  {
    forall i: nat | i < 48
      ensures Undone(COMP_ROWS, COMP_BACK, 56, i)
    {
      if i < 16 {
        CompPermUndone0(i);
      } else if i < 32 {
        CompPermUndone1(i);
      } else {
        CompPermUndone2(i);
      }
    }
    InjectionFrom(COMP_ROWS, COMP_BACK, 48, 56);
  }

  lemma PboxUndone0(i: nat)
    requires 0 <= i < 16
    ensures Undone(PBOX_ROWS, PBOX_BACK, 32, i)
  {
  }

  lemma PboxUndone1(i: nat)
    requires 16 <= i < 32
    ensures Undone(PBOX_ROWS, PBOX_BACK, 32, i)
  {
  }

  lemma PboxInjection()
    ensures Injection(Pbox(), 32)
  {
    forall i: nat | i < 32
      ensures Undone(PBOX_ROWS, PBOX_BACK, 32, i)
    {
      if i < 16 {
        PboxUndone0(i);
      } else {
        PboxUndone1(i);
      }
    }
    InjectionFrom(PBOX_ROWS, PBOX_BACK, 32, 32);
  }

  lemma IpNamed0(p: nat)
    requires 0 <= p < 16
    ensures At(IP_BACK, p) < 64 && At(IP_ROWS, At(IP_BACK, p)) == p + 1
  {
  }

  lemma IpNamed1(p: nat)
    requires 16 <= p < 32
    ensures At(IP_BACK, p) < 64 && At(IP_ROWS, At(IP_BACK, p)) == p + 1
  {
  }

  lemma IpNamed2(p: nat)
    requires 32 <= p < 48
    ensures At(IP_BACK, p) < 64 && At(IP_ROWS, At(IP_BACK, p)) == p + 1
  {
  }

  lemma IpNamed3(p: nat)
    requires 48 <= p < 64
    ensures At(IP_BACK, p) < 64 && At(IP_ROWS, At(IP_BACK, p)) == p + 1
  {
  }

  /** IP_BACK is the inverse of the initial permutation on the other side as well. */
  lemma IpNamed(p: nat)
    requires p < 64
    ensures At(IP_BACK, p) < 64 && At(IP_ROWS, At(IP_BACK, p)) == p + 1
  {
    if p < 16 {
      IpNamed0(p);
    } else if p < 32 {
      IpNamed1(p);
    } else if p < 48 {
      IpNamed2(p);
    } else {
      IpNamed3(p);
    }
  }

  lemma IpUndone(i: nat)
    requires i < 64
    ensures Undone(IP_ROWS, IP_BACK, 64, i)
  {
    if i < 16 {
      IpUndone0(i);
    } else if i < 32 {
      IpUndone1(i);
    } else if i < 48 {
      IpUndone2(i);
    } else {
      IpUndone3(i);
    }
  }

  /** The key permutation never reads a parity bit. */
  lemma KeyParity(i: nat)
    requires i < 56
    ensures At(KEY_ROWS, i) % 8 != 0
  {
  }
}
