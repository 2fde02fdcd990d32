/**
 * The OR-mask tables of src/crypt.c: a permutation of the bits of a block is
 * carried out by cutting the block into small chunks, looking each chunk up in a
 * table of masks and combining the masks. Compile fills such a table with the
 * source's loops and proves that the lookups carry out the permutation exactly,
 * for every block.
 */
module Masks {
  import opened Words

  /** A block of `width` bits cut into `count` chunks of `n` bits, one every `stride` bits. */
  datatype Shape = Shape(width: nat, stride: nat, n: nat, count: nat) {
    predicate Room(k: nat) {
      0 <= stride * k && stride * k + n <= width
    }

    predicate Valid() {
      n <= stride && stride > 0 && forall k: nat :: k < count ==> Room(k)
    }

    /** Position p of the block lies inside one of the chunks. */
    predicate Inside(p: nat)
      requires stride > 0
    {
      p < width && p / stride < count && p % stride < n
    }
  }

  function Piece<T>(s: seq<T>, shape: Shape, k: nat): (c: seq<T>)
    requires shape.Valid() && |s| == shape.width && k < shape.count
    ensures |c| == shape.n
  {
    assert shape.Room(k);
    s[shape.stride * k..shape.stride * k + shape.n]
  }

  function Cut<T>(s: seq<T>, shape: Shape): (chunks: seq<seq<T>>)
    requires shape.Valid() && |s| == shape.width
    ensures |chunks| == shape.count
    ensures forall k :: 0 <= k < shape.count ==> |chunks[k]| == shape.n
  {
    seq(shape.count, k requires 0 <= k < shape.count => Piece(s, shape, k))
  }

  /** Some chunk bit among the first `upto` is set and is sent to bit o. */
  predicate Hit(places: seq<int>, i: nat, o: int, upto: nat)
    requires upto <= |places|
  {
    exists j :: 0 <= j < upto && places[j] == o && BitAt(i, |places|, j)
  }

  ghost predicate IsMask(mask: Word, places: seq<int>, i: nat) {
    forall o :: 0 <= o < 32 ==> mask[o] == Hit(places, i, o, |places|)
  }

  ghost predicate IsRow(row: seq<Word>, places: seq<int>) {
    |row| == Pow2(|places|) && forall i :: 0 <= i < |row| ==> IsMask(row[i], places, i)
  }

  predicate InWord(places: seq<int>) {
    forall j :: 0 <= j < |places| ==> -1 <= places[j] < 32
  }

  /** The inner loop over the bits of one table index; -1 marks a dropped bit. */
  method MaskFor(places: seq<int>, i: nat) returns (mask: Word)
    requires InWord(places)
    ensures IsMask(mask, places, i)
  {
    mask := Zero();
    for j := 0 to |places|
      invariant forall o :: 0 <= o < 32 ==> mask[o] == Hit(places, i, o, j)
    {
      var before := mask;
      if BitAt(i, |places|, j) && places[j] != -1 {
        mask := Or(mask, Single(places[j]));
      }
      forall o | 0 <= o < 32
        ensures mask[o] == Hit(places, i, o, j + 1)
      {
        assert before[o] == Hit(places, i, o, j);
        if places[j] == o && BitAt(i, |places|, j) {
          assert Hit(places, i, o, j + 1);
        }
      }
    }
  }

  method MaskRow(places: seq<int>) returns (row: seq<Word>)
    requires InWord(places)
    ensures IsRow(row, places)
  {
    row := [];
    for i := 0 to Pow2(|places|)
      invariant |row| == i
      invariant forall x :: 0 <= x < i ==> IsMask(row[x], places, x)
    {
      var mask := MaskFor(places, i);
      row := row + [mask];
    }
  }

  /** One mask per chunk, combined. */
  function Lookup(table: seq<seq<Word>>, chunks: seq<seq<bool>>): Word
    requires |table| == |chunks|
    requires forall k :: 0 <= k < |chunks| ==> |table[k]| == Pow2(|chunks[k]|)
  {
    if |chunks| == 0 then Zero()
    else Or(Lookup(table[..|chunks| - 1], chunks[..|chunks| - 1]), table[|chunks| - 1][Value(chunks[|chunks| - 1])])
  }

  ghost predicate IsTable(table: seq<seq<Word>>, places: seq<seq<int>>) {
    |table| == |places| && forall k :: 0 <= k < |places| ==> IsRow(table[k], places[k])
  }

  predicate Fits(places: seq<seq<int>>, chunks: seq<seq<bool>>) {
    |places| == |chunks| && forall k :: 0 <= k < |chunks| ==> |places[k]| == |chunks[k]|
  }

  predicate Feeds(places: seq<seq<int>>, chunks: seq<seq<bool>>, o: int, k: nat, j: nat)
    requires Fits(places, chunks)
  {
    k < |chunks| && j < |chunks[k]| && places[k][j] == o && chunks[k][j]
  }

  lemma RowBit(row: seq<Word>, places: seq<int>, chunk: seq<bool>, o: nat)
    requires IsRow(row, places) && |places| == |chunk| && o < 32
    ensures row[Value(chunk)][o] <==> exists j :: 0 <= j < |chunk| && places[j] == o && chunk[j]
  {
    var i := Value(chunk);
    assert IsMask(row[i], places, i);
    forall j | 0 <= j < |chunk|
      ensures BitAt(i, |places|, j) == chunk[j]
    {
      BitOfValue(chunk, j);
    }
  }

  lemma {:induction false} LookupBit(table: seq<seq<Word>>, places: seq<seq<int>>, chunks: seq<seq<bool>>, o: nat)
    requires IsTable(table, places) && Fits(places, chunks) && o < 32
    ensures Lookup(table, chunks)[o] <==> exists k: nat, j: nat :: Feeds(places, chunks, o, k, j)
  {
    if |chunks| > 0 {
      var m := |chunks| - 1;
      var ps, cs := places[..m], chunks[..m];
      LookupBit(table[..m], ps, cs, o);
      RowBit(table[m], places[m], chunks[m], o);
      assert forall k: nat, j: nat :: Feeds(ps, cs, o, k, j) ==> Feeds(places, chunks, o, k, j);
      assert forall k: nat, j: nat :: Feeds(places, chunks, o, k, j) && k != m ==> Feeds(ps, cs, o, k, j);
      if j :| 0 <= j < |chunks[m]| && places[m][j] == o && chunks[m][j] {
        assert Feeds(places, chunks, o, m, j);
      }
    }
  }

  /** The block's bits from[0], from[1], ... moved to the low end of a word. */
  function Select(bits: seq<bool>, from: seq<nat>): Word
    requires |from| <= 32
    requires forall o :: 0 <= o < |from| ==> from[o] < |bits|
  {
    seq(32, i requires 0 <= i < 32 => i >= 32 - |from| && bits[from[i - (32 - |from|)]])
  }

  predicate Covered(from: seq<nat>, shape: Shape) {
    |from| <= 32 && shape.stride > 0 &&
    forall o :: 0 <= o < |from| ==> shape.Inside(from[o])
  }

  /** The tables carry out the selection on every block. */
  ghost predicate Computes(table: seq<seq<Word>>, shape: Shape, from: seq<nat>) {
    shape.Valid() && Covered(from, shape) && |table| == shape.count &&
    (forall k :: 0 <= k < shape.count ==> |table[k]| == Pow2(shape.n)) &&
    forall bits: seq<bool> :: Agrees(table, shape, from, bits)
  }

  ghost predicate Agrees(table: seq<seq<Word>>, shape: Shape, from: seq<nat>, bits: seq<bool>)
    requires shape.Valid() && Covered(from, shape) && |table| == shape.count
    requires forall k :: 0 <= k < shape.count ==> |table[k]| == Pow2(shape.n)
  {
    |bits| == shape.width ==> Lookup(table, Cut(bits, shape)) == Select(bits, from)
  }

  /** Output bit o is fed by input bit from[o] and by no other; the rest is dropped. */
  predicate Routes(places: seq<int>, from: seq<nat>) {
    InWord(places) && |from| <= 32 &&
    (forall q :: 0 <= q < |places| ==> places[q] == -1 || places[q] >= 32 - |from|) &&
    forall q, o :: 0 <= q < |places| && 0 <= o < |from| ==> (places[q] == 32 - |from| + o <==> q == from[o])
  }

  lemma PieceAt<T>(s: seq<T>, shape: Shape, k: nat, j: nat) returns (q: nat)
    requires shape.Valid() && |s| == shape.width && k < shape.count && j < shape.n
    ensures q == shape.stride * k + j && q < |s| && Cut(s, shape)[k][j] == s[q]
  {
    assert shape.Room(k);
    q := shape.stride * k + j;
  }

  /** Whatever sets bit o of the lookup is an input bit sent to o. */
  lemma FeederBit(shape: Shape, places: seq<int>, bits: seq<bool>, o: nat, k: nat, j: nat) returns (q: nat)
    requires shape.Valid() && |places| == shape.width == |bits|
    requires Feeds(Cut(places, shape), Cut(bits, shape), o, k, j)
    ensures q < |bits| && places[q] == o && bits[q]
  {
    q := PieceAt(places, shape, k, j);
    var r := PieceAt(bits, shape, k, j);
  }

  lemma BitFeeds(shape: Shape, places: seq<int>, bits: seq<bool>, o: nat, q: nat)
    requires shape.Valid() && |places| == shape.width == |bits|
    requires shape.Inside(q) && places[q] == o && bits[q]
    ensures Feeds(Cut(places, shape), Cut(bits, shape), o, q / shape.stride, q % shape.stride)
  {
    hide Cut;
    var k, j := q / shape.stride, q % shape.stride;
    assert q == shape.stride * k + j;
    var r := PieceAt(places, shape, k, j);
    var t := PieceAt(bits, shape, k, j);
  }

  lemma FedBySelected(shape: Shape, places: seq<int>, from: seq<nat>, bits: seq<bool>, o: nat)
    requires shape.Valid() && Covered(from, shape) && |places| == shape.width == |bits| && Routes(places, from)
    requires o < 32
    ensures Select(bits, from)[o] <==> exists k: nat, j: nat :: Feeds(Cut(places, shape), Cut(bits, shape), o, k, j)
  {
    hide Cut;
    var base := 32 - |from|;
    if k: nat, j: nat :| Feeds(Cut(places, shape), Cut(bits, shape), o, k, j) {
      var q := FeederBit(shape, places, bits, o, k, j);
      assert q == from[o - base];
    }
    if Select(bits, from)[o] {
      var q := from[o - base];
      assert places[q] == o && shape.Inside(q);
      BitFeeds(shape, places, bits, o, q);
    }
  }

  lemma RoutedBit(table: seq<seq<Word>>, shape: Shape, places: seq<int>, from: seq<nat>, bits: seq<bool>, o: nat)
    requires shape.Valid() && Covered(from, shape) && |places| == shape.width == |bits| && Routes(places, from)
    requires IsTable(table, Cut(places, shape)) && o < 32
    ensures Lookup(table, Cut(bits, shape))[o] == Select(bits, from)[o]
  {
    LookupBit(table, Cut(places, shape), Cut(bits, shape), o);
    FedBySelected(shape, places, from, bits, o);
  }

  /** The table-filling loops of des_init for one permutation. */
  method Compile(places: seq<int>, shape: Shape, ghost from: seq<nat>) returns (table: seq<seq<Word>>)
    requires shape.Valid() && Covered(from, shape) && |places| == shape.width && Routes(places, from)
    ensures Computes(table, shape, from)
  {
    var pieces := Cut(places, shape);
    table := [];
    for k := 0 to shape.count
      invariant |table| == k
      invariant forall x :: 0 <= x < k ==> IsRow(table[x], pieces[x])
    {
      forall j | 0 <= j < |pieces[k]|
        ensures -1 <= pieces[k][j] < 32
      {
        var q := PieceAt(places, shape, k, j);
      }
      var row := MaskRow(pieces[k]);
      table := table + [row];
    }
    forall bits: seq<bool>
      ensures Agrees(table, shape, from, bits)
    {
      if |bits| == shape.width {
        forall o | 0 <= o < 32
          ensures Lookup(table, Cut(bits, shape))[o] == Select(bits, from)[o]
        {
          RoutedBit(table, shape, places, from, bits, o);
        }
      }
    }
  }
}
