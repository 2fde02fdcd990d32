/**
 * The open-addressed hash table of src/search_hash.c, proved to agree with a map
 * in every run. The key and used arrays of the source are one array of slots.
 */
module Hash {
  import opened Bytes
  import opened Tally

  const WORD: nat := 0x1_0000_0000_0000_0000

  datatype Entry = Entry(key: string, data: int)

  datatype Slot = Free | Used(entry: Entry)

  datatype Option<T> = None | Some(value: T)

  /** hash_str: djb2 in 64-bit arithmetic. */
  function HashFrom(s: string, h: nat): (r: nat)
    requires h < WORD
    ensures r < WORD
  {
    if |s| == 0 then h else HashFrom(s[1..], (h * 33 + s[0] as int) % WORD)
  }

  function HashStr(s: string): (r: nat)
    ensures r < WORD
  {
    HashFrom(s, 5381)
  }

  /** The loop of hash_str. */
  method HashOf(s: string) returns (h: nat)
    ensures h == HashStr(s)
  {
    h := 5381;
    assert s[0..] == s;
    for i := 0 to |s|
      invariant h < WORD && HashFrom(s[i..], h) == HashStr(s)
    {
      assert s[i..][1..] == s[i + 1..];
      h := (h * 33 + s[i] as int) % WORD;
    }
  }

  /** The slot looked at in turn i; the sum is a 64-bit word. */
  function Probe(h: nat, i: nat, size: nat): (idx: nat)
    requires size > 0
    ensures idx < size
  {
    (h + i) % WORD % size
  }

  // ---- When the probes reach every slot ----

  ghost predicate Reaches(h: nat, size: nat, s: nat)
    requires size > 0
  {
    exists i: nat :: i < size && Probe(h, i, size) == s
  }

  ghost predicate Covers(h: nat, size: nat)
    requires size > 0
  {
    forall s: nat :: s < size ==> Reaches(h, size, s)
  }

  lemma ModStep(a: nat, m: nat, d: nat)
    requires m > 0 && d < m
    ensures (a + d) % m == if a % m + d < m then a % m + d else a % m + d - m
  {
    var q, r := a / m, a % m;
    assert a == q * m + r;
    if r + d < m {
      ModUnique(a + d, m, q, r + d);
    } else {
      assert (q + 1) * m == q * m + m;
      ModUnique(a + d, m, q + 1, r + d - m);
    }
  }

  /** Without a wrap, or when the word size is a multiple of the table size, turn i looks at (h + i) mod size. */
  lemma ProbePlain(h: nat, i: nat, size: nat)
    requires size > 0 && h < WORD && i < size && (h + i < WORD || (WORD % size == 0 && size <= WORD))
    ensures Probe(h, i, size) == (h + i) % size
  {
    if h + i < WORD {
      assert (h + i) % WORD == h + i;
    } else {
      var w := h + i - WORD;
      ModUnique(h + i, WORD, 1, w);
      var q := WORD / size;
      assert WORD == q * size;
      var k, r := w / size, w % size;
      assert w == k * size + r;
      assert (q + k) * size == q * size + k * size;
      ModUnique(h + i, size, q + k, r);
    }
  }

  lemma CoversWhenPlain(h: nat, size: nat)
    requires size > 0 && h < WORD && (h + size <= WORD || (WORD % size == 0 && size <= WORD))
    ensures Covers(h, size)
  {
    forall s: nat | s < size
      ensures Reaches(h, size, s)
    {
      var r := h % size;
      var i: nat := if s >= r then s - r else s - r + size;
      ModStep(h, size, i);
      ProbePlain(h, i, size);
      assert Probe(h, i, size) == s;
    }
  }

  /** The slot the probes miss when the sum wraps in the middle. */
  function Missed(h: nat, size: nat): nat
    requires size > 0 && h < WORD < h + size
  {
    var w, c := WORD - h, WORD % size;
    if c + size - w - 1 < size then c + size - w - 1 else size - 1
  }

  lemma ModBefore(m: nat, d: nat)
    requires 0 < d < m <= WORD
    ensures (WORD - d) % m == if WORD % m >= d then WORD % m - d else WORD % m - d + m
  {
    var q, c := WORD / m, WORD % m;
    assert WORD == q * m + c;
    if c >= d {
      ModUnique(WORD - d, m, q, c - d);
    } else {
      assert q >= 1;
      assert (q - 1) * m == q * m - m;
      ModUnique(WORD - d, m, q - 1, c - d + m);
    }
  }

  lemma NeverProbed(h: nat, size: nat, i: nat)
    requires 0 < size <= WORD && h < WORD < h + size && WORD % size != 0 && i < size
    ensures Missed(h, size) < size && Probe(h, i, size) != Missed(h, size)
  {
    var w := WORD - h;
    if i < w {
      ModUnique(h + i, WORD, 0, h + i);
      ModBefore(size, w - i);
    } else {
      ModUnique(h + i, WORD, 1, i - w);
      ModUnique(i - w, size, 0, i - w);
    }
  }

  /** The probes reach every slot exactly when the sum does not wrap on the way or the size divides 2^64. */
  lemma CoversIff(h: nat, size: nat)
    requires 0 < size <= WORD && h < WORD
    ensures Covers(h, size) <==> h + size <= WORD || WORD % size == 0
  {
    if h + size <= WORD || WORD % size == 0 {
      CoversWhenPlain(h, size);
    } else {
      var s := Missed(h, size);
      NeverProbed(h, size, 0);
      assert !Reaches(h, size, s) by {
        forall i: nat | i < size
          ensures Probe(h, i, size) != s
        {
          NeverProbed(h, size, i);
        }
      }
    }
  }

  // ---- The table ----

  function Weight(s: Slot): nat {
    if s.Used? then 1 else 0
  }

  lemma {:induction false} UsedAtMost(s: seq<Slot>)
    ensures Total(s, Weight) <= |s|
  {
    if |s| > 0 {
      var n := |s| - 1;
      UsedAtMost(s[..n]);
      TotalAppend(s[..n], s[n], Weight);
      assert s[..n] + [s[n]] == s;
    }
  }

  /** A free slot means fewer items than slots. */
  lemma RoomLeft(s: seq<Slot>, idx: nat, e: Entry)
    requires idx < |s| && s[idx].Free?
    ensures Total(s, Weight) < |s|
  {
    TotalUpdate(s, idx, Used(e), Weight);
    UsedAtMost(s[idx := Used(e)]);
  }

  lemma {:induction false} AllUsed(s: seq<Slot>)
    requires forall i :: 0 <= i < |s| ==> s[i].Used?
    ensures Total(s, Weight) == |s|
  {
    if |s| > 0 {
      var n := |s| - 1;
      AllUsed(s[..n]);
      TotalAppend(s[..n], s[n], Weight);
      assert s[..n] + [s[n]] == s;
    }
  }

  /** Turn i looks at a used slot. */
  predicate Taken(s: seq<Slot>, h: nat, i: nat)
    requires |s| > 0
  {
    s[Probe(h, i, |s|)].Used?
  }

  /** Turn i is the first that looks at slot idx, and all before it look at used slots. */
  ghost predicate Arrives(s: seq<Slot>, h: nat, i: nat, idx: nat)
    requires |s| > 0
  {
    i < |s| && Probe(h, i, |s|) == idx && forall j: nat :: j < i ==> Taken(s, h, j)
  }

  ghost predicate Placed(s: seq<Slot>, idx: nat)
    requires idx < |s|
  {
    s[idx].Used? ==> exists i: nat :: Arrives(s, HashStr(s[idx].entry.key), i, idx)
  }

  ghost predicate Holds(s: seq<Slot>, idx: nat, key: string) {
    idx < |s| && s[idx].Used? && s[idx].entry.key == key
  }

  /** Probe order, one slot per key, and agreement with the map. */
  ghost predicate Good(s: seq<Slot>, entries: map<string, Entry>) {
    (forall idx: nat :: idx < |s| ==> Placed(s, idx)) &&
    (forall a: nat, b: nat, key: string :: Holds(s, a, key) && Holds(s, b, key) ==> a == b) &&
    (forall idx: nat, key: string :: Holds(s, idx, key) ==> key in entries && s[idx].entry == entries[key]) &&
    (forall key: string :: key in entries ==> exists idx: nat :: Holds(s, idx, key))
  }

  datatype Found = At(idx: nat) | Vacant(idx: nat) | Exhausted

  /** What the probing loop finds. */
  ghost predicate Located(s: seq<Slot>, key: string, f: Found) {
    match f
    case At(idx) => Holds(s, idx, key)
    case Vacant(idx) =>
      idx < |s| && s[idx].Free? && (exists i: nat :: Arrives(s, HashStr(key), i, idx)) && forall x: nat :: !Holds(s, x, key)
    case Exhausted =>
      (forall x: nat :: !Holds(s, x, key)) && (|s| > 0 ==> forall i: nat :: i < |s| ==> Taken(s, HashStr(key), i))
  }

  /** An entered key is found by the turn it arrived at. */
  lemma NotPast(s: seq<Slot>, entries: map<string, Entry>, key: string, i: nat, x: nat)
    requires Good(s, entries) && Holds(s, x, key)
    requires forall j: nat :: j < i ==> Probe(HashStr(key), j, |s|) != x
    ensures exists k: nat :: i <= k < |s| && Arrives(s, HashStr(key), k, x)
  {
    assert Placed(s, x);
    var k: nat :| Arrives(s, HashStr(s[x].entry.key), k, x);
  }

  /** The probing loop of hsearch. */
  method Locate(s: array<Slot>, key: string, ghost entries: map<string, Entry>) returns (f: Found)
    requires Good(s[..], entries)
    ensures Located(s[..], key, f)
  {
    ghost var slots := s[..];
    ghost var h := HashStr(key);
    var size := s.Length;
    var hash := HashOf(key);
    for i := 0 to size
      invariant forall j: nat :: j < i ==> Taken(slots, h, j) && !Holds(slots, Probe(h, j, size), key)
    {
      var idx := Probe(hash, i, size);
      if s[idx].Free? {
        assert Arrives(slots, h, i, idx) && !Taken(slots, h, i);
        forall x: nat
          ensures !Holds(slots, x, key)
        {
          if Holds(slots, x, key) {
            NotPast(slots, entries, key, i, x);
          }
        }
        return Vacant(idx);
      }
      assert Taken(slots, h, i);
      if s[idx].entry.key == key {
        return At(idx);
      }
    }
    forall x: nat
      ensures !Holds(slots, x, key)
    {
      if Holds(slots, x, key) {
        NotPast(slots, entries, key, size, x);
      }
    }
    f := Exhausted;
  }

  lemma ArrivesStill(s: seq<Slot>, t: seq<Slot>, h: nat, i: nat, idx: nat)
    requires |s| == |t| > 0 && Arrives(s, h, i, idx)
    requires forall x :: 0 <= x < |s| && s[x].Used? ==> t[x].Used?
    ensures Arrives(t, h, i, idx)
  {
    forall j: nat | j < i
      ensures Taken(t, h, j)
    {
      assert Taken(s, h, j);
    }
  }

  /** Filling the slot the loop stopped at keeps the table in order and adds exactly the new key. */
  lemma InsertKeepsGood(s: seq<Slot>, entries: map<string, Entry>, idx: nat, item: Entry)
    requires Good(s, entries) && Located(s, item.key, Vacant(idx))
    ensures item.key !in entries && Good(s[idx := Used(item)], entries[item.key := item])
  {
    var t, more := s[idx := Used(item)], entries[item.key := item];
    forall x: nat, key: string
      ensures Holds(t, x, key) <==> (x == idx && key == item.key) || Holds(s, x, key)
    {
    }
    forall x: nat | x < |t|
      ensures Placed(t, x)
    {
      assert Placed(s, x);
      if x == idx {
        var i: nat :| Arrives(s, HashStr(item.key), i, idx);
        ArrivesStill(s, t, HashStr(item.key), i, idx);
      } else if s[x].Used? {
        var i: nat :| Arrives(s, HashStr(s[x].entry.key), i, x);
        ArrivesStill(s, t, HashStr(s[x].entry.key), i, x);
      }
    }
    forall key: string | key in more
      ensures exists x: nat :: Holds(t, x, key)
    {
      if key == item.key {
        assert Holds(t, idx, key);
      } else {
        var x: nat :| Holds(s, x, key);
        assert Holds(t, x, key);
      }
    }
  }

  class Table {
    var slots: array?<Slot>
    var items: nat
    ghost var entries: map<string, Entry>

    ghost predicate Valid()
      reads this, slots
    {
      if slots == null then items == 0 && entries == map[]
      else items == Total(slots[..], Weight) && Good(slots[..], entries)
    }

    constructor ()
      ensures Valid() && slots == null
    {
      slots, items, entries := null, 0, map[];
    }

    /** hcreate; `memory` is whether both allocations succeed, and an empty allocation does not. */
    method Create(nel: nat, memory: bool) returns (r: int)
      requires Valid()
      modifies this
      ensures Valid()
      ensures r == if old(slots) == null && memory && nel > 0 then 1 else 0
      ensures r == 1 ==> slots != null && fresh(slots) && slots.Length == nel && entries == map[]
      ensures r == 1 ==> items == 0 && forall x :: 0 <= x < nel ==> slots[x].Free?
      ensures r == 0 ==> slots == old(slots) && items == old(items) && entries == old(entries)
    {
      if slots != null || nel == 0 || !memory {
        return 0;
      }
      slots := new Slot[nel](i => Free);
      items, entries := 0, map[];
      TotalZero(slots[..], Weight);
      r := 1;
    }

    /** hdestroy. */
    method Destroy()
      requires Valid()
      modifies this
      ensures Valid() && slots == null && entries == map[]
    {
      slots, items, entries := null, 0, map[];
    }

    /** hsearch with FIND. */
    method Find(key: string) returns (r: Option<nat>)
      requires Valid()
      ensures r.Some? <==> key in entries
      ensures r.Some? ==> slots != null && r.value < slots.Length && slots[r.value] == Used(entries[key])
    {
      if slots == null {
        return None;
      }
      var f := Locate(slots, key, entries);
      r := if f.At? then Some(f.idx) else None;
      if f.At? {
        assert Holds(slots[..], f.idx, key);
      }
    }

    /** hsearch with ENTER. */
    method Enter(item: Entry) returns (r: Option<nat>)
      requires Valid()
      modifies this, slots
      ensures Valid() && slots == old(slots)
      ensures r.Some? ==> item.key in entries && slots != null && r.value < slots.Length && slots[r.value] == Used(entries[item.key])
      ensures entries == if r.Some? && item.key !in old(entries) then old(entries)[item.key := item] else old(entries)
      ensures item.key in old(entries) ==> r.Some? && slots[..] == old(slots[..])
      ensures r.None? && slots != null ==> slots[..] == old(slots[..])
      ensures r.Some? && item.key !in old(entries) ==>
        old(slots[..])[r.value].Free? && slots[..] == old(slots[..])[r.value := Used(item)]
      ensures item.key !in old(entries) && slots != null && slots.Length > 0 ==>
        (r.None? <==> forall i: nat :: i < slots.Length ==> Taken(old(slots[..]), HashStr(item.key), i))
    {
      if slots == null {
        return None;
      }
      var f := Locate(slots, item.key, entries);
      match f
      case At(idx) =>
        assert Holds(slots[..], idx, item.key);
        r := Some(idx);
      case Exhausted =>
        r := None;
      case Vacant(idx) =>
        RoomLeft(slots[..], idx, item);
        ghost var i: nat :| Arrives(slots[..], HashStr(item.key), i, idx);
        assert !Taken(slots[..], HashStr(item.key), i);
        if items >= slots.Length {
          return None;
        }
        InsertKeepsGood(slots[..], entries, idx, item);
        TotalUpdate(slots[..], idx, Used(item), Weight);
        slots[idx] := Used(item);
        assert slots[..] == old(slots[..])[idx := Used(item)];
        entries := entries[item.key := item];
        items := items + 1;
        r := Some(idx);
    }
  }

  /**
   * ENTER of a new key finds every probed slot taken exactly when the table is
   * full, provided the probe sum does not wrap on the way or the size divides
   * 2^64; otherwise it can also fail with a free slot left.
   */
  lemma FailsOnlyWhenFull(s: seq<Slot>, h: nat)
    requires 0 < |s| <= WORD && h < WORD && (h + |s| <= WORD || WORD % |s| == 0)
    ensures (forall i: nat :: i < |s| ==> Taken(s, h, i)) <==> Total(s, Weight) == |s|
  {
    CoversIff(h, |s|);
    if forall i: nat :: i < |s| ==> Taken(s, h, i) {
      forall x | 0 <= x < |s|
        ensures s[x].Used?
      {
        assert Reaches(h, |s|, x);
        var i: nat :| i < |s| && Probe(h, i, |s|) == x;
        assert Taken(s, h, i);
      }
      AllUsed(s);
    }
    if Total(s, Weight) == |s| {
      forall i: nat | i < |s|
        ensures Taken(s, h, i)
      {
        if s[Probe(h, i, |s|)].Free? {
          RoomLeft(s, Probe(h, i, |s|), Entry("", 0));
        }
      }
    }
  }

  // ---- Every word is the hash of a key ----

  /** n base-33 digits of v on top of '0', most significant first. */
  function Spell(v: nat, n: nat): (s: string)
    ensures |s| == n
  {
    if n == 0 then "" else Spell(v / 33, n - 1) + [(48 + v % 33) as char]
  }

  /** Where the digits of zero lead from h. */
  function Base(h: nat, n: nat): nat {
    if n == 0 then h else Base(h, n - 1) * 33 + 48
  }

  function Pow33(n: nat): (p: nat)
    ensures p > 0
  {
    if n == 0 then 1 else 33 * Pow33(n - 1)
  }

  lemma {:induction false} HashAppend(s: string, c: char, h: nat)
    requires h < WORD
    ensures HashFrom(s + [c], h) == (HashFrom(s, h) * 33 + c as int) % WORD
  {
    if |s| == 0 {
      assert s + [c] == [c];
      assert [c][1..] == "";
    } else {
      assert (s + [c])[1..] == s[1..] + [c];
      HashAppend(s[1..], c, (h * 33 + s[0] as int) % WORD);
    }
  }

  lemma ModInside(a: nat, c: nat)
    ensures (a % WORD * 33 + c) % WORD == (a * 33 + c) % WORD
  {
    var q, r := a / WORD, a % WORD;
    var k, z := (r * 33 + c) / WORD, (r * 33 + c) % WORD;
    assert a * 33 + c == (33 * q + k) * WORD + z;
    ModUnique(a * 33 + c, WORD, 33 * q + k, z);
  }

  lemma {:induction false} HashSpell(v: nat, n: nat, h: nat)
    requires v < Pow33(n) && h < WORD
    ensures HashFrom(Spell(v, n), h) == (Base(h, n) + v) % WORD
  {
    if n > 0 {
      HashSpell(v / 33, n - 1, h);
      HashAppend(Spell(v / 33, n - 1), (48 + v % 33) as char, h);
      ModInside(Base(h, n - 1) + v / 33, 48 + v % 33);
      assert (Base(h, n - 1) + v / 33) * 33 + (48 + v % 33) == Base(h, n) + v;
    }
  }

  /** Thirteen characters that lead from one word to another. */
  function Bridge(from: nat, to: nat): (s: string)
    requires from < WORD && to < WORD
    ensures |s| == 13
  {
    Spell((to + WORD - Base(from, 13) % WORD) % WORD, 13)
  }

  lemma Thirteen()
    ensures Pow33(13) > WORD
  {
    assert Pow33(3) == 35937;
    assert Pow33(6) == 33 * (33 * (33 * Pow33(3))) == 1291467969;
    assert Pow33(9) == 33 * (33 * (33 * Pow33(6)));
    assert Pow33(12) == 33 * (33 * (33 * Pow33(9)));
  }

  lemma Residue(b: nat, to: nat)
    requires to < WORD
    ensures (b + (to + WORD - b % WORD) % WORD) % WORD == to
  {
    var q, r := b / WORD, b % WORD;
    if to >= r {
      ModUnique(to + WORD - r, WORD, 1, to - r);
      ModUnique(b + (to - r), WORD, q, to);
    } else {
      ModUnique(to + WORD - r, WORD, 0, to + WORD - r);
      ModUnique(b + (to + WORD - r), WORD, q + 1, to);
    }
  }

  lemma BridgeLeads(from: nat, to: nat)
    requires from < WORD && to < WORD
    ensures HashFrom(Bridge(from, to), from) == to
  {
    hide HashFrom, Base, Spell, Pow33;
    var b := Base(from, 13);
    Thirteen();
    HashSpell((to + WORD - b % WORD) % WORD, 13, from);
    Residue(b, to);
  }

  /** A key of thirteen characters with the given hash. */
  function KeyOf(h: nat): (s: string)
    requires h < WORD
    ensures |s| == 13
  {
    Bridge(5381, h)
  }

  /** A key of fourteen characters with the given hash. */
  function LongKeyOf(h: nat): (s: string)
    requires h < WORD
    ensures |s| == 14
  {
    "0" + Bridge(5381 * 33 + 48, h)
  }

  lemma HashCons(c: char, s: string, h: nat)
    requires h < WORD
    ensures HashFrom([c] + s, h) == HashFrom(s, (h * 33 + c as int) % WORD)
  {
    assert ([c] + s)[1..] == s;
  }

  lemma KeysHash(h: nat)
    requires h < WORD
    ensures HashStr(KeyOf(h)) == h && HashStr(LongKeyOf(h)) == h
  {
    hide HashFrom, Bridge;
    BridgeLeads(5381, h);
    BridgeLeads(5381 * 33 + 48, h);
    HashCons('0', Bridge(5381 * 33 + 48, h), 5381);
  }

  // ---- Refusal with a slot free ----

  /** Key's entry goes to the slot with the number of its hash, unless that is left free. */
  function Homed(x: nat, free: nat): Slot
    requires x < WORD
  {
    if x == free then Free else Used(Entry(KeyOf(x), 0))
  }

  /** Every slot but one taken, each by a key whose first probe it is. */
  function Crowded(size: nat, free: nat): seq<Slot>
    requires size <= WORD
  {
    seq(size, x requires 0 <= x < size => Homed(x, free))
  }

  function CrowdedEntries(size: nat, free: nat): map<string, Entry>
    requires size <= WORD
  {
    map key | key in set x | 0 <= x < size && x != free :: KeyOf(x) :: Entry(key, 0)
  }

  lemma CrowdedGood(size: nat, free: nat)
    requires 0 < size <= WORD && free < size
    ensures Good(Crowded(size, free), CrowdedEntries(size, free))
  {
    var s, entries := Crowded(size, free), CrowdedEntries(size, free);
    forall x: nat | x < size
      ensures Placed(s, x)
    {
      if x != free {
        KeysHash(x);
        ModUnique(x, WORD, 0, x);
        ModUnique(x, size, 0, x);
        assert Arrives(s, HashStr(s[x].entry.key), 0, x);
      }
    }
    forall a: nat, key: string | Holds(s, a, key)
      ensures a == HashStr(key) && key in entries && s[a].entry == entries[key]
    {
      KeysHash(a);
    }
    forall key: string | key in entries
      ensures exists x: nat :: Holds(s, x, key)
    {
      var x :| 0 <= x < size && x != free && KeyOf(x) == key;
      assert Holds(s, x, key);
    }
  }

  /** ENTER of a new key with hash h is refused. */
  ghost predicate Refuses(s: seq<Slot>, entries: map<string, Entry>, key: string, h: nat) {
    Good(s, entries) && HashStr(key) == h && key !in entries && Located(s, key, Exhausted)
  }

  /** When the sum wraps and the size does not divide 2^64, a key of that hash is refused with a slot free. */
  lemma FailsWithRoom(h: nat, size: nat)
    requires 0 < size <= WORD && h < WORD < h + size && WORD % size != 0
    ensures var free := Missed(h, size);
            && free < size && Crowded(size, free)[free].Free?
            && Refuses(Crowded(size, free), CrowdedEntries(size, free), LongKeyOf(h), h)
  {
    NeverProbed(h, size, 0);
    var free := Missed(h, size);
    var s, key := Crowded(size, free), LongKeyOf(h);
    CrowdedGood(size, free);
    KeysHash(h);
    forall i: nat | i < size
      ensures Taken(s, h, i)
    {
      NeverProbed(h, size, i);
    }
    assert forall x: nat :: !Holds(s, x, key);
  }

  ghost predicate RefusesOnlyWhenFull(h: nat, size: nat) {
    forall s: seq<Slot>, entries: map<string, Entry>, key: string ::
      |s| == size && Refuses(s, entries, key, h) ==> Total(s, Weight) == size
  }

  /** Over all tables of a size, new keys with hash h are refused only by full ones exactly when the probes from h
      do not wrap or the size divides 2^64. */
  lemma RefusalIff(h: nat, size: nat)
    requires 0 < size <= WORD && h < WORD
    ensures RefusesOnlyWhenFull(h, size) <==> h + size <= WORD || WORD % size == 0
  {
    if h + size <= WORD || WORD % size == 0 {
      forall s: seq<Slot>, entries: map<string, Entry>, key: string | |s| == size && Refuses(s, entries, key, h)
        ensures Total(s, Weight) == size
      {
        FailsOnlyWhenFull(s, h);
      }
    } else {
      var free := Missed(h, size);
      FailsWithRoom(h, size);
      RoomLeft(Crowded(size, free), free, Entry("", 0));
    }
  }

  lemma ThreeHashes()
    ensures HashStr("c") == 177672 && HashStr("a") == 177670 && HashStr("002MOOEEGC4?6") == WORD - 1
  {
    assert HashFrom("", WORD - 1) == WORD - 1;
    RefusedKeyHash();
  }

  /** The hash of the refused key, character by character. */
  lemma RefusedKeyHash()
    ensures HashFrom("002MOOEEGC4?6", 5381) == HashFrom("", WORD - 1)
  {
    hide HashFrom;
    HashCons('0', "02MOOEEGC4?6", 5381);
    assert ['0'] + "02MOOEEGC4?6" == "002MOOEEGC4?6";
    HashCons('0', "2MOOEEGC4?6", 177621);
    assert ['0'] + "2MOOEEGC4?6" == "02MOOEEGC4?6";
    HashCons('2', "MOOEEGC4?6", 5861541);
    assert ['2'] + "MOOEEGC4?6" == "2MOOEEGC4?6";
    HashCons('M', "OOEEGC4?6", 193430903);
    assert ['M'] + "OOEEGC4?6" == "MOOEEGC4?6";
    HashCons('O', "OEEGC4?6", 6383219876);
    assert ['O'] + "OEEGC4?6" == "OOEEGC4?6";
    HashCons('O', "EEGC4?6", 210646255987);
    assert ['O'] + "EEGC4?6" == "OEEGC4?6";
    HashCons('E', "EGC4?6", 6951326447650);
    assert ['E'] + "EGC4?6" == "EEGC4?6";
    HashCons('E', "GC4?6", 229393772772519);
    assert ['E'] + "GC4?6" == "EGC4?6";
    HashCons('G', "C4?6", 7569994501493196);
    assert ['G'] + "C4?6" == "GC4?6";
    HashCons('C', "4?6", 249809818549275539);
    assert ['C'] + "4?6" == "C4?6";
    HashCons('4', "?6", 8243724012126092854);
    assert ['4'] + "?6" == "4?6";
    HashCons('?', "6", 13788475368227341610);
    assert ['?'] + "6" == "?6";
    HashCons('6', "", 12297829382473034409);
    assert ['6'] + "" == "6";
  }

  /** Three slots, two keys, and a third key that is refused. */
  lemma RefusedByThree(c: Entry, a: Entry)
    requires c.key == "c" && a.key == "a"
    ensures Refuses([Used(c), Used(a), Free], map["c" := c, "a" := a], "002MOOEEGC4?6", WORD - 1)
  {
    hide HashStr;
    ThreeHashes();
    var s, entries, key := [Used(c), Used(a), Free], map["c" := c, "a" := a], "002MOOEEGC4?6";
    assert Arrives(s, HashStr("c"), 0, 0) && Arrives(s, HashStr("a"), 0, 1);
    assert Holds(s, 0, "c") && Holds(s, 1, "a");
    assert |key| == 13 && |"c"| == 1 && |"a"| == 1 && "c"[0] != "a"[0];
    assert Probe(WORD - 1, 0, 3) == Probe(WORD - 1, 1, 3) == 0 && Probe(WORD - 1, 2, 3) == 1;
  }

  /** The crowded table on its way: only the slots below x are filled. */
  function Half(size: nat, free: nat, x: nat): (s: seq<Slot>)
    requires size <= WORD
    ensures |s| == size
  {
    seq(size, y requires 0 <= y < size => if y < x then Homed(y, free) else Free)
  }

  lemma HalfKeys(size: nat, free: nat, x: nat, entries: map<string, Entry>)
    requires x < size <= WORD && Good(Half(size, free, x), entries)
    ensures KeyOf(x) !in entries && !Taken(Half(size, free, x), HashStr(KeyOf(x)), 0)
  {
    var s := Half(size, free, x);
    KeysHash(x);
    ModUnique(x, WORD, 0, x);
    ModUnique(x, size, 0, x);
    if KeyOf(x) in entries {
      var y: nat :| Holds(s, y, KeyOf(x));
      KeysHash(y);
    }
  }

  /** The key of hash x can only have gone to slot x. */
  lemma HalfGrows(size: nat, free: nat, x: nat, idx: nat, entries: map<string, Entry>)
    requires x < size <= WORD && x != free && idx < size && Half(size, free, x)[idx].Free?
    requires Good(Half(size, free, x)[idx := Used(Entry(KeyOf(x), 0))], entries)
    ensures Half(size, free, x)[idx := Used(Entry(KeyOf(x), 0))] == Half(size, free, x + 1)
  {
    var t := Half(size, free, x)[idx := Used(Entry(KeyOf(x), 0))];
    assert Placed(t, idx);
    KeysHash(x);
    ModUnique(x, WORD, 0, x);
    ModUnique(x, size, 0, x);
    var i: nat :| Arrives(t, HashStr(KeyOf(x)), i, idx);
    if i > 0 {
      assert Taken(t, x, 0);
    }
    assert idx == x;
  }

  lemma HalfSkips(size: nat, free: nat)
    requires free < size <= WORD
    ensures Half(size, free, free) == Half(size, free, free + 1)
  {
  }

  lemma HalfWhole(size: nat, free: nat)
    requires free < size <= WORD
    ensures Half(size, free, size) == Crowded(size, free)
  {
  }

  lemma CrowdedTotal(size: nat, free: nat)
    requires 0 < size <= WORD && free < size
    ensures Total(Crowded(size, free), Weight) == size - 1
  {
    var s, e := Crowded(size, free), Entry("", 0);
    TotalUpdate(s, free, Used(e), Weight);
    AllUsed(s[free := Used(e)]);
  }

  /** One key is entered, and goes to its slot. */
  method EnterHome(t: Table, size: nat, free: nat, x: nat)
    requires t.Valid() && t.slots != null && x < size <= WORD && x != free && t.slots[..] == Half(size, free, x)
    modifies t, t.slots
    ensures t.Valid() && t.slots == old(t.slots) && t.slots[..] == Half(size, free, x + 1)
  {
    hide HashStr, KeyOf, Good, Total, Half;
    HalfKeys(size, free, x, t.entries);
    var entered := t.Enter(Entry(KeyOf(x), 0));
    HalfGrows(size, free, x, entered.value, t.entries);
  }

  lemma SameKeys(s: seq<Slot>, e1: map<string, Entry>, e2: map<string, Entry>, key: string)
    requires Good(s, e1) && Good(s, e2) && key !in e1
    ensures key !in e2
  {
  }

  /** The crowded table refuses the key of hash h. */
  method EnterRefused(t: Table, h: nat) returns (r: Option<nat>)
    requires t.Valid() && t.slots != null && 0 < t.slots.Length <= WORD && h < WORD < h + t.slots.Length
    requires WORD % t.slots.Length != 0 && t.slots[..] == Crowded(t.slots.Length, Missed(h, t.slots.Length))
    modifies t, t.slots
    ensures t.Valid() && t.slots == old(t.slots) && t.slots[..] == old(t.slots[..])
    ensures HashStr(LongKeyOf(h)) == h && LongKeyOf(h) !in t.entries && r.None?
  {
    hide HashStr, LongKeyOf, Good, Total, Crowded, CrowdedEntries, Missed, Taken;
    ghost var size := t.slots.Length;
    ghost var free := Missed(h, size);
    FailsWithRoom(h, size);
    SameKeys(t.slots[..], CrowdedEntries(size, free), t.entries, LongKeyOf(h));
    r := t.Enter(Entry(LongKeyOf(h), 0));
  }

  /** A program that meets the refusal: a new table, keys entered one after the other, and one more. */
  method RefusedRun(h: nat, size: nat) returns (t: Table, r: Option<nat>)
    requires 0 < size <= WORD && h < WORD < h + size && WORD % size != 0
    ensures t.Valid() && t.slots != null && t.slots.Length == size && t.items == size - 1
    ensures HashStr(LongKeyOf(h)) == h && LongKeyOf(h) !in t.entries && r.None?
  {
    t := new Table();
    var created := t.Create(size, true);
    var free := Missed(h, size);
    assert t.slots[..] == Half(size, free, 0);
    NeverProbed(h, size, 0);
    hide HashStr, KeyOf, LongKeyOf, Good, Total, Half, Crowded, Missed, Taken;
    for x := 0 to size
      invariant fresh(t) && t.slots != null && fresh(t.slots) && t.Valid() && t.slots[..] == Half(size, free, x)
    {
      if x != free {
        EnterHome(t, size, free, x);
      } else {
        HalfSkips(size, free);
      }
    }
    HalfWhole(size, free);
    CrowdedTotal(size, free);
    r := EnterRefused(t, h);
  }
}
