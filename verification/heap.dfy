/** The sbrk allocator of src/memory.c over byte-addressed memory.

    Headers, links and alignment tags are bytes of the same memory that callers write their
    payloads into.  What is ghost here is what the code does not record: the true extent of
    every block obtained from sbrk, the free list as a sequence, and which pointers are live.
    A call is one atomic step; pointers and sizes are 64 bits wide, little-endian. */
module Heap {
  import opened Bytes
  import opened Bits
  import Words

  const HEADER := 16                      // sizeof(struct block_header) == sizeof(struct posix_align_hdr)
  const TAG := 0x5041_4C47                // POSIX_ALIGN_MAGIC
  const SIZE_MAX := WORD_SPAN - 1
  const INTPTR_SPAN := 0x8000_0000_0000_0000

  // ---------------------------------------------------------------- memory

  function Load(mem: seq<byte>, a: nat, n: nat): nat
    requires a + n <= |mem|
  {
    Decode(mem[a..a + n])
  }

  function Store(mem: seq<byte>, a: nat, v: nat, n: nat): (mem': seq<byte>)
    requires a + n <= |mem|
    ensures |mem'| == |mem|
  {
    mem[..a] + Encode(v, n) + mem[a + n..]
  }

  /** Nothing but the n bytes at b changed. */
  predicate SameOutside(mem: seq<byte>, mem': seq<byte>, b: nat, n: nat) {
    b + n <= |mem| == |mem'| && mem'[..b] == mem[..b] && mem'[b + n..] == mem[b + n..]
  }

  lemma StoreLoad(mem: seq<byte>, a: nat, v: nat, n: nat)
    requires a + n <= |mem|
    ensures Store(mem, a, v, n)[a..a + n] == Encode(v, n)
    ensures SameOutside(mem, Store(mem, a, v, n), a, n)
  {
  }

  lemma Unchanged(mem: seq<byte>, mem': seq<byte>, b: nat, n: nat, a: nat, m: nat)
    requires SameOutside(mem, mem', b, n) && a + m <= |mem| && (a + m <= b || b + n <= a)
    ensures mem'[a..a + m] == mem[a..a + m]
  {
    if a + m <= b {
      assert mem'[a..a + m] == mem'[..b][a..a + m];
      assert mem[a..a + m] == mem[..b][a..a + m];
    } else {
      var c := a - (b + n);
      assert mem'[a..a + m] == mem'[b + n..][c..c + m];
      assert mem[a..a + m] == mem[b + n..][c..c + m];
    }
  }

  // ---------------------------------------------------------------- the invariant

  /** A live pointer: the block it is in, the size the caller asked for, and whether it came
      from posix_memalign. */
  datatype Alloc = Alloc(hdr: nat, size: nat, aligned: bool)

  type Blocks = map<nat, nat>             // header address -> true extent of the payload area

  predicate Inside(brk: nat, blocks: Blocks, h: nat) {
    h in blocks ==> 0 < h && h + HEADER + blocks[h] <= brk
  }

  /** Two different blocks do not overlap, headers included. */
  predicate Apart(blocks: Blocks, h: nat, g: nat) {
    h in blocks && g in blocks && h < g ==> h + HEADER + blocks[h] <= g
  }

  ghost predicate BlocksOk(mem: seq<byte>, brk: nat, blocks: Blocks) {
    && brk <= |mem| < WORD_SPAN
    && (forall h :: Inside(brk, blocks, h))
    && (forall h, g :: Apart(blocks, h, g))
  }

  function Link(chain: seq<nat>, k: nat): nat {
    if k < |chain| then chain[k] else 0
  }

  /** The recorded size of a block never exceeds its true extent. */
  ghost predicate Recorded(mem: seq<byte>, blocks: Blocks, h: nat) {
    h in blocks && h + HEADER <= |mem| && Load(mem, h, 8) <= blocks[h]
  }

  /** Block k of the chain links to block k + 1, the last one to NULL. */
  ghost predicate Entry(mem: seq<byte>, blocks: Blocks, chain: seq<nat>, k: nat)
    requires k < |chain|
  {
    Recorded(mem, blocks, chain[k]) && Load(mem, chain[k] + 8, 8) == Link(chain, k + 1)
  }

  /** The list in memory that starts at chain[0] is the chain, without repetition. */
  ghost predicate ChainOk(mem: seq<byte>, blocks: Blocks, chain: seq<nat>) {
    && (forall k | 0 <= k < |chain| :: Entry(mem, blocks, chain, k))
    && (forall i, j | 0 <= i < j < |chain| :: chain[i] != chain[j])
  }

  /** The payload lies inside its block, behind the header; an aligned one carries its tag and
      the pointer to the block's payload right before it. */
  ghost predicate AllocOk(mem: seq<byte>, blocks: Blocks, p: nat, a: Alloc) {
    && Recorded(mem, blocks, a.hdr)
    && a.hdr + HEADER + blocks[a.hdr] <= |mem|
    && p + a.size <= a.hdr + HEADER + blocks[a.hdr]
    && (if a.aligned
        then a.hdr + 2 * HEADER <= p && Load(mem, p - 16, 4) == TAG && Load(mem, p - 8, 8) == a.hdr + HEADER
        else p == a.hdr + HEADER && Load(mem, a.hdr, 8) == a.size)
  }

  ghost predicate LiveAt(mem: seq<byte>, blocks: Blocks, live: map<nat, Alloc>, p: nat) {
    p in live ==> AllocOk(mem, blocks, p, live[p])
  }

  ghost predicate LiveOk(mem: seq<byte>, blocks: Blocks, live: map<nat, Alloc>) {
    forall p :: LiveAt(mem, blocks, live, p)
  }

  predicate HeldBy(live: map<nat, Alloc>, h: nat, p: nat) {
    p in live && live[p].hdr == h
  }

  ghost predicate Held(live: map<nat, Alloc>, h: nat) {
    exists p :: HeldBy(live, h, p)
  }

  ghost predicate Placed(blocks: Blocks, chain: seq<nat>, live: map<nat, Alloc>, h: nat) {
    h in blocks ==> h in chain || Held(live, h)
  }

  predicate NotFree(chain: seq<nat>, live: map<nat, Alloc>, p: nat) {
    p in live ==> live[p].hdr !in chain
  }

  predicate NotShared(live: map<nat, Alloc>, p: nat, q: nat) {
    p in live && q in live && p != q ==> live[p].hdr != live[q].hdr
  }

  /** Every block is on the free list or holds exactly one live allocation, never both. */
  ghost predicate Partition(blocks: Blocks, chain: seq<nat>, live: map<nat, Alloc>) {
    && (forall h :: Placed(blocks, chain, live, h))
    && (forall p :: NotFree(chain, live, p))
    && (forall p, q :: NotShared(live, p, q))
  }

  // ---------------------------------------------------------------- what a write leaves alone

  /** A write inside block h leaves every byte of block g. */
  lemma OtherBlock(mem: seq<byte>, mem': seq<byte>, brk: nat, blocks: Blocks, h: nat, b: nat, n: nat, g: nat, a: nat, m: nat)
    requires BlocksOk(mem, brk, blocks) && h in blocks && g in blocks && g != h
    requires SameOutside(mem, mem', b, n) && h <= b && b + n <= h + HEADER + blocks[h]
    requires g <= a && a + m <= g + HEADER + blocks[g]
    ensures a + m <= |mem| && mem'[a..a + m] == mem[a..a + m]
  {
    assert Inside(brk, blocks, g) && Apart(blocks, g, h) && Apart(blocks, h, g);
    Unchanged(mem, mem', b, n, a, m);
  }

  lemma AllocFrame(mem: seq<byte>, mem': seq<byte>, brk: nat, blocks: Blocks, h: nat, b: nat, n: nat, p: nat, a: Alloc)
    requires BlocksOk(mem, brk, blocks) && h in blocks && a.hdr != h && AllocOk(mem, blocks, p, a)
    requires SameOutside(mem, mem', b, n) && h <= b && b + n <= h + HEADER + blocks[h]
    ensures AllocOk(mem', blocks, p, a) && mem'[p..p + a.size] == mem[p..p + a.size]
  {
    OtherBlock(mem, mem', brk, blocks, h, b, n, a.hdr, a.hdr, 8);
    OtherBlock(mem, mem', brk, blocks, h, b, n, a.hdr, p, a.size);
    if a.aligned {
      OtherBlock(mem, mem', brk, blocks, h, b, n, a.hdr, p - 16, 4);
      OtherBlock(mem, mem', brk, blocks, h, b, n, a.hdr, p - 8, 8);
    }
  }

  lemma ChainFrame(mem: seq<byte>, mem': seq<byte>, brk: nat, blocks: Blocks, h: nat, b: nat, n: nat, chain: seq<nat>)
    requires BlocksOk(mem, brk, blocks) && h in blocks && h !in chain && ChainOk(mem, blocks, chain)
    requires SameOutside(mem, mem', b, n) && h <= b && b + n <= h + HEADER + blocks[h]
    ensures ChainOk(mem', blocks, chain)
  {
    forall k | 0 <= k < |chain| ensures Entry(mem', blocks, chain, k) {
      assert Entry(mem, blocks, chain, k);
      OtherBlock(mem, mem', brk, blocks, h, b, n, chain[k], chain[k], 8);
      OtherBlock(mem, mem', brk, blocks, h, b, n, chain[k], chain[k] + 8, 8);
    }
  }

  // ---------------------------------------------------------------- the free list

  lemma ChainInBlocks(mem: seq<byte>, blocks: Blocks, chain: seq<nat>)
    requires ChainOk(mem, blocks, chain)
    ensures forall h <- chain :: h in blocks
  {
    forall k | 0 <= k < |chain| ensures chain[k] in blocks {
      assert Entry(mem, blocks, chain, k);
    }
  }

  function Without(s: seq<nat>, k: nat): seq<nat>
    requires k < |s|
  {
    s[..k] + s[k + 1..]
  }

  /** free_impl: the block becomes the first of the list. */
  lemma PushKeepsChain(mem: seq<byte>, brk: nat, blocks: Blocks, chain: seq<nat>, h: nat)
    requires BlocksOk(mem, brk, blocks) && ChainOk(mem, blocks, chain)
    requires Recorded(mem, blocks, h) && h !in chain
    ensures ChainOk(Store(mem, h + 8, Link(chain, 0), 8), blocks, [h] + chain)
    ensures SameOutside(mem, Store(mem, h + 8, Link(chain, 0), 8), h + 8, 8)
  {
    var mem', v, longer := Store(mem, h + 8, Link(chain, 0), 8), Link(chain, 0), [h] + chain;
    StoreLoad(mem, h + 8, v, 8);
    if chain != [] { assert Entry(mem, blocks, chain, 0); }
    Word64(v);
    ChainFrame(mem, mem', brk, blocks, h, h + 8, 8, chain);
    Unchanged(mem, mem', h + 8, 8, h, 8);
    forall k | 0 <= k < |longer| ensures Entry(mem', blocks, longer, k) {
      if k > 0 {
        assert longer[k] == chain[k - 1] && Link(longer, k + 1) == Link(chain, k);
        assert Entry(mem', blocks, chain, k - 1);
      }
    }
  }

  /** Taking block k off the list rewrites one link, or the head. */
  function Unlinked(mem: seq<byte>, chain: seq<nat>, k: nat): seq<byte>
    requires k < |chain| && (k > 0 ==> chain[k - 1] + HEADER <= |mem|)
  {
    if k == 0 then mem else Store(mem, chain[k - 1] + 8, Link(chain, k + 1), 8)
  }

  /** A new link in block h, seen from h itself and from any other block. */
  lemma Relink(mem: seq<byte>, blocks: Blocks, h: nat, v: nat)
    requires Recorded(mem, blocks, h) && v < WORD_SPAN
    ensures var mem' := Store(mem, h + 8, v, 8); Recorded(mem', blocks, h) && Load(mem', h + 8, 8) == v
  {
    var mem' := Store(mem, h + 8, v, 8);
    StoreLoad(mem, h + 8, v, 8);
    Word64(v);
    Unchanged(mem, mem', h + 8, 8, h, 8);
  }

  lemma RelinkElsewhere(mem: seq<byte>, brk: nat, blocks: Blocks, h: nat, v: nat, g: nat)
    requires BlocksOk(mem, brk, blocks) && Recorded(mem, blocks, h) && Recorded(mem, blocks, g) && g != h
    ensures var mem' := Store(mem, h + 8, v, 8);
            Recorded(mem', blocks, g) && Load(mem', g + 8, 8) == Load(mem, g + 8, 8)
  {
    var mem' := Store(mem, h + 8, v, 8);
    StoreLoad(mem, h + 8, v, 8);
    OtherBlock(mem, mem', brk, blocks, h, h + 8, 8, g, g, 8);
    OtherBlock(mem, mem', brk, blocks, h, h + 8, 8, g, g + 8, 8);
  }

  lemma LinkIsAddress(mem: seq<byte>, brk: nat, blocks: Blocks, chain: seq<nat>, k: nat)
    requires BlocksOk(mem, brk, blocks) && ChainOk(mem, blocks, chain)
    ensures Link(chain, k) < WORD_SPAN
  {
    if k < |chain| {
      assert Entry(mem, blocks, chain, k);
    }
  }

  lemma UnlinkKeepsEntry(mem: seq<byte>, brk: nat, blocks: Blocks, chain: seq<nat>, k: nat, i: nat)
    requires BlocksOk(mem, brk, blocks) && ChainOk(mem, blocks, chain) && k < |chain| && i < |chain| && i != k
    requires k > 0 ==> Recorded(mem, blocks, chain[k - 1])
    ensures var mem' := Unlinked(mem, chain, k);
            && Recorded(mem', blocks, chain[i])
            && Load(mem', chain[i] + 8, 8) == Link(chain, if i + 1 == k then k + 1 else i + 1)
  {
    assert Entry(mem, blocks, chain, i);
    LinkIsAddress(mem, brk, blocks, chain, k + 1);
    hide Load, Store;
    if i + 1 == k {
      Relink(mem, blocks, chain[i], Link(chain, k + 1));
    } else if k > 0 {
      RelinkElsewhere(mem, brk, blocks, chain[k - 1], Link(chain, k + 1), chain[i]);
    }
  }

  lemma WithoutAt(s: seq<nat>, k: nat, j: nat)
    requires k < |s| && j < |s| - 1
    ensures Without(s, k)[j] == s[if j < k then j else j + 1]
    ensures Link(Without(s, k), j + 1) == Link(s, if j + 1 < k then j + 1 else j + 2)
  {
  }

  lemma UnlinkKeepsChain(mem: seq<byte>, brk: nat, blocks: Blocks, chain: seq<nat>, k: nat)
    requires BlocksOk(mem, brk, blocks) && ChainOk(mem, blocks, chain) && k < |chain|
    ensures k > 0 ==> Recorded(mem, blocks, chain[k - 1])
    ensures ChainOk(Unlinked(mem, chain, k), blocks, Without(chain, k))
    ensures chain[k] !in Without(chain, k)
  {
    if k > 0 { assert Entry(mem, blocks, chain, k - 1); }
    var mem', shorter := Unlinked(mem, chain, k), Without(chain, k);
    forall j | 0 <= j < |shorter| ensures Entry(mem', blocks, shorter, j) {
      WithoutAt(chain, k, j);
      UnlinkKeepsEntry(mem, brk, blocks, chain, k, if j < k then j else j + 1);
    }
  }

  // ---------------------------------------------------------------- allocations

  function Payload(mem: seq<byte>, p: nat, size: nat): seq<byte>
    requires p + size <= |mem|
  {
    mem[p..p + size]
  }

  /** Every live payload holds the same bytes in both memories. */
  ghost predicate SamePayloads(mem: seq<byte>, mem': seq<byte>, live: map<nat, Alloc>) {
    |mem| == |mem'| && forall p :: SamePayload(mem, mem', live, p)
  }

  predicate SamePayload(mem: seq<byte>, mem': seq<byte>, live: map<nat, Alloc>, p: nat)
    requires |mem| == |mem'|
  {
    p in live ==> p + live[p].size <= |mem| && Payload(mem', p, live[p].size) == Payload(mem, p, live[p].size)
  }

  /** Nothing live is in block h. */
  ghost predicate Unheld(live: map<nat, Alloc>, h: nat) {
    forall p :: !HeldBy(live, h, p)
  }

  /** A write inside a block that holds nothing live disturbs nothing live. */
  lemma LiveFrame(mem: seq<byte>, mem': seq<byte>, brk: nat, blocks: Blocks, h: nat, b: nat, n: nat, live: map<nat, Alloc>)
    requires BlocksOk(mem, brk, blocks) && h in blocks && LiveOk(mem, blocks, live) && Unheld(live, h)
    requires SameOutside(mem, mem', b, n) && h <= b && b + n <= h + HEADER + blocks[h]
    ensures LiveOk(mem', blocks, live) && SamePayloads(mem, mem', live)
  {
    forall p ensures LiveAt(mem', blocks, live, p) && SamePayload(mem, mem', live, p) {
      assert LiveAt(mem, blocks, live, p) && !HeldBy(live, h, p);
      if p in live {
        AllocFrame(mem, mem', brk, blocks, h, b, n, p, live[p]);
      }
    }
  }

  lemma LiveAdd(mem: seq<byte>, blocks: Blocks, live: map<nat, Alloc>, p: nat, a: Alloc)
    requires LiveOk(mem, blocks, live) && AllocOk(mem, blocks, p, a)
    ensures LiveOk(mem, blocks, live[p := a])
  {
    var live' := live[p := a];
    forall q ensures LiveAt(mem, blocks, live', q) {
      assert LiveAt(mem, blocks, live, q);
    }
  }

  /** The size header of a block that is off the list is set and its payload becomes live. */
  lemma HandOut(mem: seq<byte>, brk: nat, blocks: Blocks, chain: seq<nat>, live: map<nat, Alloc>, h: nat, size: nat)
    requires BlocksOk(mem, brk, blocks) && ChainOk(mem, blocks, chain) && LiveOk(mem, blocks, live)
    requires h in blocks && h !in chain && size <= blocks[h] && size < WORD_SPAN && Unheld(live, h)
    requires h + HEADER <= |mem|
    ensures var mem' := Store(mem, h, size, 8);
            && BlocksOk(mem', brk, blocks) && ChainOk(mem', blocks, chain)
            && LiveOk(mem', blocks, live[h + HEADER := Alloc(h, size, false)])
            && SamePayloads(mem, mem', live)
  {
    var mem' := Store(mem, h, size, 8);
    assert Inside(brk, blocks, h);
    StoreLoad(mem, h, size, 8);
    Word64(size);
    ChainFrame(mem, mem', brk, blocks, h, h, 8, chain);
    LiveFrame(mem, mem', brk, blocks, h, h, 8, live);
    LiveAdd(mem', blocks, live, h + HEADER, Alloc(h, size, false));
  }

  /** In a block that holds nothing live there is no live pointer. */
  lemma NoPointer(mem: seq<byte>, brk: nat, blocks: Blocks, live: map<nat, Alloc>, h: nat, p: nat)
    requires BlocksOk(mem, brk, blocks) && LiveOk(mem, blocks, live) && h in blocks && Unheld(live, h)
    requires h + HEADER <= p <= h + HEADER + blocks[h]
    ensures p !in live
  {
    assert LiveAt(mem, blocks, live, p) && !HeldBy(live, h, p);
    if p in live {
      assert Apart(blocks, live[p].hdr, h) && Apart(blocks, h, live[p].hdr);
    }
  }

  /** The promise to callers: payloads of different live pointers do not overlap, and no live
      payload touches any header or any free block. */
  lemma LiveDisjoint(mem: seq<byte>, brk: nat, blocks: Blocks, chain: seq<nat>, live: map<nat, Alloc>, p: nat)
    requires BlocksOk(mem, brk, blocks) && LiveOk(mem, blocks, live) && Partition(blocks, chain, live) && p in live
    ensures forall q :: q in live && q != p ==> p + live[p].size <= q || q + live[q].size <= p
    ensures forall h :: h in blocks ==> p + live[p].size <= h || h + HEADER <= p
    ensures forall h :: h in blocks && h in chain ==> p + live[p].size <= h || h + HEADER + blocks[h] <= p
  {
    var a := live[p];
    assert LiveAt(mem, blocks, live, p) && NotFree(chain, live, p);
    forall q | q in live && q != p ensures p + a.size <= q || q + live[q].size <= p {
      var g := live[q].hdr;
      assert LiveAt(mem, blocks, live, q) && NotShared(live, p, q);
      assert Apart(blocks, g, a.hdr) && Apart(blocks, a.hdr, g);
    }
    forall h | h in blocks ensures p + a.size <= h || h + HEADER <= p {
      assert Apart(blocks, h, a.hdr) && Apart(blocks, a.hdr, h);
    }
    forall h | h in blocks && h in chain ensures p + a.size <= h || h + HEADER + blocks[h] <= p {
      assert Apart(blocks, h, a.hdr) && Apart(blocks, a.hdr, h);
    }
  }

  // ---------------------------------------------------------------- whole operations

  /** The allocator's memory and its bookkeeping. */
  datatype Snapshot = Snapshot(mem: seq<byte>, brk: nat, blocks: Blocks, chain: seq<nat>, live: map<nat, Alloc>)

  ghost predicate Good(s: Snapshot) {
    && s.brk > 0
    && BlocksOk(s.mem, s.brk, s.blocks) && ChainOk(s.mem, s.blocks, s.chain)
    && LiveOk(s.mem, s.blocks, s.live) && Partition(s.blocks, s.chain, s.live)
  }

  /** malloc from the free list: block k leaves the list and its size is overwritten. */
  function Reuse(s: Snapshot, k: nat, size: nat): Snapshot
    requires k < |s.chain| && (k > 0 ==> s.chain[k - 1] + HEADER <= |s.mem|) && s.chain[k] + HEADER <= |s.mem|
  {
    var h := s.chain[k];
    s.(mem := Store(Unlinked(s.mem, s.chain, k), h, size, 8),
       chain := Without(s.chain, k),
       live := s.live[h + HEADER := Alloc(h, size, false)])
  }

  lemma ReusePartition(blocks: Blocks, chain: seq<nat>, live: map<nat, Alloc>, k: nat, a: Alloc)
    requires Partition(blocks, chain, live) && k < |chain| && a.hdr == chain[k] && a.hdr + HEADER !in live
    requires chain[k] !in Without(chain, k)
    ensures Partition(blocks, Without(chain, k), live[a.hdr + HEADER := a])
  {
    var live', chain' := live[a.hdr + HEADER := a], Without(chain, k);
    forall h ensures Placed(blocks, chain', live', h) {
      assert Placed(blocks, chain, live, h);
      if h == a.hdr {
        assert HeldBy(live', h, a.hdr + HEADER);
      } else if h in chain {
        var i :| 0 <= i < |chain| && chain[i] == h;
        assert chain'[if i < k then i else i - 1] == h;
      } else if h in blocks {
        var q :| HeldBy(live, h, q);
        assert HeldBy(live', h, q);
      }
    }
    forall p ensures NotFree(chain', live', p) {
      assert NotFree(chain, live, p);
    }
    forall p, q ensures NotShared(live', p, q) {
      assert NotShared(live, p, q) && NotFree(chain, live, p) && NotFree(chain, live, q);
    }
  }

  /** A free block holds nothing live. */
  lemma FreeIsUnheld(s: Snapshot, h: nat)
    requires Partition(s.blocks, s.chain, s.live) && h in s.chain
    ensures Unheld(s.live, h)
  {
    forall p ensures !HeldBy(s.live, h, p) {
      assert NotFree(s.chain, s.live, p);
    }
  }

  lemma UnlinkKeepsLive(s: Snapshot, k: nat)
    requires Good(s) && k < |s.chain| && Recorded(s.mem, s.blocks, s.chain[k])
    requires k > 0 ==> Recorded(s.mem, s.blocks, s.chain[k - 1])
    ensures var mem' := Unlinked(s.mem, s.chain, k);
            && |mem'| == |s.mem| && LiveOk(mem', s.blocks, s.live) && SamePayloads(s.mem, mem', s.live)
            && Recorded(mem', s.blocks, s.chain[k]) && Load(mem', s.chain[k], 8) == Load(s.mem, s.chain[k], 8)
  {
    if k > 0 {
      var prev, v := s.chain[k - 1], Link(s.chain, k + 1);
      FreeIsUnheld(s, prev);
      StoreLoad(s.mem, prev + 8, v, 8);
      LiveFrame(s.mem, Store(s.mem, prev + 8, v, 8), s.brk, s.blocks, prev, prev + 8, 8, s.live);
      OtherBlock(s.mem, Store(s.mem, prev + 8, v, 8), s.brk, s.blocks, prev, prev + 8, 8, s.chain[k], s.chain[k], 8);
    } else {
      AllPayloadsSame(s.mem, s.blocks, s.live);
    }
  }

  lemma ReuseKeepsGood(s: Snapshot, k: nat, size: nat)
    requires Good(s) && k < |s.chain| && Recorded(s.mem, s.blocks, s.chain[k])
    requires k > 0 ==> Recorded(s.mem, s.blocks, s.chain[k - 1])
    requires size <= Load(s.mem, s.chain[k], 8) && size < WORD_SPAN
    ensures Good(Reuse(s, k, size)) && SamePayloads(s.mem, Reuse(s, k, size).mem, s.live)
    ensures s.chain[k] + HEADER !in s.live
  {
    assert s.chain[k] in s.blocks && s.chain[k] + HEADER <= |s.mem| && size <= s.blocks[s.chain[k]];
    assert k > 0 ==> s.chain[k - 1] + HEADER <= |s.mem|;
    hide Load, Store, Unlinked, AllocOk, Recorded;
    var h, mem', chain' := s.chain[k], Unlinked(s.mem, s.chain, k), Without(s.chain, k);
    UnlinkKeepsChain(s.mem, s.brk, s.blocks, s.chain, k);
    UnlinkKeepsLive(s, k);
    FreeIsUnheld(s, h);
    NoPointer(s.mem, s.brk, s.blocks, s.live, h, h + HEADER);
    HandOut(mem', s.brk, s.blocks, chain', s.live, h, size);
    ReusePartition(s.blocks, s.chain, s.live, k, Alloc(h, size, false));
    var mem2 := Reuse(s, k, size).mem;
    forall p ensures SamePayload(s.mem, mem2, s.live, p) {
      assert SamePayload(mem', mem2, s.live, p);
      assert SamePayload(s.mem, mem', s.live, p);
    }
  }

  /** malloc from sbrk: a new block at h, beyond everything known. */
  function Grow(s: Snapshot, h: nat, size: nat): Snapshot
    requires h + HEADER <= |s.mem|
  {
    Snapshot(Store(s.mem, h, size, 8), h + HEADER + size, s.blocks[h := size], s.chain,
             s.live[h + HEADER := Alloc(h, size, false)])
  }

  /** What is known of the old blocks stays true when a block beyond them is added. */
  lemma GrowKeepsOld(s: Snapshot, h: nat, size: nat)
    requires Good(s) && s.brk <= h && h + HEADER + size <= |s.mem|
    ensures h !in s.blocks && h !in s.chain && Unheld(s.live, h)
    ensures var blocks' := s.blocks[h := size];
            && BlocksOk(s.mem, h + HEADER + size, blocks')
            && ChainOk(s.mem, blocks', s.chain) && LiveOk(s.mem, blocks', s.live)
  {
    var blocks', brk' := s.blocks[h := size], h + HEADER + size;
    assert Inside(s.brk, s.blocks, h);
    ChainInBlocks(s.mem, s.blocks, s.chain);
    forall g ensures Inside(brk', blocks', g) {
      assert Inside(s.brk, s.blocks, g);
    }
    forall g, f ensures Apart(blocks', g, f) {
      assert Apart(s.blocks, g, f) && Inside(s.brk, s.blocks, g) && Inside(s.brk, s.blocks, f);
    }
    forall k | 0 <= k < |s.chain| ensures Entry(s.mem, blocks', s.chain, k) {
      assert Entry(s.mem, s.blocks, s.chain, k);
    }
    forall p ensures LiveAt(s.mem, blocks', s.live, p) && !HeldBy(s.live, h, p) {
      assert LiveAt(s.mem, s.blocks, s.live, p);
    }
  }

  lemma GrowKeepsGood(s: Snapshot, h: nat, size: nat)
    requires Good(s) && s.brk <= h && h + HEADER + size <= |s.mem| && size < WORD_SPAN
    ensures Good(Grow(s, h, size)) && SamePayloads(s.mem, Grow(s, h, size).mem, s.live)
    ensures h + HEADER !in s.live && h !in s.blocks
  {
    var t := Grow(s, h, size);
    GrowKeepsOld(s, h, size);
    NoPointer(s.mem, t.brk, t.blocks, s.live, h, h + HEADER);
    HandOut(s.mem, t.brk, t.blocks, s.chain, s.live, h, size);
    GrowPartition(s.blocks, s.chain, s.live, h, size);
  }

  lemma GrowPartition(blocks: Blocks, chain: seq<nat>, live: map<nat, Alloc>, h: nat, size: nat)
    requires Partition(blocks, chain, live) && h !in chain && h + HEADER !in live && Unheld(live, h)
    ensures Partition(blocks[h := size], chain, live[h + HEADER := Alloc(h, size, false)])
  {
    var live', blocks' := live[h + HEADER := Alloc(h, size, false)], blocks[h := size];
    forall g ensures Placed(blocks', chain, live', g) {
      assert Placed(blocks, chain, live, g);
      if g == h {
        assert HeldBy(live', h, h + HEADER);
      } else if g in blocks && g !in chain {
        var q :| HeldBy(live, g, q);
        assert HeldBy(live', g, q);
      }
    }
    forall p ensures NotFree(chain, live', p) {
      assert NotFree(chain, live, p);
    }
    forall p, q ensures NotShared(live', p, q) {
      assert NotShared(live, p, q) && !HeldBy(live, h, p) && !HeldBy(live, h, q);
    }
  }

  /** free: an aligned pointer first loses its tag; then the whole original block, found
      through the word before the pointer, becomes the first of the free list. */
  function Cleared(s: Snapshot, p: nat): seq<byte>
    requires p in s.live && (s.live[p].aligned ==> 16 <= p <= |s.mem|)
  {
    if s.live[p].aligned then Store(s.mem, p - 16, 0, 4) else s.mem
  }

  function Release(s: Snapshot, p: nat): Snapshot
    requires p in s.live && (s.live[p].aligned ==> 16 <= p <= |s.mem|) && s.live[p].hdr + HEADER <= |s.mem|
  {
    var h := s.live[p].hdr;
    s.(mem := Store(Cleared(s, p), h + 8, Link(s.chain, 0), 8), chain := [h] + s.chain, live := s.live - {p})
  }

  /** Everything live but p: still well-formed, and in other blocks. */
  lemma LiveRest(s: Snapshot, p: nat)
    requires Good(s) && p in s.live
    ensures AllocOk(s.mem, s.blocks, p, s.live[p])
    ensures LiveOk(s.mem, s.blocks, s.live - {p}) && Unheld(s.live - {p}, s.live[p].hdr)
    ensures s.live[p].hdr !in s.chain
  {
    assert LiveAt(s.mem, s.blocks, s.live, p) && NotFree(s.chain, s.live, p);
    forall q ensures LiveAt(s.mem, s.blocks, s.live - {p}, q) && !HeldBy(s.live - {p}, s.live[p].hdr, q) {
      assert LiveAt(s.mem, s.blocks, s.live, q) && NotShared(s.live, p, q);
    }
  }

  lemma ClearKeeps(s: Snapshot, p: nat)
    requires Good(s) && p in s.live && AllocOk(s.mem, s.blocks, p, s.live[p])
    ensures var mem' := Cleared(s, p);
            && BlocksOk(mem', s.brk, s.blocks) && ChainOk(mem', s.blocks, s.chain)
            && Recorded(mem', s.blocks, s.live[p].hdr)
            && LiveOk(mem', s.blocks, s.live - {p}) && SamePayloads(s.mem, mem', s.live - {p})
  {
    var h, mem', rest := s.live[p].hdr, Cleared(s, p), s.live - {p};
    LiveRest(s, p);
    if s.live[p].aligned {
      StoreLoad(s.mem, p - 16, 0, 4);
      Unchanged(s.mem, mem', p - 16, 4, h, 8);
      ChainFrame(s.mem, mem', s.brk, s.blocks, h, p - 16, 4, s.chain);
      LiveFrame(s.mem, mem', s.brk, s.blocks, h, p - 16, 4, rest);
    } else {
      AllPayloadsSame(s.mem, s.blocks, rest);
    }
  }

  lemma AllPayloadsSame(mem: seq<byte>, blocks: Blocks, live: map<nat, Alloc>)
    requires LiveOk(mem, blocks, live)
    ensures SamePayloads(mem, mem, live)
  {
    forall p ensures SamePayload(mem, mem, live, p) {
      assert LiveAt(mem, blocks, live, p);
    }
  }

  lemma ReleaseKeepsGood(s: Snapshot, p: nat)
    requires Good(s) && p in s.live && AllocOk(s.mem, s.blocks, p, s.live[p])
    ensures Good(Release(s, p)) && SamePayloads(s.mem, Release(s, p).mem, s.live - {p})
  {
    var h, mem1, rest := s.live[p].hdr, Cleared(s, p), s.live - {p};
    var mem2 := Store(mem1, h + 8, Link(s.chain, 0), 8);
    LiveRest(s, p);
    ClearKeeps(s, p);
    PushKeepsChain(mem1, s.brk, s.blocks, s.chain, h);
    LiveFrame(mem1, mem2, s.brk, s.blocks, h, h + 8, 8, rest);
    ReleasePartition(s.blocks, s.chain, s.live, p);
    forall q ensures SamePayload(s.mem, mem2, rest, q) {
      assert SamePayload(s.mem, mem1, rest, q) && SamePayload(mem1, mem2, rest, q);
    }
  }

  lemma ReleasePartition(blocks: Blocks, chain: seq<nat>, live: map<nat, Alloc>, p: nat)
    requires Partition(blocks, chain, live) && p in live
    ensures Partition(blocks, [live[p].hdr] + chain, live - {p})
  {
    var rest, h := live - {p}, live[p].hdr;
    forall g ensures Placed(blocks, [h] + chain, rest, g) {
      assert Placed(blocks, chain, live, g);
      if g in blocks && g !in chain && g != h {
        var q :| HeldBy(live, g, q);
        assert HeldBy(rest, g, q);
      }
    }
    forall q ensures NotFree([h] + chain, rest, q) {
      assert NotFree(chain, live, q) && NotShared(live, p, q);
    }
    forall q, r ensures NotShared(rest, q, r) {
      assert NotShared(live, q, r);
    }
  }

  /** posix_memalign, after its malloc: the tag and the original pointer go right below the
      aligned address, which becomes the live pointer. */
  function Retag(s: Snapshot, orig: nat, p: nat, size: nat): Snapshot
    requires 16 <= p <= |s.mem| && orig >= HEADER
  {
    s.(mem := Store(Store(s.mem, p - 16, TAG, 4), p - 8, orig, 8),
       live := (s.live - {orig})[p := Alloc(orig - HEADER, size, true)])
  }

  lemma RetagKeepsGood(s: Snapshot, orig: nat, p: nat, size: nat)
    requires Good(s) && orig in s.live && !s.live[orig].aligned && AllocOk(s.mem, s.blocks, orig, s.live[orig])
    requires orig + HEADER <= p && p + size <= orig + s.live[orig].size
    ensures Good(Retag(s, orig, p, size)) && SamePayloads(s.mem, Retag(s, orig, p, size).mem, s.live - {orig})
    ensures p !in s.live - {orig}
  {
    hide Store, SameOutside;
    var h, rest, t := orig - HEADER, s.live - {orig}, Retag(s, orig, p, size);
    LiveRest(s, orig);
    TwoStores(s.mem, p, TAG, orig);
    assert ChainOk(t.mem, t.blocks, t.chain) by {
      ChainFrame(s.mem, t.mem, s.brk, s.blocks, h, p - 16, 16, s.chain);
    }
    assert LiveOk(t.mem, t.blocks, t.live) && SamePayloads(s.mem, t.mem, rest) by {
      LiveFrame(s.mem, t.mem, s.brk, s.blocks, h, p - 16, 16, rest);
      RetagAlloc(s.mem, s.blocks, h, p, size);
      LiveAdd(t.mem, s.blocks, rest, p, Alloc(h, size, true));
    }
    NoPointer(s.mem, s.brk, s.blocks, rest, h, p);
    RetagPartition(s.blocks, s.chain, s.live, orig, p, Alloc(h, size, true));
  }

  lemma TwoStores(mem: seq<byte>, p: nat, v: nat, w: nat)
    requires 16 <= p <= |mem|
    ensures SameOutside(mem, Store(Store(mem, p - 16, v, 4), p - 8, w, 8), p - 16, 16)
  {
    var mem1 := Store(mem, p - 16, v, 4);
    var mem2 := Store(mem1, p - 8, w, 8);
    assert mem2[..p - 16] == mem1[..p - 16] == mem[..p - 16];
    assert mem2[p..] == mem1[p..] == mem[p..];
    assert p - 16 + 16 == p;
  }

  lemma RetagAlloc(mem: seq<byte>, blocks: Blocks, h: nat, p: nat, size: nat)
    requires Recorded(mem, blocks, h) && h + HEADER + blocks[h] <= |mem| < WORD_SPAN
    requires h + 2 * HEADER <= p && p + size <= h + HEADER + blocks[h]
    ensures AllocOk(Store(Store(mem, p - 16, TAG, 4), p - 8, h + HEADER, 8), blocks, p, Alloc(h, size, true))
  {
    hide Store, Encode, Decode, SameOutside, Pow256;
    var mem1 := Store(mem, p - 16, TAG, 4);
    var mem2 := Store(mem1, p - 8, h + HEADER, 8);
    StoreLoad(mem, p - 16, TAG, 4);
    StoreLoad(mem1, p - 8, h + HEADER, 8);
    Word64(h + HEADER);
    Pow256Values();
    DecodeEncode(TAG, 4);
    Unchanged(mem, mem1, p - 16, 4, h, 8);
    Unchanged(mem1, mem2, p - 8, 8, h, 8);
    Unchanged(mem1, mem2, p - 8, 8, p - 16, 4);
  }

  lemma RetagPartition(blocks: Blocks, chain: seq<nat>, live: map<nat, Alloc>, orig: nat, p: nat, a: Alloc)
    requires Partition(blocks, chain, live) && orig in live && a.hdr == live[orig].hdr && p !in live - {orig}
    ensures Partition(blocks, chain, (live - {orig})[p := a])
  {
    var live' := (live - {orig})[p := a];
    forall g ensures Placed(blocks, chain, live', g) {
      assert Placed(blocks, chain, live, g);
      if g == a.hdr {
        assert HeldBy(live', g, p);
      } else if g in blocks && g !in chain {
        var q :| HeldBy(live, g, q);
        assert HeldBy(live', g, q);
      }
    }
    forall q ensures NotFree(chain, live', q) {
      assert NotFree(chain, live, q) && NotFree(chain, live, orig);
    }
    forall q, r ensures NotShared(live', q, r) {
      assert NotShared(live, q, r) && NotShared(live, orig, q) && NotShared(live, orig, r);
    }
  }

  lemma WriteAlloc(mem: seq<byte>, mem': seq<byte>, blocks: Blocks, p: nat, a: Alloc, b: nat, n: nat)
    requires AllocOk(mem, blocks, p, a)
    requires SameOutside(mem, mem', b, n) && p <= b && b + n <= p + a.size
    ensures AllocOk(mem', blocks, p, a)
  {
    Unchanged(mem, mem', b, n, a.hdr, 8);
    if a.aligned {
      Unchanged(mem, mem', b, n, p - 16, 4);
      Unchanged(mem, mem', b, n, p - 8, 8);
    }
  }

  /** Writing into a live payload. */
  lemma WriteKeepsGood(s: Snapshot, p: nat, mem': seq<byte>, b: nat, n: nat)
    requires Good(s) && p in s.live && AllocOk(s.mem, s.blocks, p, s.live[p])
    requires SameOutside(s.mem, mem', b, n) && p <= b && b + n <= p + s.live[p].size
    ensures Good(s.(mem := mem')) && SamePayloads(s.mem, mem', s.live - {p})
  {
    var h, rest := s.live[p].hdr, s.live - {p};
    LiveRest(s, p);
    ChainFrame(s.mem, mem', s.brk, s.blocks, h, b, n, s.chain);
    LiveFrame(s.mem, mem', s.brk, s.blocks, h, b, n, rest);
    WriteAlloc(s.mem, mem', s.blocks, p, s.live[p], b, n);
    forall q ensures LiveAt(mem', s.blocks, s.live, q) {
      assert LiveAt(mem', s.blocks, rest, q);
    }
  }

  // ---------------------------------------------------------------- the allocator

  ghost predicate Fits(mem: seq<byte>, h: nat, size: nat) {
    h + HEADER <= |mem| && size <= Load(mem, h, 8)
  }

  /** Block k is the first of the list whose recorded size is enough. */
  ghost predicate FirstFit(mem: seq<byte>, chain: seq<nat>, k: nat, size: nat) {
    k < |chain| && Fits(mem, chain[k], size) && forall j | 0 <= j < k :: !Fits(mem, chain[j], size)
  }

  ghost predicate NoFit(mem: seq<byte>, chain: seq<nat>, size: nat) {
    forall j | 0 <= j < |chain| :: !Fits(mem, chain[j], size)
  }

  /** t is s after the first fitting block was taken off the list. */
  ghost predicate Reused(s: Snapshot, t: Snapshot, k: nat, size: nat) {
    && FirstFit(s.mem, s.chain, k, size)
    && (k > 0 ==> s.chain[k - 1] + HEADER <= |s.mem|)
    && t == Reuse(s, k, size)
  }

  /** t is s after no block fitted and sbrk delivered a new one at h. */
  ghost predicate Grown(s: Snapshot, t: Snapshot, h: nat, size: nat) {
    && NoFit(s.mem, s.chain, size)
    && s.brk <= h && h + HEADER + size <= |s.mem| && h !in s.blocks
    && t == Grow(s, h, size)
  }

  /** The outcomes of malloc: NULL and nothing changed, the first fit, or a new block. */
  ghost predicate Allocated(s: Snapshot, t: Snapshot, p: nat, size: nat) {
    || (p == 0 && t == s)
    || (exists k: nat :: Reused(s, t, k, size) && p == s.chain[k] + HEADER)
    || (p >= HEADER && Grown(s, t, p - HEADER, size))
  }

  /** The sizes malloc mishandles: it accepts them, but with the header they turn into a
      negative sbrk increment. */
  predicate Negative(size: nat) {
    INTPTR_SPAN <= size + HEADER <= SIZE_MAX
  }

  /** What the kernel says to one sbrk: no, or yes after others have moved the break up by the gap. */
  datatype Reply = Refusal | Room(gap: nat)

  /** When the replies are used up the kernel just says yes. */
  function Reply0(kernel: seq<Reply>): Reply {
    if kernel == [] then Room(0) else kernel[0]
  }

  function Later(kernel: seq<Reply>): seq<Reply> {
    if kernel == [] then [] else kernel[1..]
  }

  /** The countdown to the failure a caller can ask for, after one call. */
  function Countdown(failAfter: int): int {
    if failAfter < 0 then failAfter else failAfter - 1
  }

  function After(kernel: seq<Reply>, calls: nat): seq<Reply> {
    if calls <= |kernel| then kernel[calls..] else []
  }

  function Gap(kernel: seq<Reply>, increment: nat): nat {
    if increment == 0 || Reply0(kernel).Refusal? then 0 else Reply0(kernel).gap
  }

  predicate Refuses(kernel: seq<Reply>, brk: nat, limit: nat, increment: nat) {
    Reply0(kernel).Refusal? || brk + Gap(kernel, increment) + increment > limit
  }

  /** The tag test of free looks at the low half of the recorded size. */
  predicate LooksTagged(size: nat) {
    size % 0x1_0000_0000 == TAG
  }

  lemma ReusedIsGood(s: Snapshot, k: nat, size: nat)
    requires Good(s) && FirstFit(s.mem, s.chain, k, size) && size < WORD_SPAN
    ensures k > 0 ==> s.chain[k - 1] + HEADER <= |s.mem|
    ensures Good(Reuse(s, k, size)) && SamePayloads(s.mem, Reuse(s, k, size).mem, s.live)
    ensures s.chain[k] + HEADER !in s.live
    ensures k > 0 ==> s.chain[k - 1] != 0
    ensures Load(s.mem, s.chain[k] + 8, 8) == Link(s.chain, k + 1)
    ensures Link(Without(s.chain, k), 0) == if k == 0 then Link(s.chain, 1) else s.chain[0]
  {
    assert Entry(s.mem, s.blocks, s.chain, k);
    if k > 0 { assert Entry(s.mem, s.blocks, s.chain, k - 1); }
    ChainPositive(s);
    ReuseKeepsGood(s, k, size);
  }

  lemma ChainPositive(s: Snapshot)
    requires Good(s)
    ensures forall k | 0 <= k < |s.chain| :: s.chain[k] > 0
  {
    forall k | 0 <= k < |s.chain| ensures s.chain[k] > 0 {
      assert Entry(s.mem, s.blocks, s.chain, k) && Inside(s.brk, s.blocks, s.chain[k]);
    }
  }

  lemma ReusedMeans(s: Snapshot, t: Snapshot, k: nat, p: nat, size: nat)
    requires Good(s) && Reused(s, t, k, size) && p == s.chain[k] + HEADER && size < WORD_SPAN
    ensures p !in s.live && t.live == s.live[p := Alloc(p - HEADER, size, false)]
    ensures SamePayloads(s.mem, t.mem, s.live)
  {
    ReusedIsGood(s, k, size);
  }

  /** What every successful malloc promises its caller. */
  lemma AllocatedMeans(s: Snapshot, t: Snapshot, p: nat, size: nat)
    requires Good(s) && Allocated(s, t, p, size) && p != 0 && size < WORD_SPAN
    ensures p >= HEADER && p !in s.live && t.live == s.live[p := Alloc(p - HEADER, size, false)]
    ensures SamePayloads(s.mem, t.mem, s.live)
  {
    if k: nat :| Reused(s, t, k, size) && p == s.chain[k] + HEADER {
      ReusedMeans(s, t, k, p, size);
    } else {
      GrowKeepsGood(s, p - HEADER, size);
    }
  }

  class Allocator {
    var mem: seq<byte>                    // address a is mem[a]; NULL is 0
    var brk: nat
    var freeList: nat
    var failAfter: int                    // vlibc_test_alloc_fail_after
    ghost var blocks: Blocks
    ghost var chain: seq<nat>
    ghost var live: map<nat, Alloc>
    var kernel: seq<Reply>                // what sbrk will answer, call by call

    ghost function State(): Snapshot
      reads this
    {
      Snapshot(mem, brk, blocks, chain, live)
    }

    ghost predicate Valid()
      reads this
    {
      Good(State()) && freeList == Link(chain, 0)
    }

    /** Exactly when malloc answers NULL. */
    ghost predicate Denies(size: nat)
      reads this
    {
      || failAfter == 0
      || size == 0
      || Refuses(kernel, brk, |mem|, 0)
      || size > SIZE_MAX - HEADER
      || (NoFit(mem, chain, size) && Refuses(Later(kernel), brk, |mem|, HEADER + size))
    }

    /** How often malloc calls sbrk. */
    ghost function SbrkCalls(size: nat): nat
      reads this
    {
      if failAfter == 0 || size == 0 then 0
      else if Refuses(kernel, brk, |mem|, 0) || size > SIZE_MAX - HEADER || !NoFit(mem, chain, size) then 1
      else 2
    }

    constructor (memory: seq<byte>, start: nat, replies: seq<Reply>)
      requires 0 < start <= |memory| < WORD_SPAN
      ensures Valid() && State() == Snapshot(memory, start, map[], [], map[])
      ensures failAfter == -1 && kernel == replies
    {
      mem, brk, freeList, failAfter, kernel := memory, start, 0, -1, replies;
      blocks, chain, live := map[], [], map[];
    }

    /** sbrk. */
    method Sbrk(increment: nat) returns (r: int)
      requires brk <= |mem|
      modifies this`brk, this`kernel
      ensures r < 0 <==> Refuses(old(kernel), old(brk), |mem|, increment)
      ensures r < 0 ==> brk == old(brk)
      ensures r >= 0 ==> r == old(brk) + Gap(old(kernel), increment) && brk == r + increment <= |mem|
      ensures kernel == Later(old(kernel))
    {
      var reply := if kernel == [] then Room(0) else kernel[0];
      kernel := if kernel == [] then [] else kernel[1..];
      match reply
      case Refusal => r := -1;
      case Room(gap) =>
        r := if increment == 0 then brk else brk + gap;
        if r + increment > |mem| {
          r := -1;
        } else {
          brk := r + increment;
        }
    }

    /** The first-fit walk: the block found and its predecessor, 0 for none. */
    method Search(size: nat) returns (prev: nat, b: nat, ghost k: nat)
      requires Valid()
      ensures k <= |chain| && b == Link(chain, k) && prev == (if k == 0 then 0 else chain[k - 1])
      ensures if b == 0 then NoFit(mem, chain, size) else FirstFit(mem, chain, k, size)
    {
      prev, b, k := 0, freeList, 0;
      ChainPositive(State());
      while b != 0
        invariant k <= |chain| && b == Link(chain, k) && prev == (if k == 0 then 0 else chain[k - 1])
        invariant forall j | 0 <= j < k :: !Fits(mem, chain[j], size)
        decreases |chain| - k
      {
        assert Entry(mem, blocks, chain, k);
        if Load(mem, b, 8) >= size {
          return;
        }
        prev := b;
        b := Load(mem, b + 8, 8);
        k := k + 1;
      }
      assert k == |chain|;
    }

    /** Unlinks the block found and overwrites its size. */
    method Detach(prev: nat, b: nat, ghost k: nat, size: nat) returns (p: nat)
      requires Valid() && FirstFit(mem, chain, k, size) && size < WORD_SPAN
      requires b == chain[k] && prev == (if k == 0 then 0 else chain[k - 1])
      modifies this`mem, this`freeList, this`chain, this`live
      ensures Valid() && Reused(old(State()), State(), k, size) && p == b + HEADER
    {
      hide Good, Load, Store;
      ghost var s := State();
      ReusedIsGood(s, k, size);
      var next := Load(mem, b + 8, 8);
      if prev != 0 {
        mem := Store(mem, prev + 8, next, 8);
      } else {
        freeList := next;
      }
      mem := Store(mem, b, size, 8);
      p := b + HEADER;
      chain, live := Without(chain, k), live[p := Alloc(b, size, false)];
      assert State() == Reuse(s, k, size);
    }

    /** A new block from sbrk. */
    method Extend(size: nat) returns (p: nat)
      requires Valid() && NoFit(mem, chain, size) && size < WORD_SPAN
      modifies this`mem, this`brk, this`blocks, this`live, this`kernel
      ensures Valid() && kernel == Later(old(kernel))
      ensures p == 0 <==> Refuses(old(kernel), old(brk), |old(mem)|, HEADER + size)
      ensures p != 0 ==> p == old(brk) + Gap(old(kernel), HEADER + size) + HEADER
      ensures if p == 0 then State() == old(State()) else p >= HEADER && Grown(old(State()), State(), p - HEADER, size)
    {
      ghost var s := State();
      var h := Sbrk(HEADER + size);
      if h < 0 {
        return 0;
      }
      GrowKeepsGood(s, h, size);
      mem := Store(mem, h, size, 8);
      p := h + HEADER;
      blocks, live := blocks[h := size], live[p := Alloc(h, size, false)];
      assert State() == Grow(s, h, size);
    }

    /** malloc: first fit on the free list, then sbrk.  Returns 0 for NULL. */
    method Malloc(size: nat) returns (p: nat)
      requires Valid() && size <= SIZE_MAX && !Negative(size)
      modifies this
      ensures Valid() && Allocated(old(State()), State(), p, size)
      ensures p == 0 <==> old(Denies(size))
      ensures forall k: nat :: p != 0 && old(FirstFit(mem, chain, k, size)) ==> p == old(chain[k]) + HEADER
      ensures p != 0 && old(NoFit(mem, chain, size)) ==>
                p == old(brk) + Gap(Later(old(kernel)), HEADER + size) + HEADER
      ensures failAfter == Countdown(old(failAfter)) && kernel == After(old(kernel), old(SbrkCalls(size)))
    {
      if failAfter >= 0 {
        failAfter := failAfter - 1;
        if failAfter == -1 { return 0; }
      }
      if size == 0 { return 0; }
      var probe := Sbrk(0);
      if probe < 0 { return 0; }
      if size > SIZE_MAX - HEADER { return 0; }
      var prev, b, k := Search(size);
      if b != 0 {
        p := Detach(prev, b, k, size);
      } else {
        p := Extend(size);
      }
    }

    /** free_impl: the list in memory gains the block in front, and nothing else changes. */
    method FreeImpl(orig: nat)
      requires BlocksOk(mem, brk, blocks) && ChainOk(mem, blocks, chain) && freeList == Link(chain, 0)
      requires orig != 0 ==> orig >= HEADER && Recorded(mem, blocks, orig - HEADER) && orig - HEADER !in chain
      modifies this`mem, this`freeList, this`chain
      ensures ChainOk(mem, blocks, chain) && freeList == Link(chain, 0)
      ensures orig == 0 ==> mem == old(mem) && chain == old(chain)
      ensures orig != 0 ==> chain == [orig - HEADER] + old(chain) && SameOutside(old(mem), mem, orig - HEADER + 8, 8)
      ensures orig != 0 ==> mem == Store(old(mem), orig - HEADER + 8, Link(old(chain), 0), 8)
    {
      if orig == 0 { return; }
      var hdr := orig - HEADER;
      PushKeepsChain(mem, brk, blocks, chain, hdr);
      mem := Store(mem, hdr + 8, freeList, 8);
      freeList := hdr;
      chain := [hdr] + chain;
    }

    /** free: the original block of a live pointer goes back to the list, whole. */
    method Free(p: nat)
      requires Valid() && (p != 0 ==> p in live && (live[p].aligned || !LooksTagged(live[p].size)))
      modifies this`mem, this`freeList, this`chain, this`live
      ensures Valid() && Freed(old(State()), State(), p)
    {
      if p == 0 { return; }
      hide Good, Load, Store, BlocksOk, ChainOk, Recorded;
      ghost var s := State();
      FreeReady(s, p);
      if Load(mem, p - 16, 4) == TAG {
        var orig := Load(mem, p - 8, 8);
        mem := Store(mem, p - 16, 0, 4);
        FreeImpl(orig);
      } else {
        FreeImpl(p);
      }
      live := live - {p};
      assert State() == Release(s, p);
    }

    /** The caller, or the library for it, writes bytes into a live payload. */
    method Write(p: nat, offset: nat, data: seq<byte>)
      requires Valid() && p in live && offset + |data| <= live[p].size
      requires p + live[p].size <= |mem|
      modifies this`mem
      ensures Valid() && Written(old(State()), State(), p, offset, data)
    {
      ghost var s := State();
      LiveRest(s, p);
      Overlay(mem, p + offset, data);
      mem := mem[..p + offset] + data + mem[p + offset + |data|..];
      WriteKeepsGood(s, p, mem, p + offset, |data|);
    }

    /** malloc as its callers inside the library see it. */
    method Obtain(size: nat) returns (p: nat)
      requires Valid() && size <= SIZE_MAX && !Negative(size)
      modifies this
      ensures Valid() && Obtained(old(State()), State(), p, size) && (p == 0 <==> old(Denies(size)))
      ensures failAfter == Countdown(old(failAfter)) && kernel == After(old(kernel), old(SbrkCalls(size)))
    {
      ghost var s := State();
      p := Malloc(size);
      if p != 0 {
        AllocatedMeans(s, State(), p, size);
        LiveInMemory(State(), p);
      }
    }

    /** The first half of a moving realloc: a new allocation with the old contents. */
    method Duplicate(p: nat, size: nat) returns (q: nat)
      requires Valid() && 0 < size <= SIZE_MAX && !Negative(size)
      requires p != 0 && p in live && !live[p].aligned
      modifies this
      ensures Valid() && (q == 0 <==> old(Denies(size)))
      ensures if q == 0 then State() == old(State()) else Copied(old(State()), State(), p, q, size)
      ensures failAfter == Countdown(old(failAfter)) && kernel == After(old(kernel), old(SbrkCalls(size)))
    {
      ghost var s := State();
      LiveRest(s, p);
      var oldSize := Load(mem, p - HEADER, 8);
      var copy := if oldSize < size then oldSize else size;
      q := Obtain(size);
      if q != 0 {
        ghost var t := State();
        assert SamePayload(s.mem, t.mem, s.live, p);
        Write(q, 0, mem[p..p + copy]);
        CopiedBy(s, t, State(), p, q, size);
      }
    }

    /** The part of realloc that moves an allocation. */
    method Resize(p: nat, size: nat) returns (q: nat)
      requires Valid() && 0 < size <= SIZE_MAX && !Negative(size)
      requires p != 0 && p in live && !live[p].aligned && !LooksTagged(live[p].size)
      modifies this
      ensures Valid() && (q == 0 <==> old(Denies(size)))
      ensures if q == 0 then State() == old(State()) else Moved(old(State()), State(), p, q, size)
      ensures failAfter == Countdown(old(failAfter)) && kernel == After(old(kernel), old(SbrkCalls(size)))
    {
      ghost var s := State();
      q := Duplicate(p, size);
      if q != 0 {
        ghost var t := State();
        Free(p);
        FreedMeans(t, State(), p);
        CopiedThenFreed(s, t, State(), p, q, size);
      }
    }

    /** realloc of a pointer from malloc: the common prefix of the payload moves. */
    method Realloc(p: nat, size: nat) returns (q: nat)
      requires Valid() && size <= SIZE_MAX && !Negative(size)
      requires p != 0 ==> p in live && !live[p].aligned && !LooksTagged(live[p].size)
      modifies this
      ensures Valid() && (q == 0 <==> old(Denies(size)) || (p != 0 && size == 0))
      ensures p == 0 ==> Allocated(old(State()), State(), q, size)
      ensures p != 0 && size == 0 ==> q == 0 && Freed(old(State()), State(), p)
      ensures p != 0 && size > 0 && q == 0 ==> State() == old(State())
      ensures p != 0 && q != 0 ==> Moved(old(State()), State(), p, q, size)
      ensures if p != 0 && size == 0 then failAfter == old(failAfter) && kernel == old(kernel)
              else failAfter == Countdown(old(failAfter)) && kernel == After(old(kernel), old(SbrkCalls(size)))
    {
      if p == 0 {
        q := Malloc(size);
      } else if size == 0 {
        Free(p);
        q := 0;
      } else {
        q := Resize(p, size);
      }
    }

    /** posix_memalign; `rc` is 0, EINVAL or ENOMEM. */
    method PosixMemalign(alignment: nat, size: nat) returns (rc: int, p: nat)
      requires Valid() && size <= SIZE_MAX && alignment <= SIZE_MAX
      requires PowerOfTwo(alignment) && alignment % 8 == 0 ==> !Negative(size + alignment - 1 + HEADER)
      modifies this
      ensures Valid()
      ensures rc in {0, EINVAL, ENOMEM}
      ensures rc == EINVAL <==> !(PowerOfTwo(alignment) && alignment % 8 == 0)
      ensures rc == ENOMEM <==> PowerOfTwo(alignment) && alignment % 8 == 0 &&
                                (size + alignment - 1 + HEADER > SIZE_MAX || old(Denies(size + alignment - 1 + HEADER)))
      ensures if rc != 0 then State() == old(State()) else Aligned(old(State()), State(), p, alignment, size)
      ensures rc == EINVAL || size + alignment - 1 + HEADER > SIZE_MAX ==> failAfter == old(failAfter) && kernel == old(kernel)
      ensures rc != EINVAL && size + alignment - 1 + HEADER <= SIZE_MAX ==>
                failAfter == Countdown(old(failAfter)) &&
                kernel == After(old(kernel), old(SbrkCalls(size + alignment - 1 + HEADER)))
    {
      hide And, RoundUp, Good, Load, Store;
      p := 0;
      if alignment > 0 { AndBelow(alignment); }
      if alignment == 0 || And(alignment, alignment - 1) != 0 || alignment % 8 != 0 { return EINVAL, p; }
      var extra := alignment - 1;
      if extra > SIZE_MAX - HEADER { return ENOMEM, p; }
      extra := extra + HEADER;
      if size > SIZE_MAX - extra { return ENOMEM, p; }
      ghost var s := State();
      var orig := Obtain(size + extra);
      if orig == 0 { return ENOMEM, p; }
      ghost var t := State();
      MemoryBound(t);
      p := RoundUp(orig + HEADER, alignment);
      LiveRest(t, orig);
      RetagKeepsGood(t, orig, p, size);
      mem := Store(mem, p - 16, TAG, 4);
      mem := Store(mem, p - 8, orig, 8);
      live := (live - {orig})[p := Alloc(orig - HEADER, size, true)];
      assert State() == Retag(t, orig, p, size);
      AlignedBy(s, t, State(), orig, p, alignment, size);
      rc := 0;
    }

    /** calloc: the product is checked, the payload is zero. */
    method Calloc(nmemb: nat, size: nat) returns (p: nat)
      requires Valid() && nmemb <= SIZE_MAX && size <= SIZE_MAX && !Negative(nmemb * size)
      modifies this
      ensures Valid()
      ensures p == 0 <==> nmemb * size > SIZE_MAX || old(Denies(nmemb * size))
      ensures if p == 0 then State() == old(State())
              else Filled(old(State()), State(), p, nmemb * size)
      ensures if nmemb * size > SIZE_MAX then failAfter == old(failAfter) && kernel == old(kernel)
              else failAfter == Countdown(old(failAfter)) && kernel == After(old(kernel), old(SbrkCalls(nmemb * size)))
    {
      ghost var s := State();
      if size != 0 && nmemb > SIZE_MAX / size {
        ProductTooBig(nmemb, size);
        return 0;
      }
      ProductFits(nmemb, size);
      var total := nmemb * size;
      p := Obtain(total);
      if p != 0 {
        ghost var t := State();
        Write(p, 0, seq(total, _ => 0 as byte));
        FilledBy(s, t, State(), p, total);
      }
    }

    /** recallocarray of NULL or a pointer from malloc: calloc, or realloc and zero what was added. */
    method Recallocarray(p: nat, nmemb: nat, size: nat) returns (q: nat)
      requires Valid() && nmemb <= SIZE_MAX && size <= SIZE_MAX && !Negative(nmemb * size)
      requires p != 0 ==> p in live && !live[p].aligned && !LooksTagged(live[p].size)
      modifies this
      ensures Valid()
      ensures q == 0 <==> nmemb * size > SIZE_MAX || nmemb * size == 0 || old(Denies(nmemb * size))
      ensures p == 0 ==> if q == 0 then State() == old(State()) else Filled(old(State()), State(), q, nmemb * size)
      ensures p != 0 && nmemb * size == 0 ==> q == 0 && Freed(old(State()), State(), p)
      ensures p != 0 && nmemb * size > 0 && q == 0 ==> State() == old(State())
      ensures p != 0 && q != 0 ==> Moved(old(State()), State(), p, q, nmemb * size)
                                   && ZeroFrom(State().mem, q, old(live)[p].size, nmemb * size)
      ensures if nmemb * size > SIZE_MAX || (p != 0 && nmemb * size == 0)
              then failAfter == old(failAfter) && kernel == old(kernel)
              else failAfter == Countdown(old(failAfter)) && kernel == After(old(kernel), old(SbrkCalls(nmemb * size)))
    {
      if size != 0 && nmemb > SIZE_MAX / size {
        ProductTooBig(nmemb, size);
        return 0;
      }
      ProductFits(nmemb, size);
      var total := nmemb * size;
      if p == 0 {
        q := Calloc(nmemb, size);
        return;
      }
      if total == 0 {
        Free(p);
        return 0;
      }
      ghost var s := State();
      LiveRest(s, p);
      var oldSize := Load(mem, p - HEADER, 8);
      q := Resize(p, total);
      if q != 0 && total > oldSize {
        ghost var t := State();
        LiveInMemory(t, q);
        Write(q, oldSize, seq(total - oldSize, _ => 0 as byte));
        ZeroedTail(s, t, State(), p, q, total);
      }
    }
  }

  const EINVAL := 22
  const ENOMEM := 12

  lemma Pow2Of64()
    ensures Words.Pow2(64) == WORD_SPAN
  {
    assert Words.Pow2(8) == 256;
    assert Words.Pow2(16) == 65536 by { PowEight(8); }
    assert Words.Pow2(24) == 0x100_0000 by { PowEight(16); }
    assert Words.Pow2(32) == 0x1_0000_0000 by { PowEight(24); }
    assert Words.Pow2(40) == 0x100_0000_0000 by { PowEight(32); }
    assert Words.Pow2(48) == 0x1_0000_0000_0000 by { PowEight(40); }
    assert Words.Pow2(56) == 0x100_0000_0000_0000 by { PowEight(48); }
    PowEight(56);
  }

  lemma PowEight(n: nat)
    ensures Words.Pow2(n + 8) == 256 * Words.Pow2(n)
  {
    assert Words.Pow2(n + 2) == 4 * Words.Pow2(n);
    assert Words.Pow2(n + 4) == 4 * Words.Pow2(n + 2);
    assert Words.Pow2(n + 6) == 4 * Words.Pow2(n + 4);
    assert Words.Pow2(n + 8) == 4 * Words.Pow2(n + 6);
  }

  /** (a + m - 1) & ~(m - 1) in 64 bits: the next multiple of a power of two. */
  function RoundUp(a: nat, m: nat): (r: nat)
    requires PowerOfTwo(m) && a + m - 1 < WORD_SPAN
    ensures r % m == 0 && a <= r < a + m
  {
    NextMultiple(a, m);
    And(a + m - 1, WORD_SPAN - m)
  }

  lemma NextMultiple(a: nat, m: nat)
    requires PowerOfTwo(m) && a + m - 1 < WORD_SPAN
    ensures m <= WORD_SPAN
    ensures var r := And(a + m - 1, WORD_SPAN - m); r % m == 0 && a <= r < a + m
  {
    assert m > 0;
    hide And, PowerOfTwo, Words.Pow2;
    var x := a + m - 1;
    Pow2Of64();
    AndMask(x, 64, m);
    MultipleBelow(x, m);
  }

  lemma MultipleBelow(x: nat, m: nat)
    requires m > 0
    ensures x / m * m % m == 0 && x - m < x / m * m <= x
  {
    MultipleMod(x / m, m);
    assert x == x / m * m + x % m;
  }

  lemma MultipleMod(q: nat, m: nat)
    requires m > 0
    ensures q * m % m == 0
  {
    ModUnique(q * m, m, q, 0);
  }

  /** t is s with one more live pointer, aligned as asked, inside a block of its own, and
      every other payload as it was. */
  ghost predicate Aligned(s: Snapshot, t: Snapshot, p: nat, alignment: nat, size: nat) {
    && alignment > 0 && p % alignment == 0 && p !in s.live && p in t.live
    && t.live[p].size == size && t.live[p].aligned && t.live == s.live[p := t.live[p]]
    && SamePayloads(s.mem, t.mem, s.live)
  }

  lemma AlignedBy(s: Snapshot, t: Snapshot, u: Snapshot, orig: nat, p: nat, alignment: nat, size: nat)
    requires alignment > 0 && p % alignment == 0
    requires orig >= HEADER && orig !in s.live
    requires t.live == s.live[orig := Alloc(orig - HEADER, size + alignment - 1 + HEADER, false)]
    requires u.live == (t.live - {orig})[p := Alloc(orig - HEADER, size, true)]
    requires SamePayloads(s.mem, t.mem, s.live) && SamePayloads(t.mem, u.mem, t.live - {orig}) && p !in t.live - {orig}
    ensures Aligned(s, u, p, alignment, size)
  {
    assert t.live - {orig} == s.live;
    forall r ensures SamePayload(s.mem, u.mem, s.live, r) {
      assert SamePayload(s.mem, t.mem, s.live, r) && SamePayload(t.mem, u.mem, t.live - {orig}, r);
    }
  }

  /** t is s with one more allocation, whose payload is all zero. */
  ghost predicate Filled(s: Snapshot, t: Snapshot, p: nat, size: nat) {
    && p >= HEADER && p !in s.live && t.live == s.live[p := Alloc(p - HEADER, size, false)]
    && SamePayloads(s.mem, t.mem, s.live)
    && p + size <= |t.mem| && forall i | p <= i < p + size :: t.mem[i] == 0
  }

  lemma FilledBy(s: Snapshot, t: Snapshot, u: Snapshot, p: nat, size: nat)
    requires p != 0 && Obtained(s, t, p, size) && Written(t, u, p, 0, seq(size, _ => 0 as byte))
    ensures Filled(s, u, p, size)
  {
    forall i | p <= i < p + size ensures u.mem[i] == 0 {
      assert u.mem[p..p + size][i - p] == 0;
    }
    forall r ensures SamePayload(s.mem, u.mem, s.live, r) {
      assert SamePayload(s.mem, t.mem, s.live, r) && SamePayload(t.mem, u.mem, t.live - {p}, r);
    }
  }

  predicate ZeroFrom(mem: seq<byte>, q: nat, from: nat, size: nat) {
    q + size <= |mem| && forall i | q + from <= i < q + size :: mem[i] == 0
  }

  lemma ZeroedTail(s: Snapshot, t: Snapshot, u: Snapshot, p: nat, q: nat, size: nat)
    requires Moved(s, t, p, q, size) && s.live[p].size < size && q + size <= |t.mem|
    requires Written(t, u, q, s.live[p].size, seq(size - s.live[p].size, _ => 0 as byte))
    ensures Moved(s, u, p, q, size) && ZeroFrom(u.mem, q, s.live[p].size, size)
  {
    var n, rest := s.live[p].size, s.live - {p};
    Unchanged(t.mem, u.mem, q + n, size - n, q, n);
    forall i | q + n <= i < q + size ensures u.mem[i] == 0 {
      assert u.mem[q + n..q + n + (size - n)][i - (q + n)] == 0;
    }
    forall r ensures SamePayload(s.mem, u.mem, rest, r) {
      assert SamePayload(s.mem, t.mem, rest, r) && SamePayload(t.mem, u.mem, t.live - {q}, r);
    }
  }

  lemma ProductTooBig(m: nat, n: nat)
    requires n > 0 && m > SIZE_MAX / n
    ensures m * n > SIZE_MAX
  {
    var q := SIZE_MAX / n;
    assert q * n + SIZE_MAX % n == SIZE_MAX;
    ProductGap(m, q, n);
  }

  lemma ProductFits(m: nat, n: nat)
    requires n == 0 || m <= SIZE_MAX / n
    ensures m * n <= SIZE_MAX
  {
    if n > 0 {
      var q := SIZE_MAX / n;
      assert q * n + SIZE_MAX % n == SIZE_MAX;
      if m < q { ProductGap(q, m, n); }
    }
  }

  /** The outcome of malloc for its callers: NULL and nothing changed, or one more live pointer
      whose payload is in memory, and every other payload as it was. */
  ghost predicate Obtained(s: Snapshot, t: Snapshot, p: nat, size: nat) {
    if p == 0 then t == s
    else && p >= HEADER && p !in s.live && t.live == s.live[p := Alloc(p - HEADER, size, false)]
         && p + size <= |t.mem| && SamePayloads(s.mem, t.mem, s.live)
  }

  lemma MemoryBound(s: Snapshot)
    requires Good(s)
    ensures |s.mem| < WORD_SPAN
  {
  }

  lemma LiveInMemory(s: Snapshot, p: nat)
    requires Good(s) && p in s.live
    ensures p + s.live[p].size <= |s.mem|
  {
    assert LiveAt(s.mem, s.blocks, s.live, p);
  }

  lemma Overlay(mem: seq<byte>, b: nat, data: seq<byte>)
    requires b + |data| <= |mem|
    ensures SameOutside(mem, mem[..b] + data + mem[b + |data|..], b, |data|)
  {
  }

  /** t is s after `data` was written at the offset of a live payload. */
  ghost predicate Written(s: Snapshot, t: Snapshot, p: nat, offset: nat, data: seq<byte>) {
    && p in s.live && t == s.(mem := t.mem) && offset + |data| <= s.live[p].size
    && SameOutside(s.mem, t.mem, p + offset, |data|)
    && t.mem[p + offset..p + offset + |data|] == data
    && SamePayloads(s.mem, t.mem, s.live - {p})
  }

  /** t is s after the allocation p became the allocation q of another size: the common prefix
      of the payload is kept, and so is every other payload. */
  ghost predicate Moved(s: Snapshot, t: Snapshot, p: nat, q: nat, size: nat) {
    && p in s.live && q !in s.live && q >= HEADER
    && t.live == (s.live - {p})[q := Alloc(q - HEADER, size, false)]
    && SamePayloads(s.mem, t.mem, s.live - {p})
    && Prefix(s.mem, t.mem, p, q, Shorter(s.live[p].size, size))
  }

  lemma PrefixSame(mem: seq<byte>, mem': seq<byte>, p: nat, size: nat, n: nat)
    requires p + size <= |mem| && |mem| == |mem'| && Payload(mem', p, size) == Payload(mem, p, size) && n <= size
    ensures Payload(mem', p, n) == Payload(mem, p, n)
  {
    assert Payload(mem', p, n) == Payload(mem', p, size)[..n];
    assert Payload(mem, p, n) == Payload(mem, p, size)[..n];
  }

  function Shorter(m: nat, n: nat): nat {
    if m < n then m else n
  }

  /** The n first bytes of a payload of s are the n first bytes of a payload of t. */
  predicate Prefix(a: seq<byte>, b: seq<byte>, p: nat, q: nat, n: nat) {
    p + n <= |a| && q + n <= |b| && Payload(b, q, n) == Payload(a, p, n)
  }

  /** t is s with one more allocation q, which starts with the contents of p. */
  ghost predicate Copied(s: Snapshot, t: Snapshot, p: nat, q: nat, size: nat) {
    && p in s.live && q !in s.live && q >= HEADER
    && t.live == s.live[q := Alloc(q - HEADER, size, false)]
    && SamePayloads(s.mem, t.mem, s.live)
    && Prefix(s.mem, t.mem, p, q, Shorter(s.live[p].size, size))
  }

  lemma CopiedBy(s: Snapshot, t: Snapshot, u: Snapshot, p: nat, q: nat, size: nat)
    requires p in s.live && q !in s.live && q >= HEADER && t.live == s.live[q := Alloc(q - HEADER, size, false)]
    requires SamePayloads(s.mem, t.mem, s.live)
    requires var n := Shorter(s.live[p].size, size); p + n <= |t.mem| && Written(t, u, q, 0, t.mem[p..p + n])
    ensures Copied(s, u, p, q, size)
  {
    var n := Shorter(s.live[p].size, size);
    assert SamePayload(s.mem, t.mem, s.live, p);
    PrefixSame(s.mem, t.mem, p, s.live[p].size, n);
    forall r ensures SamePayload(s.mem, u.mem, s.live, r) {
      assert SamePayload(s.mem, t.mem, s.live, r) && SamePayload(t.mem, u.mem, t.live - {q}, r);
    }
  }

  lemma CopiedThenFreed(s: Snapshot, t: Snapshot, u: Snapshot, p: nat, q: nat, size: nat)
    requires Copied(s, t, p, q, size)
    requires u.live == t.live - {p} && SamePayloads(t.mem, u.mem, t.live - {p})
    ensures Moved(s, u, p, q, size)
  {
    var rest, n := s.live - {p}, Shorter(s.live[p].size, size);
    assert u.live == rest[q := Alloc(q - HEADER, size, false)];
    assert SamePayload(t.mem, u.mem, t.live - {p}, q);
    PrefixSame(t.mem, u.mem, q, size, n);
    forall r ensures SamePayload(s.mem, u.mem, rest, r) {
      assert SamePayload(s.mem, t.mem, s.live, r) && SamePayload(t.mem, u.mem, t.live - {p}, r);
    }
  }

  /** What free promises for the other pointers. */
  lemma FreedMeans(s: Snapshot, t: Snapshot, p: nat)
    requires Good(s) && Freed(s, t, p) && p != 0
    ensures t.live == s.live - {p} && SamePayloads(s.mem, t.mem, s.live - {p})
    ensures t.chain == [s.live[p].hdr] + s.chain && t.blocks == s.blocks && t.brk == s.brk
  {
    LiveRest(s, p);
    ReleaseKeepsGood(s, p);
  }

  /** The outcome of free: nothing for NULL, else the block is first on the list and the
      pointer is no longer live. */
  ghost predicate Freed(s: Snapshot, t: Snapshot, p: nat) {
    if p == 0 then t == s
    else p in s.live && 16 <= p <= |s.mem| && s.live[p].hdr + HEADER <= |s.mem| && t == Release(s, p)
  }

  /** What free sees before a plain pointer: the tag exactly when the low half of the
      requested size happens to be the tag's value. */
  lemma PlainLooks(mem: seq<byte>, blocks: Blocks, p: nat, a: Alloc)
    requires AllocOk(mem, blocks, p, a)
    ensures p >= 16
    ensures !a.aligned ==> (Load(mem, p - 16, 4) == TAG <==> LooksTagged(a.size))
  {
    if !a.aligned {
      var word := mem[a.hdr..a.hdr + 8];
      Low32(word);
      assert word[..4] == mem[p - 16..p - 16 + 4];
    }
  }

  /** What free relies on when it looks before a live pointer. */
  lemma FreeReady(s: Snapshot, p: nat)
    requires Good(s) && p in s.live && (s.live[p].aligned || !LooksTagged(s.live[p].size))
    ensures 16 <= p <= |s.mem| && s.live[p].hdr + HEADER <= |s.mem| && s.live[p].hdr !in s.chain
    ensures Load(s.mem, p - 16, 4) == TAG <==> s.live[p].aligned
    ensures s.live[p].hdr + HEADER == if s.live[p].aligned then Load(s.mem, p - 8, 8) else p
    ensures var mem' := Cleared(s, p);
            BlocksOk(mem', s.brk, s.blocks) && ChainOk(mem', s.blocks, s.chain) && Recorded(mem', s.blocks, s.live[p].hdr)
    ensures Good(Release(s, p))
  {
    LiveRest(s, p);
    PlainLooks(s.mem, s.blocks, p, s.live[p]);
    ReleaseKeepsGood(s, p);
    ClearKeeps(s, p);
  }

  /** And then free clears the low half of the recorded size and takes the link word behind it
      for the original pointer. */
  lemma TaggedSizeLost(mem: seq<byte>, blocks: Blocks, p: nat, a: Alloc)
    requires AllocOk(mem, blocks, p, a) && !a.aligned && LooksTagged(a.size)
    ensures p >= 16 && Load(mem, p - 16, 4) == TAG && p - 8 == a.hdr + 8
    ensures Load(Store(mem, p - 16, 0, 4), a.hdr, 8) == a.size - TAG
  {
    PlainLooks(mem, blocks, p, a);
    var word, after := mem[a.hdr..a.hdr + 8], Store(mem, p - 16, 0, 4)[a.hdr..a.hdr + 8];
    StoreLoad(mem, p - 16, 0, 4);
    Unchanged(mem, Store(mem, p - 16, 0, 4), p - 16, 4, a.hdr + 4, 4);
    assert word == word[..4] + mem[a.hdr + 4..a.hdr + 8];
    assert after == Encode(0, 4) + mem[a.hdr + 4..a.hdr + 8];
    DecodeConcat(word[..4], mem[a.hdr + 4..a.hdr + 8]);
    DecodeConcat(Encode(0, 4), mem[a.hdr + 4..a.hdr + 8]);
    DecodeEncode(0, 4);
    Low32(word);
  }

  /** Such a pointer is reached by one malloc of a size that ends in the tag. */
  lemma TaggedReached(memory: seq<byte>, start: nat, size: nat)
    requires 0 < start && start + HEADER + size <= |memory| < WORD_SPAN && LooksTagged(size)
    ensures var s := Snapshot(memory, start, map[], [], map[]);
            var t := Grow(s, start, size);
            var p := start + HEADER;
            && Good(s) && Good(t) && Allocated(s, t, p, size)
            && t.live[p] == Alloc(start, size, false) && AllocOk(t.mem, t.blocks, p, t.live[p])
  {
    var s := Snapshot(memory, start, map[], [], map[]);
    GrowKeepsGood(s, start, size);
    LiveRest(Grow(s, start, size), start + HEADER);
  }

  /** A program that mallocs such a size and has free read its header. */
  method TaggedRun(memory: seq<byte>, start: nat, size: nat) returns (h: Allocator, p: nat)
    requires 0 < start && start + HEADER + size <= |memory| < WORD_SPAN && LooksTagged(size) && !Negative(size)
    ensures h.Valid() && p == start + HEADER && p in h.live && p <= |h.mem| && Load(h.mem, p - 16, 4) == TAG
  {
    h := new Allocator(memory, start, []);
    p := h.Malloc(size);
    AllocatedMeans(Snapshot(memory, start, map[], [], map[]), h.State(), p, size);
    LiveRest(h.State(), p);
    TaggedSizeLost(h.mem, h.blocks, p, h.live[p]);
  }

  /** The size a block records survives its release, and the block is the first of the list. */
  lemma ReleasedRecord(s: Snapshot, p: nat)
    requires Good(s) && p in s.live && AllocOk(s.mem, s.blocks, p, s.live[p])
    ensures var h, t := s.live[p].hdr, Release(s, p);
            && t.chain[0] == h && h + HEADER <= |t.mem| == |s.mem| && Load(t.mem, h, 8) == Load(s.mem, h, 8) < WORD_SPAN
  {
    var h, mem1 := s.live[p].hdr, Cleared(s, p);
    if s.live[p].aligned {
      StoreLoad(s.mem, p - 16, 0, 4);
      Unchanged(s.mem, mem1, p - 16, 4, h, 8);
    }
    StoreLoad(mem1, h + 8, Link(s.chain, 0), 8);
    Unchanged(mem1, Store(mem1, h + 8, Link(s.chain, 0), 8), h + 8, 8, h, 8);
  }

  /** Freed memory is used again: after free, a request that the size recorded in the block covers gets that block. */
  method FreeThenMalloc(h: Allocator, p: nat, size: nat) returns (q: nat)
    requires h.Valid() && p != 0 && p in h.live && (h.live[p].aligned || !LooksTagged(h.live[p].size))
    requires AllocOk(h.mem, h.blocks, p, h.live[p]) && 0 < size <= Load(h.mem, h.live[p].hdr, 8) && !Negative(size)
    requires h.failAfter != 0 && !Refuses(h.kernel, h.brk, |h.mem|, 0)
    modifies h
    ensures h.Valid() && q == old(h.live[p].hdr) + HEADER
  {
    ghost var s := h.State();
    ReleasedRecord(s, p);
    h.Free(p);
    assert FirstFit(h.mem, h.chain, 0, size) by {
      assert Fits(h.mem, h.chain[0], size);
    }
    q := h.Malloc(size);
  }
}
