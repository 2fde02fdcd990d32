/**
 * Buffered output streams of src/stdio.c (flush_buffer, fwrite, setvbuf) over a
 * descriptor that may accept any part of what it is offered, be interrupted or
 * fail. The descriptor is a script of outcomes; when the script is used up it
 * accepts everything.
 */
module Stdio {
  import opened Bytes

  const NEWLINE: byte := 10
  const BUFSIZ: nat := 1024

  /** What one call of write does: take at most n bytes, EINTR or EAGAIN, or another error. */
  datatype Outcome = Accept(n: nat) | Interrupted | Failed

  datatype Mode = Full | Line | Unbuffered

  /** No hard error lies ahead. */
  predicate Calm(script: seq<Outcome>) {
    forall k :: 0 <= k < |script| ==> script[k] != Failed
  }

  /** Every write ahead takes something. */
  predicate Steady(script: seq<Outcome>) {
    forall k :: 0 <= k < |script| ==> script[k].Accept? && script[k].n > 0
  }

  predicate NoNewline(s: seq<byte>) {
    NEWLINE !in s
  }

  // ---- What a script does to a number of bytes ----

  /** All bytes went out and this much of the script is left, or it stopped after `gone` bytes. */
  datatype Fate = Through(left: seq<Outcome>) | Stopped(gone: nat)

  function After(k: nat, f: Fate): Fate {
    if f.Stopped? then Stopped(k + f.gone) else f
  }

  /** flush_buffer over n bytes: interrupted writes are tried again. */
  function Flushing(script: seq<Outcome>, n: nat): Fate {
    if n == 0 || script == [] then Through(script)
    else
      match script[0]
      case Failed => Stopped(0)
      case Interrupted => Flushing(script[1..], n)
      case Accept(k) => if k >= n then Through(script[1..]) else After(k, Flushing(script[1..], n - k))
  }

  /** The unbuffered loop of fwrite over n bytes: anything but progress stops it. */
  function Direct(script: seq<Outcome>, n: nat): Fate {
    if n == 0 || script == [] then Through(script)
    else
      match script[0]
      case Failed => Stopped(0)
      case Interrupted => Stopped(0)
      case Accept(k) =>
        if k == 0 then Stopped(0)
        else if k >= n then Through(script[1..])
        else After(k, Direct(script[1..], n - k))
  }

  lemma FlushingStep(script: seq<Outcome>, n: nat)
    ensures Flushing(script, 0) == Through(script)
    ensures n > 0 && script == [] ==> Flushing(script, n) == Through(script)
    ensures n > 0 && script != [] && script[0].Failed? ==> Flushing(script, n) == Stopped(0)
    ensures n > 0 && script != [] && script[0].Interrupted? ==> Flushing(script, n) == Flushing(script[1..], n)
    ensures n > 0 && script != [] && script[0].Accept? ==>
              var k := if script[0].n < n then script[0].n else n;
              Flushing(script, n) == After(k, Flushing(script[1..], n - k))
  {
  }

  lemma DirectStep(script: seq<Outcome>, n: nat)
    ensures Direct(script, 0) == Through(script)
    ensures n > 0 && script == [] ==> Direct(script, n) == Through(script)
    ensures n > 0 && script != [] && (script[0].Accept? ==> script[0].n == 0) ==> Direct(script, n) == Stopped(0)
    ensures n > 0 && script != [] && script[0].Accept? && script[0].n > 0 ==>
              var k := if script[0].n < n then script[0].n else n;
              Direct(script, n) == After(k, Direct(script[1..], n - k))
  {
  }

  /** One flush after the other. */
  function Flushings(script: seq<Outcome>, sizes: seq<nat>): Fate
    decreases |sizes|
  {
    if sizes == [] then Through(script)
    else
      match Flushing(script, sizes[0])
      case Through(left) => Flushings(left, sizes[1..])
      case Stopped(gone) => Stopped(gone)
  }

  /** The first hard error ahead, or the end of the script. */
  function Ahead(script: seq<Outcome>): (k: nat)
    ensures k <= |script|
  {
    if script == [] || script[0].Failed? then 0 else 1 + Ahead(script[1..])
  }

  /** What all the writes of a script take when there is enough. */
  function Taken(script: seq<Outcome>): nat {
    if script == [] then 0 else (if script[0].Accept? then script[0].n else 0) + Taken(script[1..])
  }

  /** A flush stops exactly when a hard error lies ahead and the writes before it take less than all, and then
      exactly what those take is gone. */
  lemma {:induction false} FlushingStops(script: seq<Outcome>, n: nat)
    ensures var k := Ahead(script);
            && (Flushing(script, n).Stopped? <==> k < |script| && Taken(script[..k]) < n)
            && (Flushing(script, n).Stopped? ==> Flushing(script, n).gone == Taken(script[..k]))
  {
    if script != [] && !script[0].Failed? {
      var k := Ahead(script);
      assert script[..k][1..] == script[1..][..k - 1];
      match script[0] {
        case Interrupted => FlushingStops(script[1..], n);
        case Accept(m) => FlushingStops(script[1..], if m >= n then 0 else n - m);
        case Failed =>
      }
    }
  }

  /** The first write ahead that makes no progress, or the end of the script. */
  function Stall(script: seq<Outcome>): (k: nat)
    ensures k <= |script|
  {
    if script == [] || !script[0].Accept? || script[0].n == 0 then 0 else 1 + Stall(script[1..])
  }

  /** The direct loop stops exactly when a write without progress lies ahead and those before it take less than all. */
  lemma {:induction false} DirectStops(script: seq<Outcome>, n: nat)
    ensures var k := Stall(script);
            && (Direct(script, n).Stopped? <==> k < |script| && Taken(script[..k]) < n)
            && (Direct(script, n).Stopped? ==> Direct(script, n).gone == Taken(script[..k]))
  {
    if script != [] && script[0].Accept? && script[0].n > 0 {
      var k := Stall(script);
      assert script[..k][1..] == script[1..][..k - 1];
      DirectStops(script[1..], if script[0].n >= n then 0 else n - script[0].n);
    }
  }

  lemma {:induction false} CalmFlushing(script: seq<Outcome>, n: nat)
    requires Calm(script)
    ensures Flushing(script, n).Through? && Calm(Flushing(script, n).left)
  {
    if n > 0 && script != [] {
      match script[0]
      case Interrupted => CalmFlushing(script[1..], n);
      case Accept(k) => if k < n { CalmFlushing(script[1..], n - k); }
    }
  }

  lemma {:induction false} CalmFlushings(script: seq<Outcome>, sizes: seq<nat>)
    requires Calm(script)
    ensures Flushings(script, sizes).Through? && Calm(Flushings(script, sizes).left)
    decreases |sizes|
  {
    if sizes != [] {
      CalmFlushing(script, sizes[0]);
      CalmFlushings(Flushing(script, sizes[0]).left, sizes[1..]);
    }
  }

  lemma {:induction false} SteadyDirect(script: seq<Outcome>, n: nat)
    requires Steady(script)
    ensures Direct(script, n).Through? && Steady(Direct(script, n).left)
  {
    if n > 0 && script != [] && script[0].n < n {
      SteadyDirect(script[1..], n - script[0].n);
    }
  }

  lemma {:induction false} FlushingsConcat(script: seq<Outcome>, a: seq<nat>, b: seq<nat>)
    ensures Flushings(script, a + b) ==
            match Flushings(script, a)
            case Through(left) => Flushings(left, b)
            case Stopped(gone) => Stopped(gone)
    decreases |a|
  {
    if a == [] {
      assert a + b == b;
    } else {
      assert (a + b)[1..] == a[1..] + b;
      var f := Flushing(script, a[0]);
      if f.Through? {
        FlushingsConcat(f.left, a[1..], b);
      }
    }
  }

  // ---- Which flushes a write calls for, byte by byte ----

  /** The sizes of the flushes when data goes behind p pending bytes in a buffer of cap bytes. */
  function Flushes(mode: Mode, cap: nat, p: nat, data: seq<byte>): seq<nat>
    requires p <= cap && cap >= 1
    decreases |data|, p
  {
    if data == [] then []
    else if p == cap then [cap] + Flushes(mode, cap, 0, data)
    else if p + 1 == cap || (mode == Line && data[0] == NEWLINE) then [p + 1] + Flushes(mode, cap, 0, data[1..])
    else Flushes(mode, cap, p + 1, data[1..])
  }

  /** How many bytes are pending afterwards. */
  function Left(mode: Mode, cap: nat, p: nat, data: seq<byte>): (q: nat)
    requires p <= cap && cap >= 1
    ensures q <= cap && (data != [] ==> q < cap)
    decreases |data|, p
  {
    if data == [] then p
    else if p == cap then Left(mode, cap, 0, data)
    else if p + 1 == cap || (mode == Line && data[0] == NEWLINE) then Left(mode, cap, 0, data[1..])
    else Left(mode, cap, p + 1, data[1..])
  }

  lemma {:induction false} LeftConcat(mode: Mode, cap: nat, p: nat, a: seq<byte>, b: seq<byte>)
    requires p <= cap && cap >= 1
    ensures Left(mode, cap, p, a + b) == Left(mode, cap, Left(mode, cap, p, a), b)
    decreases |a|, p
  {
    if a == [] {
      assert a + b == b;
    } else if p == cap {
      LeftConcat(mode, cap, 0, a, b);
    } else {
      assert (a + b)[1..] == a[1..] + b;
      LeftConcat(mode, cap, if p + 1 == cap || (mode == Line && a[0] == NEWLINE) then 0 else p + 1, a[1..], b);
    }
  }

  lemma {:induction false} FlushesConcat(mode: Mode, cap: nat, p: nat, a: seq<byte>, b: seq<byte>)
    requires p <= cap && cap >= 1
    ensures Flushes(mode, cap, p, a + b) == Flushes(mode, cap, p, a) + Flushes(mode, cap, Left(mode, cap, p, a), b)
    decreases |a|, p
  {
    if a == [] {
      assert a + b == b;
    } else if p == cap {
      FlushesConcat(mode, cap, 0, a, b);
    } else {
      assert (a + b)[1..] == a[1..] + b;
      FlushesConcat(mode, cap, if p + 1 == cap || (mode == Line && a[0] == NEWLINE) then 0 else p + 1, a[1..], b);
    }
  }

  /** Copying at once what fits is what the bytes would do one by one. */
  lemma {:induction false} FlushesChunk(cap: nat, p: nat, data: seq<byte>, n: nat)
    requires p + n <= cap && p < cap && n <= |data|
    ensures Flushes(Full, cap, p, data[..n]) == if p + n == cap then [cap] else []
    ensures Left(Full, cap, p, data[..n]) == if p + n == cap then 0 else p + n
    decreases n
  {
    if n > 0 {
      assert data[..n][1..] == data[1..][..n - 1];
      if p + 1 < cap {
        FlushesChunk(cap, p + 1, data[1..], n - 1);
      }
    }
  }

  /** A write of a, then a write of b, is a write of a + b. */
  lemma Onward(script: seq<Outcome>, mode: Mode, cap: nat, p: nat, a: seq<byte>, b: seq<byte>)
    requires p <= cap && cap >= 1
    ensures Flushings(script, Flushes(mode, cap, p, a + b)) ==
            match Flushings(script, Flushes(mode, cap, p, a))
            case Through(left) => Flushings(left, Flushes(mode, cap, Left(mode, cap, p, a), b))
            case Stopped(gone) => Stopped(gone)
    ensures Left(mode, cap, p, a + b) == Left(mode, cap, Left(mode, cap, p, a), b)
  {
    FlushesConcat(mode, cap, p, a, b);
    LeftConcat(mode, cap, p, a, b);
    FlushingsConcat(script, Flushes(mode, cap, p, a), Flushes(mode, cap, Left(mode, cap, p, a), b));
  }

  /** When the buffer is full, the first thing is to flush it. */
  lemma FullFirst(script: seq<Outcome>, mode: Mode, cap: nat, data: seq<byte>)
    requires cap >= 1 && data != []
    ensures Flushings(script, Flushes(mode, cap, cap, data)) ==
            match Flushing(script, cap)
            case Through(left) => Flushings(left, Flushes(mode, cap, 0, data))
            case Stopped(gone) => Stopped(gone)
    ensures Left(mode, cap, cap, data) == Left(mode, cap, 0, data)
  {
    assert Flushes(mode, cap, cap, data)[1..] == Flushes(mode, cap, 0, data);
  }

  lemma Nothing(script: seq<Outcome>, mode: Mode, cap: nat, p: nat)
    requires p <= cap && cap >= 1
    ensures Flushings(script, Flushes(mode, cap, p, [])) == Through(script) && Left(mode, cap, p, []) == p
  {
  }

  lemma CalmEnd(script: seq<Outcome>, sizes: seq<nat>)
    ensures Calm(script) ==> Flushings(script, sizes).Through? && Calm(Flushings(script, sizes).left)
  {
    if Calm(script) {
      CalmFlushings(script, sizes);
    }
  }

  lemma SteadyEnd(script: seq<Outcome>, n: nat)
    ensures Direct(script, 0) == Through(script)
    ensures Steady(script) ==> Direct(script, n).Through? && Steady(Direct(script, n).left)
  {
    if Steady(script) {
      SteadyDirect(script, n);
    }
  }

  lemma ByteFirst(script: seq<Outcome>, cap: nat, p: nat, c: byte)
    requires p < cap
    ensures Flushings(script, Flushes(Line, cap, p, [c])) ==
            if c == NEWLINE || p + 1 == cap then Flushing(script, p + 1) else Through(script)
    ensures Left(Line, cap, p, [c]) == if c == NEWLINE || p + 1 == cap then 0 else p + 1
  {
    if c == NEWLINE || p + 1 == cap {
      assert Flushes(Line, cap, p, [c]) == [p + 1] + Flushes(Line, cap, 0, [c][1..]) == [p + 1];
      assert [p + 1][1..] == [];
    } else {
      assert Flushes(Line, cap, p, [c]) == Flushes(Line, cap, p + 1, [c][1..]) == [];
    }
  }

  /** The unbuffered loop for one piece after the other. */
  function Directs(script: seq<Outcome>, datas: seq<seq<byte>>): Fate {
    if datas == [] then Through(script)
    else
      var n := |datas| - 1;
      match Directs(script, datas[..n])
      case Through(left) => Direct(left, |datas[n]|)
      case Stopped(gone) => Stopped(gone)
  }

  lemma DirectsAppend(script: seq<Outcome>, datas: seq<seq<byte>>, last: seq<byte>)
    ensures Directs(script, datas + [last]) ==
            match Directs(script, datas)
            case Through(left) => Direct(left, |last|)
            case Stopped(gone) => Stopped(gone)
  {
    assert (datas + [last])[..|datas|] == datas;
  }

  function Concat(datas: seq<seq<byte>>): seq<byte> {
    if datas == [] then [] else datas[0] + Concat(datas[1..])
  }

  lemma {:induction false} ConcatAppend(datas: seq<seq<byte>>, last: seq<byte>)
    ensures Concat(datas + [last]) == Concat(datas) + last
  {
    if datas == [] {
      assert Concat([last]) == last + [];
    } else {
      assert (datas + [last])[1..] == datas[1..] + [last];
      ConcatAppend(datas[1..], last);
    }
  }

  lemma ConcatNext(datas: seq<seq<byte>>, k: nat)
    requires k < |datas|
    ensures Concat(datas[..k + 1]) == Concat(datas[..k]) + datas[k]
  {
    ConcatAppend(datas[..k], datas[k]);
    assert datas[..k + 1] == datas[..k] + [datas[k]];
  }

  lemma Assoc(a: seq<byte>, b: seq<byte>, c: seq<byte>)
    ensures a + b + c == a + (b + c)
  {
  }

  class Stream {
    var buf: array?<byte>
    var buflen: nat
    var mode: Mode
    var error: bool
    var delivered: seq<byte>
    var script: seq<Outcome>
    /** Everything fwrite has accepted, and whether bytes were repeated or dropped on the way. */
    ghost var accepted: seq<byte>
    ghost var spoiled: bool

    ghost function Pending(): seq<byte>
      reads this, buf
    {
      if buf == null || buflen > buf.Length then [] else buf[..buflen]
    }

    /** The buffer bound, and conservation: delivered bytes then pending bytes are the accepted bytes. */
    ghost predicate Sound()
      reads this, buf
    {
      (buf != null ==> buf.Length >= 1 && buflen <= buf.Length) &&
      (mode == Unbuffered ==> buf == null) &&
      (!spoiled ==> delivered + Pending() == accepted)
    }

    /** Between calls, line buffering also leaves no newline waiting unless an error was reported. */
    ghost predicate Valid()
      reads this, buf
    {
      Sound() && (mode == Line && !error ==> NoNewline(Pending()))
    }

    constructor (script: seq<Outcome>)
      ensures Valid() && buf == null && mode == Unbuffered && !error && !spoiled
      ensures delivered == [] && accepted == [] && this.script == script
    {
      buf, buflen, mode, error := null, 0, Unbuffered, false;
      delivered, this.script := [], script;
      accepted, spoiled := [], false;
    }

    /** The write system call. */
    method Write(data: seq<byte>) returns (w: int, again: bool)
      modifies this`delivered, this`script
      ensures -1 <= w <= |data|
      ensures delivered == if w < 0 then old(delivered) else old(delivered) + data[..w]
      ensures if old(script) == [] then w == |data| && script == [] else |script| < |old(script)|
      ensures data != [] ==>
                Flushing(old(script), |data|) ==
                if again then Flushing(script, |data|) else if w < 0 then Stopped(0) else After(w, Flushing(script, |data| - w))
      ensures data != [] ==>
                Direct(old(script), |data|) == if w <= 0 then Stopped(0) else After(w, Direct(script, |data| - w))
      ensures again ==> w < 0
    {
      FlushingStep(script, |data|);
      DirectStep(script, |data|);
      hide Flushing, Direct;
      var next := if script == [] then Accept(|data|) else script[0];
      script := if script == [] then [] else script[1..];
      match next
      case Accept(n) =>
        w, again := if n < |data| then n else |data|, false;
        delivered := delivered + data[..w];
      case Interrupted =>
        w, again := -1, true;
      case Failed =>
        w, again := -1, false;
    }

    /** The loop of flush_buffer. */
    method Send(data: seq<byte>) returns (ok: bool, sent: nat)
      modifies this`delivered, this`script
      ensures sent <= |data| && delivered == old(delivered) + data[..sent] && (ok ==> sent == |data|)
      ensures Flushing(old(script), |data|) == if ok then Through(script) else Stopped(sent)
    {
      hide Flushing, Direct;
      ok, sent := true, 0;
      while sent < |data|
        invariant sent <= |data| && delivered == old(delivered) + data[..sent]
        invariant Flushing(old(script), |data|) == After(sent, Flushing(script, |data| - sent))
        decreases |script|, |data| - sent
      {
        var w, again := Write(data[sent..]);
        if w < 0 {
          if again {
            continue;
          }
          return false, sent;
        }
        assert data[..sent + w] == data[..sent] + data[sent..][..w];
        sent := sent + w;
      }
      FlushingStep(script, 0);
    }

    /** The unbuffered loop of fwrite. */
    method SendDirect(data: seq<byte>) returns (ok: bool, sent: nat)
      modifies this`delivered, this`script
      ensures sent <= |data| && delivered == old(delivered) + data[..sent] && (ok <==> sent == |data|)
      ensures Direct(old(script), |data|) == if ok then Through(script) else Stopped(sent)
    {
      hide Flushing, Direct;
      ok, sent := true, 0;
      while sent < |data|
        invariant sent <= |data| && delivered == old(delivered) + data[..sent]
        invariant Direct(old(script), |data|) == After(sent, Direct(script, |data| - sent))
      {
        var w, again := Write(data[sent..]);
        if w <= 0 {
          return false, sent;
        }
        assert data[..sent + w] == data[..sent] + data[sent..][..w];
        sent := sent + w;
      }
      DirectStep(script, 0);
    }

    /** flush_buffer; off is how much of the buffer went out before a hard error. */
    method Flush() returns (r: int, ghost off: nat)
      requires Sound()
      modifies this`buflen, this`error, this`delivered, this`script, this`spoiled
      ensures Valid() && off <= |old(Pending())|
      ensures r == 0 || r == -1
      ensures Flushing(old(script), |old(Pending())|) == if r == 0 then Through(script) else Stopped(off)
      ensures r == 0 ==> off == 0 && spoiled == old(spoiled)
      ensures r == 0 ==> Pending() == [] && delivered == old(delivered) + old(Pending()) && error == old(error)
      ensures r == 0 && buf != null ==> buflen == 0
      ensures r < 0 ==> error && Pending() == old(Pending()) && buflen == old(buflen)
      ensures r < 0 ==> delivered == old(delivered) + old(Pending())[..off] && spoiled == (old(spoiled) || off > 0)
    {
      hide Flushing;
      off := 0;
      FlushingStep(script, 0);
      if buf == null || buflen == 0 {
        return 0, 0;
      }
      assert Pending() == buf[..buflen];
      var ok, sent := Send(buf[..buflen]);
      if !ok {
        error := true;
        off := sent;
        spoiled := spoiled || off > 0;
        return -1, off;
      }
      buflen := 0;
      r := 0;
    }

    /** memcpy of a chunk behind the pending bytes. */
    method Absorb(chunk: seq<byte>)
      requires Sound() && buf != null && buflen + |chunk| <= buf.Length
      modifies this`buflen, this`accepted, buf
      ensures Sound() && buflen == old(buflen) + |chunk|
      ensures Pending() == old(Pending()) + chunk && accepted == old(accepted) + chunk
    {
      var start := buflen;
      for k := 0 to |chunk|
        invariant buflen == start && accepted == old(accepted) && buf[..start + k] == old(buf[..start]) + chunk[..k]
      {
        buf[start + k] := chunk[k];
        assert buf[..start + k + 1] == buf[..start + k] + [chunk[k]];
      }
      buflen := start + |chunk|;
      accepted := accepted + chunk;
      assert chunk[..|chunk|] == chunk;
      assert delivered + (old(Pending()) + chunk) == delivered + old(Pending()) + chunk;
    }

    /**
     * What a write of data has done when `written` bytes of it were taken and
     * `off` bytes went out that will go out again.
     */
    twostate predicate Took(data: seq<byte>, written: int, failed: bool, off: nat)
      reads this, buf
    {
      Valid() && 0 <= written <= |data| && accepted == old(accepted) + data[..written] &&
      buf == old(buf) && mode == old(mode) &&
      (failed ==> error) &&
      (!failed ==> error == old(error) && off == 0) &&
      spoiled == (old(spoiled) || off > 0) &&
      |delivered| + |Pending()| == |old(delivered)| + |old(Pending())| + written + off &&
      (off == 0 ==> delivered + Pending() == old(delivered) + old(Pending()) + data[..written])
    }

    /** The buffered write met the fate that its flushes foretell. */
    twostate predicate Foretold(data: seq<byte>, failed: bool, off: nat)
      requires buf != null && buf.Length >= 1 && old(buflen) <= buf.Length
      reads this, buf
    {
      Flushings(old(script), Flushes(mode, buf.Length, old(buflen), data)) ==
      (if failed then Stopped(off) else Through(script)) &&
      (!failed ==> buflen == Left(mode, buf.Length, old(buflen), data))
    }

    /** Flush when the buffer is full. */
    method Drain() returns (failed: bool, ghost off: nat)
      requires Sound() && buf != null && (buflen < buf.Length ==> Valid())
      modifies this`buflen, this`error, this`delivered, this`script, this`spoiled
      ensures Took([], 0, failed, off)
      ensures !failed ==> buflen == (if old(buflen) == buf.Length then 0 else old(buflen))
      ensures old(buflen) == buf.Length ==>
                Flushing(old(script), buf.Length) == if failed then Stopped(off) else Through(script)
      ensures old(buflen) < buf.Length ==> !failed && script == old(script)
    {
      failed, off := false, 0;
      if buflen == buf.Length {
        var r;
        r, off := Flush();
        failed := r < 0;
      }
    }

    /** As much as fits is copied, and a full buffer is flushed. */
    method Fill(rest: seq<byte>) returns (n: int, failed: bool, ghost off: nat)
      requires Valid() && buf != null && mode == Full && rest != [] && buflen < buf.Length
      modifies this, buf
      ensures Took(rest, n, failed, off) && n > 0 && Foretold(rest[..n], failed, off)
    {
      var avail := buf.Length - buflen;
      n := if |rest| < avail then |rest| else avail;
      FlushesChunk(buf.Length, buflen, rest, n);
      assert delivered + (Pending() + rest[..n]) == delivered + Pending() + rest[..n];
      Absorb(rest[..n]);
      failed, off := Drain();
    }

    /** One turn of the fully buffered branch. */
    method Feed(rest: seq<byte>) returns (n: int, failed: bool, ghost off: nat)
      requires Valid() && buf != null && mode == Full && rest != []
      modifies this, buf
      ensures Took(rest, n, failed, off)
      ensures !failed ==> n > 0
      ensures Foretold(if failed then rest else rest[..n], failed, off)
    {
      hide Flushing, Flushings, Flushes, Left;
      n := 0;
      failed, off := Drain();
      FullFirst(old(script), Full, buf.Length, rest);
      if !failed {
        ghost var here, p := script, buflen;
        n, failed, off := Fill(rest);
        FullFirst(old(script), Full, buf.Length, rest[..n]);
        Onward(here, Full, buf.Length, p, rest[..n], rest[n..]);
        assert rest[..n] + rest[n..] == rest;
      }
    }

    /** The fully buffered branch of fwrite. */
    method WriteFull(data: seq<byte>) returns (written: int, failed: bool, ghost off: nat)
      requires Valid() && buf != null && mode == Full
      modifies this, buf
      ensures Took(data, written, failed, off) && Foretold(data, failed, off)
      ensures !failed ==> written == |data| && (data != [] ==> buflen < buf.Length)
    {
      hide Flushing, Flushings, Flushes, Left;
      written, failed, off := 0, false, 0;
      Nothing(script, mode, buf.Length, buflen);
      while written < |data|
        invariant Took(data, written, false, 0) && Foretold(data[..written], false, 0) && off == 0 && !failed
      {
        var rest := data[written..];
        var n;
        n, failed, off := Feed(rest);
        Onward(old(script), mode, buf.Length, old(buflen), data[..written], if failed then rest else rest[..n]);
        assert data[..written + n] == data[..written] + rest[..n];
        Assoc(old(accepted), data[..written], rest[..n]);
        Assoc(old(delivered) + old(Pending()), data[..written], rest[..n]);
        assert data == data[..written] + rest;
        written := written + n;
        if failed {
          return;
        }
      }
      assert data[..written] == data;
    }

    /** One byte of the line buffered branch behind room: a newline or a full buffer is flushed at once. */
    method PutByte(c: byte) returns (failed: bool, ghost off: nat)
      requires Valid() && buf != null && mode == Line && buflen < buf.Length
      modifies this, buf
      ensures Took([c], 1, failed, off) && Foretold([c], failed, off)
      ensures !failed && old(NoNewline(Pending())) ==> NoNewline(Pending())
    {
      hide Flushing, Flushings, Flushes, Left;
      failed, off := false, 0;
      ByteFirst(script, buf.Length, buflen, c);
      assert delivered + (Pending() + [c]) == delivered + Pending() + [c];
      Absorb([c]);
      if c == NEWLINE || buflen == buf.Length {
        var r;
        r, off := Flush();
        failed := r < 0;
      }
    }

    /** One byte of the line buffered branch. */
    method FeedByte(c: byte) returns (n: int, failed: bool, ghost off: nat)
      requires Valid() && buf != null && mode == Line
      modifies this, buf
      ensures Took([c], n, failed, off) && Foretold([c], failed, off)
      ensures !failed ==> n == 1
      ensures !failed && old(NoNewline(Pending())) ==> NoNewline(Pending())
    {
      hide Flushing, Flushings, Flushes, Left;
      n := 0;
      failed, off := Drain();
      FullFirst(old(script), Line, buf.Length, [c]);
      if !failed {
        n := 1;
        failed, off := PutByte(c);
      }
    }

    /** The line buffered branch of fwrite. */
    method WriteLine(data: seq<byte>) returns (written: int, failed: bool, ghost off: nat)
      requires Valid() && buf != null && mode == Line
      modifies this, buf
      ensures Took(data, written, failed, off) && Foretold(data, failed, off)
      ensures !failed ==> written == |data|
      ensures !failed && old(NoNewline(Pending())) ==> NoNewline(Pending())
    {
      hide Flushing, Flushings, Flushes, Left;
      written, failed, off := 0, false, 0;
      Nothing(script, mode, buf.Length, buflen);
      while written < |data|
        invariant Took(data, written, false, 0) && Foretold(data[..written], false, 0) && off == 0 && !failed
        invariant old(NoNewline(Pending())) ==> NoNewline(Pending())
      {
        ghost var c, more := [data[written]], data[written + 1..];
        var n;
        n, failed, off := FeedByte(data[written]);
        Onward(old(script), mode, buf.Length, old(buflen), data[..written], c);
        Onward(old(script), mode, buf.Length, old(buflen), data[..written] + c, more);
        assert data[..written + n] == data[..written] + c[..n];
        Assoc(old(accepted), data[..written], c[..n]);
        Assoc(old(delivered) + old(Pending()), data[..written], c[..n]);
        assert data == data[..written] + c + more;
        assert c[..1] == c;
        written := written + n;
        if failed {
          return;
        }
      }
      assert data[..written] == data;
    }

    /** The unbuffered branch of fwrite: anything but progress is an error, an interrupted call included. */
    method WriteDirect(data: seq<byte>) returns (written: int, failed: bool)
      requires Valid() && buf == null
      modifies this
      ensures Took(data, written, failed, 0) && Pending() == [] && delivered == old(delivered) + data[..written]
      ensures Direct(old(script), |data|) == if failed then Stopped(written) else Through(script)
      ensures failed <==> written < |data|
    {
      hide Direct;
      var ok;
      ok, written := SendDirect(data);
      failed := !ok;
      accepted := accepted + data[..written];
      error := error || failed;
    }

    /** fwrite of |data| / size items. */
    method FWrite(data: seq<byte>, size: nat) returns (count: int, ghost written: int, ghost failed: bool, ghost off: nat)
      requires Valid() && (size == 0 ==> data == [])
      modifies this, buf
      ensures Took(data, written, failed, off)
      ensures count == if size == 0 then 0 else written / size
      ensures !failed ==> written == |data|
      ensures buf != null ==> Foretold(data, failed, off)
      ensures buf == null ==> Direct(old(script), |data|) == if failed then Stopped(written) else Through(script)
      ensures buf == null ==> Pending() == [] && off == 0
      ensures buf != null && old(Calm(script)) ==> !failed && Calm(script)
      ensures buf == null && old(Steady(script)) ==> !failed && Steady(script)
      ensures mode == Line && buf != null && !failed && old(NoNewline(Pending())) ==> NoNewline(Pending())
    {
      hide Flushing, Flushings, Flushes, Left, Direct;
      if buf == null {
        SteadyEnd(script, |data|);
      } else {
        Nothing(script, mode, buf.Length, buflen);
        CalmEnd(script, Flushes(mode, buf.Length, buflen, data));
      }
      if size == 0 || |data| == 0 {
        assert data == [];
        return 0, 0, false, 0;
      }
      var done;
      if buf == null {
        off := 0;
        done, failed := WriteDirect(data);
      } else if mode == Line {
        done, failed, off := WriteLine(data);
      } else {
        done, failed, off := WriteFull(data);
      }
      written := done;
      count := done / size;
    }

    /** All of data was taken, counted, and delivered or kept pending, as its flushes foretell. */
    twostate predicate Gained(data: seq<byte>, count: int)
      requires buf != null && buf.Length >= 1 && old(buflen) <= buf.Length
      reads this, buf
    {
      count == |data| && accepted == old(accepted) + data && spoiled == old(spoiled) &&
      delivered + Pending() == old(delivered + Pending()) + data && Foretold(data, false, 0)
    }

    /** One call for a piece of bytes on a buffered stream. */
    method Piece(data: seq<byte>) returns (count: int, ghost failed: bool)
      requires Valid() && buf != null
      modifies this, buf
      ensures Valid() && buf == old(buf) && mode == old(mode)
      ensures !failed ==> Gained(data, count)
      ensures failed ==> Flushings(old(script), Flushes(mode, buf.Length, old(buflen), data)).Stopped?
      ensures old(Calm(script)) ==> !failed && Calm(script)
    {
      ghost var written, off;
      count, written, failed, off := FWrite(data, 1);
      assert data[..|data|] == data;
    }

    /**
     * A program that calls fwrite for one piece after the other. A buffered
     * stream takes them all exactly when one call with all of them would go through.
     */
    method FWriteAll(datas: seq<seq<byte>>) returns (total: int, ghost ok: bool)
      requires Valid() && buf != null
      modifies this, buf
      ensures Valid() && buf == old(buf) && mode == old(mode)
      ensures ok ==> Gained(Concat(datas), total)
      ensures ok <==> Flushings(old(script), Flushes(mode, buf.Length, old(buflen), Concat(datas))).Through?
      ensures old(Calm(script)) ==> ok && Calm(script)
    {
      Nothing(script, mode, buf.Length, buflen);
      ghost var whole := [];
      total, ok := 0, true;
      for k := 0 to |datas|
        invariant whole == Concat(datas[..k]) && Valid() && buf == old(buf) && mode == old(mode)
        invariant ok ==> Gained(whole, total)
        invariant !ok ==> Flushings(old(script), Flushes(mode, buf.Length, old(buflen), whole)).Stopped?
        invariant old(Calm(script)) ==> ok && Calm(script)
      {
        hide Flushing, Flushings, Flushes, Left, Concat, Calm, Stream.Pending, Stream.Sound;
        Onward(old(script), mode, buf.Length, old(buflen), whole, datas[k]);
        var count;
        ghost var failed;
        count, failed := Piece(datas[k]);
        total := total + count;
        ok := ok && !failed;
        Assoc(old(accepted), whole, datas[k]);
        Assoc(old(delivered + Pending()), whole, datas[k]);
        ConcatNext(datas, k);
        whole := whole + datas[k];
      }
      assert datas[..|datas|] == datas;
    }

    /**
     * The same on an unbuffered stream: everything is taken exactly when the
     * direct loop carries every piece in its turn.
     */
    method FWriteAllDirect(datas: seq<seq<byte>>) returns (total: int, ghost ok: bool)
      requires Valid() && buf == null
      modifies this, buf
      ensures Valid() && buf == old(buf) && mode == old(mode)
      ensures ok ==> total == |Concat(datas)| && accepted == old(accepted) + Concat(datas) && spoiled == old(spoiled)
      ensures ok ==> delivered + Pending() == old(delivered + Pending()) + Concat(datas)
      ensures Directs(old(script), datas).Through? <==> ok
      ensures old(Steady(script)) ==> ok && Steady(script)
    {
      assert Directs(script, []) == Through(script);
      hide Direct, Directs;
      total, ok := 0, true;
      for k := 0 to |datas|
        invariant Valid() && buf == old(buf) && mode == old(mode)
        invariant ok ==> total == |Concat(datas[..k])| && spoiled == old(spoiled)
        invariant ok ==> accepted == old(accepted) + Concat(datas[..k])
        invariant ok ==> delivered + Pending() == old(delivered + Pending()) + Concat(datas[..k])
        invariant ok ==> Directs(old(script), datas[..k]) == Through(script)
        invariant !ok ==> Directs(old(script), datas[..k]).Stopped?
        invariant old(Steady(script)) ==> ok && Steady(script)
      {
        ConcatNext(datas, k);
        assert datas[..k + 1] == datas[..k] + [datas[k]];
        assert datas[k][..|datas[k]|] == datas[k];
        DirectsAppend(old(script), datas[..k], datas[k]);
        var count;
        ghost var written, failed, off;
        count, written, failed, off := FWrite(datas[k], 1);
        total := total + count;
        ok := ok && !failed;
      }
      assert datas[..|datas|] == datas;
    }

    /**
     * setvbuf with a buffer of the library's own; `memory` is whether malloc
     * succeeds. The old buffer is thrown away with whatever it held.
     */
    method SetVBuf(newMode: Mode, size: nat, memory: bool) returns (r: int)
      requires Valid()
      modifies this
      ensures Valid() && delivered == old(delivered) && accepted == old(accepted)
      ensures r == if newMode == Unbuffered || memory then 0 else -1
      ensures r == 0 ==> mode == newMode && Pending() == []
      ensures r == 0 && newMode == Unbuffered ==> buf == null
      ensures r == 0 && newMode != Unbuffered ==> buf != null && fresh(buf) && buf.Length == (if size == 0 then BUFSIZ else size)
      ensures r < 0 ==> buf == null && mode == old(mode)
      ensures spoiled == (old(spoiled) || old(Pending()) != [])
      ensures !old(spoiled) ==> (delivered + Pending() == accepted <==> old(Pending()) == [])
    {
      spoiled := spoiled || Pending() != [];
      buf := null;
      if newMode == Unbuffered {
        buflen, mode := 0, newMode;
        return 0;
      }
      var wanted := if size == 0 then BUFSIZ else size;
      if !memory {
        return -1;
      }
      buf := new byte[wanted];
      buflen, mode := 0, newMode;
      r := 0;
    }
  }
}
