/**
 * Character set conversion of src/iconv.c between ASCII, ISO-8859-1, UTF-8
 * (section 3 of RFC 3629, up to three bytes) and little-endian UTF-16 without
 * surrogates (section 2 of RFC 2781). Masks and shifts are written as division
 * and multiplication.
 */
module Iconv {
  import opened Bytes

  /** Units is UTF-16 without the surrogate test, which is how UTF-16 is copied to itself. */
  datatype Charset = Ascii | Latin1 | Utf8 | Utf16 | Units

  datatype Option<T> = None | Some(value: T)

  /** One decoding step: a code point and the bytes it took, an invalid sequence, or one cut short. */
  datatype Step = Got(cp: nat, n: nat) | Bad | Short

  predicate Continues(c: byte) {
    0x80 <= c < 0xC0
  }

  function Two(a: int, b: int): int {
    (a - 0xC0) * 64 + (b - 0x80)
  }

  function Three(a: int, b: int, c: int): int {
    (a - 0xE0) * 4096 + (b - 0x80) * 64 + (c - 0x80)
  }

  /** decode_utf8. */
  function DecodeUtf8(s: seq<byte>): Step {
    if |s| == 0 then Short
    else if s[0] < 0x80 then Got(s[0], 1)
    else if 0xC0 <= s[0] < 0xE0 then
      if |s| < 2 then Short
      else if !Continues(s[1]) then Bad
      else
        var cp := Two(s[0], s[1]);
        if cp < 0x80 then Bad else Got(cp, 2)
    else if 0xE0 <= s[0] < 0xF0 then
      if |s| < 3 then Short
      else if !Continues(s[1]) || !Continues(s[2]) then Bad
      else
        var cp := Three(s[0], s[1], s[2]);
        if cp < 0x800 then Bad else Got(cp, 3)
    else Bad
  }

  /** n >> 6. */
  function High(n: nat): nat {
    n / 64
  }

  /** n & 0x3F. */
  function Low(n: nat): (r: nat)
    ensures r < 64 && n == 64 * High(n) + r
  {
    n - 64 * (n / 64)
  }

  /** encode_utf8. */
  function EncodeUtf8(cp: nat): Option<seq<byte>> {
    if cp < 0x80 then Some([cp])
    else if cp < 0x800 then Some([0xC0 + High(cp), 0x80 + Low(cp)])
    else if cp <= 0xFFFF then Some([0xE0 + High(High(cp)), 0x80 + Low(High(cp)), 0x80 + Low(cp)])
    else None
  }

  function Unit(lo: int, hi: int): int {
    lo + hi * 256
  }

  predicate Surrogate(u: int) {
    0xD800 <= u <= 0xDFFF
  }

  /** decode_utf16. */
  function DecodeUtf16(s: seq<byte>): Step {
    if |s| < 2 then Short
    else if Surrogate(Unit(s[0], s[1])) then Bad
    else Got(Unit(s[0], s[1]), 2)
  }

  /** encode_utf16. */
  function EncodeUtf16(cp: nat): Option<seq<byte>> {
    if cp > 0xFFFF || Surrogate(cp) then None else Some([cp % 256, cp / 256])
  }

  function Decode1(cs: Charset, s: seq<byte>): (r: Step)
    ensures r.Got? ==> 1 <= r.n <= |s|
  {
    match cs
    case Ascii => if |s| == 0 then Short else if s[0] < 0x80 then Got(s[0], 1) else Bad
    case Latin1 => if |s| == 0 then Short else Got(s[0], 1)
    case Utf8 => DecodeUtf8(s)
    case Utf16 => DecodeUtf16(s)
    case Units => if |s| < 2 then Short else Got(Unit(s[0], s[1]), 2)
  }

  function Encode1(cs: Charset, cp: nat): (r: Option<seq<byte>>)
    ensures r.Some? ==> 1 <= |r.value| <= 3
  {
    match cs
    case Ascii => if cp < 0x80 then Some([cp]) else None
    case Latin1 => if cp < 0x100 then Some([cp]) else None
    case Utf8 => EncodeUtf8(cp)
    case Utf16 => EncodeUtf16(cp)
    case Units => if cp > 0xFFFF then None else Some([cp % 256, cp / 256])
  }

  /** Decoding what was encoded, whatever follows. */
  lemma DecodeEncoded(cs: Charset, cp: nat, rest: seq<byte>)
    requires Encode1(cs, cp).Some?
    ensures var e := Encode1(cs, cp).value; Decode1(cs, e + rest) == Got(cp, |e|)
  {
    hide DecodeUtf8, EncodeUtf8;
    if cs.Utf8? {
      Utf8Decoded(cp, rest);
    }
  }

  lemma Utf8Decoded(cp: nat, rest: seq<byte>)
    requires EncodeUtf8(cp).Some?
    ensures var e := EncodeUtf8(cp).value; DecodeUtf8(e + rest) == Got(cp, |e|)
  {
    if 0x80 <= cp < 0x800 {
      assert Two(0xC0 + High(cp), 0x80 + Low(cp)) == cp;
    } else if cp >= 0x800 {
      assert High(High(cp)) < 16;
      assert Three(0xE0 + High(High(cp)), 0x80 + Low(High(cp)), 0x80 + Low(cp)) == cp;
    }
  }

  /** What was decoded is the encoding: there are no other spellings. */
  lemma EncodeDecoded(cs: Charset, s: seq<byte>)
    requires Decode1(cs, s).Got?
    ensures var d := Decode1(cs, s); Encode1(cs, d.cp) == Some(s[..d.n])
  {
    var d := Decode1(cs, s);
    if cs.Utf8? {
      Utf8Spelling(s);
    } else if cs.Utf16? || cs.Units? {
      assert s[..2] == [s[0], s[1]];
    } else {
      assert s[..1] == [s[0]];
    }
  }

  lemma Utf8Spelling(s: seq<byte>)
    requires DecodeUtf8(s).Got?
    ensures var d := DecodeUtf8(s); 1 <= d.n <= |s| && EncodeUtf8(d.cp) == Some(s[..d.n])
  {
    var d := DecodeUtf8(s);
    if d.n == 1 {
      assert s[..1] == [s[0]];
    } else if d.n == 2 {
      assert s[..2] == [s[0], s[1]];
    } else {
      assert s[..3] == [s[0], s[1], s[2]];
    }
  }

  /** The bytes of UTF-8, as section 3 of RFC 3629 lays out the bits of a code point: x, y and z are the
      groups of bits. */
  lemma Utf8Table(x: nat, y: nat, z: nat)
    requires x < 16 && y < 64 && z < 64
    ensures Encode1(Utf8, 64 * y + z) ==
            if 64 * y + z < 0x80 then Some([64 * y + z])
            else if y < 32 then Some([0xC0 + y, 0x80 + z])
            else Some([0xE0, 0x80 + y, 0x80 + z])
    ensures x >= 1 ==> Encode1(Utf8, 4096 * x + 64 * y + z) == Some([0xE0 + x, 0x80 + y, 0x80 + z])
  {
    hide High, Low;
    Sextet(y, z);
    Sextet(64 * x + y, z);
    Sextet(x, y);
    Sextet(0, y);
    assert 64 * (64 * x + y) + z == 4096 * x + 64 * y + z;
  }

  /** How many bytes the lead byte of a UTF-8 sequence announces; none for a byte that cannot lead. */
  function Announced(lead: byte): nat {
    if lead < 0x80 then 1
    else if 192 <= lead <= 223 then 2
    else if 224 <= lead <= 239 then 3
    else 0
  }

  /** What counts as cut short. */
  lemma CutShort(cs: Charset, s: seq<byte>)
    ensures Decode1(cs, s) == Short <==>
            match cs
            case Ascii => s == []
            case Latin1 => s == []
            case Utf8 => s == [] || |s| < Announced(s[0])
            case Utf16 => |s| < 2
            case Units => |s| < 2
  {
  }

  lemma Sextet(q: nat, r: nat)
    requires r < 64
    ensures High(64 * q + r) == q && Low(64 * q + r) == r
  {
  }

  /** The bytes of UTF-16 in little-endian order, the low byte first, as section 3 of RFC 2781 has them. */
  lemma Utf16Table(lo: byte, hi: byte)
    ensures Encode1(Utf16, lo + 0x100 * hi) == if 0xD8 <= hi <= 0xDF then None else Some([lo, hi])
    ensures Encode1(Units, lo + 0x100 * hi) == Some([lo, hi])
    ensures Decode1(Utf16, [lo, hi]) == if 0xD8 <= hi <= 0xDF then Bad else Got(lo + 0x100 * hi, 2)
  {
    assert (lo + 0x100 * hi) % 0x100 == lo && (lo + 0x100 * hi) / 0x100 == hi;
  }

  // ---- Whole strings ----

  function DecodeAll(cs: Charset, s: seq<byte>): Option<seq<nat>>
    decreases |s|
  {
    if |s| == 0 then Some([])
    else
      var d := Decode1(cs, s);
      if !d.Got? then None
      else
        var rest := DecodeAll(cs, s[d.n..]);
        if rest.None? then None else Some([d.cp] + rest.value)
  }

  function EncodeAll(cs: Charset, cps: seq<nat>): Option<seq<byte>> {
    if |cps| == 0 then Some([])
    else
      var e, rest := Encode1(cs, cps[0]), EncodeAll(cs, cps[1..]);
      if e.None? || rest.None? then None else Some(e.value + rest.value)
  }

  lemma {:induction false} DecodeAllEncoded(cs: Charset, cps: seq<nat>)
    requires EncodeAll(cs, cps).Some?
    ensures DecodeAll(cs, EncodeAll(cs, cps).value) == Some(cps)
  {
    hide Decode1, Encode1;
    if |cps| > 0 {
      var e, rest := Encode1(cs, cps[0]).value, EncodeAll(cs, cps[1..]).value;
      DecodeEncoded(cs, cps[0], rest);
      assert (e + rest)[|e|..] == rest;
      DecodeAllEncoded(cs, cps[1..]);
      assert [cps[0]] + cps[1..] == cps;
    }
  }

  lemma {:induction false} EncodeAllDecoded(cs: Charset, s: seq<byte>)
    requires DecodeAll(cs, s).Some?
    ensures EncodeAll(cs, DecodeAll(cs, s).value) == Some(s)
    decreases |s|
  {
    hide Decode1, Encode1;
    if |s| > 0 {
      var d := Decode1(cs, s);
      EncodeDecoded(cs, s);
      EncodeAllDecoded(cs, s[d.n..]);
      var cps := DecodeAll(cs, s).value;
      assert cps[1..] == DecodeAll(cs, s[d.n..]).value;
      assert s[..d.n] + s[d.n..] == s;
    }
  }

  lemma DecodeAllStep(cs: Charset, s: seq<byte>)
    ensures |s| == 0 ==> DecodeAll(cs, s) == Some([])
    ensures |s| > 0 && !Decode1(cs, s).Got? ==> DecodeAll(cs, s).None?
    ensures |s| > 0 && Decode1(cs, s).Got? ==>
              var d := Decode1(cs, s); var rest := DecodeAll(cs, s[d.n..]);
              DecodeAll(cs, s) == if rest.None? then None else Some([d.cp] + rest.value)
  {
    hide Decode1;
  }

  lemma Decode1Stable(cs: Charset, a: seq<byte>, b: seq<byte>)
    requires Decode1(cs, a).Got?
    ensures Decode1(cs, a + b) == Decode1(cs, a)
  {
  }

  lemma {:induction false} DecodeAllAppend(cs: Charset, a: seq<byte>, b: seq<byte>)
    requires DecodeAll(cs, a).Some? && DecodeAll(cs, b).Some?
    ensures DecodeAll(cs, a + b) == Some(DecodeAll(cs, a).value + DecodeAll(cs, b).value)
    decreases |a|
  {
    hide Decode1, DecodeAll;
    DecodeAllStep(cs, a);
    if |a| == 0 {
      assert a + b == b;
      assert [] + DecodeAll(cs, b).value == DecodeAll(cs, b).value;
    } else {
      var d := Decode1(cs, a);
      DecodeAllStep(cs, a + b);
      Decode1Stable(cs, a, b);
      assert (a + b)[d.n..] == a[d.n..] + b;
      DecodeAllAppend(cs, a[d.n..], b);
      var x, y := DecodeAll(cs, a[d.n..]).value, DecodeAll(cs, b).value;
      assert [d.cp] + (x + y) == [d.cp] + x + y;
    }
  }

  lemma {:induction false} EncodeAllAppend(cs: Charset, a: seq<nat>, b: seq<nat>)
    requires EncodeAll(cs, a).Some? && EncodeAll(cs, b).Some?
    ensures EncodeAll(cs, a + b) == Some(EncodeAll(cs, a).value + EncodeAll(cs, b).value)
  {
    hide Encode1;
    if |a| == 0 {
      assert a + b == b;
      assert [] + EncodeAll(cs, b).value == EncodeAll(cs, b).value;
    } else {
      assert (a + b)[1..] == a[1..] + b;
      EncodeAllAppend(cs, a[1..], b);
      var e, x, y := Encode1(cs, a[0]).value, EncodeAll(cs, a[1..]).value, EncodeAll(cs, b).value;
      assert e + (x + y) == e + x + y;
    }
  }

  /** Conversion through code points. */
  function Transcode(from: Charset, to: Charset, s: seq<byte>): Option<seq<byte>> {
    var cps := DecodeAll(from, s);
    if cps.None? then None else EncodeAll(to, cps.value)
  }

  /** Converting back gives the input back whenever the first conversion succeeds, for every pair of charsets. */
  lemma TranscodeBack(from: Charset, to: Charset, s: seq<byte>)
    requires Transcode(from, to, s).Some?
    ensures Transcode(to, from, Transcode(from, to, s).value) == Some(s)
  {
    DecodeAllEncoded(to, DecodeAll(from, s).value);
    EncodeAllDecoded(from, s);
  }

  lemma TranscodeAppend(from: Charset, to: Charset, a: seq<byte>, b: seq<byte>)
    requires Transcode(from, to, a).Some? && Transcode(from, to, b).Some?
    ensures Transcode(from, to, a + b) == Some(Transcode(from, to, a).value + Transcode(from, to, b).value)
  {
    hide DecodeAll, EncodeAll;
    DecodeAllAppend(from, a, b);
    EncodeAllAppend(to, DecodeAll(from, a).value, DecodeAll(from, b).value);
  }

  /** Bytes are copied as they are. */
  lemma {:induction false} BytesCopied(s: seq<byte>)
    ensures Transcode(Latin1, Latin1, s) == Some(s)
  {
    if |s| > 0 {
      BytesCopied(s[1..]);
      TranscodeStep(Latin1, Latin1, s);
      assert [s[0]] + s[1..] == s;
    }
  }

  /** Units are copied as they are, if there is a whole number of them. */
  lemma {:induction false} UnitsCopied(s: seq<byte>)
    ensures Transcode(Units, Units, s) == if |s| % 2 == 0 then Some(s) else None
    decreases |s|
  {
    if |s| > 0 {
      TranscodeStep(Units, Units, s);
      if |s| >= 2 {
        UnitsCopied(s[2..]);
        assert Encode1(Units, Unit(s[0], s[1])) == Some([s[0], s[1]]);
        hide Transcode;
        assert [s[0], s[1]] + s[2..] == s;
      }
    }
  }

  /** Conversion from a charset to itself changes nothing where it succeeds. */
  lemma Unaltered(cs: Charset, s: seq<byte>)
    ensures Transcode(cs, cs, s).Some? ==> Transcode(cs, cs, s).value == s
  {
    hide DecodeAll, EncodeAll;
    if DecodeAll(cs, s).Some? {
      EncodeAllDecoded(cs, s);
    }
  }

  /** ISO-8859-1 becomes UTF-16 by a zero byte behind every byte. */
  lemma {:induction false} Latin1ToUtf16(s: seq<byte>)
    ensures Transcode(Latin1, Utf16, s).Some?
    ensures var r := Transcode(Latin1, Utf16, s).value;
            |r| == 2 * |s| && forall i :: 0 <= i < |s| ==> r[2 * i] == s[i] && r[2 * i + 1] == 0
  {
    if |s| > 0 {
      TranscodeStep(Latin1, Utf16, s);
      Utf16Table(s[0], 0);
      Latin1ToUtf16(s[1..]);
      var r, t := Transcode(Latin1, Utf16, s).value, Transcode(Latin1, Utf16, s[1..]).value;
      assert r == [s[0], 0] + t;
      forall i | 0 <= i < |s|
        ensures r[2 * i] == s[i] && r[2 * i + 1] == 0
      {
        if i > 0 {
          assert r[2 * i] == t[2 * (i - 1)] && r[2 * i + 1] == t[2 * (i - 1) + 1] && s[i] == s[1..][i - 1];
        }
      }
    }
  }

  /** A whole ASCII text is the same bytes in ASCII, ISO-8859-1 and UTF-8. */
  lemma {:induction false} AsciiUnchanged(from: Charset, to: Charset, s: seq<byte>)
    requires from in {Ascii, Latin1, Utf8} && to in {Ascii, Latin1, Utf8}
    requires forall i :: 0 <= i < |s| ==> s[i] < 0x80
    ensures Transcode(from, to, s) == Some(s)
  {
    if |s| > 0 {
      TranscodeStep(from, to, s);
      AsciiUnchanged(from, to, s[1..]);
      assert [s[0]] + s[1..] == s;
    }
  }

  /** A whole number of 16-bit units, none of them a surrogate. */
  predicate SurrogateFree(s: seq<byte>) {
    |s| % 2 == 0 && forall i :: 0 <= i < |s| / 2 ==> !Surrogate(Unit(s[2 * i], s[2 * i + 1]))
  }

  lemma SurrogateFreeStep(s: seq<byte>)
    requires |s| >= 2
    ensures SurrogateFree(s) <==> !Surrogate(Unit(s[0], s[1])) && SurrogateFree(s[2..])
  {
    var t := s[2..];
    if SurrogateFree(s) {
      assert !Surrogate(Unit(s[2 * 0], s[2 * 0 + 1]));
      forall i | 0 <= i < |t| / 2
        ensures !Surrogate(Unit(t[2 * i], t[2 * i + 1]))
      {
        assert !Surrogate(Unit(s[2 * (i + 1)], s[2 * (i + 1) + 1]));
      }
    }
    if !Surrogate(Unit(s[0], s[1])) && SurrogateFree(t) {
      forall i | 0 <= i < |s| / 2
        ensures !Surrogate(Unit(s[2 * i], s[2 * i + 1]))
      {
        if i > 0 {
          assert !Surrogate(Unit(t[2 * (i - 1)], t[2 * (i - 1) + 1]));
        }
      }
    }
  }

  /** UTF-16 to UTF-8 succeeds exactly on surrogate-free input. */
  lemma {:induction false} Utf16ToUtf8(s: seq<byte>)
    ensures Transcode(Utf16, Utf8, s).Some? <==> SurrogateFree(s)
    decreases |s|
  {
    if |s| >= 2 {
      SurrogateFreeStep(s);
      Utf16ToUtf8(s[2..]);
      if DecodeAll(Utf16, s).Some? {
        var cps := DecodeAll(Utf16, s).value;
        assert cps[1..] == DecodeAll(Utf16, s[2..]).value;
      }
    }
  }

  // ---- The conversion loop ----

  datatype Errno = EILSEQ | EINVAL | E2BIG

  datatype Result = Done(converted: nat, written: nat) | Failed(errno: Errno)

  function Prepend(e: seq<byte>, r: Option<seq<byte>>): Option<seq<byte>> {
    if r.None? then None else Some(e + r.value)
  }

  lemma TranscodeStep(from: Charset, to: Charset, s: seq<byte>)
    requires |s| > 0
    ensures var d := Decode1(from, s);
            Transcode(from, to, s) ==
            if !d.Got? then None
            else if Encode1(to, d.cp).None? then None
            else Prepend(Encode1(to, d.cp).value, Transcode(from, to, s[d.n..]))
  {
    var d := Decode1(from, s);
    if DecodeAll(from, s).Some? {
      var cps := DecodeAll(from, s).value;
      assert cps[1..] == DecodeAll(from, s[d.n..]).value;
    }
  }

  function Count(r: Option<seq<nat>>): nat {
    if r.None? then 0 else |r.value|
  }

  lemma PrependNothing(r: Option<seq<byte>>)
    ensures Prepend([], r) == r
  {
    if r.Some? {
      assert [] + r.value == r.value;
    }
  }

  lemma CountStep(cs: Charset, s: seq<byte>)
    requires |s| > 0 && Decode1(cs, s).Got?
    ensures var rest := DecodeAll(cs, s[Decode1(cs, s).n..]);
            (DecodeAll(cs, s).Some? <==> rest.Some?) && (rest.Some? ==> Count(DecodeAll(cs, s)) == 1 + Count(rest))
  {
  }

  /** The output so far and what the rest of the input will add. */
  ghost function Whole(from: Charset, to: Charset, input: seq<byte>, i: nat, out: seq<byte>): Option<seq<byte>>
    requires i <= |input|
  {
    Prepend(out, Transcode(from, to, input[i..]))
  }

  /** What is left to decode, with the characters already counted, makes the whole. */
  ghost predicate Tallied(total: Option<seq<nat>>, from: Charset, input: seq<byte>, i: nat, converted: int)
    requires i <= |input|
  {
    var rest := DecodeAll(from, input[i..]);
    (total.Some? <==> rest.Some?) && (total.Some? ==> converted + |rest.value| == |total.value|)
  }

  lemma WholeStep(from: Charset, to: Charset, input: seq<byte>, i: nat, d: Step, e: seq<byte>, out: seq<byte>)
    requires i < |input| && d == Decode1(from, input[i..]) && d.Got? && Encode1(to, d.cp) == Some(e)
    ensures i + d.n <= |input| && Whole(from, to, input, i + d.n, out + e) == Whole(from, to, input, i, out)
  {
    TranscodeStep(from, to, input[i..]);
    assert input[i..][d.n..] == input[i + d.n..];
    PrependTwice(out, e, Transcode(from, to, input[i + d.n..]));
  }

  lemma TallyStep(total: Option<seq<nat>>, from: Charset, input: seq<byte>, i: nat, d: Step, c: int)
    requires i < |input| && d == Decode1(from, input[i..]) && d.Got? && Tallied(total, from, input, i, c)
    ensures i + d.n <= |input| && Tallied(total, from, input, i + d.n, c + 1)
  {
    CountStep(from, input[i..]);
    assert input[i..][d.n..] == input[i + d.n..];
  }

  /** Why the next character cannot be converted with that much room left, if it cannot. */
  function Obstacle(from: Charset, to: Charset, s: seq<byte>, room: nat): Option<Errno> {
    match Decode1(from, s)
    case Short => Some(EINVAL)
    case Bad => Some(EILSEQ)
    case Got(cp, _) =>
      match Encode1(to, cp)
      case None => Some(EILSEQ)
      case Some(e) => if room < |e| then Some(E2BIG) else None
  }

  /** One turn of the loop: a character is decoded, encoded and stored, or its obstacle is reported. */
  method Turn(from: Charset, to: Charset, input: seq<byte>, i: nat, dst: array<byte>, o: nat)
    returns (err: Option<Errno>, n: nat, w: nat)
    requires i < |input| && o <= dst.Length
    modifies dst
    ensures err == Obstacle(from, to, input[i..], dst.Length - o)
    ensures err.None? ==>
      var d := Decode1(from, input[i..]);
      d.Got? && n == d.n && Encode1(to, d.cp).Some? && w == |Encode1(to, d.cp).value| && w <= 2 * n &&
      o + w <= dst.Length && dst[..o + w] == old(dst[..o]) + Encode1(to, d.cp).value
    ensures err.Some? ==>
      Transcode(from, to, input[i..]).None? ||
      (err.value == E2BIG && dst.Length - o < |Transcode(from, to, input[i..]).value|)
    ensures err == Some(E2BIG) ==> dst.Length - o < 2 * (|input| - i)
    ensures err.Some? ==> dst[..] == old(dst[..])
  {
    n, w := 0, 0;
    TranscodeStep(from, to, input[i..]);
    var d := Decode1(from, input[i..]);
    if d.Short? {
      return Some(EINVAL), n, w;
    }
    if d.Bad? {
      return Some(EILSEQ), n, w;
    }
    var e := Encode1(to, d.cp);
    if e.None? {
      return Some(EILSEQ), n, w;
    }
    WidthBound(from, to, input[i..]);
    if dst.Length - o < |e.value| {
      return Some(E2BIG), n, w;
    }
    Put(dst, o, e.value);
    n, w := d.n, |e.value|;
    err := None;
  }

  /** The input up to i became the output. */
  ghost predicate Became(from: Charset, to: Charset, input: seq<byte>, i: nat, out: seq<byte>) {
    i <= |input| && Transcode(from, to, input[..i]) == Some(out)
  }

  lemma BecameStep(from: Charset, to: Charset, input: seq<byte>, i: nat, out: seq<byte>)
    requires Became(from, to, input, i, out) && i < |input| && Decode1(from, input[i..]).Got?
    requires Encode1(to, Decode1(from, input[i..]).cp).Some?
    ensures var d := Decode1(from, input[i..]); Became(from, to, input, i + d.n, out + Encode1(to, d.cp).value)
  {
    var d := Decode1(from, input[i..]);
    var piece, e := input[i..][..d.n], Encode1(to, d.cp).value;
    Decode1Exact(from, input[i..]);
    TranscodeStep(from, to, piece);
    assert piece[d.n..] == [];
    assert e + [] == e;
    TranscodeAppend(from, to, input[..i], piece);
    assert input[..i] + piece == input[..i + d.n];
  }

  /** A character decodes from exactly its own bytes. */
  lemma Decode1Exact(cs: Charset, s: seq<byte>)
    requires Decode1(cs, s).Got?
    ensures Decode1(cs, s[..Decode1(cs, s).n]) == Decode1(cs, s)
  {
  }

  /** Where the loop stands: the output so far is that of the input so far, and what is left makes up the whole. */
  ghost predicate Going(from: Charset, to: Charset, input: seq<byte>, i: nat, out: seq<byte>, converted: int) {
    && Became(from, to, input, i, out)
    && Whole(from, to, input, i, out) == Transcode(from, to, input)
    && Tallied(DecodeAll(from, input), from, input, i, converted)
  }

  lemma GoingOn(from: Charset, to: Charset, input: seq<byte>, i: nat, out: seq<byte>, converted: int)
    requires i < |input| && Going(from, to, input, i, out, converted) && Decode1(from, input[i..]).Got?
    requires Encode1(to, Decode1(from, input[i..]).cp).Some?
    ensures var d := Decode1(from, input[i..]);
            i + d.n <= |input| && Going(from, to, input, i + d.n, out + Encode1(to, d.cp).value, converted + 1)
  {
    hide Decode1, Encode1, Became, Whole, Tallied, Transcode, DecodeAll;
    var d := Decode1(from, input[i..]);
    WholeStep(from, to, input, i, d, Encode1(to, d.cp).value, out);
    TallyStep(DecodeAll(from, input), from, input, i, d, converted);
    BecameStep(from, to, input, i, out);
  }

  method Advance(from: Charset, to: Charset, input: seq<byte>, i: nat, dst: array<byte>, o: nat, ghost converted: int)
    returns (err: Option<Errno>, n: nat, w: nat)
    requires i < |input| && o <= dst.Length && o <= 2 * i && Going(from, to, input, i, dst[..o], converted)
    modifies dst
    ensures err.None? ==> 0 < n && i + n <= |input| && o + w <= dst.Length && w <= 2 * n
    ensures err.None? ==> Going(from, to, input, i + n, dst[..o + w], converted + 1)
    ensures err.Some? ==> Stuck(from, to, input, dst.Length, i, err.value)
    ensures err.Some? ==> Transcode(from, to, input).None? || |Transcode(from, to, input).value| > dst.Length
    ensures err == Some(E2BIG) ==> dst.Length < 2 * |input|
  {
    hide *;
    ghost var out := dst[..o];
    err, n, w := Turn(from, to, input, i, dst, o);
    if err.None? {
      GoingOn(from, to, input, i, out, converted);
    } else {
      LoopStuck(from, to, input, i, out, converted, dst.Length, err.value);
    }
  }

  /** How the source treats a pair: UTF-8 to UTF-8 is copied byte by byte, UTF-16 to UTF-16 unit by unit. */
  function Treated(from: Charset, to: Charset): (Charset, Charset) {
    if from.Utf8? && to.Utf8? then (Latin1, Latin1)
    else if from.Utf16? && to.Utf16? then (Units, Units)
    else (from, to)
  }

  /** The loop of iconv over one decoder and one encoder. */
  method Loop(from: Charset, to: Charset, input: seq<byte>, dst: array<byte>) returns (r: Result, ghost at: nat)
    modifies dst
    ensures r.Done? <==> Transcode(from, to, input).Some? && |Transcode(from, to, input).value| <= dst.Length
    ensures r.Done? ==> r.written <= dst.Length && dst[..r.written] == Transcode(from, to, input).value
    ensures r.Done? ==> r.converted == Count(DecodeAll(from, input))
    ensures r == Failed(E2BIG) ==> dst.Length < 2 * |input|
    ensures r.Failed? ==> Stuck(from, to, input, dst.Length, at, r.errno)
  {
    var i, o, converted := 0, 0, 0;
    LoopStart(from, to, input);
    assert dst[..0] == [];
    at := 0;
    hide *;
    while i < |input|
      invariant 0 <= i <= |input| && 0 <= o <= dst.Length && o <= 2 * i && converted >= 0
      invariant Going(from, to, input, i, dst[..o], converted)
    {
      var err, n, w := Advance(from, to, input, i, dst, o, converted);
      if err.Some? {
        at := i;
        return Failed(err.value), at;
      }
      i, o, converted := i + n, o + w, converted + 1;
    }
    LoopEnd(from, to, input, dst[..o], converted);
    r := Done(converted, o);
  }

  lemma LoopStart(from: Charset, to: Charset, input: seq<byte>)
    ensures Going(from, to, input, 0, [], 0)
  {
    assert input[0..] == input && input[..0] == [];
    PrependNothing(Transcode(from, to, input));
  }

  lemma LoopEnd(from: Charset, to: Charset, input: seq<byte>, out: seq<byte>, converted: int)
    requires Going(from, to, input, |input|, out, converted)
    ensures Transcode(from, to, input) == Some(out) && converted == Count(DecodeAll(from, input))
  {
    assert input[|input|..] == [];
    assert out + [] == out;
  }

  lemma LoopStuck(from: Charset, to: Charset, input: seq<byte>, i: nat, out: seq<byte>, converted: int,
                  room: nat, errno: Errno)
    requires i < |input| && |out| <= room && Going(from, to, input, i, out, converted)
    requires Obstacle(from, to, input[i..], room - |out|) == Some(errno)
    requires Transcode(from, to, input[i..]).None? ||
             (errno == E2BIG && room - |out| < |Transcode(from, to, input[i..]).value|)
    ensures Transcode(from, to, input).None? || |Transcode(from, to, input).value| > room
    ensures Stuck(from, to, input, room, i, errno)
  {
    hide Transcode, Obstacle;
  }

  /** Everything before `at` converts and fits, and the next character meets the error. */
  ghost predicate Stuck(from: Charset, to: Charset, input: seq<byte>, room: nat, at: nat, errno: Errno) {
    && at < |input| && Transcode(from, to, input[..at]).Some?
    && |Transcode(from, to, input[..at]).value| <= room
    && Obstacle(from, to, input[at..], room - |Transcode(from, to, input[..at]).value|) == Some(errno)
  }

  /** What a conversion that treats the charsets as f and t leaves in the output. */
  ghost predicate Outcome(f: Charset, t: Charset, input: seq<byte>, dst: seq<byte>, r: Result, at: nat) {
    && (r.Done? <==> Transcode(f, t, input).Some? && |Transcode(f, t, input).value| <= |dst|)
    && (r.Done? ==> r.written <= |dst| && dst[..r.written] == Transcode(f, t, input).value)
    && (r.Done? ==> r.converted == Count(DecodeAll(f, input)))
    && (r.Failed? ==> Stuck(f, t, input, |dst|, at, r.errno))
  }

  /**
   * iconv: it succeeds exactly when the text can be transcoded and the result
   * fits, and then delivers it; otherwise the errno is that of the first
   * character that cannot go on.
   */
  method Convert(from: Charset, to: Charset, input: seq<byte>, dst: array<byte>) returns (r: Result, ghost at: nat)
    modifies dst
    ensures from.Utf8? && to.Utf8? ==> Outcome(Latin1, Latin1, input, dst[..], r, at)
    ensures from.Utf16? && to.Utf16? ==> Outcome(Units, Units, input, dst[..], r, at)
    ensures !(from.Utf8? && to.Utf8?) && !(from.Utf16? && to.Utf16?) ==> Outcome(from, to, input, dst[..], r, at)
    ensures r == Failed(E2BIG) ==> dst.Length < 2 * |input|
    ensures from.Utf8? && to.Utf8? ==> (r.Done? <==> |input| <= dst.Length)
    ensures from.Utf16? && to.Utf16? ==> (r.Done? <==> |input| <= dst.Length && |input| % 2 == 0)
    ensures from == to && r.Done? ==> r.written <= dst.Length && dst[..r.written] == input
  {
    BytesCopied(input);
    UnitsCopied(input);
    var pair := Treated(from, to);
    Unaltered(pair.0, input);
    r, at := Loop(pair.0, pair.1, input, dst);
  }

  lemma PrependTwice(a: seq<byte>, b: seq<byte>, r: Option<seq<byte>>)
    ensures Prepend(a, Prepend(b, r)) == Prepend(a + b, r)
  {
    if r.Some? {
      assert a + (b + r.value) == (a + b) + r.value;
    }
  }

  /** No character grows to more than twice its bytes. */
  lemma WidthBound(from: Charset, to: Charset, s: seq<byte>)
    requires Decode1(from, s).Got? && Encode1(to, Decode1(from, s).cp).Some?
    ensures |Encode1(to, Decode1(from, s).cp).value| <= 2 * Decode1(from, s).n
  {
  }

  method Put(dst: array<byte>, o: nat, e: seq<byte>)
    requires o + |e| <= dst.Length
    modifies dst
    ensures dst[..o + |e|] == old(dst[..o]) + e
  {
    for k := 0 to |e|
      invariant dst[..o + k] == old(dst[..o]) + e[..k]
    {
      dst[o + k] := e[k];
      assert dst[..o + k + 1] == dst[..o + k] + [e[k]];
    }
    assert e[..|e|] == e;
  }
}
