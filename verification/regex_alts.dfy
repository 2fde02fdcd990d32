/**
 * expand_alts of src/regex.c: a pattern with alternation becomes a list of
 * patterns without any. Alternatives is the list the method is proved to
 * produce, text for text and in order.
 */
module RegexAlts {
  import opened RegexScan

  /** The segments between top-level bars, given the text already collected for the first. */
  function Segments(s: string, acc: string, level: nat, cls: bool): (segs: seq<string>)
    ensures |segs| >= 1
  {
    if |s| == 0 then [acc]
    else if s[0] == '\\' && |s| >= 2 then Segments(s[2..], acc + s[..2], level, cls)
    else if cls then Segments(s[1..], acc + s[..1], level, s[0] != ']')
    else if s[0] == '[' then Segments(s[1..], acc + s[..1], level, true)
    else if s[0] == '(' then Segments(s[1..], acc + s[..1], level + 1, false)
    else if s[0] == ')' && level > 0 then Segments(s[1..], acc + s[..1], level - 1, false)
    else if s[0] == '|' && level == 0 then [acc] + Segments(s[1..], "", 0, false)
    else Segments(s[1..], acc + s[..1], level, false)
  }

  lemma {:induction false} SegmentsShorter(s: string, acc: string, level: nat, cls: bool, k: nat)
    requires k < |Segments(s, acc, level, cls)|
    ensures |Segments(s, acc, level, cls)[k]| <= |acc| + |s|
    ensures |Segments(s, acc, level, cls)| > 1 ==> |Segments(s, acc, level, cls)[k]| < |acc| + |s|
  {
    if |s| == 0 {
    } else if s[0] == '\\' && |s| >= 2 {
      SegmentsShorter(s[2..], acc + s[..2], level, cls, k);
    } else if cls {
      SegmentsShorter(s[1..], acc + s[..1], level, s[0] != ']', k);
    } else if s[0] == '[' {
      SegmentsShorter(s[1..], acc + s[..1], level, true, k);
    } else if s[0] == '(' {
      SegmentsShorter(s[1..], acc + s[..1], level + 1, false, k);
    } else if s[0] == ')' && level > 0 {
      SegmentsShorter(s[1..], acc + s[..1], level - 1, false, k);
    } else if s[0] == '|' && level == 0 {
      if k > 0 {
        SegmentsShorter(s[1..], "", 0, false, k - 1);
      }
    } else {
      SegmentsShorter(s[1..], acc + s[..1], level, false, k);
    }
  }

  function AppendAll(cur: seq<string>, t: string): (r: seq<string>)
    ensures |r| == |cur| && forall k :: 0 <= k < |cur| ==> r[k] == cur[k] + t
  {
    seq(|cur|, k requires 0 <= k < |cur| => cur[k] + t)
  }

  function Row(c: string, sub: seq<string>): (r: seq<string>)
    ensures |r| == |sub| && forall m :: 0 <= m < |sub| ==> r[m] == c + "(" + sub[m] + ")"
  {
    seq(|sub|, m requires 0 <= m < |sub| => c + "(" + sub[m] + ")")
  }

  /** Every prefix with every parenthesised continuation, prefixes first. */
  function Cross(cur: seq<string>, sub: seq<string>): (r: seq<string>)
    ensures |cur| > 0 && |sub| > 0 ==> |r| > 0
  {
    if |cur| == 0 then [] else Cross(cur[..|cur| - 1], sub) + Row(cur[|cur| - 1], sub)
  }

  /** The text between the parentheses of the group that s starts with, as the source cuts it out. */
  function Inside(s: string): (r: string)
    requires |s| > 0
    ensures |r| < |s|
  {
    if ItemLen(s) >= 2 then s[1..ItemLen(s) - 1] else s[1..]
  }

  function Groups(s: string, cur: seq<string>): (r: seq<string>)
    ensures |cur| > 0 ==> |r| > 0
    decreases |s|, 1, 0
  {
    if |s| == 0 then cur
    else if s[0] == '(' then Groups(s[ItemLen(s)..], Cross(cur, Alternatives(Inside(s))))
    else Groups(s[ItemLen(s)..], AppendAll(cur, s[..ItemLen(s)]))
  }

  function Alternatives(s: string): (r: seq<string>)
    ensures |r| > 0
    decreases |s|, 2, 0
  {
    var segs := Segments(s, "", 0, false);
    if |segs| > 1 then
      assert forall k :: 0 <= k < |segs| ==> |segs[k]| < |s| by {
        forall k | 0 <= k < |segs| ensures |segs[k]| < |s| { SegmentsShorter(s, "", 0, false, k); }
      }
      AllAlternatives(segs, |s|)
    else Groups(s, [""])
  }

  function AllAlternatives(segs: seq<string>, bound: nat): (r: seq<string>)
    requires forall k :: 0 <= k < |segs| ==> |segs[k]| < bound
    ensures |segs| > 0 ==> |r| > 0
    decreases bound, 1, |segs|
  {
    if |segs| == 0 then []
    else AllAlternatives(segs[..|segs| - 1], bound) + Alternatives(segs[|segs| - 1])
  }

  /** The scan for top-level bars. */
  method SplitTop(pat: string) returns (segs: seq<string>)
    ensures segs == Segments(pat, "", 0, false)
  {
    var level, cls, start, i := 0, false, 0, 0;
    segs := [];
    while i < |pat|
      invariant 0 <= start <= i <= |pat| && level >= 0
      invariant segs + Segments(pat[i..], pat[start..i], level, cls) == Segments(pat, "", 0, false)
    {
      SegmentsNext(pat, start, i, level, cls);
      var c := pat[i];
      if c == '\\' && i + 1 < |pat| {
        i := i + 2;
      } else {
        if cls {
          if c == ']' {
            cls := false;
          }
        } else if c == '[' {
          cls := true;
        } else if c == '(' {
          level := level + 1;
        } else if c == ')' && level > 0 {
          level := level - 1;
        } else if c == '|' && level == 0 {
          ghost var rest := Segments(pat[i + 1..], "", 0, false);
          assert segs + ([pat[start..i]] + rest) == (segs + [pat[start..i]]) + rest;
          assert pat[i + 1..i + 1] == "";
          segs := segs + [pat[start..i]];
          start := i + 1;
        }
        i := i + 1;
      }
    }
    segs := segs + [pat[start..|pat|]];
  }

  /** One step of the scan, on slices of the pattern. */
  lemma SegmentsNext(pat: string, start: nat, i: nat, level: nat, cls: bool)
    requires start <= i < |pat|
    ensures var c := pat[i];
            Segments(pat[i..], pat[start..i], level, cls) ==
            if c == '\\' && i + 1 < |pat| then Segments(pat[i + 2..], pat[start..i + 2], level, cls)
            else if cls then Segments(pat[i + 1..], pat[start..i + 1], level, c != ']')
            else if c == '[' then Segments(pat[i + 1..], pat[start..i + 1], level, true)
            else if c == '(' then Segments(pat[i + 1..], pat[start..i + 1], level + 1, false)
            else if c == ')' && level > 0 then Segments(pat[i + 1..], pat[start..i + 1], level - 1, false)
            else if c == '|' && level == 0 then [pat[start..i]] + Segments(pat[i + 1..], "", 0, false)
            else Segments(pat[i + 1..], pat[start..i + 1], level, false)
  {
    Dropped(pat, i, 1);
    assert pat[start..i] + pat[i..i + 1] == pat[start..i + 1];
    if i + 1 < |pat| {
      Dropped(pat, i, 2);
      assert pat[start..i] + pat[i..i + 2] == pat[start..i + 2];
    }
  }

  method Extend(cur: seq<string>, t: string) returns (r: seq<string>)
    ensures r == AppendAll(cur, t)
  {
    r := cur;
    for k := 0 to |cur|
      invariant |r| == |cur|
      invariant forall x :: 0 <= x < k ==> r[x] == cur[x] + t
      invariant forall x :: k <= x < |cur| ==> r[x] == cur[x]
    {
      r := r[k := r[k] + t];
    }
  }

  method Distribute(cur: seq<string>, sub: seq<string>) returns (r: seq<string>)
    ensures r == Cross(cur, sub)
  {
    r := [];
    for k := 0 to |cur|
      invariant r == Cross(cur[..k], sub)
    {
      ghost var before := r;
      for m := 0 to |sub|
        invariant r == before + Row(cur[k], sub)[..m]
      {
        r := r + [cur[k] + "(" + sub[m] + ")"];
      }
      assert cur[..k + 1][..k] == cur[..k];
      assert Row(cur[k], sub)[..|sub|] == Row(cur[k], sub);
    }
    assert cur[..|cur|] == cur;
  }

  lemma InsideIs(pat: string, i: nat, j: nat)
    requires i < |pat| && j == i + ItemLen(pat[i..])
    ensures Inside(pat[i..]) == if j - i >= 2 then pat[i + 1..j - 1] else pat[i + 1..]
  {
    var s := pat[i..];
    assert s[1..] == pat[i + 1..];
    if j - i >= 2 {
      assert s[1..j - i - 1] == pat[i + 1..j - 1];
    }
  }

  /** expand_alts. */
  method ExpandAlts(pat: string) returns (out: seq<string>)
    ensures out == Alternatives(pat)
    decreases |pat|
  {
    hide Segments, Cross, AppendAll, ItemLen, Inside;
    var segs := SplitTop(pat);
    out := [];
    if |segs| > 1 {
      forall k | 0 <= k < |segs|
        ensures |segs[k]| < |pat|
      {
        SegmentsShorter(pat, "", 0, false, k);
      }
      for k := 0 to |segs|
        invariant out == AllAlternatives(segs[..k], |pat|)
      {
        var more := ExpandAlts(segs[k]);
        assert segs[..k + 1][..k] == segs[..k];
        out := out + more;
      }
      assert segs[..|segs|] == segs;
      return;
    }
    out := [""];
    var i := 0;
    assert pat[0..] == pat;
    while i < |pat|
      invariant 0 <= i <= |pat|
      invariant Groups(pat[i..], out) == Groups(pat, [""])
    {
      var j := ItemEnd(pat, i);
      Dropped(pat, i, j - i);
      if pat[i] == '(' {
        var inside := if j - i >= 2 then pat[i + 1..j - 1] else pat[i + 1..];
        InsideIs(pat, i, j);
        var sub := ExpandAlts(inside);
        out := Distribute(out, sub);
      } else {
        out := Extend(out, pat[i..j]);
      }
      i := j;
    }
  }
}
