/**
 * How the two rewriting passes of src/regex.c read a pattern: item by item,
 * where an item is an escape, a bracket expression, a group or one character.
 */
module RegexScan {
  import opened RegexLanguage

  /** How many characters of r belong to a bracket expression that is already open. */
  function ClassRest(r: string): (n: nat)
    ensures n <= |r|
  {
    if |r| == 0 then 0
    else if r[0] == ']' then 1
    else if r[0] == '\\' && |r| >= 2 then 2 + ClassRest(r[2..])
    else 1 + ClassRest(r[1..])
  }

  /** How many characters of r belong to a group open to the given depth. */
  function GroupRest(r: string, depth: nat): (n: nat)
    ensures n <= |r|
  {
    if |r| == 0 || depth == 0 then 0
    else if r[0] == '\\' && |r| >= 2 then 2 + GroupRest(r[2..], depth)
    else if r[0] == '(' then 1 + GroupRest(r[1..], depth + 1)
    else if r[0] == ')' then 1 + GroupRest(r[1..], depth - 1)
    else 1 + GroupRest(r[1..], depth)
  }

  /** The length of the first item: an escape, a bracket expression, a group or one character. */
  function ItemLen(s: string): (n: nat)
    requires |s| > 0
    ensures 1 <= n <= |s|
  {
    if s[0] == '\\' && |s| >= 2 then 2
    else if s[0] == '[' then 1 + ClassRest(s[1..])
    else if s[0] == '(' then 1 + GroupRest(s[1..], 1)
    else 1
  }

  lemma Dropped(s: string, a: nat, b: nat)
    requires a + b <= |s|
    ensures s[a..][b..] == s[a + b..] && s[a..][..b] == s[a..a + b]
  {
  }

  lemma Regroup(a: string, b: string, c: string)
    ensures (a + b) + c == a + (b + c)
  {
  }

  method ClassEnd(pat: string, i: nat) returns (e: nat)
    requires i < |pat|
    ensures e == i + 1 + ClassRest(pat[i + 1..])
  {
    e := i + 1;
    while e < |pat| && pat[e] != ']'
      invariant i < e <= |pat|
      invariant e + ClassRest(pat[e..]) == i + 1 + ClassRest(pat[i + 1..])
    {
      if pat[e] == '\\' && e + 1 < |pat| {
        Dropped(pat, e, 2);
        e := e + 2;
      } else {
        Dropped(pat, e, 1);
        e := e + 1;
      }
    }
    if e < |pat| {
      e := e + 1;
    }
  }

  /** How far one step of the scan goes, and the depth after it. */
  function GroupMove(s: string, k: nat, depth: nat): (r: (nat, nat))
    requires k < |s| && depth > 0
    ensures 1 <= r.0 <= |s| - k
  {
    if s[k] == '\\' && k + 1 < |s| then (2, depth)
    else (1, if s[k] == '(' then depth + 1 else if s[k] == ')' then depth - 1 else depth)
  }

  method GroupEnd(pat: string, i: nat) returns (e: nat)
    requires i < |pat|
    ensures e == i + 1 + GroupRest(pat[i + 1..], 1)
  {
    var depth: nat := 1;
    e := i + 1;
    ghost var goal := i + 1 + GroupRest(pat[i + 1..], 1);
    hide GroupRest;
    while e < |pat| && depth > 0
      invariant i < e <= |pat| && e + GroupRest(pat[e..], depth) == goal
      decreases |pat| - e
    {
      GroupStep(pat, e, depth);
      var n, d: nat := 1, depth;
      if pat[e] == '\\' && e + 1 < |pat| {
        n := 2;
      } else if pat[e] == '(' {
        d := depth + 1;
      } else if pat[e] == ')' {
        d := depth - 1;
      }
      assert (n, d) == GroupMove(pat, e, depth);
      hide GroupMove;
      e, depth := e + n, d;
    }
    GroupStops(pat[e..], depth);
  }

  lemma GroupStops(r: string, depth: nat)
    requires |r| == 0 || depth == 0
    ensures GroupRest(r, depth) == 0
  {
  }

  lemma GroupStep(s: string, k: nat, depth: nat)
    requires k < |s| && depth > 0
    ensures var (n, d) := GroupMove(s, k, depth); GroupRest(s[k..], depth) == n + GroupRest(s[k + n..], d)
  {
    Dropped(s, k, GroupMove(s, k, depth).0);
  }

  method ItemEnd(pat: string, i: nat) returns (e: nat)
    requires i < |pat|
    ensures e == i + ItemLen(pat[i..])
  {
    Dropped(pat, i, 1);
    if pat[i] == '\\' && i + 1 < |pat| {
      e := i + 2;
    } else if pat[i] == '[' {
      e := ClassEnd(pat, i);
    } else if pat[i] == '(' {
      e := GroupEnd(pat, i);
    } else {
      e := i + 1;
    }
  }
}
