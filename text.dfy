/** String helpers shared by the models: fixed-position matching, Python's
    `str.strip`, `" ".join` and `str.replace`. */
module Text {

  /** `s` holds `w` at position `i`. */
  predicate At(s: string, i: int, w: string)
  {
    0 <= i && i + |w| <= |s| && s[i..i + |w|] == w
  }

  /** A string that holds `w` at `i` holds each of its characters there. */
  lemma AtChar(s: string, i: int, w: string, k: int)
    requires At(s, i, w) && 0 <= k < |w|
    ensures s[i + k] == w[k]
  {
    assert s[i..i + |w|][k] == s[i + k];
  }

  lemma AtConcat(a: string, w: string, b: string)
    ensures At(a + w + b, |a|, w)
  {
    assert (a + w + b)[|a|..|a| + |w|] == w;
  }

  /** A word made of two parts is held part by part. */
  lemma AtSplit(s: string, i: int, w1: string, w2: string)
    requires At(s, i, w1 + w2)
    ensures At(s, i, w1) && At(s, i + |w1|, w2)
  {
    var w := w1 + w2;
    assert s[i..i + |w1|] == s[i..i + |w|][..|w1|];
    assert s[i + |w1|..i + |w|] == s[i..i + |w|][|w1|..];
  }

  /** Where the pieces of `a + b + c + d + e + f + g` sit. */
  lemma AtParts(a: string, b: string, c: string, d: string, e: string, f: string, g: string)
    ensures var s := a + b + c + d + e + f + g;
      && s[..|a|] == a && (b != [] ==> s[|a|] == b[0])
      && At(s, |a|, b + c) && At(s, |a| + |b| + |c|, d + e) && At(s, |a| + |b| + |c| + |d| + |e|, f)
  {
    var s := a + b + c + d + e + f + g;
    assert s[..|a|] == a && (b != [] ==> s[|a|] == b[0]) && At(s, |a|, b + c) by {
      assert s == a + (b + c) + (d + e + f + g);
      AtConcat(a, b + c, d + e + f + g);
    }
    assert At(s, |a| + |b| + |c|, d + e) by {
      assert s == a + b + c + (d + e) + (f + g);
      AtConcat(a + b + c, d + e, f + g);
    }
    AtConcat(a + b + c + d + e, f, g);
  }

  /** The first newline at or after `j`, or `|s|`: where the regex `.` stops matching. */
  function LineEnd(s: string, j: nat): (e: nat)
    ensures j <= |s| ==> j <= e <= |s|
    ensures forall m :: j <= m < e && m < |s| ==> s[m] != '\n'
    ensures e < |s| ==> s[e] == '\n'
    decreases |s| - j
  {
    if j >= |s| then j
    else if s[j] == '\n' then j
    else LineEnd(s, j + 1)
  }

  /** Whitespace as `str.strip` and the regex class `\s` see it, restricted to
      ASCII: space, tab, the line and form feeds, carriage return, and the four
      separators U+001C to U+001F, which `str.isspace` also accepts. */
  predicate IsSpace(c: char)
  {
    c == ' ' || c == '\t' || c == '\n' || c == '\r' || c == '\U{000B}' || c == '\U{000C}'
    || ('\U{001C}' <= c <= '\U{001F}')
  }

  /** The YouTube id alphabet `[0-9A-Za-z_-]`. */
  predicate IsIdAlphabet(c: char)
  {
    ('0' <= c <= '9') || ('A' <= c <= 'Z') || ('a' <= c <= 'z') || c == '_' || c == '-'
  }

  /** The regex class `\d`, restricted to ASCII. */
  predicate IsDigit(c: char)
  {
    '0' <= c <= '9'
  }

  /** `s` with its leading whitespace removed. */
  function StripLeft(s: string): (r: string)
    ensures |r| <= |s|
  {
    if s != [] && IsSpace(s[0]) then StripLeft(s[1..]) else s
  }

  /** `s` with its trailing whitespace removed. */
  function StripRight(s: string): (r: string)
    ensures |r| <= |s|
  {
    if s != [] && IsSpace(s[|s| - 1]) then StripRight(s[..|s| - 1]) else s
  }

  /** Python's `s.strip()` (ASCII whitespace). */
  function Strip(s: string): string
  {
    StripRight(StripLeft(s))
  }

  /** `StripLeft` drops a prefix of whitespace and stops at the first other
      character. */
  lemma {:induction false} StripLeftDrops(s: string)
    ensures var r := StripLeft(s);
      && r == s[|s| - |r|..]
      && (r == [] || !IsSpace(r[0]))
      && forall k :: 0 <= k < |s| - |r| ==> IsSpace(s[k])
  {
    if s != [] && IsSpace(s[0]) {
      StripLeftDrops(s[1..]);
      var r := StripLeft(s[1..]);
      assert s[1..][|s| - 1 - |r|..] == s[|s| - |r|..];
      assert forall k :: 1 <= k < |s| - |r| ==> s[k] == s[1..][k - 1];
    }
  }

  /** `StripRight` drops a suffix of whitespace and stops at the last other
      character. */
  lemma {:induction false} StripRightDrops(s: string)
    ensures var r := StripRight(s);
      && r == s[..|r|]
      && (r == [] || !IsSpace(r[|r| - 1]))
      && forall k :: |r| <= k < |s| ==> IsSpace(s[k])
  {
    if s != [] && IsSpace(s[|s| - 1]) {
      StripRightDrops(s[..|s| - 1]);
      var r := StripRight(s[..|s| - 1]);
      assert s[..|s| - 1][..|r|] == s[..|r|];
    }
  }

  /** `strip` gives the part of `s` between its leading and its trailing
      whitespace: it neither starts nor ends with whitespace, and all that
      was cut off is whitespace. */
  lemma StripTrims(s: string)
    ensures var r, i := Strip(s), |s| - |StripLeft(s)|;
      && (r == [] || (!IsSpace(r[0]) && !IsSpace(r[|r| - 1])))
      && 0 <= i <= |s| - |r| && r == s[i..i + |r|]
      && (forall k :: 0 <= k < i ==> IsSpace(s[k]))
      && (forall k :: i + |r| <= k < |s| ==> IsSpace(s[k]))
  {
    var l := StripLeft(s);
    var r := StripRight(l);
    StripLeftDrops(s);
    StripRightDrops(l);
    var i := |s| - |l|;
    if r != [] {
      assert r[0] == l[0];
    }
    assert r == s[i..i + |r|];
    assert forall k :: i + |r| <= k < |s| ==> s[k] == l[k - i];
  }

  lemma {:induction false} StripLeftAllSpace(s: string)
    requires forall k :: 0 <= k < |s| ==> IsSpace(s[k])
    ensures StripLeft(s) == []
  {
    if s != [] {
      StripLeftAllSpace(s[1..]);
    }
  }

  lemma {:induction false} StripLeftAppendSpace(s: string)
    ensures StripLeft(s + " ") == StripLeft(s) + " " || (StripLeft(s + " ") == [] && StripLeft(s) == [])
  {
    if s == [] {
      assert StripLeft(" ") == StripLeft(" "[1..]);
    } else if IsSpace(s[0]) {
      assert (s + " ")[1..] == s[1..] + " ";
      StripLeftAppendSpace(s[1..]);
    } else {
      assert (s + " ")[0] == s[0];
    }
  }

  /** One trailing space never survives `strip`: the trailing space after the
      last entry of a transcript is always removed. */
  lemma StripAppendSpace(s: string)
    ensures Strip(s + " ") == Strip(s)
  {
    StripLeftAppendSpace(s);
    var l := StripLeft(s);
    if StripLeft(s + " ") == l + " " {
      assert (l + " ")[..|l + " "| - 1] == l;
    }
  }

  /** Python's `" ".join(ts)`. */
  function JoinSpace(ts: seq<string>): (r: string)
    ensures |ts| == 1 ==> r == ts[0]
  {
    if |ts| == 0 then ""
    else if |ts| == 1 then ts[0]
    else JoinSpace(ts[..|ts| - 1]) + " " + ts[|ts| - 1]
  }

  /** Python's `s.replace(pat, rep)`: every occurrence, left to right, without overlaps. */
  function Replace(s: string, pat: string, rep: string): (r: string)
    requires pat != []
    decreases |s|
  {
    if |s| < |pat| then s
    else if s[..|pat|] == pat then rep + Replace(s[|pat|..], pat, rep)
    else [s[0]] + Replace(s[1..], pat, rep)
  }

  /** The number of occurrences `Replace(s, pat, _)` rewrites. */
  function Count(s: string, pat: string): (n: nat)
    requires pat != []
    ensures n * |pat| <= |s|
    decreases |s|
  {
    if |s| < |pat| then 0
    else if s[..|pat|] == pat then 1 + Count(s[|pat|..], pat)
    else Count(s[1..], pat)
  }

  /** Each rewritten occurrence changes the length by `|rep| - |pat|`. */
  lemma {:induction false} ReplaceLength(s: string, pat: string, rep: string)
    requires pat != []
    ensures |Replace(s, pat, rep)| == |s| + Count(s, pat) * (|rep| - |pat|)
    decreases |s|
  {
    if |s| < |pat| {
    } else if s[..|pat|] == pat {
      var rest := s[|pat|..];
      ReplaceLength(rest, pat, rep);
      assert Replace(s, pat, rep) == rep + Replace(rest, pat, rep);
      var c, d := Count(rest, pat), |rep| - |pat|;
      assert Count(s, pat) == 1 + c;
      Distribute(c, d);
    } else {
      var rest := s[1..];
      ReplaceLength(rest, pat, rep);
      assert Replace(s, pat, rep) == [s[0]] + Replace(rest, pat, rep);
      assert Count(s, pat) == Count(rest, pat);
    }
  }

  lemma Distribute(c: int, d: int)
    ensures (1 + c) * d == d + c * d
  {
  }

  /** With no occurrence, `replace` returns its input unchanged. */
  lemma {:induction false} ReplaceNoOccurrence(s: string, pat: string, rep: string)
    requires pat != [] && Count(s, pat) == 0
    ensures Replace(s, pat, rep) == s
    decreases |s|
  {
    if |s| >= |pat| {
      ReplaceNoOccurrence(s[1..], pat, rep);
      assert [s[0]] + s[1..] == s;
    }
  }
}
