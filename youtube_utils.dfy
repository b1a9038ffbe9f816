/** utils/youtube_utils.py: the three ordered id patterns and the URL
    canonicaliser built on them. */
module YoutubeUtils {
  import opened Wrappers
  import opened Text

  /** Eleven characters of `[0-9A-Za-z_-]` start at `p`. */
  predicate Id11At(s: string, p: int)
  {
    0 <= p && p + 11 <= |s| && forall k :: p <= k < p + 11 ==> IsIdAlphabet(s[k])
  }

  predicate IsVideoId(id: string)
  {
    |id| == 11 && forall k :: 0 <= k < 11 ==> IsIdAlphabet(id[k])
  }

  /** The patterns, in the order the list holds them:
      `(?:v=|/)(id).*`, `(?:youtu\.be/)(id)`, `(?:embed/)(id)`. */
  datatype Pattern = Standard | ShortLink | Embedded

  const Patterns: seq<Pattern> := [Standard, ShortLink, Embedded]

  /** Where the group starts when `pat` matches from `q`. The trailing `.*`
      of the standard pattern always matches, so it decides nothing. */
  function CaptureAt(pat: Pattern, s: string, q: nat): (r: Option<nat>)
    ensures r.Some? ==> Id11At(s, r.value) && q < r.value
  {
    match pat
    case Standard =>
      if At(s, q, "v=") && Id11At(s, q + 2) then Some(q + 2)
      else if At(s, q, "/") && Id11At(s, q + 1) then Some(q + 1)
      else None
    case ShortLink => if At(s, q, "youtu.be/") && Id11At(s, q + 9) then Some(q + 9) else None
    case Embedded => if At(s, q, "embed/") && Id11At(s, q + 6) then Some(q + 6) else None
  }

  /** `re.search(pat, s)` from `i`: the left-most start of a match. */
  function Search(pat: Pattern, s: string, i: nat): (r: Option<nat>)
    ensures r.Some? ==> i <= r.value <= |s| && CaptureAt(pat, s, r.value).Some?
    ensures forall q :: i <= q <= |s| && (r.None? || q < r.value) ==> CaptureAt(pat, s, q).None?
    decreases |s| + 1 - i
  {
    if i > |s| then None
    else if CaptureAt(pat, s, i).Some? then Some(i)
    else Search(pat, s, i + 1)
  }

  /** The id `pat` yields on `s`, if it matches. */
  function Group(pat: Pattern, s: string): (r: Option<string>)
    ensures r.Some? ==> IsVideoId(r.value)
    ensures r.None? <==> forall q :: 0 <= q <= |s| ==> CaptureAt(pat, s, q).None?
  {
    match Search(pat, s, 0)
    case None => None
    case Some(q) =>
      var p := CaptureAt(pat, s, q).value;
      Some(s[p..p + 11])
  }

  /** Try `pats` in order and return the group of the first that matches. */
  function FirstMatch(pats: seq<Pattern>, s: string): (r: Option<string>)
    ensures r.Some? ==> exists n :: 0 <= n < |pats| && Group(pats[n], s) == r &&
                                    forall m :: 0 <= m < n ==> Group(pats[m], s).None?
    ensures r.None? ==> forall n :: 0 <= n < |pats| ==> Group(pats[n], s).None?
  {
    if pats == [] then None
    else if Group(pats[0], s).Some? then Group(pats[0], s)
    else
      var r := FirstMatch(pats[1..], s);
      assert forall n :: 1 <= n < |pats| ==> pats[n] == pats[1..][n - 1];
      r
  }

  /** utils/youtube_utils.py's `extract_video_id`. */
  function ExtractVideoId(url: string): (r: Option<string>)
    ensures r.Some? ==> IsVideoId(r.value)
  {
    FirstMatch(Patterns, url)
  }

  /** Whatever the short-link or embed pattern matches, the standard pattern
      matches too, one character earlier: both put a `/` before the id. */
  lemma LaterPatternsSubsumed(s: string, pat: Pattern)
    requires pat == ShortLink || pat == Embedded
    requires Group(pat, s).Some?
    ensures Group(Standard, s).Some?
  {
    var q := Search(pat, s, 0).value;
    var p := CaptureAt(pat, s, q).value;
    if pat == ShortLink { AtChar(s, q, "youtu.be/", 8); } else { AtChar(s, q, "embed/", 5); }
    assert s[p - 1..p] == "/";
    assert CaptureAt(Standard, s, p - 1).Some?;
  }

  /** Hence the result always comes from the standard pattern. */
  lemma ResultFromStandardPattern(url: string)
    ensures ExtractVideoId(url) == Group(Standard, url)
  {
    if Group(Standard, url).None? {
      if Group(ShortLink, url).Some? { LaterPatternsSubsumed(url, ShortLink); }
      if Group(Embedded, url).Some? { LaterPatternsSubsumed(url, Embedded); }
      assert FirstMatch(Patterns, url).None?;
    }
  }

  /** The canonical URL prefix `clean_youtube_url` rebuilds. */
  const CanonicalPrefix: string := "https://www.youtube.com/watch?v="

  /** In `https://www.youtube.com/watch?v=<id>...` the earlier slashes are not
      followed by eleven id characters, so `v=` supplies `<id>`, whatever follows. */
  lemma CanonicalExtract(id: string, rest: string)
    requires IsVideoId(id)
    ensures ExtractVideoId(CanonicalPrefix + id + rest) == Some(id)
  {
    var lit := CanonicalPrefix;
    var s := lit + id + rest;
    assert s[..32] == lit;
    assert s[32..43] == id;
    NoCaptureInPrefix(s);
    assert s[30..32] == "v=" by { assert s[30..32] == lit[30..32]; }
    assert Id11At(s, 32) by {
      forall k | 32 <= k < 43 ensures IsIdAlphabet(s[k]) { assert s[k] == id[k - 32]; }
    }
    assert CaptureAt(Standard, s, 30) == Some(32);
    assert Search(Standard, s, 0) == Some(30);
    ResultFromStandardPattern(s);
  }

  /** No slash of `https://www.youtube.com/` is followed by eleven id
      characters, and no `v=` occurs before the query. */
  lemma NoCaptureInPrefix(s: string)
    requires |s| >= 32 && s[..32] == CanonicalPrefix
    ensures forall q :: 0 <= q < 30 ==> CaptureAt(Standard, s, q).None?
  {
    var lit := CanonicalPrefix;
    forall q | 0 <= q < 30 ensures CaptureAt(Standard, s, q).None? {
      assert s[q] == lit[q];
      if q == 6 {
        assert s[7] == lit[7] == '/';
      } else if q == 7 {
        assert s[11] == lit[11] == '.';
      } else if q == 23 {
        assert s[29] == lit[29] == '?';
      } else {
        assert lit[q] != '/' && lit[q] != 'v';
        if At(s, q, "v=") { AtChar(s, q, "v=", 0); }
        if At(s, q, "/") { AtChar(s, q, "/", 0); }
      }
    }
  }

  /** The end of the run of digits starting at `j`. */
  function DigitsEnd(s: string, j: nat): (e: nat)
    ensures j <= |s| ==> j <= e <= |s|
    ensures forall m :: j <= m < e ==> m < |s| && IsDigit(s[m])
    ensures e < |s| ==> !IsDigit(s[e])
    decreases |s| - j
  {
    if j < |s| && IsDigit(s[j]) then DigitsEnd(s, j + 1) else j
  }

  /** Where a match of `&t=\d+s` that starts at 0 ends. The greedy `\d+`
      can only stop at the end of the digit run, since `s` is no digit. */
  function TimestampEnd(s: string): (r: Option<nat>)
    ensures r.Some? ==> 5 <= r.value <= |s| && At(s, 0, "&t=") && s[r.value - 1] == 's'
    ensures r.Some? ==> forall m :: 3 <= m < r.value - 1 ==> IsDigit(s[m])
  {
    if At(s, 0, "&t=") then
      var e := DigitsEnd(s, 3);
      if e > 3 && e < |s| && s[e] == 's' then Some(e + 1) else None
    else None
  }

  /** `re.sub(r'&t=\d+s', '', s)`: every match, left to right, deleted. */
  function RemoveTimestamps(s: string): (r: string)
    ensures |r| <= |s|
    decreases |s|
  {
    if s == [] then []
    else match TimestampEnd(s)
      case Some(e) => RemoveTimestamps(s[e..])
      case None => [s[0]] + RemoveTimestamps(s[1..])
  }

  /** `re.sub(r'&feature=.*', '', s)`: each `&feature=` and the rest of its line deleted. */
  function RemoveFeature(s: string): (r: string)
    ensures |r| <= |s|
    decreases |s|
  {
    if s == [] then []
    else if At(s, 0, "&feature=") then RemoveFeature(s[LineEnd(s, 9)..])
    else [s[0]] + RemoveFeature(s[1..])
  }

  /** Both deletions only ever start at an `&`, so a text without one is left alone,
      and one is left alone up to its first `&`. */
  lemma {:induction false} RemovalsSkipAmpersandFree(a: string, b: string)
    requires '&' !in a
    ensures RemoveTimestamps(a + b) == a + RemoveTimestamps(b)
    ensures RemoveFeature(a + b) == a + RemoveFeature(b)
  {
    if a != [] {
      var s := a + b;
      assert s[0] == a[0];
      if At(s, 0, "&t=") { AtChar(s, 0, "&t=", 0); }
      if At(s, 0, "&feature=") { AtChar(s, 0, "&feature=", 0); }
      assert s[1..] == a[1..] + b;
      RemovalsSkipAmpersandFree(a[1..], b);
      assert TimestampEnd(s).None?;
      assert RemoveTimestamps(s) == [s[0]] + RemoveTimestamps(s[1..]);
      assert RemoveFeature(s) == [s[0]] + RemoveFeature(s[1..]);
      assert a == [a[0]] + a[1..];
    } else {
      assert a + b == b;
    }
  }

  /** A timestamp parameter `&t=<digits>s` is deleted. */
  lemma TimestampDeleted(a: string, digits: string, b: string)
    requires '&' !in a && digits != [] && forall k :: 0 <= k < |digits| ==> IsDigit(digits[k])
    ensures RemoveTimestamps(a + "&t=" + digits + "s" + b) == a + RemoveTimestamps(b)
  {
    var t := "&t=" + digits + "s" + b;
    assert a + "&t=" + digits + "s" + b == a + t;
    RemovalsSkipAmpersandFree(a, t);
    var e := |digits| + 4;
    TimestampMatched(digits, b);
    assert RemoveTimestamps(t) == RemoveTimestamps(t[e..]);
  }

  /** `&t=<digits>s` is one match, and the text goes on after it. */
  lemma TimestampMatched(digits: string, b: string)
    requires digits != [] && forall k :: 0 <= k < |digits| ==> IsDigit(digits[k])
    ensures var t := "&t=" + digits + "s" + b;
      TimestampEnd(t) == Some(|digits| + 4) && t[|digits| + 4..] == b
  {
    var t := "&t=" + digits + "s" + b;
    assert At(t, 0, "&t=") by { assert t[..3] == "&t="; }
    var e := |digits| + 3;
    forall m | 3 <= m < e ensures IsDigit(t[m]) { assert t[m] == digits[m - 3]; }
    assert t[e] == 's';
    assert DigitsEnd(t, 3) == e;
    assert t[e + 1..] == b;
  }

  /** `&feature=` deletes the rest of its (last) line. */
  lemma FeatureDeleted(a: string, b: string)
    requires '&' !in a && '\n' !in b
    ensures RemoveFeature(a + "&feature=" + b) == a
  {
    var t := "&feature=" + b;
    assert a + "&feature=" + b == a + t;
    RemovalsSkipAmpersandFree(a, t);
    assert At(t, 0, "&feature=") by { assert t[..9] == "&feature="; }
    forall m | 9 <= m < |t| ensures t[m] != '\n' { assert t[m] == b[m - 9]; }
    assert LineEnd(t, 9) == |t|;
    assert t[|t|..] == [];
    assert a + [] == a;
  }

  /** utils/youtube_utils.py's `clean_youtube_url`. */
  function CleanYoutubeUrl(url: string): (r: Option<string>)
    ensures r.None? <==> ExtractVideoId(RemoveFeature(RemoveTimestamps(url))).None?
    ensures r.Some? ==> |r.value| == 43 && r.value[..32] == CanonicalPrefix && IsVideoId(r.value[32..])
    ensures r.Some? ==> Some(r.value[32..]) == ExtractVideoId(RemoveFeature(RemoveTimestamps(url)))
  {
    var stripped := RemoveFeature(RemoveTimestamps(url));
    match ExtractVideoId(stripped)
    case None => None
    case Some(id) =>
      assert (CanonicalPrefix + id)[32..] == id;
      Some(CanonicalPrefix + id)
  }

  /** A canonical URL followed by anything (`&t=42s`, `&feature=share`, `&si=...`)
      cleans to the canonical URL of the same id. */
  lemma CleanCanonicalWithParameters(id: string, rest: string)
    requires IsVideoId(id)
    ensures CleanYoutubeUrl(CanonicalPrefix + id + rest) == Some(CanonicalPrefix + id)
  {
    var a := CanonicalPrefix + id;
    assert '&' !in a by {
      forall k | 0 <= k < |a| ensures a[k] != '&' {
        if k < 32 { assert a[k] == CanonicalPrefix[k]; } else { assert a[k] == id[k - 32]; }
      }
    }
    RemovalsSkipAmpersandFree(a, rest);
    var t := RemoveTimestamps(rest);
    RemovalsSkipAmpersandFree(a, t);
    assert RemoveFeature(RemoveTimestamps(a + rest)) == CanonicalPrefix + id + RemoveFeature(t);
    CanonicalExtract(id, RemoveFeature(t));
  }

  /** Idempotence: a cleaned URL cleans to itself. */
  lemma CleanIdempotent(url: string)
    requires CleanYoutubeUrl(url).Some?
    ensures CleanYoutubeUrl(CleanYoutubeUrl(url).value) == CleanYoutubeUrl(url)
  {
    var c := CleanYoutubeUrl(url).value;
    var id := c[32..];
    assert c == CanonicalPrefix + id + "";
    CleanCanonicalWithParameters(id, "");
  }
}
