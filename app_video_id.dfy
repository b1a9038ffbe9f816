/** The video-id recogniser of app.py: one regular expression, searched
    leftmost, whose first group is the id.

      youtube\.com/ ( [^/]+/.+/  |  (v|e(mbed)?)/  |  .*[?&]v= )   |   youtu\.be/
      followed by the group ([^"&?/\s]{11})

    The alternatives are tried in the order the regex engine tries them, and
    the greedy `.+` and `.*` pick the right-most candidate on the line. */
module AppVideoId {
  import opened Wrappers
  import opened Text

  /** A character of the id group `[^"&?/\s]`. */
  predicate IsIdChar(c: char)
  {
    c != '"' && c != '&' && c != '?' && c != '/' && !IsSpace(c)
  }

  /** Eleven id characters start at `p`. */
  predicate Id11At(s: string, p: int)
  {
    0 <= p && p + 11 <= |s| && forall k :: p <= k < p + 11 ==> IsIdChar(s[k])
  }

  /** The first `/` at or after `j`. */
  function FirstSlash(s: string, j: nat): (r: Option<nat>)
    ensures r.Some? ==> j <= r.value < |s| && s[r.value] == '/'
    ensures forall m :: j <= m < |s| && (r.None? || m < r.value) ==> s[m] != '/'
    decreases |s| - j
  {
    if j >= |s| then None
    else if s[j] == '/' then Some(j)
    else FirstSlash(s, j + 1)
  }

  /** A `/` at `m` that closes `.+/` and is followed by the id. */
  predicate SlashCandidate(s: string, m: int)
  {
    0 <= m < |s| && s[m] == '/' && Id11At(s, m + 1)
  }

  /** The right-most slash candidate in `[lo, hi)`: what greedy `.+/` settles on. */
  function LastSlashCandidate(s: string, lo: nat, hi: nat): (r: Option<nat>)
    ensures r.Some? ==> lo <= r.value < hi && SlashCandidate(s, r.value)
    ensures forall m :: lo <= m < hi && (r.None? || r.value < m) ==> !SlashCandidate(s, m)
    decreases hi
  {
    if hi <= lo then None
    else if SlashCandidate(s, hi - 1) then Some(hi - 1)
    else LastSlashCandidate(s, lo, hi - 1)
  }

  /** A `?` or `&` at `m` followed by `v=` and the id. */
  predicate QueryCandidate(s: string, m: int)
  {
    0 <= m < |s| && (s[m] == '?' || s[m] == '&') && At(s, m + 1, "v=") && Id11At(s, m + 3)
  }

  /** The right-most query candidate in `[lo, hi)`: what greedy `.*[?&]v=` settles on. */
  function LastQueryCandidate(s: string, lo: nat, hi: nat): (r: Option<nat>)
    ensures r.Some? ==> lo <= r.value < hi && QueryCandidate(s, r.value)
    ensures forall m :: lo <= m < hi && (r.None? || r.value < m) ==> !QueryCandidate(s, m)
    decreases hi
  {
    if hi <= lo then None
    else if QueryCandidate(s, hi - 1) then Some(hi - 1)
    else LastQueryCandidate(s, lo, hi - 1)
  }

  /** Branch `[^/]+/.+/` after `youtube.com/` at `j`. `[^/]+` can only end
      at the first slash, because a shorter run is followed by a non-slash. */
  function PathBranch(s: string, j: nat): (r: Option<nat>)
    ensures r.Some? ==> Id11At(s, r.value) && r.value > j
  {
    match FirstSlash(s, j)
    case None => None
    case Some(k) =>
      if k == j then None
      else match LastSlashCandidate(s, k + 2, LineEnd(s, k + 1))
        case None => None
        case Some(m) => Some(m + 1)
  }

  /** Branch `(v|e(mbed)?)/` after `youtube.com/` at `j`. */
  function EmbedBranch(s: string, j: nat): (r: Option<nat>)
    ensures r.Some? ==> Id11At(s, r.value)
  {
    if At(s, j, "v/") && Id11At(s, j + 2) then Some(j + 2)
    else if At(s, j, "embed/") && Id11At(s, j + 6) then Some(j + 6)
    else if At(s, j, "e/") && Id11At(s, j + 2) then Some(j + 2)
    else None
  }

  /** Branch `.*[?&]v=` after `youtube.com/` at `j`. */
  function QueryBranch(s: string, j: nat): (r: Option<nat>)
    ensures r.Some? ==> Id11At(s, r.value) && r.value >= j + 3
  {
    match LastQueryCandidate(s, j, LineEnd(s, j))
    case None => None
    case Some(m) => Some(m + 3)
  }

  /** Where the id group starts when the whole pattern is matched from `q`. */
  function MatchAt(s: string, q: nat): (r: Option<nat>)
    ensures r.Some? ==> Id11At(s, r.value)
  {
    if At(s, q, "youtube.com/") then
      var j := q + 12;
      if PathBranch(s, j).Some? then PathBranch(s, j)
      else if EmbedBranch(s, j).Some? then EmbedBranch(s, j)
      else QueryBranch(s, j)
    else if At(s, q, "youtu.be/") && Id11At(s, q + 9) then Some(q + 9)
    else None
  }

  /** `re.search`: the left-most start, at or after `i`, from which the pattern matches. */
  function Search(s: string, i: nat): (r: Option<nat>)
    ensures r.Some? ==> i <= r.value <= |s| && MatchAt(s, r.value).Some?
    decreases |s| + 1 - i
  {
    if i > |s| then None
    else if MatchAt(s, i).Some? then Some(i)
    else Search(s, i + 1)
  }

  /** No match starts between `i` and the one `Search` finds. */
  lemma {:induction false} SearchLeftmost(s: string, i: nat)
    ensures forall q :: i <= q <= |s| && (Search(s, i).None? || q < Search(s, i).value) ==> MatchAt(s, q).None?
    decreases |s| + 1 - i
  {
    if i <= |s| && MatchAt(s, i).None? {
      SearchLeftmost(s, i + 1);
    }
  }

  /** app.py's `extract_video_id`: the id group of the left-most match, or None. */
  function ExtractVideoId(url: string): (r: Option<string>)
    ensures r.Some? ==> |r.value| == 11 && forall k :: 0 <= k < 11 ==> IsIdChar(r.value[k])
    ensures r.None? <==> forall q :: 0 <= q <= |url| ==> MatchAt(url, q).None?
  {
    SearchLeftmost(url, 0);
    match Search(url, 0)
    case None => None
    case Some(q) =>
      var p := MatchAt(url, q).value;
      Some(url[p..p + 11])
  }

  /** Eleven characters of the id class. */
  predicate IsVideoId(id: string)
  {
    |id| == 11 && forall k :: 0 <= k < 11 ==> IsIdChar(id[k])
  }

  /** Both alternatives of the pattern begin with `y`, so no match starts at a
      position of a prefix that holds no `y` (such as `https://www.`). */
  lemma NoMatchInPrefix(p: string, s: string, q: nat)
    requires 'y' !in p && p <= s && q < |p|
    ensures MatchAt(s, q).None?
  {
    assert s[q] == p[q];
    if At(s, q, "youtube.com/") { AtChar(s, q, "youtube.com/", 0); }
    if At(s, q, "youtu.be/") { AtChar(s, q, "youtu.be/", 0); }
  }

  /** A match at `|p|` is the left-most one. */
  lemma FirstMatchAfterPrefix(p: string, s: string)
    requires 'y' !in p && p <= s && MatchAt(s, |p|).Some?
    ensures Search(s, 0) == Some(|p|)
  {
    forall q | 0 <= q < |p| ensures MatchAt(s, q).None? { NoMatchInPrefix(p, s, q); }
    SearchFinds(s, 0, |p|);
  }

  /** With no match in `[i, k)` and one at `k`, the search from `i` stops at `k`. */
  lemma {:induction false} SearchFinds(s: string, i: nat, k: nat)
    requires i <= k <= |s| && MatchAt(s, k).Some?
    requires forall q :: i <= q < k ==> MatchAt(s, q).None?
    ensures Search(s, i) == Some(k)
    decreases k - i
  {
    if i < k {
      SearchFinds(s, i + 1, k);
    }
  }

  lemma IdAt(s: string, p: nat, id: string)
    requires IsVideoId(id) && p + 11 <= |s| && s[p..p + 11] == id
    ensures Id11At(s, p)
  {
    forall k | p <= k < p + 11 ensures IsIdChar(s[k]) { assert s[k] == id[k - p]; }
  }

  /** `youtu.be/<id>`, after any prefix without `y` and before anything at all, yields `<id>`. */
  lemma ShortLinkForm(p: string, id: string, rest: string)
    requires 'y' !in p && IsVideoId(id)
    ensures ExtractVideoId(p + "youtu.be/" + id + rest) == Some(id)
  {
    var s := p + "youtu.be/" + id + rest;
    var q := |p|;
    assert s[..q] == p;
    assert s[q..q + 9] == "youtu.be/";
    assert s[q + 9..q + 20] == id;
    IdAt(s, q + 9, id);
    if At(s, q, "youtube.com/") {
      AtChar(s, q, "youtube.com/", 5);
      AtChar(s, q, "youtu.be/", 5);
    }
    assert MatchAt(s, q) == Some(q + 9);
    FirstMatchAfterPrefix(p, s);
  }

  /** `rest` holds no `v=` pair. */
  predicate NoVParam(rest: string)
  {
    forall m :: 0 <= m < |rest| ==> !At(rest, m, "v=")
  }

  /** `youtube.com/embed/<id>` yields `<id>` when no `/` follows the id. */
  lemma EmbedForm(p: string, id: string, rest: string)
    requires 'y' !in p && IsVideoId(id) && '/' !in rest
    ensures ExtractVideoId(p + "youtube.com/embed/" + id + rest) == Some(id)
  {
    var lit := "youtube.com/embed/";
    var s := p + lit + id + rest;
    var q := |p|;
    assert s[..q] == p;
    assert At(s, q, lit) by { AtConcat(p, lit, id + rest); assert s == p + lit + (id + rest); }
    assert s[q + 18..q + 29] == id;
    forall m | q + 18 <= m < |s| ensures s[m] != '/' {
      if m < q + 29 { assert s[m] == id[m - q - 18]; } else { assert s[m] == rest[m - q - 29]; }
    }
    IdAt(s, q + 18, id);
    EmbedMatchAt(s, q);
    FirstMatchAfterPrefix(p, s);
  }

  /** The match at `q` of a string that holds `youtube.com/embed/` there,
      followed by the id and no further slash. */
  lemma EmbedMatchAt(s: string, q: nat)
    requires At(s, q, "youtube.com/embed/") && Id11At(s, q + 18)
    requires forall m :: q + 18 <= m < |s| ==> s[m] != '/'
    ensures MatchAt(s, q) == Some(q + 18)
  {
    var j := q + 12;
    assert "youtube.com/embed/" == "youtube.com/" + "embed/";
    AtSplit(s, q, "youtube.com/", "embed/");
    forall m | j <= m < q + 17 ensures s[m] != '/' { AtChar(s, j, "embed/", m - j); }
    AtChar(s, j, "embed/", 5);
    SlashAfterAll(s, j, q + 17);
    assert EmbedBranch(s, j) == Some(j + 6) by {
      AtChar(s, j, "embed/", 0);
      if At(s, j, "v/") { AtChar(s, j, "v/", 0); }
    }
  }

  /** When the first slash from `j` is the last one, the branch `[^/]+/.+/` fails. */
  lemma SlashAfterAll(s: string, j: nat, k: nat)
    requires j <= k < |s| && s[k] == '/' && forall m :: j <= m < k ==> s[m] != '/'
    requires forall m :: k < m < |s| ==> s[m] != '/'
    ensures FirstSlash(s, j) == Some(k) && PathBranch(s, j).None?
  {
    assert FirstSlash(s, j) == Some(k);
    assert LastSlashCandidate(s, k + 2, LineEnd(s, k + 1)).None?;
  }

  /** The branch `(v|e(mbed)?)/` needs a `v` or an `e` at `j`. */
  lemma NoEmbedBranch(s: string, j: nat)
    requires j < |s| && s[j] != 'v' && s[j] != 'e'
    ensures EmbedBranch(s, j).None?
  {
    if At(s, j, "v/") { AtChar(s, j, "v/", 0); }
    if At(s, j, "embed/") { AtChar(s, j, "embed/", 0); }
    if At(s, j, "e/") { AtChar(s, j, "e/", 0); }
  }

  /** The branch `.*[?&]v=` fails without a query candidate from `j` on. */
  lemma NoQueryBranch(s: string, j: nat)
    requires forall m :: j <= m < |s| ==> !QueryCandidate(s, m)
    ensures QueryBranch(s, j).None?
  {
    assert LastQueryCandidate(s, j, LineEnd(s, j)).None?;
  }

  /** A query candidate in a suffix is a `v=` pair of that suffix. */
  lemma QueryCandidateIn(s: string, off: nat, m: nat)
    requires off <= m < |s|
    ensures QueryCandidate(s, m) ==> At(s[off..], m + 1 - off, "v=")
  {
    if QueryCandidate(s, m) {
      assert s[m + 1..m + 3] == s[off..][m + 1 - off..m + 3 - off];
    }
  }

  /** A unique query candidate on the line is what `.*[?&]v=` settles on. */
  lemma OnlyQueryCandidate(s: string, j: nat, m0: nat)
    requires j <= m0 && QueryCandidate(s, m0) && m0 < LineEnd(s, j)
    requires forall m :: m0 < m < |s| ==> !QueryCandidate(s, m)
    ensures QueryBranch(s, j) == Some(m0 + 3)
  {
  }

  /** The match at `q` of a string that holds `youtube.com/watch?v=` there,
      with no slash and no further query candidate after it. */
  lemma WatchMatchAt(s: string, q: nat)
    requires At(s, q, "youtube.com/watch?v=") && Id11At(s, q + 20)
    requires forall m :: q + 20 <= m < |s| ==> s[m] != '/' && !QueryCandidate(s, m)
    ensures MatchAt(s, q) == Some(q + 20)
  {
    var j := q + 12;
    assert "youtube.com/watch?v=" == "youtube.com/" + "watch?v=";
    AtSplit(s, q, "youtube.com/", "watch?v=");
    var w := "watch?v=";
    forall m | j <= m < j + 8 ensures s[m] == w[m - j] { AtChar(s, j, w, m - j); }
    assert forall m :: j <= m < j + 8 ==> s[m] != '/' && s[m] != '\n';
    assert forall m :: j + 5 < m < j + 8 ==> !QueryCandidate(s, m);
    assert QueryCandidate(s, j + 5) by { assert s[j + 6..j + 8] == "v="; }
    NoEmbedBranch(s, j);
    assert FirstSlash(s, j).None?;
    LineEndBeyond(s, j, j + 5);
    OnlyQueryCandidate(s, j, j + 5);
  }

  /** A line that holds no newline in `[j, k]` ends after `k`. */
  lemma LineEndBeyond(s: string, j: nat, k: nat)
    requires j <= k < |s| && forall m :: j <= m <= k ==> s[m] != '\n'
    ensures LineEnd(s, j) > k
  {
  }

  /** `youtube.com/watch?v=<id>` yields `<id>` when no `/` and no second `v=` follow the id. */
  lemma WatchForm(p: string, id: string, rest: string)
    requires 'y' !in p && IsVideoId(id) && '/' !in rest && NoVParam(rest)
    ensures ExtractVideoId(p + "youtube.com/watch?v=" + id + rest) == Some(id)
  {
    var lit := "youtube.com/watch?v=";
    var s := p + lit + id + rest;
    var q := |p|;
    assert s[..q] == p;
    assert s[q..q + 20] == lit;
    assert s[q + 20..q + 31] == id;
    assert s[q + 31..] == rest;
    IdAt(s, q + 20, id);
    forall m | q + 20 <= m < |s| ensures s[m] != '/' && !QueryCandidate(s, m) {
      if m < q + 31 {
        assert s[m] == id[m - q - 20];
      } else {
        assert s[m] == rest[m - q - 31];
        QueryCandidateIn(s, q + 31, m);
      }
    }
    WatchMatchAt(s, q);
    FirstMatchAfterPrefix(p, s);
  }

  lemma NoMatchWithoutY(s: string, q: nat)
    requires q < |s| ==> s[q] != 'y'
    ensures MatchAt(s, q).None?
  {
    if At(s, q, "youtube.com/") { AtChar(s, q, "youtube.com/", 0); }
    if At(s, q, "youtu.be/") { AtChar(s, q, "youtu.be/", 0); }
  }

  lemma NoMatchWithoutSlash(s: string, q: nat)
    requires forall m :: q <= m < |s| ==> s[m] != '/'
    ensures MatchAt(s, q).None?
  {
    if At(s, q, "youtube.com/") { AtChar(s, q, "youtube.com/", 11); }
    if At(s, q, "youtu.be/") { AtChar(s, q, "youtu.be/", 8); }
  }

  /** The match attempt at a `youtube.com/shorts/` with no slash and no query
      candidate after it fails: none of the three branches fits. */
  lemma ShortsNoMatchAt(s: string, q: nat)
    requires At(s, q, "youtube.com/shorts/")
    requires forall m :: q + 19 <= m < |s| ==> s[m] != '/' && !QueryCandidate(s, m)
    ensures MatchAt(s, q).None?
  {
    var j := q + 12;
    assert "youtube.com/shorts/" == "youtube.com/" + "shorts/";
    AtSplit(s, q, "youtube.com/", "shorts/");
    forall m | j <= m < q + 18 ensures s[m] != '/' && !QueryCandidate(s, m) { AtChar(s, j, "shorts/", m - j); }
    AtChar(s, j, "shorts/", 6);
    AtChar(s, j, "shorts/", 0);
    assert !QueryCandidate(s, q + 18);
    SlashAfterAll(s, j, q + 18);
    NoEmbedBranch(s, j);
    NoQueryBranch(s, j);
    AtChar(s, q, "youtube.com/", 5);
    if At(s, q, "youtu.be/") { AtChar(s, q, "youtu.be/", 5); }
  }

  /** `youtube.com/shorts/<id>` without a `v=` parameter yields None. */
  lemma ShortsFormRejected(p: string, id: string, rest: string)
    requires 'y' !in p && IsVideoId(id) && '/' !in rest && NoVParam(rest)
    ensures ExtractVideoId(p + "youtube.com/shorts/" + id + rest) == None
  {
    var lit := "youtube.com/shorts/";
    var s := p + lit + id + rest;
    var q := |p|;
    assert s[..q] == p;
    assert s[q..q + 19] == lit;
    assert s[q + 19..q + 30] == id;
    assert s[q + 30..] == rest;
    forall m | q + 19 <= m < |s| ensures s[m] != '/' && !QueryCandidate(s, m) {
      if m < q + 30 {
        assert s[m] == id[m - q - 19];
      } else {
        assert s[m] == rest[m - q - 30];
        QueryCandidateIn(s, q + 30, m);
      }
    }
    forall r | 0 <= r <= |s| ensures MatchAt(s, r).None? {
      if r < q {
        NoMatchInPrefix(p, s, r);
      } else if r == q {
        ShortsNoMatchAt(s, q);
      } else if r < q + 19 {
        assert s[r] == lit[r - q];
        NoMatchWithoutY(s, r);
      } else {
        NoMatchWithoutSlash(s, r);
      }
    }
  }
}
