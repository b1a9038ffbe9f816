/** `is_valid_youtube_url`, which youtube_downloader.py and
    youtube_downloader_pytube.py hold character for character:
    `re.match` (anchored at the start, any suffix allowed) of

      (https?://)?(www\.)?(youtube|youtu|youtube-nocookie)\.(com|be)/
      (watch\?v=|embed/|v/|.+\?v=)?([^&=%\?]{11})

    Every alternative before the `/` starts with a different character than
    what skipping it would need, so that part is deterministic. */
module UrlValidation {
  import opened Wrappers
  import opened Text

  /** `(https?://)?` */
  function SchemeEnd(s: string): (i: nat)
    ensures i == 0 || i == 7 || i == 8
  {
    if At(s, 0, "https://") then 8 else if At(s, 0, "http://") then 7 else 0
  }

  /** `(www\.)?` from `i` */
  function WwwEnd(s: string, i: nat): (j: nat)
    ensures j == i || j == i + 4
  {
    if At(s, i, "www.") then i + 4 else i
  }

  /** `(youtube|youtu|youtube-nocookie)\.` from `j` */
  function HostEnd(s: string, j: nat): (r: Option<nat>)
    ensures r.Some? ==> j + 6 <= r.value <= j + 17 && r.value <= |s| && s[j] == 'y'
  {
    if At(s, j, "youtube.") then AtChar(s, j, "youtube.", 0); Some(j + 8)
    else if At(s, j, "youtu.") then AtChar(s, j, "youtu.", 0); Some(j + 6)
    else if At(s, j, "youtube-nocookie.") then AtChar(s, j, "youtube-nocookie.", 0); Some(j + 17)
    else None
  }

  /** `(com|be)/` from `k` */
  function TldEnd(s: string, k: nat): (r: Option<nat>)
    ensures r.Some? ==> k + 3 <= r.value <= k + 4 && r.value <= |s|
  {
    if At(s, k, "com/") then Some(k + 4)
    else if At(s, k, "be/") then Some(k + 3)
    else None
  }

  /** Where the part after `host.tld/` starts, if the prefix fits. */
  function PathStart(s: string): (r: Option<nat>)
    ensures r.Some? ==> r.value <= |s|
  {
    var j := WwwEnd(s, SchemeEnd(s));
    match HostEnd(s, j)
    case None => None
    case Some(k) => TldEnd(s, k)
  }

  /** A character of `[^&=%\?]`. */
  predicate IsTokenChar(c: char)
  {
    c != '&' && c != '=' && c != '%' && c != '?'
  }

  predicate Token11At(s: string, p: int)
  {
    0 <= p && p + 11 <= |s| && forall k :: p <= k < p + 11 ==> IsTokenChar(s[k])
  }

  /** `.+\?v=` ending at `m + 3` with the token after it, `.+` starting at `p`:
      at least one character and no newline before the `?`. */
  predicate QueryMarkerAt(s: string, p: int, m: int)
  {
    0 <= p < m && m <= |s| && (forall k :: p <= k < m ==> s[k] != '\n') && At(s, m, "?v=") && Token11At(s, m + 3)
  }

  /** Scan `[lo, hi)` for such a marker. */
  function FindQueryMarker(s: string, p: nat, lo: nat, hi: nat): (r: Option<nat>)
    requires p < lo && hi <= LineEnd(s, p) && p <= |s|
    ensures r.Some? ==> lo <= r.value < hi && QueryMarkerAt(s, p, r.value)
    ensures r.None? ==> forall m :: lo <= m < hi ==> !QueryMarkerAt(s, p, m)
    decreases hi - lo
  {
    if hi <= lo then None
    else if At(s, lo, "?v=") && Token11At(s, lo + 3) then Some(lo)
    else FindQueryMarker(s, p, lo + 1, hi)
  }

  /** The optional marker group followed by the eleven-character token, from `p`. */
  predicate TailMatches(s: string, p: nat)
    requires p <= |s|
  {
    || Token11At(s, p)
    || (At(s, p, "watch?v=") && Token11At(s, p + 8))
    || (At(s, p, "embed/") && Token11At(s, p + 6))
    || (At(s, p, "v/") && Token11At(s, p + 2))
    || FindQueryMarker(s, p, p + 1, LineEnd(s, p)).Some?
  }

  /** `bool(re.match(youtube_regex, url))`. */
  predicate IsValidYoutubeUrl(url: string)
  {
    PathStart(url).Some? && TailMatches(url, PathStart(url).value)
  }

  /** After the `/`, a URL is valid iff eleven token characters follow one of
      the markers: none, `watch?v=`, `embed/`, `v/`, or text then `?v=`. */
  lemma ValidIffMarker(url: string)
    requires PathStart(url).Some?
    ensures var p := PathStart(url).value;
      IsValidYoutubeUrl(url) <==>
        || Token11At(url, p)
        || (At(url, p, "watch?v=") && Token11At(url, p + 8))
        || (At(url, p, "embed/") && Token11At(url, p + 6))
        || (At(url, p, "v/") && Token11At(url, p + 2))
        || exists m :: QueryMarkerAt(url, p, m)
  {
    var p := PathStart(url).value;
    var e := LineEnd(url, p);
    if m :| QueryMarkerAt(url, p, m) {
      // The `?` at `m` is not a newline, so `m` lies before the line end.
      assert m < e by { assert url[m] == '?' by { AtChar(url, m, "?v=", 0); } }
    }
  }

  /** What may stand before the host: an optional scheme, then an optional `www.`. */
  predicate IsLead(lead: string)
  {
    lead in {"", "http://", "https://", "www.", "http://www.", "https://www."}
  }

  /** After a lead, a host that starts with a letter other than `h` and `w`
      begins exactly where the lead ends. */
  lemma LeadSkipped(lead: string, s: string)
    requires IsLead(lead) && |lead| < |s| && s[..|lead|] == lead && s[|lead|] != 'h' && s[|lead|] != 'w'
    ensures WwwEnd(s, SchemeEnd(s)) == |lead|
  {
    var i := SchemeEnd(s);
    if At(s, 0, "https://") { AtChar(s, 0, "https://", 0); AtChar(s, 0, "https://", 4); }
    if At(s, 0, "http://") { AtChar(s, 0, "http://", 0); AtChar(s, 0, "http://", 4); }
    assert i == if |lead| >= 7 && lead[..5] == "https" then 8 else if |lead| >= 7 then 7 else 0 by {
      if |lead| >= 7 { assert s[..|lead|][..7] == lead[..7]; }
    }
    if At(s, i, "www.") { AtChar(s, i, "www.", 0); }
  }

  lemma HostPart(s: string, j: nat, host: string)
    requires host in {"youtube", "youtu", "youtube-nocookie"} && At(s, j, host + ".")
    ensures HostEnd(s, j) == Some(j + |host| + 1)
  {
    var w := host + ".";
    if host == "youtu" {
      AtChar(s, j, w, 5);
      if At(s, j, "youtube.") { AtChar(s, j, "youtube.", 5); }
    } else if host == "youtube-nocookie" {
      AtChar(s, j, w, 5);
      AtChar(s, j, w, 7);
      if At(s, j, "youtube.") { AtChar(s, j, "youtube.", 7); }
      if At(s, j, "youtu.") { AtChar(s, j, "youtu.", 5); }
    }
  }

  lemma TldPart(s: string, k: nat, tld: string)
    requires tld in {"com", "be"} && At(s, k, tld + "/")
    ensures TldEnd(s, k) == Some(k + |tld| + 1)
  {
    if tld == "be" {
      AtChar(s, k, tld + "/", 0);
      if At(s, k, "com/") { AtChar(s, k, "com/", 0); }
    }
  }

  lemma PathFromParts(s: string, j: nat, host: string, tld: string)
    requires host in {"youtube", "youtu", "youtube-nocookie"} && tld in {"com", "be"}
    requires WwwEnd(s, SchemeEnd(s)) == j && At(s, j, host + ".") && At(s, j + |host| + 1, tld + "/")
    ensures PathStart(s) == Some(j + |host| + |tld| + 2)
  {
    HostPart(s, j, host);
    TldPart(s, j + |host| + 1, tld);
  }

  lemma ValidFromParts(s: string, j: nat, host: string, tld: string)
    requires host in {"youtube", "youtu", "youtube-nocookie"} && tld in {"com", "be"}
    requires WwwEnd(s, SchemeEnd(s)) == j && At(s, j, host + ".")
    requires At(s, j + |host| + 1, tld + "/") && Token11At(s, j + |host| + |tld| + 2)
    ensures IsValidYoutubeUrl(s)
  {
    PathFromParts(s, j, host, tld);
  }

  lemma TokenAt(s: string, p: nat, token: string)
    requires At(s, p, token) && |token| == 11 && forall k :: 0 <= k < 11 ==> IsTokenChar(token[k])
    ensures Token11At(s, p)
  {
    forall i | p <= i < p + 11 ensures IsTokenChar(s[i]) { AtChar(s, p, token, i - p); }
  }

  /** All six host combinations are accepted, followed by eleven token characters and anything at all. */
  lemma HostsAccepted(lead: string, host: string, tld: string, token: string, rest: string)
    requires IsLead(lead)
    requires host in {"youtube", "youtu", "youtube-nocookie"} && tld in {"com", "be"}
    requires |token| == 11 && forall k :: 0 <= k < 11 ==> IsTokenChar(token[k])
    ensures IsValidYoutubeUrl(lead + host + "." + tld + "/" + token + rest)
  {
    var s := lead + host + "." + tld + "/" + token + rest;
    AtParts(lead, host, ".", tld, "/", token, rest);
    assert WwwEnd(s, SchemeEnd(s)) == |lead| by {
      LeadSkipped(lead, s);
    }
    assert Token11At(s, |lead| + |host| + |tld| + 2) by {
      TokenAt(s, |lead| + |host| + 1 + |tld| + 1, token);
    }
    ValidFromParts(s, |lead|, host, tld);
  }

  /** Each of the three hosts starts with `youtu`. */
  lemma HostNeedsYoutu(s: string, j: nat)
    ensures HostEnd(s, j).Some? ==> At(s, j, "youtu")
  {
    if HostEnd(s, j).Some? {
      var w := if At(s, j, "youtube.") then "youtube." else if At(s, j, "youtu.") then "youtu." else "youtube-nocookie.";
      assert At(s, j, w);
      assert s[j..j + 5] == s[j..j + |w|][..5];
    }
  }

  /** A URL whose host does not start right after the optional scheme and
      `www.` is rejected, whatever follows: after the lead there must be
      `youtu`, or else another `h` or `w` that the lead did not take. */
  lemma OtherHostRejected(lead: string, rest: string)
    requires IsLead(lead) && rest != [] && rest[0] != 'h' && rest[0] != 'w' && !At(rest, 0, "youtu")
    ensures !IsValidYoutubeUrl(lead + rest)
  {
    var s := lead + rest;
    assert s[..|lead|] == lead && s[|lead|] == rest[0];
    LeadSkipped(lead, s);
    assert !At(s, |lead|, "youtu") by {
      if |rest| >= 5 { assert s[|lead|..|lead| + 5] == rest[..5]; }
    }
    HostNeedsYoutu(s, |lead|);
  }

  /** Two instances of `OtherHostRejected`: `m.youtube.com/...` (only a
      scheme and `www.` may stand before the host) and `YouTube.com/...` (the
      host is matched case-sensitively). */
  lemma MobileAndCapitalRejected(lead: string, rest: string)
    requires IsLead(lead)
    ensures !IsValidYoutubeUrl(lead + "m." + rest)
    ensures !IsValidYoutubeUrl(lead + "YouTube.com/" + rest)
  {
    var m, c := "m." + rest, "YouTube.com/" + rest;
    assert lead + "m." + rest == lead + m;
    assert !At(m, 0, "youtu") by { if At(m, 0, "youtu") { AtChar(m, 0, "youtu", 0); } }
    OtherHostRejected(lead, m);
    assert lead + "YouTube.com/" + rest == lead + c;
    assert !At(c, 0, "youtu") by { if At(c, 0, "youtu") { AtChar(c, 0, "youtu", 0); } }
    OtherHostRejected(lead, c);
  }

  /** `youtu.be/` followed by fewer than eleven characters is rejected. */
  lemma ShortTokenRejected(lead: string, rest: string)
    requires IsLead(lead) && |rest| < 11
    ensures !IsValidYoutubeUrl(lead + "youtu.be/" + rest)
  {
    ShortLinkPath(lead, rest);
    ValidRoom(lead + "youtu.be/" + rest);
  }

  lemma ShortLinkPath(lead: string, rest: string)
    requires IsLead(lead)
    ensures PathStart(lead + "youtu.be/" + rest) == Some(|lead| + 9)
  {
    var s := lead + "youtu.be/" + rest;
    ShortLinkParts(lead, rest);
    LeadSkipped(lead, s);
    PathFromParts(s, |lead|, "youtu", "be");
  }

  lemma ShortLinkParts(lead: string, rest: string)
    ensures var s := lead + "youtu.be/" + rest;
      && s[..|lead|] == lead && |lead| < |s| && s[|lead|] == 'y'
      && At(s, |lead|, "youtu.") && At(s, |lead| + 6, "be/")
  {
    var s := lead + "youtu.be/" + rest;
    AtConcat(lead, "youtu.be/", rest);
    AtSplit(s, |lead|, "youtu.", "be/");
    assert s[|lead|] == 'y';
  }

  /** `https://www.youtube.com/channel/UC...` is accepted: `channel/UC`
      and the next character are the eleven token characters. */
  lemma ChannelPathAccepted(id: string)
    requires |id| >= 3 && forall k :: 0 <= k < 3 ==> IsTokenChar(id[k])
    ensures IsValidYoutubeUrl("https://www.youtube.com/channel/" + id)
  {
    var prefix := "https://www.youtube.com/channel/";
    var s := prefix + id;
    assert s[..12] == prefix[..12] == "https://www.";
    assert s[12] == 'y';
    LeadSkipped("https://www.", s);
    assert prefix[12..20] == "youtube." && prefix[20..24] == "com/";
    AtExtend(prefix, id, 12, "youtube.");
    AtExtend(prefix, id, 20, "com/");
    forall k | 24 <= k < 35 ensures IsTokenChar(s[k]) {
      if k < 32 { assert s[k] == prefix[k]; } else { assert s[k] == id[k - 32]; }
    }
    ValidFromParts(s, 12, "youtube", "com");
  }

  lemma AtExtend(u: string, x: string, i: nat, w: string)
    requires i + |w| <= |u|
    ensures At(u + x, i, w) == At(u, i, w)
  {
    assert (u + x)[i..i + |w|] == u[i..i + |w|];
  }

  lemma Token11Extend(u: string, x: string, q: int)
    requires Token11At(u, q)
    ensures Token11At(u + x, q)
  {
    forall k | q <= k < q + 11 ensures IsTokenChar((u + x)[k]) { assert (u + x)[k] == u[k]; }
  }

  /** A valid URL leaves room for the token after the `/`. */
  lemma ValidRoom(u: string)
    ensures IsValidYoutubeUrl(u) ==> PathStart(u).value + 11 <= |u|
  {
    if !IsValidYoutubeUrl(u) {
      return;
    }
    var p := PathStart(u).value;
    if !Token11At(u, p) && !(At(u, p, "watch?v=") && Token11At(u, p + 8))
      && !(At(u, p, "embed/") && Token11At(u, p + 6)) && !(At(u, p, "v/") && Token11At(u, p + 2)) {
      var m := FindQueryMarker(u, p, p + 1, LineEnd(u, p)).value;
      assert Token11At(u, m + 3);
    }
  }

  lemma PathStartExtends(u: string, x: string)
    requires PathStart(u).Some? && PathStart(u).value + 11 <= |u|
    ensures PathStart(u + x) == PathStart(u)
  {
    var j := WwwEnd(u, SchemeEnd(u));
    LeadExtends(u, x);
    HostExtends(u, x, j);
    var k := HostEnd(u, j).value;
    TldExtends(u, x, k);
  }

  lemma LeadExtends(u: string, x: string)
    requires 12 <= |u|
    ensures WwwEnd(u + x, SchemeEnd(u + x)) == WwwEnd(u, SchemeEnd(u))
  {
    AtExtend(u, x, 0, "https://");
    AtExtend(u, x, 0, "http://");
    AtExtend(u, x, SchemeEnd(u), "www.");
  }

  lemma HostExtends(u: string, x: string, j: nat)
    requires j + 17 <= |u|
    ensures HostEnd(u + x, j) == HostEnd(u, j)
  {
    AtExtend(u, x, j, "youtube-nocookie.");
    AtExtend(u, x, j, "youtube.");
    AtExtend(u, x, j, "youtu.");
  }

  lemma TldExtends(u: string, x: string, k: nat)
    requires k + 4 <= |u|
    ensures TldEnd(u + x, k) == TldEnd(u, k)
  {
    AtExtend(u, x, k, "com/");
    AtExtend(u, x, k, "be/");
  }

  lemma QueryMarkerExtends(u: string, x: string, p: nat)
    requires p <= |u| && FindQueryMarker(u, p, p + 1, LineEnd(u, p)).Some?
    ensures FindQueryMarker(u + x, p, p + 1, LineEnd(u + x, p)).Some?
  {
    var s := u + x;
    var m := FindQueryMarker(u, p, p + 1, LineEnd(u, p)).value;
    AtExtend(u, x, m, "?v=");
    Token11Extend(u, x, m + 3);
    AtChar(u, m, "?v=", 0);
    forall k | p <= k < m ensures s[k] != '\n' { assert s[k] == u[k]; }
    assert QueryMarkerAt(s, p, m);
    var e := LineEnd(s, p);
    assert s[m] == '?';
  }

  /** Only a prefix has to fit: whatever is appended to a valid URL, it stays valid. */
  lemma ValidExtends(u: string, x: string)
    requires IsValidYoutubeUrl(u)
    ensures IsValidYoutubeUrl(u + x)
  {
    ValidRoom(u);
    PathStartExtends(u, x);
    var p := PathStart(u).value;
    if Token11At(u, p) { Token11Extend(u, x, p); }
    else if At(u, p, "watch?v=") && Token11At(u, p + 8) { AtExtend(u, x, p, "watch?v="); Token11Extend(u, x, p + 8); }
    else if At(u, p, "embed/") && Token11At(u, p + 6) { AtExtend(u, x, p, "embed/"); Token11Extend(u, x, p + 6); }
    else if At(u, p, "v/") && Token11At(u, p + 2) { AtExtend(u, x, p, "v/"); Token11Extend(u, x, p + 2); }
    else { QueryMarkerExtends(u, x, p); }
  }
}
