/** streamlit_app.py: its own id recogniser and the validation and
    paragraph-splitting steps of `get_transcript_paragraphs`. */
module StreamlitApp {
  import opened Wrappers
  import opened Text
  import YoutubeUtils

  /** Where the group of `(?:v=|youtu\.be/)([a-zA-Z0-9_-]{11})` starts when
      matched from `q`. */
  function CaptureAt(s: string, q: nat): (r: Option<nat>)
    ensures r.Some? ==> YoutubeUtils.Id11At(s, r.value)
  {
    if At(s, q, "v=") && YoutubeUtils.Id11At(s, q + 2) then Some(q + 2)
    else if At(s, q, "youtu.be/") && YoutubeUtils.Id11At(s, q + 9) then Some(q + 9)
    else None
  }

  /** The left-most start, at or after `i`, of a match. */
  function Search(s: string, i: nat): (r: Option<nat>)
    ensures r.Some? ==> i <= r.value <= |s| && CaptureAt(s, r.value).Some?
    ensures forall q :: i <= q <= |s| && (r.None? || q < r.value) ==> CaptureAt(s, q).None?
    decreases |s| + 1 - i
  {
    if i > |s| then None
    else if CaptureAt(s, i).Some? then Some(i)
    else Search(s, i + 1)
  }

  /** streamlit_app.py's `extract_video_id`: the eleven id characters after the
      left-most `v=` or `youtu.be/` that has eleven of them, else None. */
  function ExtractVideoId(url: string): (r: Option<string>)
    ensures r.Some? ==> YoutubeUtils.IsVideoId(r.value)
    ensures r.Some? <==> exists q :: 0 <= q <= |url| && CaptureAt(url, q).Some?
  {
    match Search(url, 0)
    case None => None
    case Some(q) =>
      var p := CaptureAt(url, q).value;
      Some(url[p..p + 11])
  }

  /** A URL with no `=` and no `.` three places before a `/` holds no marker. */
  lemma NoMarkersRejected(u: string)
    requires forall k :: 0 <= k < |u| ==> u[k] != '='
    requires forall k :: 5 <= k < |u| - 3 && u[k] == '.' ==> u[k + 3] != '/'
    ensures ExtractVideoId(u) == None
  {
    forall q | 0 <= q <= |u| ensures CaptureAt(u, q).None? {
      if At(u, q, "v=") { AtChar(u, q, "v=", 1); }
      if At(u, q, "youtu.be/") {
        AtChar(u, q, "youtu.be/", 5);
        AtChar(u, q, "youtu.be/", 8);
      }
    }
  }

  /** `https://www.youtube.com/embed/<id>` and `.../shorts/<id>` hold neither
      `v=` nor `youtu.be/`, so this recogniser rejects them. */
  lemma EmbedAndShortsRejected(kind: string, id: string)
    requires kind == "embed" || kind == "shorts"
    requires YoutubeUtils.IsVideoId(id)
    ensures ExtractVideoId("https://www.youtube.com/" + kind + "/" + id) == None
  {
    var lit := "https://www.youtube.com/";
    var u := lit + kind + "/" + id;
    var n := |kind| + 25;
    assert u[..24] == lit;
    assert u[24..n - 1] == kind;
    assert u[n - 1] == '/';
    assert u[n..] == id;
    assert forall k :: 0 <= k < |u| ==> u[k] == '.' ==> k == 11 || k == 19 by {
      forall k | 0 <= k < |u| ensures u[k] == '.' ==> k == 11 || k == 19 {
        if k < 24 { assert u[k] == lit[k]; }
        else if k < n - 1 { assert u[k] == kind[k - 24]; }
        else if k >= n { assert u[k] == id[k - n]; }
      }
    }
    assert forall k :: 0 <= k < |u| ==> u[k] != '=' by {
      forall k | 0 <= k < |u| ensures u[k] != '=' {
        if k < 24 { assert u[k] == lit[k]; }
        else if k < n - 1 { assert u[k] == kind[k - 24]; }
        else if k >= n { assert u[k] == id[k - n]; }
      }
    }
    assert u[14] != '/' && u[22] != '/';
    NoMarkersRejected(u);
  }

  /** The Arabic question mark. */
  const ArabicQuestion: char := '\U{061F}'

  /** The punctuation after which `get_transcript_paragraphs` breaks paragraphs. */
  predicate IsMark(c: char)
  {
    c == '.' || c == ArabicQuestion || c == '!'
  }

  /** `text.replace(c + ' ', c + '\n\n')`. */
  function BreakAfter(s: string, c: char): string
  {
    Replace(s, [c, ' '], [c, '\n', '\n'])
  }

  /** `text.replace(c + '\n\n', c + ' ')`, the inverse mapping. */
  function JoinAfter(s: string, c: char): string
  {
    Replace(s, [c, '\n', '\n'], [c, ' '])
  }

  /** The three chained `str.replace` calls of streamlit_app.py. */
  function SplitParagraphs(text: string): string
  {
    BreakAfter(BreakAfter(BreakAfter(text, '.'), ArabicQuestion), '!')
  }

  /** The three mappings back, last one first. */
  function JoinParagraphs(text: string): string
  {
    JoinAfter(JoinAfter(JoinAfter(text, '!'), ArabicQuestion), '.')
  }

  /** The number of `c + ' '` pairs in `s`. */
  function Pairs(s: string, c: char): nat
  {
    Count(s, [c, ' '])
  }

  /** `s` never holds `x` directly followed by `y`. */
  predicate NoPair(s: string, x: char, y: char)
    decreases |s|
  {
    |s| < 2 || (!(s[0] == x && s[1] == y) && NoPair(s[1..], x, y))
  }

  lemma {:induction false} NoPairAt(s: string, x: char, y: char, i: nat)
    requires NoPair(s, x, y) && i + 1 < |s|
    ensures !(s[i] == x && s[i + 1] == y)
    decreases i
  {
    if i > 0 { NoPairAt(s[1..], x, y, i - 1); }
  }

  lemma {:induction false} NoPairWithout(s: string, x: char, y: char)
    requires y !in s
    ensures NoPair(s, x, y)
    decreases |s|
  {
    if |s| >= 2 { NoPairWithout(s[1..], x, y); }
  }

  /** One step of `BreakAfter`, as its definition takes it. */
  lemma BreakStep(s: string, c: char)
    requires |s| >= 2
    ensures s[0] == c && s[1] == ' ' ==> BreakAfter(s, c) == [c, '\n', '\n'] + BreakAfter(s[2..], c)
    ensures !(s[0] == c && s[1] == ' ') ==> BreakAfter(s, c) == [s[0]] + BreakAfter(s[1..], c)
  {
    assert s[..2] == [c, ' '] <==> s[0] == c && s[1] == ' ';
  }

  /** `BreakAfter` keeps the first character. */
  lemma BreakFirst(s: string, c: char)
    requires s != []
    ensures BreakAfter(s, c) != [] && BreakAfter(s, c)[0] == s[0]
  {
    if |s| >= 2 { BreakStep(s, c); }
  }

  /** After `BreakAfter(_, c)` no `c` is followed by a space. */
  lemma {:induction false} BreakRemovesPairs(s: string, c: char)
    requires IsMark(c)
    ensures NoPair(BreakAfter(s, c), c, ' ')
    decreases |s|
  {
    if |s| >= 2 {
      BreakStep(s, c);
      if s[0] == c && s[1] == ' ' {
        var t := BreakAfter(s[2..], c);
        BreakRemovesPairs(s[2..], c);
        var r := [c, '\n', '\n'] + t;
        assert r[1..][1..][1..] == t;
      } else {
        BreakRemovesPairs(s[1..], c);
        BreakFirst(s[1..], c);
      }
    }
  }

  /** `BreakAfter(_, c)` creates no pair `d + y` for another mark `d`. */
  lemma {:induction false} BreakKeepsNoPair(s: string, c: char, d: char, y: char)
    requires IsMark(c) && IsMark(d) && c != d && NoPair(s, d, y)
    ensures NoPair(BreakAfter(s, c), d, y)
    decreases |s|
  {
    if |s| >= 2 {
      BreakStep(s, c);
      if s[0] == c && s[1] == ' ' {
        var t := BreakAfter(s[2..], c);
        assert NoPair(s[2..], d, y) by { assert s[1..][1..] == s[2..]; }
        BreakKeepsNoPair(s[2..], c, d, y);
        var r := [c, '\n', '\n'] + t;
        assert r[1..][1..][1..] == t;
      } else {
        BreakKeepsNoPair(s[1..], c, d, y);
        BreakFirst(s[1..], c);
      }
    }
  }

  lemma PairsStep(s: string, d: char)
    requires |s| >= 2
    ensures s[0] == d && s[1] == ' ' ==> Pairs(s, d) == 1 + Pairs(s[2..], d)
    ensures !(s[0] == d && s[1] == ' ') ==> Pairs(s, d) == Pairs(s[1..], d)
  {
    assert s[..2] == [d, ' '] <==> s[0] == d && s[1] == ' ';
  }

  /** `BreakAfter(_, c)` leaves the pairs of every other mark in place. */
  lemma {:induction false} BreakKeepsPairs(s: string, c: char, d: char)
    requires IsMark(c) && IsMark(d) && c != d
    ensures Pairs(BreakAfter(s, c), d) == Pairs(s, d)
    decreases |s|
  {
    if |s| < 2 {
      BreakBelowTwo(s, c);
    } else if s[0] == c && s[1] == ' ' {
      BreakKeepsPairs(s[2..], c, d);
      KeepsPairsAtBreak(s, c, d);
    } else if s[0] == d && s[1] == ' ' {
      BreakKeepsPairs(s[2..], c, d);
      KeepsPairsAtPair(s, c, d);
    } else {
      BreakKeepsPairs(s[1..], c, d);
      KeepsPairsElsewhere(s, c, d);
    }
  }

  lemma KeepsPairsAtBreak(s: string, c: char, d: char)
    requires IsMark(c) && IsMark(d) && c != d
    requires |s| >= 2 && s[0] == c && s[1] == ' '
    requires Pairs(BreakAfter(s[2..], c), d) == Pairs(s[2..], d)
    ensures Pairs(BreakAfter(s, c), d) == Pairs(s, d)
  {
    BreakStep(s, c);
    PairsStep(s, d);
    var t := BreakAfter(s[2..], c);
    var r := [c, '\n', '\n'] + t;
    PairsStep(r, d);
    assert r[1..] == ['\n', '\n'] + t;
    PairsStep(r[1..], d);
    assert r[1..][1..] == ['\n'] + t;
    if |t| > 0 { PairsStep(r[1..][1..], d); }
    assert r[1..][1..][1..] == t;
    if |s| >= 3 { PairsStep(s[1..], d); }
    assert s[1..][1..] == s[2..];
  }

  lemma KeepsPairsAtPair(s: string, c: char, d: char)
    requires IsMark(c) && IsMark(d) && c != d
    requires |s| >= 2 && s[0] == d && s[1] == ' '
    requires Pairs(BreakAfter(s[2..], c), d) == Pairs(s[2..], d)
    ensures Pairs(BreakAfter(s, c), d) == Pairs(s, d)
  {
    BreakStep(s, c);
    PairsStep(s, d);
    var t := BreakAfter(s[1..], c);
    BreakFirst(s[1..], c);
    var r := [s[0]] + t;
    PairsStep(r, d);
    if |s| >= 3 {
      BreakStep(s[1..], c);
      assert s[1..][1..] == s[2..];
    } else {
      BreakBelowTwo(s[1..], c);
      BreakBelowTwo(s[2..], c);
    }
    assert r[2..] == t[1..];
  }

  lemma KeepsPairsElsewhere(s: string, c: char, d: char)
    requires IsMark(c) && IsMark(d) && c != d
    requires |s| >= 2 && !(s[0] == c && s[1] == ' ') && !(s[0] == d && s[1] == ' ')
    requires Pairs(BreakAfter(s[1..], c), d) == Pairs(s[1..], d)
    ensures Pairs(BreakAfter(s, c), d) == Pairs(s, d)
  {
    BreakStep(s, c);
    PairsStep(s, d);
    var t := BreakAfter(s[1..], c);
    BreakFirst(s[1..], c);
    var r := [s[0]] + t;
    PairsStep(r, d);
    assert r[1..] == t;
  }

  lemma BreakBelowTwo(s: string, c: char)
    requires |s| < 2
    ensures BreakAfter(s, c) == s
  {
  }

  lemma JoinStep(x: string, c: char)
    ensures |x| < 3 ==> JoinAfter(x, c) == x
    ensures |x| >= 3 && x[0] == c && x[1] == '\n' && x[2] == '\n' ==>
      JoinAfter(x, c) == [c, ' '] + JoinAfter(x[3..], c)
    ensures |x| >= 3 && !(x[0] == c && x[1] == '\n' && x[2] == '\n') ==>
      JoinAfter(x, c) == [x[0]] + JoinAfter(x[1..], c)
  {
    if |x| >= 3 {
      assert x[..3] == [c, '\n', '\n'] <==> x[0] == c && x[1] == '\n' && x[2] == '\n';
    }
  }

  /** Mapping `c + '\n\n'` back recovers the text, provided it held no `c`
      followed by a newline of its own. */
  lemma {:induction false} JoinAfterBreak(s: string, c: char)
    requires IsMark(c) && NoPair(s, c, '\n')
    ensures JoinAfter(BreakAfter(s, c), c) == s
    decreases |s|
  {
    if |s| < 2 {
      BreakBelowTwo(s, c);
      JoinStep(s, c);
    } else {
      BreakStep(s, c);
      assert NoPair(s[1..], c, '\n');
      if s[0] == c && s[1] == ' ' {
        var t := BreakAfter(s[2..], c);
        assert NoPair(s[2..], c, '\n') by { assert s[1..][1..] == s[2..]; }
        JoinAfterBreak(s[2..], c);
        var x := [c, '\n', '\n'] + t;
        JoinStep(x, c);
        assert x[3..] == t;
        assert s == [c, ' '] + s[2..];
      } else {
        var t := BreakAfter(s[1..], c);
        JoinAfterBreak(s[1..], c);
        BreakFirst(s[1..], c);
        var x := [s[0]] + t;
        JoinStep(x, c);
        assert x[1..] == t;
        ReplaceLength(s[1..], [c, ' '], [c, '\n', '\n']);
        if |x| < 3 { BreakBelowTwo(s[1..], c); }
        assert s == [s[0]] + s[1..];
      }
    }
  }

  /** After splitting, no mark is followed by a space. */
  lemma SplitLeavesNoMarkSpace(text: string)
    ensures NoPair(SplitParagraphs(text), '.', ' ')
    ensures NoPair(SplitParagraphs(text), ArabicQuestion, ' ')
    ensures NoPair(SplitParagraphs(text), '!', ' ')
  {
    var a := BreakAfter(text, '.');
    var b := BreakAfter(a, ArabicQuestion);
    BreakRemovesPairs(text, '.');
    BreakKeepsNoPair(a, ArabicQuestion, '.', ' ');
    BreakKeepsNoPair(b, '!', '.', ' ');
    BreakRemovesPairs(a, ArabicQuestion);
    BreakKeepsNoPair(b, '!', ArabicQuestion, ' ');
    BreakRemovesPairs(b, '!');
  }

  /** Each replaced space becomes two newlines: the text grows by one
      character per mark-space pair of the input. */
  lemma SplitLength(text: string)
    ensures |SplitParagraphs(text)| == |text| + Pairs(text, '.') + Pairs(text, ArabicQuestion) + Pairs(text, '!')
  {
    var a := BreakAfter(text, '.');
    var b := BreakAfter(a, ArabicQuestion);
    ReplaceLength(text, ['.', ' '], ['.', '\n', '\n']);
    ReplaceLength(a, [ArabicQuestion, ' '], [ArabicQuestion, '\n', '\n']);
    ReplaceLength(b, ['!', ' '], ['!', '\n', '\n']);
    BreakKeepsPairs(text, '.', ArabicQuestion);
    BreakKeepsPairs(text, '.', '!');
    BreakKeepsPairs(a, ArabicQuestion, '!');
  }

  /** A text without any mark-space pair is returned unchanged. */
  lemma SplitWithoutPairs(text: string)
    requires Pairs(text, '.') == 0 && Pairs(text, ArabicQuestion) == 0 && Pairs(text, '!') == 0
    ensures SplitParagraphs(text) == text
  {
    ReplaceNoOccurrence(text, ['.', ' '], ['.', '\n', '\n']);
    ReplaceNoOccurrence(text, [ArabicQuestion, ' '], [ArabicQuestion, '\n', '\n']);
    ReplaceNoOccurrence(text, ['!', ' '], ['!', '\n', '\n']);
  }

  /** No mark is directly followed by a newline, so no `".\n"`, `"؟\n"` or
      `"!\n"` of the input can be mistaken for a break. */
  predicate NoMarkNewline(text: string)
  {
    NoPair(text, '.', '\n') && NoPair(text, ArabicQuestion, '\n') && NoPair(text, '!', '\n')
  }

  /** A text in which no mark is followed by a newline is recovered by
      mapping the breaks back; this holds in particular for a text without
      newlines (`NoNewlineNoMarkNewline`). */
  lemma SplitRoundTrip(text: string)
    requires NoMarkNewline(text)
    ensures JoinParagraphs(SplitParagraphs(text)) == text
  {
    var a := BreakAfter(text, '.');
    var b := BreakAfter(a, ArabicQuestion);
    BreakKeepsNoPair(text, '.', ArabicQuestion, '\n');
    BreakKeepsNoPair(text, '.', '!', '\n');
    BreakKeepsNoPair(a, ArabicQuestion, '!', '\n');
    JoinAfterBreak(b, '!');
    JoinAfterBreak(a, ArabicQuestion);
    JoinAfterBreak(text, '.');
  }

  /** A text without newlines has no mark followed by one. */
  lemma NoNewlineNoMarkNewline(text: string)
    requires '\n' !in text
    ensures NoMarkNewline(text)
  {
    NoPairWithout(text, '.', '\n');
    NoPairWithout(text, ArabicQuestion, '\n');
    NoPairWithout(text, '!', '\n');
  }

  /** One request to the captions library: `get_transcript(video_id, languages)`,
      with its entries already passed through `TextFormatter`. */
  datatype Lookup = Lookup(videoId: string, languages: seq<string>)

  /** The `(paragraphs, error)` pair `get_transcript_paragraphs` returns. */
  datatype Paragraphs = Paragraphs(text: Option<string>, error: Option<string>)

  const InvalidLinkMessage: string := "الرابط غير صالح."
  const ErrorPrefix: string := "حدث خطأ: "

  /** `get_transcript_paragraphs`, with the library as the oracle `fetch`;
      the second component lists the library requests made. */
  function GetTranscriptParagraphs(url: string, fetch: Lookup -> Reply<string>): (r: (Paragraphs, seq<Lookup>))
    ensures ExtractVideoId(url).None? <==> r.1 == []
    ensures ExtractVideoId(url).None? ==> r.0 == Paragraphs(None, Some(InvalidLinkMessage))
    ensures ExtractVideoId(url).Some? ==> r.1 == [Lookup(ExtractVideoId(url).value, ["ar", "en"])]
    ensures r.0.text.Some? <==> r.0.error.None?
    ensures r.0.text.Some? ==> fetch(r.1[0]).Ok? && |r.0.text.value| >= |fetch(r.1[0]).value|
    ensures r.0.text.Some? && NoMarkNewline(fetch(r.1[0]).value) ==> JoinParagraphs(r.0.text.value) == fetch(r.1[0]).value
    ensures r.0.text.Some? ==> NoPair(r.0.text.value, '.', ' ') && NoPair(r.0.text.value, ArabicQuestion, ' ')
                               && NoPair(r.0.text.value, '!', ' ')
    ensures r.1 != [] && fetch(r.1[0]).Raised? ==> r.0 == Paragraphs(None, Some(ErrorPrefix + fetch(r.1[0]).exc.message))
  {
    match ExtractVideoId(url)
    case None => (Paragraphs(None, Some(InvalidLinkMessage)), [])
    case Some(id) =>
      var lookup := Lookup(id, ["ar", "en"]);
      match fetch(lookup)
      case Ok(text) =>
        SplitLeavesNoMarkSpace(text);
        SplitLength(text);
        assert NoMarkNewline(text) ==> JoinParagraphs(SplitParagraphs(text)) == text by {
          if NoMarkNewline(text) { SplitRoundTrip(text); }
        }
        (Paragraphs(Some(SplitParagraphs(text)), None), [lookup])
      case Raised(e) => (Paragraphs(None, Some(ErrorPrefix + e.message)), [lookup])
  }

  /** An embed or shorts link is turned away before the library is asked. */
  lemma EmbedAndShortsNotLookedUp(kind: string, id: string, fetch: Lookup -> Reply<string>)
    requires kind == "embed" || kind == "shorts"
    requires YoutubeUtils.IsVideoId(id)
    ensures GetTranscriptParagraphs("https://www.youtube.com/" + kind + "/" + id, fetch)
            == (Paragraphs(None, Some(InvalidLinkMessage)), [])
  {
    EmbedAndShortsRejected(kind, id);
  }
}
