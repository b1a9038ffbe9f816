/** youtube_downloader_pytube.py: video information, captions and audio,
    each behind a `for attempt in range(max_retries)` loop that pauses two
    seconds between attempts. Library calls are oracle outcomes indexed by
    the attempt; the loops record the calls they make and their pauses. */
module PytubeDownloader {
  import opened Wrappers
  import opened Trace
  import opened Retry
  import opened UrlValidation
  import opened FileSystem

  /** `time.sleep(2)` */
  const Pause: nat := 2

  /** The dictionary `get_video_info` returns; `captions` stands for
      `yt.captions` by the language codes it lists. */
  datatype Info = Info(title: string, length: nat, author: string, views: nat, captions: seq<string>)

  /** A caption track returned by `find_transcript`. */
  datatype Track = Track(language: string)

  datatype Entry = Entry(text: string)

  datatype Call =
    | OpenVideo
    | ExtractId
    | ListTranscripts(videoId: string)
    | FindTranscript(languages: seq<string>)
    | Fetch(track: Track)
    | CreateTemp(name: string)
    | Download(name: string)

  // ---------------------------------------------------------------- get_video_info

  function InfoAttempt(open: nat -> Reply<Info>, a: nat): Attempt<Option<Info>, Call>
  {
    Attempt(if open(a).Ok? then Return(Some(open(a).value)) else Failed(None), [Call(a, OpenVideo)])
  }

  function InfoAttempts(open: nat -> Reply<Info>): nat -> Attempt<Option<Info>, Call>
  {
    (a: nat) => InfoAttempt(open, a)
  }

  /** `get_video_info(url, max_retries)`; `open(a)` is the outcome of
      `YouTube(url)` on attempt `a`. */
  method GetVideoInfo(maxRetries: int, open: nat -> Reply<Info>) returns (info: Option<Info>, trace: seq<Event<Call>>)
    ensures (info, trace) == Run(InfoAttempts(open), 0, maxRetries, Pause, None)
  {
    ghost var steps := InfoAttempts(open);
    trace := [];
    Starts(steps, maxRetries, Pause, None);
    var attempt: nat := 0;
    while attempt < maxRetries
      invariant Resumes(steps, attempt, maxRetries, Pause, None, trace)
      invariant attempt == 0 || attempt < maxRetries
      decreases maxRetries - attempt
    {
      var reply := open(attempt);
      assert steps(attempt) == InfoAttempt(open, attempt);
      ghost var before := trace;
      trace := trace + [Call(attempt, OpenVideo)];
      if reply.Ok? {
        Ends(steps, attempt, maxRetries, Pause, None, before);
        return Some(reply.value), trace;
      }
      if attempt < maxRetries - 1 {
        Continues(steps, attempt, maxRetries, Pause, None, before);
        trace := trace + [Sleep(Pause)];
        attempt := attempt + 1;
        continue;
      }
      Ends(steps, attempt, maxRetries, Pause, None, before);
      return None, trace;
    }
    Exhausted(steps, attempt, maxRetries, Pause, None, trace);
    return None, trace;
  }

  lemma InfoAttemptShape(open: nat -> Reply<Info>, n: int)
    ensures forall j :: 0 <= j < n ==> var step := InfoAttempts(open)(j);
      && NoSleeps(step.events) && Calls(step.events, OpenVideo) == 1
      && (step.outcome.Return? <==> open(j).Ok?)
      && (open(j).Ok? ==> step.outcome.value == Some(open(j).value))
  {
    forall j | 0 <= j < n
      ensures var step := InfoAttempts(open)(j);
        && NoSleeps(step.events) && Calls(step.events, OpenVideo) == 1
        && (step.outcome.Return? <==> open(j).Ok?)
        && (open(j).Ok? ==> step.outcome.value == Some(open(j).value))
    {
      assert InfoAttempts(open)(j).events == [Call(j, OpenVideo)];
    }
  }

  /** At most `max_retries` calls of `YouTube(url)`, one per attempt, with a
      two-second pause between each two. */
  lemma InfoCounts(open: nat -> Reply<Info>, n: int)
    requires n >= 1
    ensures var trace := Run(InfoAttempts(open), 0, n, Pause, None).1;
      1 <= Calls(trace, OpenVideo) <= n && Sleeps(trace) == Calls(trace, OpenVideo) - 1
  {
    InfoAttemptShape(open, n);
    RunCounts(InfoAttempts(open), n, Pause, None, OpenVideo);
  }

  /** The first successful `YouTube(url)` gives the information, after one
      call per attempt up to it. */
  lemma InfoFirstSuccess(open: nat -> Reply<Info>, n: int, k: nat)
    requires k < n && open(k).Ok? && forall j :: 0 <= j < k ==> open(j).Raised?
    ensures var (info, trace) := Run(InfoAttempts(open), 0, n, Pause, None);
      info == Some(open(k).value) && Calls(trace, OpenVideo) == k + 1
  {
    InfoAttemptShape(open, n);
    FirstReturn(InfoAttempts(open), n, Pause, None, k);
    RunCounts(InfoAttempts(open), n, Pause, None, OpenVideo);
  }

  /** When every attempt raises, all `max_retries` are made and the result
      is None. */
  lemma InfoAllFail(open: nat -> Reply<Info>, n: int)
    requires n >= 1 && forall j :: 0 <= j < n ==> open(j).Raised?
    ensures var (info, trace) := Run(InfoAttempts(open), 0, n, Pause, None);
      info == None && Calls(trace, OpenVideo) == n
  {
    InfoAttemptShape(open, n);
    NoneReturns(InfoAttempts(open), n, Pause, None);
    RunCounts(InfoAttempts(open), n, Pause, None, OpenVideo);
  }

  /** With no budget nothing is called and the result is None. */
  lemma InfoNoBudget(open: nat -> Reply<Info>, n: int)
    requires n <= 0
    ensures Run(InfoAttempts(open), 0, n, Pause, None) == (None, [])
  {
    NoBudget(InfoAttempts(open), n, Pause, None);
  }

  // ---------------------------------------------------------------- get_youtube_captions

  /** The library calls `get_youtube_captions` makes, as oracles indexed by
      the attempt; `srt` is `SRTFormatter().format_transcript`. */
  datatype CaptionApi = CaptionApi(
    list: (string, nat) -> Reply<()>,
    find: (nat, seq<string>) -> Reply<Track>,
    fetch: (nat, Track) -> Reply<seq<Entry>>,
    srt: seq<Entry> -> string)

  /** The languages tried, in order: Arabic, English, then either of them. */
  const Cascade: seq<seq<string>> := [["ar"], ["en"], ["ar", "en"]]

  /** The nested `find_transcript` calls: each later one only when the
      earlier one raised; the error of the last one propagates. */
  function FindCascade(api: CaptionApi, a: nat): (r: (Reply<Track>, seq<Event<Call>>))
    ensures 1 <= |r.1| <= 3
    ensures forall i :: 0 <= i < |r.1| ==> r.1[i] == Call(a, FindTranscript(Cascade[i]))
    ensures forall i :: 0 <= i < |r.1| - 1 ==> api.find(a, Cascade[i]).Raised?
    ensures r.0 == api.find(a, Cascade[|r.1| - 1])
    ensures r.0.Raised? ==> |r.1| == 3
  {
    var ar, en, either := api.find(a, ["ar"]), api.find(a, ["en"]), api.find(a, ["ar", "en"]);
    if ar.Ok? then (ar, [Call(a, FindTranscript(["ar"]))])
    else if en.Ok? then (en, [Call(a, FindTranscript(["ar"])), Call(a, FindTranscript(["en"]))])
    else (either, [Call(a, FindTranscript(["ar"])), Call(a, FindTranscript(["en"])), Call(a, FindTranscript(["ar", "en"]))])
  }

  /** One attempt of the loop body. `idStep` is the outcome of
      `extract_video_id(url)`, the same on every attempt. */
  function CaptionAttempt(idStep: Reply<Option<string>>, api: CaptionApi, a: nat): Attempt<Option<string>, Call>
  {
    var start := [Call(a, ExtractId)];
    match idStep
    case Raised(_) => Attempt(Failed(None), start)
    case Ok(id) =>
      if id.None? || id.value == "" then Attempt(Return(None), start)
      else
        var listed := start + [Call(a, ListTranscripts(id.value))];
        if api.list(id.value, a).Raised? then Attempt(Failed(None), listed)
        else
          var (track, finds) := FindCascade(api, a);
          if track.Raised? then Attempt(Failed(None), listed + finds)
          else
            var data := api.fetch(a, track.value);
            var fetched := listed + finds + [Call(a, Fetch(track.value))];
            if data.Raised? then Attempt(Failed(None), fetched)
            else Attempt(Return(Some(api.srt(data.value))), fetched)
  }

  function CaptionAttempts(idStep: Reply<Option<string>>, api: CaptionApi): nat -> Attempt<Option<string>, Call>
  {
    (a: nat) => CaptionAttempt(idStep, api, a)
  }

  /** `get_youtube_captions(url, max_retries)`. */
  method GetYoutubeCaptions(maxRetries: int, idStep: Reply<Option<string>>, api: CaptionApi)
    returns (captions: Option<string>, trace: seq<Event<Call>>)
    ensures (captions, trace) == Run(CaptionAttempts(idStep, api), 0, maxRetries, Pause, None)
  {
    ghost var steps := CaptionAttempts(idStep, api);
    trace := [];
    Starts(steps, maxRetries, Pause, None);
    var attempt: nat := 0;
    while attempt < maxRetries
      invariant Resumes(steps, attempt, maxRetries, Pause, None, trace)
      invariant attempt == 0 || attempt < maxRetries
      decreases maxRetries - attempt
    {
      var step := CaptionAttempt(idStep, api, attempt);
      assert steps(attempt) == step;
      ghost var before := trace;
      trace := trace + step.events;
      if step.outcome.Return? {
        Ends(steps, attempt, maxRetries, Pause, None, before);
        return step.outcome.value, trace;
      }
      if attempt < maxRetries - 1 {
        Continues(steps, attempt, maxRetries, Pause, None, before);
        trace := trace + [Sleep(Pause)];
        attempt := attempt + 1;
        continue;
      }
      Ends(steps, attempt, maxRetries, Pause, None, before);
      return None, trace;
    }
    Exhausted(steps, attempt, maxRetries, Pause, None, trace);
    return None, trace;
  }

  /** As written, `extract_video_id` is neither defined nor imported in
      this file, so every attempt raises `NameError`, which the
      `except Exception` catches: all attempts are made, with a pause
      between each two, no transcript is ever listed and the result is None. */
  lemma CaptionsNameError(api: CaptionApi, n: int, e: Exc)
    requires n >= 1 && e.kind == NameError
    ensures var (captions, trace) := Run(CaptionAttempts(Raised(e), api), 0, n, Pause, None);
      && captions.None?
      && Calls(trace, ExtractId) == n
      && Sleeps(trace) == n - 1
      && forall x :: x in trace ==> x.Sleep? || x.call == ExtractId
  {
    var steps := CaptionAttempts(Raised(e), api);
    var k := Last(steps, 0, n);
    RunIsSpaced(steps, 0, n, Pause, None);
    assert k == n - 1;
    forall j | 0 <= j <= k ensures NoSleeps(steps(j).events) && Calls(steps(j).events, ExtractId) == 1 {
      assert steps(j).events == [Call(j, ExtractId)];
    }
    SpacedSleeps(steps, 0, k, Pause);
    SpacedCalls(steps, 0, k, Pause, ExtractId);
    var trace := Run(steps, 0, n, Pause, None).1;
    forall x | x in trace ensures x.Sleep? || x.call == ExtractId {
      SpacedMembers(steps, 0, k, Pause, x);
    }
  }

  /** Whether attempt `a` gets captions all the way through for `id`. */
  predicate Delivers(api: CaptionApi, id: string, a: nat)
  {
    api.list(id, a).Ok? && FindCascade(api, a).0.Ok? && api.fetch(a, FindCascade(api, a).0.value).Ok?
  }

  /** The SRT text attempt `a` produces when it delivers. */
  function Delivered(api: CaptionApi, a: nat): string
    requires FindCascade(api, a).0.Ok? && api.fetch(a, FindCascade(api, a).0.value).Ok?
  {
    api.srt(api.fetch(a, FindCascade(api, a).0.value).value)
  }

  lemma DeliveringAttempt(api: CaptionApi, id: string, a: nat)
    requires id != ""
    ensures var step := CaptionAttempt(Ok(Some(id)), api, a);
      && NoSleeps(step.events)
      && (step.outcome.Return? <==> Delivers(api, id, a))
      && (Delivers(api, id, a) ==> step.outcome.value == Some(Delivered(api, a)))
      && (!Delivers(api, id, a) ==> step.outcome.value == None)
  {
    var ev := CaptionAttempt(Ok(Some(id)), api, a).events;
    var (track, finds) := FindCascade(api, a);
    forall i | 0 <= i < |ev| ensures ev[i].Call? {
      if i >= 2 && i < 2 + |finds| { assert ev[i] == finds[i - 2]; }
    }
  }

  /** A URL from which no id comes out gives None at once, without a retry:
      the `if not video_id: return None` exit. */
  lemma CaptionsWithoutId(api: CaptionApi, n: int, id: Option<string>)
    requires n >= 1 && (id.None? || id == Some(""))
    ensures Run(CaptionAttempts(Ok(id), api), 0, n, Pause, None) == (None, [Call(0, ExtractId)])
  {
    var steps := CaptionAttempts(Ok(id), api);
    assert steps(0) == Attempt(Return(None), [Call(0, ExtractId)]);
  }

  /** With the video id actually extracted (as `utils/youtube_utils.py`'s
      `extract_video_id` would give it), captions come back iff some attempt
      gets through listing, the language cascade and the fetch, and then
      they are those of the first such attempt, after one pause per
      attempt before it. */
  lemma CaptionsWithExtractedId(api: CaptionApi, n: int, id: string)
    requires n >= 1 && id != ""
    ensures var (captions, trace) := Run(CaptionAttempts(Ok(Some(id)), api), 0, n, Pause, None);
      && (captions.Some? <==> exists j :: 0 <= j < n && Delivers(api, id, j))
      && forall k :: 0 <= k < n && Delivers(api, id, k) && (forall j :: 0 <= j < k ==> !Delivers(api, id, j)) ==>
           captions == Some(Delivered(api, k)) && Sleeps(trace) == k
  {
    CaptionsFound(api, n, id);
    forall k | 0 <= k < n && Delivers(api, id, k) && (forall j :: 0 <= j < k ==> !Delivers(api, id, j)) {
      CaptionsOfFirst(api, n, id, k);
    }
  }

  lemma CaptionsFound(api: CaptionApi, n: int, id: string)
    requires n >= 1 && id != ""
    ensures Run(CaptionAttempts(Ok(Some(id)), api), 0, n, Pause, None).0.Some? <==> exists j :: 0 <= j < n && Delivers(api, id, j)
  {
    var steps := CaptionAttempts(Ok(Some(id)), api);
    var k := Last(steps, 0, n);
    RunIsSpaced(steps, 0, n, Pause, None);
    DeliveringAttempts(api, id, n);
    if exists j :: 0 <= j < n && Delivers(api, id, j) {
      var j :| 0 <= j < n && Delivers(api, id, j);
      assert steps(k).outcome.Return? || k == j;
    }
  }

  lemma CaptionsOfFirst(api: CaptionApi, n: int, id: string, k: nat)
    requires id != "" && k < n && Delivers(api, id, k) && forall j :: 0 <= j < k ==> !Delivers(api, id, j)
    ensures var (captions, trace) := Run(CaptionAttempts(Ok(Some(id)), api), 0, n, Pause, None);
      captions == Some(Delivered(api, k)) && Sleeps(trace) == k
  {
    var steps := CaptionAttempts(Ok(Some(id)), api);
    DeliveringAttempts(api, id, n);
    FirstReturn(steps, n, Pause, None, k);
    RunIsSpaced(steps, 0, n, Pause, None);
    SpacedSleeps(steps, 0, k, Pause);
  }

  /** `DeliveringAttempt` for every attempt within the budget. */
  lemma DeliveringAttempts(api: CaptionApi, id: string, n: int)
    requires id != ""
    ensures var steps := CaptionAttempts(Ok(Some(id)), api);
      forall j :: 0 <= j < n ==>
        && NoSleeps(steps(j).events) && (steps(j).outcome.Return? <==> Delivers(api, id, j))
        && (Delivers(api, id, j) ==> steps(j).outcome.value == Some(Delivered(api, j)))
        && (!Delivers(api, id, j) ==> steps(j).outcome.value == None)
  {
    var steps := CaptionAttempts(Ok(Some(id)), api);
    forall j | 0 <= j < n ensures NoSleeps(steps(j).events) && (steps(j).outcome.Return? <==> Delivers(api, id, j))
      && (Delivers(api, id, j) ==> steps(j).outcome.value == Some(Delivered(api, j)))
      && (!Delivers(api, id, j) ==> steps(j).outcome.value == None)
    {
      DeliveringAttempt(api, id, j);
    }
  }

  /** The cascade asks for Arabic, then English, then either, each only
      after the previous one raised, and returns the first track found. */
  lemma CascadeOrder(api: CaptionApi, a: nat)
    ensures var (track, finds) := FindCascade(api, a);
      && finds[0] == Call(a, FindTranscript(["ar"]))
      && (api.find(a, ["ar"]).Ok? ==> track == api.find(a, ["ar"]) && |finds| == 1)
      && (api.find(a, ["ar"]).Raised? && api.find(a, ["en"]).Ok? ==> track == api.find(a, ["en"]) && |finds| == 2)
      && (api.find(a, ["ar"]).Raised? && api.find(a, ["en"]).Raised? ==> track == api.find(a, ["ar", "en"]) && |finds| == 3)
  {
  }

  /** When the library only returns tracks in the languages asked for, the
      track fetched is Arabic or English: the third lookup can not give
      "the first available" track in some other language. */
  lemma CascadeLanguages(api: CaptionApi, a: nat)
    requires forall b: nat, langs :: api.find(b, langs).Ok? ==> api.find(b, langs).value.language in langs
    ensures FindCascade(api, a).0.Ok? ==> FindCascade(api, a).0.value.language in {"ar", "en"}
  {
    var (track, finds) := FindCascade(api, a);
    assert track == api.find(a, Cascade[|finds| - 1]);
  }

  // ---------------------------------------------------------------- download_youtube_audio

  /** The library steps of one download attempt: `YouTube(url)` and whether
      `streams.filter(only_audio=True).first()` finds a stream; the name of
      the temporary file; `stream.download`, either raising or leaving the
      file with some size or not at all (None). */
  datatype DownloadApi = DownloadApi(
    open: nat -> Reply<bool>,
    tempName: nat -> string,
    download: nat -> Reply<Option<nat>>)

  /** The file the attempt leaves behind: it stays (empty) when `download`
      raises, since it is created with `delete=False`. */
  function FileAfter(api: DownloadApi, a: nat): Option<nat>
  {
    match api.download(a)
    case Raised(_) => Some(0)
    case Ok(file) => file
  }

  function DownloadAttempt(valid: bool, api: DownloadApi, a: nat): Attempt<Option<string>, Call>
  {
    if !valid then Attempt(Return(None), [])
    else
      var started := [Call(a, OpenVideo)];
      if api.open(a).Raised? then Attempt(Failed(None), started)
      else if !api.open(a).value then Attempt(Return(None), started)
      else
        var name := api.tempName(a);
        var events := started + [Call(a, CreateTemp(name)), Call(a, Download(name))];
        if api.download(a).Ok? && api.download(a).value.Some? && api.download(a).value.value > 0
        then Attempt(Return(Some(name)), events)
        else Attempt(Failed(None), events)
  }

  function DownloadAttempts(valid: bool, api: DownloadApi): nat -> Attempt<Option<string>, Call>
  {
    (a: nat) => DownloadAttempt(valid, api, a)
  }

  /** Whether attempt `a` gets as far as creating its temporary file. */
  predicate Reaches(valid: bool, api: DownloadApi, a: nat)
  {
    valid && api.open(a) == Ok(true)
  }

  /** The files after attempt `a`. */
  function AttemptFiles(files: map<string, nat>, valid: bool, api: DownloadApi, a: nat): map<string, nat>
  {
    if !Reaches(valid, api, a) then files
    else match FileAfter(api, a)
      case Some(size) => files[api.tempName(a) := size]
      case None => files - {api.tempName(a)}
  }

  /** The files after attempts `0` to `m - 1`. */
  function FilesAfter(files: map<string, nat>, valid: bool, api: DownloadApi, m: nat): map<string, nat>
  {
    if m == 0 then files else AttemptFiles(FilesAfter(files, valid, api, m - 1), valid, api, m - 1)
  }

  /** The body of one attempt of `download_youtube_audio`, up to the point
      where it returns or its exception is caught; `valid` is what
      `is_valid_youtube_url(url)` answers. */
  method DownloadOnce(disk: Disk, valid: bool, api: DownloadApi, attempt: nat)
    returns (outcome: Outcome<Option<string>>, events: seq<Event<Call>>)
    requires api.tempName(attempt) !in disk.files
    modifies disk
    ensures Attempt(outcome, events) == DownloadAttempt(valid, api, attempt)
    ensures disk.files == AttemptFiles(old(disk.files), valid, api, attempt)
  {
    if !valid {
      return Return(None), [];
    }
    var video := api.open(attempt);
    events := [Call(attempt, OpenVideo)];
    if video.Raised? {
      return Failed(None), events;
    }
    if !video.value {
      return Return(None), events;
    }
    var name := api.tempName(attempt);
    disk.CreateTemp(name);
    events := events + [Call(attempt, CreateTemp(name)), Call(attempt, Download(name))];
    outcome := Failed(None);
    match api.download(attempt) {
      case Raised(_) =>
      case Ok(file) =>
        if file.None? {
          disk.Remove(name);
        } else {
          disk.Write(name, file.value);
          if file.value > 0 {
            outcome := Return(Some(name));
          }
        }
    }
  }

  /** The disk when attempt `a` starts: what the earlier attempts left, and
      none of the temporary names of the attempts still to come. */
  ghost predicate DiskBefore(files0: map<string, nat>, valid: bool, api: DownloadApi, a: nat, files: map<string, nat>)
  {
    && files == FilesAfter(files0, valid, api, a)
    && forall b: nat :: b >= a ==> api.tempName(b) !in files
  }

  /** One attempt takes the disk from the start of attempt `a` to the start of the next. */
  lemma DiskStep(files0: map<string, nat>, valid: bool, api: DownloadApi, a: nat, before: map<string, nat>, now: map<string, nat>)
    requires forall b: nat, c: nat :: b != c ==> api.tempName(b) != api.tempName(c)
    requires DiskBefore(files0, valid, api, a, before) && now == AttemptFiles(before, valid, api, a)
    ensures DiskBefore(files0, valid, api, a + 1, now)
  {
  }

  /** `download_youtube_audio(url, max_retries)`. The temporary names are
      fresh and distinct, as `NamedTemporaryFile` makes them. */
  method DownloadYoutubeAudio(disk: Disk, url: string, maxRetries: int, api: DownloadApi)
    returns (path: Option<string>, trace: seq<Event<Call>>)
    requires forall a: nat :: api.tempName(a) !in disk.files
    requires forall a: nat, b: nat :: a != b ==> api.tempName(a) != api.tempName(b)
    modifies disk
    ensures (path, trace) == Run(DownloadAttempts(IsValidYoutubeUrl(url), api), 0, maxRetries, Pause, None)
    ensures disk.files == FilesAfter(old(disk.files), IsValidYoutubeUrl(url), api,
                                     Made(DownloadAttempts(IsValidYoutubeUrl(url), api), maxRetries))
  {
    path, trace := RetryDownload(disk, IsValidYoutubeUrl(url), maxRetries, api);
  }

  /** The loop of `download_youtube_audio`, given what `is_valid_youtube_url`
      says of the URL: the check is pure, so each attempt gets the same answer. */
  method RetryDownload(disk: Disk, valid: bool, maxRetries: int, api: DownloadApi)
    returns (path: Option<string>, trace: seq<Event<Call>>)
    requires forall a: nat :: api.tempName(a) !in disk.files
    requires forall a: nat, b: nat :: a != b ==> api.tempName(a) != api.tempName(b)
    modifies disk
    ensures (path, trace) == Run(DownloadAttempts(valid, api), 0, maxRetries, Pause, None)
    ensures disk.files == FilesAfter(old(disk.files), valid, api,
                                     Made(DownloadAttempts(valid, api), maxRetries))
  {
    ghost var steps := DownloadAttempts(valid, api);
    trace := [];
    Starts(steps, maxRetries, Pause, None);
    var attempt: nat := 0;
    while attempt < maxRetries
      invariant Resumes(steps, attempt, maxRetries, Pause, None, trace)
      invariant attempt == 0 || attempt < maxRetries
      invariant DiskBefore(old(disk.files), valid, api, attempt, disk.files)
      decreases maxRetries - attempt
    {
      ghost var before := trace;
      ghost var filesBefore := disk.files;
      var outcome, events := DownloadOnce(disk, valid, api, attempt);
      assert steps(attempt) == Attempt(outcome, events);
      trace := trace + events;
      DiskStep(old(disk.files), valid, api, attempt, filesBefore, disk.files);
      if outcome.Return? || attempt == maxRetries - 1 {
        // a failed last attempt returns None, which is its outcome's value
        Ends(steps, attempt, maxRetries, Pause, None, before);
        return outcome.value, trace;
      }
      Continues(steps, attempt, maxRetries, Pause, None, before);
      trace := trace + [Sleep(Pause)];
      attempt := attempt + 1;
    }
    Exhausted(steps, attempt, maxRetries, Pause, None, trace);
    return None, trace;
  }

  /** Files that existed before are untouched; the file of every attempt
      that got as far as creating it is still there with what the download
      left in it, unless the download left no file, in which case that
      path is gone: a failed attempt does not clean up after itself.
      Nothing else appears. */
  lemma {:induction false} FilesKept(files: map<string, nat>, valid: bool, api: DownloadApi, m: nat)
    requires forall a: nat :: api.tempName(a) !in files
    requires forall a: nat, b: nat :: a != b ==> api.tempName(a) != api.tempName(b)
    ensures forall p :: p in files ==> p in FilesAfter(files, valid, api, m) && FilesAfter(files, valid, api, m)[p] == files[p]
    ensures forall b: nat :: b < m && Reaches(valid, api, b) && FileAfter(api, b).Some? ==>
      api.tempName(b) in FilesAfter(files, valid, api, m) && FilesAfter(files, valid, api, m)[api.tempName(b)] == FileAfter(api, b).value
    ensures forall b: nat :: b < m && Reaches(valid, api, b) && FileAfter(api, b).None? ==>
      api.tempName(b) !in FilesAfter(files, valid, api, m)
    ensures forall p :: p in FilesAfter(files, valid, api, m) && p !in files ==>
      exists b: nat :: b < m && p == api.tempName(b) && Reaches(valid, api, b)
  {
    if m > 0 {
      FilesKept(files, valid, api, m - 1);
    }
  }

  /** The path returned is the temporary file of the last attempt, and it
      holds some bytes. */
  lemma DownloadedFile(files: map<string, nat>, valid: bool, api: DownloadApi, n: int)
    requires n >= 1
    ensures var steps := DownloadAttempts(valid, api);
      var path := Run(steps, 0, n, Pause, None).0;
      path.Some? ==>
        && path.value == api.tempName(Made(steps, n) - 1)
        && path.value in FilesAfter(files, valid, api, Made(steps, n))
        && FilesAfter(files, valid, api, Made(steps, n))[path.value] > 0
  {
    var steps := DownloadAttempts(valid, api);
    RunIsSpaced(steps, 0, n, Pause, None);
    var k := Last(steps, 0, n);
    assert steps(k) == DownloadAttempt(valid, api, k);
  }

  /** An invalid URL, or a video without an audio stream on the first
      attempt, gives None at once: no retry and no file. */
  lemma DownloadEarlyExits(files: map<string, nat>, valid: bool, api: DownloadApi, n: int)
    requires n >= 1
    ensures var steps := DownloadAttempts(valid, api);
      && (!valid ==> Run(steps, 0, n, Pause, None) == (None, []) && Made(steps, n) == 1)
      && (valid && api.open(0) == Ok(false) ==>
            Run(steps, 0, n, Pause, None) == (None, [Call(0, OpenVideo)]) && Made(steps, n) == 1)
      && (Made(steps, n) == 1 && !Reaches(valid, api, 0) ==> FilesAfter(files, valid, api, Made(steps, n)) == files)
  {
    var steps := DownloadAttempts(valid, api);
    assert steps(0) == DownloadAttempt(valid, api, 0);
  }

  // ---------------------------------------------------------------- download_video_with_progress

  /** The default `max_retries`. */
  const MaxRetries: int := 3

  /** What `download_video_with_progress` returns: a bare None for an empty
      URL, otherwise the pair `(audio_path, captions)`. */
  datatype Progress = NoUrl | Pair(audio: Option<string>, captions: Option<string>)

  /** `download_video_with_progress(url)`: the video information is fetched
      (and only shown), then captions are looked for, and only when none are
      found is the audio downloaded. */
  method DownloadVideoWithProgress(disk: Disk, url: string, infoOpen: nat -> Reply<Info>,
                                   idStep: Reply<Option<string>>, captionApi: CaptionApi, downloadApi: DownloadApi)
    returns (r: Progress, trace: seq<Event<Call>>)
    requires forall a: nat :: downloadApi.tempName(a) !in disk.files
    requires forall a: nat, b: nat :: a != b ==> downloadApi.tempName(a) != downloadApi.tempName(b)
    modifies disk
    ensures url == "" ==> r == NoUrl && trace == [] && disk.files == old(disk.files)
    ensures url != "" ==>
      var infoTrace := Run(InfoAttempts(infoOpen), 0, MaxRetries, Pause, None).1;
      var (captions, captionTrace) := Run(CaptionAttempts(idStep, captionApi), 0, MaxRetries, Pause, None);
      var downloads := DownloadAttempts(IsValidYoutubeUrl(url), downloadApi);
      var (path, downloadTrace) := Run(downloads, 0, MaxRetries, Pause, None);
      if captions.Some? && captions.value != "" then
        r == Pair(None, captions) && trace == infoTrace + captionTrace && disk.files == old(disk.files)
      else
        && r == Pair(if path.Some? && path.value != "" then path else None, None)
        && trace == infoTrace + captionTrace + downloadTrace
        && disk.files == FilesAfter(old(disk.files), IsValidYoutubeUrl(url), downloadApi, Made(downloads, MaxRetries))
    ensures url != "" && idStep.Raised? && idStep.exc.kind == NameError ==> r.Pair? && r.captions.None?
  {
    if url == "" {
      return NoUrl, [];
    }
    var info, infoTrace := GetVideoInfo(MaxRetries, infoOpen);
    var captions, captionTrace := GetYoutubeCaptions(MaxRetries, idStep, captionApi);
    if idStep.Raised? && idStep.exc.kind == NameError {
      CaptionsNameError(captionApi, MaxRetries, idStep.exc);
    }
    if captions.Some? && captions.value != "" {
      return Pair(None, captions), infoTrace + captionTrace;
    }
    var path, downloadTrace := DownloadYoutubeAudio(disk, url, MaxRetries, downloadApi);
    trace := infoTrace + captionTrace + downloadTrace;
    if path.Some? && path.value != "" {
      return Pair(path, None), trace;
    }
    return Pair(None, None), trace;
  }
}
