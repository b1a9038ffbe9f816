/** app.py: `format_transcript`, the retrying `get_transcript` with its
    caption fallback, and the two routes that classify its result. The
    transcript library is a set of oracles indexed by the attempt; the
    calls made and the one-second pauses are recorded in a trace. */
module AppTranscript {
  import opened Wrappers
  import opened Text
  import opened Trace
  import opened Retry
  import AppVideoId

  /** An entry of a transcript; only its `'text'` is read. */
  datatype Entry = Entry(text: string)

  function Texts(entries: seq<Entry>): (ts: seq<string>)
    ensures |ts| == |entries| && forall k :: 0 <= k < |entries| ==> ts[k] == entries[k].text
  {
    seq(|entries|, k requires 0 <= k < |entries| => entries[k].text)
  }

  /** `" ".join(texts).strip()`, what `format_transcript` is meant to give. */
  function Formatted(entries: seq<Entry>): string
  {
    Strip(JoinSpace(Texts(entries)))
  }

  /** `format_transcript(transcript_list)`: each entry's text followed by a
      space, then stripped. */
  method FormatTranscript(entries: seq<Entry>) returns (r: string)
    ensures r == Strip(JoinSpace(Texts(entries)))
    ensures entries == [] ==> r == ""
    ensures r == [] || (!IsSpace(r[0]) && !IsSpace(r[|r| - 1]))
  {
    var formatted := "";
    for i := 0 to |entries|
      invariant i == 0 ==> formatted == ""
      invariant i > 0 ==> formatted == JoinSpace(Texts(entries[..i])) + " "
    {
      assert Texts(entries[..i + 1]) == Texts(entries[..i]) + [entries[i].text];
      formatted := formatted + entries[i].text + " ";
    }
    assert entries[..|entries|] == entries;
    if |entries| > 0 {
      StripAppendSpace(JoinSpace(Texts(entries)));
    }
    r := Strip(formatted);
    StripTrims(formatted);
  }

  // ---------------------------------------------------------------- the library

  /** The three lookups of the fallback, as called on the transcript list. */
  datatype Lookup =
    | FindTranscript(languages: seq<string>)
    | FindManual(languages: seq<string>)
    | FindGenerated(languages: seq<string>)

  datatype Track = Track(language: string)

  datatype ApiCall =
    | GetTranscript(videoId: string)
    | ListTranscripts(videoId: string)
    | Find(lookup: Lookup)
    | Fetch(track: Track)

  /** `YouTubeTranscriptApi.get_transcript`, `list_transcripts`, the finds
      on the list and `fetch`, each as an outcome per attempt. */
  datatype Api = Api(
    getTranscript: (string, nat) -> Reply<seq<Entry>>,
    listTranscripts: (string, nat) -> Reply<()>,
    find: (nat, Lookup) -> Reply<Track>,
    fetch: (nat, Track) -> Reply<seq<Entry>>)

  const FallbackLanguages: seq<string> := ["en", "ar", "fr", "es", "de"]

  /** English first, then a manual track, then a generated one. */
  const Fallbacks: seq<Lookup> := [FindTranscript(["en"]), FindManual(FallbackLanguages), FindGenerated(FallbackLanguages)]

  const DefaultRetries: int := 3

  /** `time.sleep(1)` */
  const Pause: nat := 1

  const GenericError := "Error" + ": "
  const RetrieveError := GenericError + "Could not retrieve transcript. "
  const MaxRetriesMessage := GenericError + "Maximum retry attempts reached. Please try again later."

  // ---------------------------------------------------------------- one attempt

  predicate IsLookupCall(x: Event<ApiCall>, a: nat)
  {
    x.Call? && x.attempt == a && (x.call.Find? || x.call.Fetch?)
  }

  /** A find and, if it found a track, its fetch. */
  function LookupStep(api: Api, a: nat, l: Lookup): (r: (Reply<seq<Entry>>, seq<Event<ApiCall>>))
    ensures 1 <= |r.1| <= 2 && r.1[0] == Call(a, Find(l))
    ensures forall i :: 0 <= i < |r.1| ==> IsLookupCall(r.1[i], a)
    ensures api.find(a, l).Raised? ==> r == (Raised(api.find(a, l).exc), [Call(a, Find(l))])
    ensures api.find(a, l).Ok? ==> r == (api.fetch(a, api.find(a, l).value), [Call(a, Find(l)), Call(a, Fetch(api.find(a, l).value))])
  {
    var t := api.find(a, l);
    if t.Raised? then (Raised(t.exc), [Call(a, Find(l))])
    else (api.fetch(a, t.value), [Call(a, Find(l)), Call(a, Fetch(t.value))])
  }

  /** The nested `try`/bare `except:` chain over `ls`: each later lookup
      only when the earlier one (its find or its fetch) raised; the error
      of the last one propagates. */
  function Fallback(api: Api, a: nat, ls: seq<Lookup>): (r: (Reply<seq<Entry>>, seq<Event<ApiCall>>))
    requires |ls| >= 1
    ensures |r.1| >= 1 && forall i :: 0 <= i < |r.1| ==> IsLookupCall(r.1[i], a)
    decreases |ls|
  {
    var (d, ev) := LookupStep(api, a, ls[0]);
    if d.Ok? || |ls| == 1 then (d, ev)
    else
      var (d2, ev2) := Fallback(api, a, ls[1..]);
      (d2, ev + ev2)
  }

  /** The chain of the three lookups written out: English, then manual,
      then generated, each only after the one before raised. */
  lemma FallbackCases(api: Api, a: nat)
    ensures var en := LookupStep(api, a, FindTranscript(["en"]));
            var manual := LookupStep(api, a, FindManual(FallbackLanguages));
            var generated := LookupStep(api, a, FindGenerated(FallbackLanguages));
            Fallback(api, a, Fallbacks) ==
              if en.0.Ok? then en
              else if manual.0.Ok? then (manual.0, en.1 + manual.1)
              else (generated.0, en.1 + manual.1 + generated.1)
  {
    assert Fallbacks[1..] == [FindManual(FallbackLanguages), FindGenerated(FallbackLanguages)];
    assert Fallbacks[1..][1..] == [FindGenerated(FallbackLanguages)];
    var en := LookupStep(api, a, FindTranscript(["en"]));
    var manual := LookupStep(api, a, FindManual(FallbackLanguages));
    var generated := LookupStep(api, a, FindGenerated(FallbackLanguages));
    assert Fallback(api, a, Fallbacks[1..][1..]) == generated;
    if !manual.0.Ok? {
      assert Fallback(api, a, Fallbacks[1..]) == (generated.0, manual.1 + generated.1);
    }
    assert en.1 + (manual.1 + generated.1) == en.1 + manual.1 + generated.1;
  }

  /** The rest of an attempt once `get_transcript` raised one of the two
      "no transcript" errors: list the transcripts, run the fallback,
      format what it found. */
  function Listed(api: Api, id: string, a: nat): Attempt<string, ApiCall>
  {
    var listed := [Call(a, GetTranscript(id)), Call(a, ListTranscripts(id))];
    match api.listTranscripts(id, a)
    case Raised(e) => Attempt(Failed(RetrieveError + e.message), listed)
    case Ok(_) =>
      var found := Fallback(api, a, Fallbacks);
      if found.0.Ok? then Attempt(Return(Formatted(found.0.value)), listed + found.1)
      else Attempt(Failed(RetrieveError + found.0.exc.message), listed + found.1)
  }

  /** One attempt of `get_transcript`'s loop body. */
  function TranscriptAttempt(api: Api, id: string, a: nat): Attempt<string, ApiCall>
  {
    match api.getTranscript(id, a)
    case Ok(entries) => Attempt(Return(Formatted(entries)), [Call(a, GetTranscript(id))])
    case Raised(e) =>
      if e.kind == TranscriptsDisabled || e.kind == NoTranscriptFound then Listed(api, id, a)
      else Attempt(Failed(GenericError + e.message), [Call(a, GetTranscript(id))])
  }

  function TranscriptAttempts(api: Api, id: string): nat -> Attempt<string, ApiCall>
  {
    (a: nat) => TranscriptAttempt(api, id, a)
  }

  /** The three nested `try` blocks of the fallback. */
  method FallbackOnce(api: Api, attempt: nat) returns (data: Reply<seq<Entry>>, events: seq<Event<ApiCall>>)
    ensures (data, events) == Fallback(api, attempt, Fallbacks)
  {
    FallbackCases(api, attempt);
    var english := LookupStep(api, attempt, FindTranscript(["en"]));
    data, events := english.0, english.1;
    if data.Raised? {
      var manual := LookupStep(api, attempt, FindManual(FallbackLanguages));
      data, events := manual.0, events + manual.1;
      if data.Raised? {
        var generated := LookupStep(api, attempt, FindGenerated(FallbackLanguages));
        data, events := generated.0, events + generated.1;
      }
    }
  }

  /** The handler of the two "no transcript" errors. */
  method ListedOnce(api: Api, videoId: string, attempt: nat) returns (outcome: Outcome<string>, events: seq<Event<ApiCall>>)
    ensures Attempt(outcome, events) == Listed(api, videoId, attempt)
  {
    events := [Call(attempt, GetTranscript(videoId)), Call(attempt, ListTranscripts(videoId))];
    var listing := api.listTranscripts(videoId, attempt);
    if listing.Raised? {
      return Failed(RetrieveError + listing.exc.message), events;
    }
    var data, found := FallbackOnce(api, attempt);
    events := events + found;
    if data.Ok? {
      var text := FormatTranscript(data.value);
      return Return(text), events;
    }
    return Failed(RetrieveError + data.exc.message), events;
  }

  /** The body of one attempt, up to the point where it returns or its
      exception is caught. */
  method TranscriptOnce(api: Api, videoId: string, attempt: nat) returns (outcome: Outcome<string>, events: seq<Event<ApiCall>>)
    ensures Attempt(outcome, events) == TranscriptAttempt(api, videoId, attempt)
  {
    var reply := api.getTranscript(videoId, attempt);
    if reply.Ok? {
      var text := FormatTranscript(reply.value);
      return Return(text), [Call(attempt, GetTranscript(videoId))];
    }
    if reply.exc.kind == TranscriptsDisabled || reply.exc.kind == NoTranscriptFound {
      outcome, events := ListedOnce(api, videoId, attempt);
      return;
    }
    return Failed(GenericError + reply.exc.message), [Call(attempt, GetTranscript(videoId))];
  }

  // ---------------------------------------------------------------- the loop

  /** `get_transcript(video_id, max_retries)`. */
  method GetTranscriptWithRetries(videoId: string, maxRetries: int, api: Api) returns (result: string, trace: seq<Event<ApiCall>>)
    ensures (result, trace) == Run(TranscriptAttempts(api, videoId), 0, maxRetries, Pause, MaxRetriesMessage)
  {
    ghost var steps := TranscriptAttempts(api, videoId);
    trace := [];
    Starts(steps, maxRetries, Pause, MaxRetriesMessage);
    var attempt: nat := 0;
    while attempt < maxRetries
      invariant Resumes(steps, attempt, maxRetries, Pause, MaxRetriesMessage, trace)
      invariant attempt == 0 || attempt < maxRetries
      decreases maxRetries - attempt
    {
      ghost var before := trace;
      var outcome, events := TranscriptOnce(api, videoId, attempt);
      assert steps(attempt) == Attempt(outcome, events);
      trace := trace + events;
      if outcome.Return? {
        Ends(steps, attempt, maxRetries, Pause, MaxRetriesMessage, before);
        return outcome.value, trace;
      }
      if attempt < maxRetries - 1 {
        Continues(steps, attempt, maxRetries, Pause, MaxRetriesMessage, before);
        trace := trace + [Sleep(Pause)];
        attempt := attempt + 1;
        continue;
      }
      Ends(steps, attempt, maxRetries, Pause, MaxRetriesMessage, before);
      return outcome.value, trace;
    }
    Exhausted(steps, attempt, maxRetries, Pause, MaxRetriesMessage, trace);
    return MaxRetriesMessage, trace;
  }

  // ---------------------------------------------------------------- properties

  /** `text.startswith("Error")`, the routes' test for a failure. */
  predicate IsErrorText(t: string)
  {
    |t| >= 5 && t[..5] == "Error"
  }

  /** Every message `get_transcript` builds for a failure passes that test. */
  lemma ErrorMessages(m: string)
    ensures IsErrorText(GenericError + m) && IsErrorText(RetrieveError + m) && IsErrorText(MaxRetriesMessage)
  {
    var rest := ": " + "Could not retrieve transcript. " + m;
    assert RetrieveError + m == "Error" + rest;
    assert ("Error" + rest)[..5] == "Error";
    assert (GenericError + m)[..5] == "Error";
    assert MaxRetriesMessage[..5] == "Error";
  }

  /** Whether attempt `a` ends with a transcript: the direct lookup works,
      or it raised one of the two "no transcript" errors, the listing works
      and one of the fallback lookups finds a track whose fetch works. */
  predicate Delivers(api: Api, id: string, a: nat)
  {
    || api.getTranscript(id, a).Ok?
    || (&& (api.getTranscript(id, a).exc.kind == TranscriptsDisabled || api.getTranscript(id, a).exc.kind == NoTranscriptFound)
        && api.listTranscripts(id, a).Ok?
        && Fallback(api, a, Fallbacks).0.Ok?)
  }

  lemma LookupCallsNone(ev: seq<Event<ApiCall>>, a: nat, c: ApiCall)
    requires forall i :: 0 <= i < |ev| ==> IsLookupCall(ev[i], a)
    requires !c.Find? && !c.Fetch?
    ensures Calls(ev, c) == 0
  {
  }

  /** One attempt makes exactly one `get_transcript` call and no pause; it
      returns at once exactly when it delivers a transcript, and every
      message it leaves for the last attempt starts with "Error". */
  lemma TranscriptAttemptShape(api: Api, id: string, j: nat)
    ensures var step := TranscriptAttempt(api, id, j);
      && NoSleeps(step.events) && Calls(step.events, GetTranscript(id)) == 1
      && step.events[0] == Call(j, GetTranscript(id))
      && (step.outcome.Return? <==> Delivers(api, id, j))
      && (step.outcome.Return? ==> step.outcome.value == DeliveredText(api, id, j))
      && (step.outcome.Failed? ==> IsErrorText(step.outcome.value))
  {
    var reply := api.getTranscript(id, j);
    if reply.Raised? && (reply.exc.kind == TranscriptsDisabled || reply.exc.kind == NoTranscriptFound) {
      ListedShape(api, id, j);
    } else {
      DirectEvents(api, id, j);
      if reply.Raised? {
        ErrorMessages(reply.exc.message);
      }
    }
  }

  /** The same for the handler of the two "no transcript" errors. */
  lemma ListedShape(api: Api, id: string, j: nat)
    ensures var step := Listed(api, id, j);
      && NoSleeps(step.events) && Calls(step.events, GetTranscript(id)) == 1
      && step.events[0] == Call(j, GetTranscript(id))
      && (step.outcome.Return? <==> api.listTranscripts(id, j).Ok? && Fallback(api, j, Fallbacks).0.Ok?)
      && (step.outcome.Return? ==> step.outcome.value == Formatted(Fallback(api, j, Fallbacks).0.value))
      && (step.outcome.Failed? ==> IsErrorText(step.outcome.value))
  {
    var first: seq<Event<ApiCall>> := [Call(j, GetTranscript(id)), Call(j, ListTranscripts(id))];
    assert Calls(first, GetTranscript(id)) == 1 by {
      assert first[1..] == [Call(j, ListTranscripts(id))];
    }
    if api.listTranscripts(id, j).Raised? {
      ErrorMessages(api.listTranscripts(id, j).exc.message);
    } else {
      var found := Fallback(api, j, Fallbacks);
      if found.0.Raised? {
        ErrorMessages(found.0.exc.message);
      }
      LookupCallsNone(found.1, j, GetTranscript(id));
      CallsAppend(first, found.1, GetTranscript(id));
    }
  }

  /** Which message a failed attempt leaves: the "could not retrieve"
      message with the error of the listing or of the last fallback lookup
      after a "no transcript" error, the bare error message after any other
      error of `get_transcript`. */
  lemma FailureMessage(api: Api, id: string, j: nat)
    requires !Delivers(api, id, j)
    ensures var g := api.getTranscript(id, j);
      var text := TranscriptAttempt(api, id, j).outcome.value;
      && g.Raised? && TranscriptAttempt(api, id, j).outcome.Failed?
      && (g.exc.kind == TranscriptsDisabled || g.exc.kind == NoTranscriptFound ==>
            text == RetrieveError + (if api.listTranscripts(id, j).Raised? then api.listTranscripts(id, j).exc.message
                                     else Fallback(api, j, Fallbacks).0.exc.message))
      && (g.exc.kind != TranscriptsDisabled && g.exc.kind != NoTranscriptFound ==> text == GenericError + g.exc.message)
  {
    TranscriptAttemptShape(api, id, j);
  }

  /** The text an attempt that delivers returns. */
  function DeliveredText(api: Api, id: string, a: nat): string
    requires Delivers(api, id, a)
  {
    if api.getTranscript(id, a).Ok? then Formatted(api.getTranscript(id, a).value)
    else Formatted(Fallback(api, a, Fallbacks).0.value)
  }

  lemma AttemptsShape(api: Api, id: string, n: int)
    ensures forall j :: 0 <= j < n ==> var step := TranscriptAttempts(api, id)(j);
      && NoSleeps(step.events) && Calls(step.events, GetTranscript(id)) == 1
      && (step.outcome.Return? <==> Delivers(api, id, j))
      && (step.outcome.Return? ==> step.outcome.value == DeliveredText(api, id, j))
      && (step.outcome.Failed? ==> IsErrorText(step.outcome.value))
  {
    forall j | 0 <= j < n
      ensures var step := TranscriptAttempts(api, id)(j);
        && NoSleeps(step.events) && Calls(step.events, GetTranscript(id)) == 1
        && (step.outcome.Return? <==> Delivers(api, id, j))
        && (step.outcome.Return? ==> step.outcome.value == DeliveredText(api, id, j))
        && (step.outcome.Failed? ==> IsErrorText(step.outcome.value))
    {
      TranscriptAttemptShape(api, id, j);
    }
  }

  /** The loop makes at most `max_retries` `get_transcript` calls, one per
      attempt, with a one-second pause between each two. */
  lemma TranscriptCounts(api: Api, id: string, n: int)
    requires n >= 1
    ensures var trace := Run(TranscriptAttempts(api, id), 0, n, Pause, MaxRetriesMessage).1;
      && 1 <= Calls(trace, GetTranscript(id)) <= n
      && Sleeps(trace) == Calls(trace, GetTranscript(id)) - 1
  {
    AttemptsShape(api, id, n);
    RunCounts(TranscriptAttempts(api, id), n, Pause, MaxRetriesMessage, GetTranscript(id));
  }

  /** The first attempt that delivers gives the result, after one
      `get_transcript` call per attempt up to it. */
  lemma TranscriptFirstDelivery(api: Api, id: string, n: int, k: nat)
    requires k < n && Delivers(api, id, k) && forall j :: 0 <= j < k ==> !Delivers(api, id, j)
    ensures var (text, trace) := Run(TranscriptAttempts(api, id), 0, n, Pause, MaxRetriesMessage);
      text == DeliveredText(api, id, k) && Calls(trace, GetTranscript(id)) == k + 1
  {
    var steps := TranscriptAttempts(api, id);
    AttemptsShape(api, id, n);
    FirstReturn(steps, n, Pause, MaxRetriesMessage, k);
    RunCounts(steps, n, Pause, MaxRetriesMessage, GetTranscript(id));
  }

  /** When no attempt delivers, all `max_retries` are made and the message
      of the last one is returned; it starts with "Error". */
  lemma TranscriptAllFail(api: Api, id: string, n: int)
    requires n >= 1 && forall j :: 0 <= j < n ==> !Delivers(api, id, j)
    ensures var (text, trace) := Run(TranscriptAttempts(api, id), 0, n, Pause, MaxRetriesMessage);
      && text == TranscriptAttempt(api, id, n - 1).outcome.value
      && IsErrorText(text) && Calls(trace, GetTranscript(id)) == n
  {
    var steps := TranscriptAttempts(api, id);
    AttemptsShape(api, id, n);
    NoneReturns(steps, n, Pause, MaxRetriesMessage);
    RunCounts(steps, n, Pause, MaxRetriesMessage, GetTranscript(id));
  }

  /** With no budget nothing is called and the result is the
      maximum-retries message. */
  lemma TranscriptNoBudget(api: Api, id: string, n: int)
    requires n <= 0
    ensures Run(TranscriptAttempts(api, id), 0, n, Pause, MaxRetriesMessage) == (MaxRetriesMessage, [])
    ensures IsErrorText(MaxRetriesMessage)
  {
    NoBudget(TranscriptAttempts(api, id), n, Pause, MaxRetriesMessage);
    ErrorMessages("");
  }

  /** The fallback takes the first lookup that works, English first, then
      a manual track, then a generated one; a later lookup is only tried
      once the earlier ones raised (in their find or their fetch). */
  lemma FallbackOrder(api: Api, a: nat)
    ensures var r := Fallback(api, a, Fallbacks);
      var en := LookupStep(api, a, FindTranscript(["en"])).0;
      var manual := LookupStep(api, a, FindManual(FallbackLanguages)).0;
      var generated := LookupStep(api, a, FindGenerated(FallbackLanguages)).0;
      && (r.0.Ok? <==> en.Ok? || manual.Ok? || generated.Ok?)
      && (en.Ok? ==> r.0 == en)
      && (en.Raised? && manual.Ok? ==> r.0 == manual)
      && (en.Raised? && manual.Raised? ==> r.0 == generated)
      && Call(a, Find(FindTranscript(["en"]))) in r.1
      && (Call(a, Find(FindManual(FallbackLanguages))) in r.1 <==> en.Raised?)
      && (Call(a, Find(FindGenerated(FallbackLanguages))) in r.1 <==> en.Raised? && manual.Raised?)
  {
    FallbackCases(api, a);
  }

  lemma ListedEvents(api: Api, id: string, j: nat, x: Event<ApiCall>)
    requires x in Listed(api, id, j).events
    ensures x == Call(j, GetTranscript(id)) || x == Call(j, ListTranscripts(id))
            || (IsLookupCall(x, j) && api.listTranscripts(id, j).Ok?)
  {
    var listed := [Call(j, GetTranscript(id)), Call(j, ListTranscripts(id))];
    if api.listTranscripts(id, j).Ok? && x !in listed {
      var found := Fallback(api, j, Fallbacks).1;
      assert x in found;
      var i :| 0 <= i < |found| && found[i] == x;
    }
  }

  lemma DirectEvents(api: Api, id: string, j: nat)
    requires !(api.getTranscript(id, j).Raised? && (api.getTranscript(id, j).exc.kind == TranscriptsDisabled || api.getTranscript(id, j).exc.kind == NoTranscriptFound))
    ensures TranscriptAttempt(api, id, j).events == [Call(j, GetTranscript(id))]
  {
  }

  /** The calls of one attempt carry its number; `list_transcripts` comes
      only after `get_transcript` raised one of the two "no transcript"
      errors, and the finds and fetches only after the listing worked. */
  lemma AttemptEvents(api: Api, id: string, j: nat, x: Event<ApiCall>)
    requires x in TranscriptAttempt(api, id, j).events
    ensures x.Call? && x.attempt == j
    ensures x.call.GetTranscript? ==> x.call == GetTranscript(id)
    ensures x.call.ListTranscripts? || x.call.Find? || x.call.Fetch? ==>
      && api.getTranscript(id, j).Raised?
      && (api.getTranscript(id, j).exc.kind == TranscriptsDisabled || api.getTranscript(id, j).exc.kind == NoTranscriptFound)
    ensures x.call.ListTranscripts? ==> x.call == ListTranscripts(id)
    ensures x.call.Find? || x.call.Fetch? ==> api.listTranscripts(id, j).Ok?
  {
    var reply := api.getTranscript(id, j);
    if reply.Raised? && (reply.exc.kind == TranscriptsDisabled || reply.exc.kind == NoTranscriptFound) {
      ListedEvents(api, id, j, x);
    } else {
      DirectEvents(api, id, j);
    }
  }

  /** Over the whole loop: every call belongs to an attempt within the
      budget, and the listing and the lookups are guarded as in one attempt. */
  lemma ListingOnlyAfterNoTranscript(api: Api, id: string, n: int, x: Event<ApiCall>)
    requires x in Run(TranscriptAttempts(api, id), 0, n, Pause, MaxRetriesMessage).1
    ensures x.Call? ==> x.attempt < n
    ensures x.Call? && (x.call.ListTranscripts? || x.call.Find? || x.call.Fetch?) ==>
      && api.getTranscript(id, x.attempt).Raised?
      && (api.getTranscript(id, x.attempt).exc.kind == TranscriptsDisabled || api.getTranscript(id, x.attempt).exc.kind == NoTranscriptFound)
    ensures x.Call? && (x.call.Find? || x.call.Fetch?) ==> api.listTranscripts(id, x.attempt).Ok?
  {
    var steps := TranscriptAttempts(api, id);
    RunIsSpaced(steps, 0, n, Pause, MaxRetriesMessage);
    var k := Last(steps, 0, n);
    SpacedMembers(steps, 0, k, Pause, x);
    if x.Call? {
      var j :| 0 <= j <= k && x in steps(j).events;
      AttemptEvents(api, id, j, x);
    }
  }

  // ---------------------------------------------------------------- the routes

  datatype Body =
    | ErrorBody(error: string)
    | TranscriptBody(transcript: string, videoId: string)
    | FileBody(name: string, content: string)

  /** A reply of the web application: the HTTP status and what it carries. */
  datatype Response = Response(status: nat, body: Body)

  /** The outcome the routes give for a transcript text. */
  function Classify(text: string, ok: Body): (r: Response)
    ensures r.status == 400 <==> IsErrorText(text)
    ensures IsErrorText(text) ==> r.body == ErrorBody(text)
    ensures !IsErrorText(text) ==> r == Response(200, ok)
  {
    if IsErrorText(text) then Response(400, ErrorBody(text)) else Response(200, ok)
  }

  /** `POST /get_transcript` with the request's `url` field. */
  method GetTranscriptRoute(url: Option<string>, api: Api) returns (response: Response, trace: seq<Event<ApiCall>>)
    ensures url.None? || url == Some("") ==> response == Response(400, ErrorBody("No URL provided")) && trace == []
    ensures url.Some? && url.value != "" && AppVideoId.ExtractVideoId(url.value).None? ==>
      response == Response(400, ErrorBody("Invalid YouTube URL")) && trace == []
    ensures url.Some? && url.value != "" && AppVideoId.ExtractVideoId(url.value).Some? ==>
      var id := AppVideoId.ExtractVideoId(url.value).value;
      var (text, t) := Run(TranscriptAttempts(api, id), 0, DefaultRetries, Pause, MaxRetriesMessage);
      trace == t && response == Classify(text, TranscriptBody(text, id))
  {
    if url.None? || url.value == "" {
      return Response(400, ErrorBody("No URL provided")), [];
    }
    var video := AppVideoId.ExtractVideoId(url.value);
    if video.None? || video.value == "" {
      return Response(400, ErrorBody("Invalid YouTube URL")), [];
    }
    var text;
    text, trace := GetTranscriptWithRetries(video.value, DefaultRetries, api);
    if IsErrorText(text) {
      return Response(400, ErrorBody(text)), trace;
    }
    return Response(200, TranscriptBody(text, video.value)), trace;
  }

  /** `GET /download/<video_id>`: the transcript as a text attachment. */
  method DownloadTranscriptRoute(videoId: string, api: Api) returns (response: Response, trace: seq<Event<ApiCall>>)
    ensures var (text, t) := Run(TranscriptAttempts(api, videoId), 0, DefaultRetries, Pause, MaxRetriesMessage);
      trace == t && response == Classify(text, FileBody("transcript_" + videoId + ".txt", text))
  {
    var text;
    text, trace := GetTranscriptWithRetries(videoId, DefaultRetries, api);
    if IsErrorText(text) {
      return Response(400, ErrorBody(text)), trace;
    }
    return Response(200, FileBody("transcript_" + videoId + ".txt", text)), trace;
  }

  /** A route answers 200 only when some attempt delivered a transcript:
      every failure of the loop is caught by the "Error" test. */
  lemma SuccessOnlyOnDelivery(api: Api, id: string)
    ensures var text := Run(TranscriptAttempts(api, id), 0, DefaultRetries, Pause, MaxRetriesMessage).0;
      !IsErrorText(text) ==> exists k :: 0 <= k < DefaultRetries && Delivers(api, id, k)
  {
    if forall j :: 0 <= j < DefaultRetries ==> !Delivers(api, id, j) {
      TranscriptAllFail(api, id, DefaultRetries);
    }
  }

  /** The other side of the "Error" test: a transcript that was found but
      whose text starts with "Error" is answered with 400 as a failure. */
  lemma ErrorLikeTranscriptRejected(api: Api, id: string, entries: seq<Entry>)
    requires api.getTranscript(id, 0) == Ok(entries) && IsErrorText(Formatted(entries))
    ensures var text := Run(TranscriptAttempts(api, id), 0, DefaultRetries, Pause, MaxRetriesMessage).0;
      text == Formatted(entries) && Classify(text, TranscriptBody(text, id)).status == 400
  {
    assert TranscriptAttempts(api, id)(0).outcome == Return(Formatted(entries));
  }
}
