# YouTube transcript tools: URL recognition, caption retries and temporary files

The repository is a set of small Flask and Streamlit front ends over captioning and downloading libraries. From a YouTube link they fetch a video's captions, or they download its audio so that it can be transcribed elsewhere. Only a thin layer of that code is deterministic, and this project models that layer and proves properties of it:

- **Video-id recognisers.** There are three hand-written ones: in `app.py`, in `utils/youtube_utils.py` and in `streamlit_app.py`. Each regular expression is hand-coded as a leftmost search over `seq<char>`. It is not a general regex engine.
- **URL validator.** `is_valid_youtube_url` appears, letter for letter the same, in both downloader files.
- **URL canonicaliser.** `clean_youtube_url` deletes tracking parameters and rebuilds `https://www.youtube.com/watch?v=<id>`.
- **Retry and fallback loops.** These are `get_transcript` in `app.py` and the three `for attempt in range(max_retries)` loops in `youtube_downloader_pytube.py`. Every library call is an oracle: a function from the attempt number (and the request) to either a value or a tagged exception. Each loop returns its result together with a trace of the calls it made and the pauses (`time.sleep`) it took.
- **Text shaping.** `format_transcript` joins the entries, and `streamlit_app.py` splits paragraphs at `". "`, `"؟ "` and `"! "`.
- **Files.** The disk is a `Disk` class holding a map from path to size. `cleanup_temp_file`, the temporary files of the downloads and the early exits of the download functions all act on it.

The modules follow the source files:

| module | file | models |
|---|---|---|
| `Wrappers` | wrappers.dfy | `Option`, the exception kinds, and `Reply`, an oracle's outcome |
| `Trace` | trace.dfy | call and pause events, and counting them |
| `Retry` | retry.dfy | the common shape of the retry loops (`Run`), with loop-step lemmas for the imperative loops |
| `Text` | text.dfy | `str.strip`, `" ".join`, `str.replace` and substring tests |
| `AppVideoId` | app_video_id.dfy | `extract_video_id` of app.py |
| `AppTranscript` | app_transcript.dfy | `get_transcript`, `format_transcript`, the two routes' `"Error"` test |
| `YoutubeUtils` | youtube_utils.dfy | `extract_video_id` and `clean_youtube_url` of utils/youtube_utils.py |
| `StreamlitApp` | streamlit_app.dfy | `extract_video_id` and `get_transcript_paragraphs` of streamlit_app.py |
| `UrlValidation` | url_validation.dfy | `is_valid_youtube_url` |
| `FileSystem` | file_system.dfy | `cleanup_temp_file` and the disk |
| `Downloader` | downloader.dfy | youtube_downloader.py |
| `PytubeDownloader` | pytube_downloader.dfy | youtube_downloader_pytube.py |

Each imperative loop of the source is a `method` with a `while` loop. Its `ensures` ties the result and trace to the reference function `Retry.Run`, applied to the attempt function of that loop. The lemmas then state what the source promises about `Run`. A method that changes the disk also states the new contents of `Disk.files`.

## Model

| member | source | states |
|---|---|---|
| AppVideoId.ExtractVideoId | app.py:9-13 | the result is None exactly when the pattern matches at no position; otherwise it is 11 characters, none of them `"`, `&`, `?`, `/` or whitespace |
| AppVideoId.SearchLeftmost | app.py:12 | no position before the one the search reports holds a match (the search is leftmost) |
| AppVideoId.FirstMatchAfterPrefix | app.py:11-12 | after a prefix without `y`, a match right after the prefix is the one found |
| AppVideoId.NoMatchInPrefix | app.py:11 | the pattern can only match at a `y`, so a prefix without `y` holds no match |
| AppVideoId.ShortLinkForm | app.py:11 | `youtu.be/<id>` yields `<id>`, whatever follows |
| AppVideoId.EmbedForm | app.py:11 | `youtube.com/embed/<id>` yields `<id>` when no later `/` follows |
| AppVideoId.WatchForm | app.py:11 | `youtube.com/watch?v=<id>` yields `<id>` when no later `/` or `v=` parameter follows |
| AppVideoId.ShortsFormRejected | app.py:11 | `youtube.com/shorts/<id>` with no later `/` and no `v=` parameter yields None |
| AppVideoId.NoMatchWithoutY | app.py:11 | no match starts at a character other than `y` |
| AppVideoId.NoMatchWithoutSlash | app.py:11 | no match starts where no `/` follows |
| AppTranscript.FormatTranscript | app.py:53-57 | the loop gives `" ".join(texts).strip()`: the empty list gives `""` and the result neither starts nor ends with whitespace |
| AppTranscript.LookupStep | app.py:28-29 | one lookup of the fallback: the find, then the fetch of the found track only when the find succeeded |
| AppTranscript.FallbackCases | app.py:27-39 | the fallback tries English, then a manual track, then a generated one, and each exception passes on to the next |
| AppTranscript.FallbackOrder | app.py:27-39 | the fallback succeeds exactly when one lookup does, and the first success wins; a later lookup is called exactly when every earlier one raised (in its find or its fetch) |
| AppTranscript.FallbackOnce | app.py:27-39 | the nested `try` blocks make the calls and return the outcome that `Fallback` describes |
| AppTranscript.ListedOnce | app.py:22-44 | the handler of the two "no transcript" errors (listing, fallback, formatting, the "could not retrieve" message) behaves as `Listed` describes |
| AppTranscript.TranscriptOnce | app.py:17-49 | one pass of the loop body behaves as `TranscriptAttempt` describes |
| AppTranscript.GetTranscriptWithRetries | app.py:15-51 | the loop returns exactly the result and trace of `Run` over the attempts, a 1-second pause between each two attempts |
| AppTranscript.TranscriptAttemptShape | app.py:17-49 | an attempt makes exactly one `get_transcript` call and no pause; it returns at once exactly when it delivers a transcript; a failure message starts with "Error" |
| AppTranscript.ListedShape | app.py:21-44 | the same for the listing stage: it returns exactly when the listing and some fallback lookup succeed |
| AppTranscript.FailureMessage | app.py:40-49 | a failed attempt leaves "Error: Could not retrieve transcript. " plus the listing's or the fallback's error after a "no transcript" error, and "Error: " plus the message after any other error |
| AppTranscript.ErrorMessages | app.py:44-51 | every failure message `get_transcript` builds starts with "Error" |
| AppTranscript.TranscriptCounts | app.py:16-48 | at most `max_retries` `get_transcript` calls, one per attempt, and one pause fewer than calls |
| AppTranscript.TranscriptFirstDelivery | app.py:16-39 | the first attempt that delivers gives the result, after one call per attempt up to it |
| AppTranscript.TranscriptAllFail | app.py:40-51 | when no attempt delivers, all `max_retries` attempts are made and the last one's message, starting with "Error", is returned |
| AppTranscript.TranscriptNoBudget | app.py:16-51 | with `max_retries <= 0` nothing is called and the maximum-retries message is returned, so line 51 is reached only then |
| AppTranscript.ListingOnlyAfterNoTranscript | app.py:19-45 | `list_transcripts` and the lookups run only in an attempt whose `get_transcript` raised `TranscriptsDisabled` or `NoTranscriptFound`, and the lookups only after a successful listing |
| AppTranscript.Classify | app.py:76-88 | status 400 exactly when the text starts with "Error", carrying that text; status 200 with the route's body otherwise |
| AppTranscript.GetTranscriptRoute | app.py:63-82 | a missing or empty URL and an unrecognised URL give 400 with no library call; otherwise the route answers from `get_transcript(id)` with three retries, classified by the "Error" test |
| AppTranscript.DownloadTranscriptRoute | app.py:84-99 | the transcript is classified by the "Error" test; if it passes, it comes back as the attachment `transcript_<id>.txt` |
| AppTranscript.SuccessOnlyOnDelivery | app.py:75-82 | a route answers 200 only when some attempt delivered a transcript |
| AppTranscript.ErrorLikeTranscriptRejected | app.py:76-77 | a transcript that was found but begins with "Error" is still answered with 400 |
| YoutubeUtils.Search | utils/youtube_utils.py:38 | the leftmost position where a pattern captures: it captures there and at no earlier position |
| YoutubeUtils.Group | utils/youtube_utils.py:38-40 | a capture is 11 characters of `[0-9A-Za-z_-]`, and there is none exactly when the pattern captures nowhere |
| YoutubeUtils.FirstMatch | utils/youtube_utils.py:37-41 | the result is the capture of the first pattern in the list that matches, and None when none matches |
| YoutubeUtils.ExtractVideoId | utils/youtube_utils.py:27-41 | a returned id is 11 characters of `[0-9A-Za-z_-]` |
| YoutubeUtils.LaterPatternsSubsumed | utils/youtube_utils.py:32-34 | whatever the short-link or the embed pattern matches, the standard pattern also matches |
| YoutubeUtils.ResultFromStandardPattern | utils/youtube_utils.py:31-41 | the result is always that of the standard pattern |
| YoutubeUtils.CanonicalExtract | utils/youtube_utils.py:32 | on `https://www.youtube.com/watch?v=<id>…` the earlier slashes do not capture, so `<id>` is extracted (its first 11 characters when a longer run of id characters follows) |
| YoutubeUtils.DigitsEnd | utils/youtube_utils.py:13 | the end of the longest run of ASCII digits from a position |
| YoutubeUtils.TimestampEnd | utils/youtube_utils.py:13 | the length of the `&t=<digits>s` match at the start of a string |
| YoutubeUtils.RemovalsSkipAmpersandFree | utils/youtube_utils.py:13-14 | both deletions leave a prefix without `&` untouched |
| YoutubeUtils.TimestampDeleted | utils/youtube_utils.py:13 | an `&t=<digits>s` is deleted, and deletion goes on after it |
| YoutubeUtils.FeatureDeleted | utils/youtube_utils.py:14 | everything from the first `&feature=` to the end of the line is deleted |
| YoutubeUtils.CleanYoutubeUrl | utils/youtube_utils.py:9-25 | None exactly when extraction on the cleaned URL fails; otherwise the 43-character canonical URL with the extracted id |
| YoutubeUtils.CleanCanonicalWithParameters | utils/youtube_utils.py:13-22 | a canonical URL followed by anything is cleaned back to the canonical URL |
| YoutubeUtils.CleanIdempotent | utils/youtube_utils.py:13-22 | cleaning a cleaned URL gives it back |
| StreamlitApp.Search | streamlit_app.py:8 | the leftmost position where `v=` or `youtu.be/` is followed by 11 id characters |
| StreamlitApp.ExtractVideoId | streamlit_app.py:7-9 | an id comes out exactly when some position matches, and it is 11 characters of `[a-zA-Z0-9_-]` |
| StreamlitApp.NoMarkersRejected | streamlit_app.py:8 | a URL with no `=` and no `.xx/` after its fifth character gives None |
| StreamlitApp.EmbedAndShortsRejected | streamlit_app.py:8 | `https://www.youtube.com/embed/<id>` and `…/shorts/<id>` give None |
| StreamlitApp.SplitLeavesNoMarkSpace | streamlit_app.py:22 | after splitting, the text holds no `". "`, `"؟ "` or `"! "` |
| StreamlitApp.SplitLength | streamlit_app.py:22 | the output is longer than the input by the number of replaced pairs |
| StreamlitApp.SplitWithoutPairs | streamlit_app.py:22 | text with none of the three pairs is returned unchanged |
| StreamlitApp.SplitRoundTrip | streamlit_app.py:22 | on text in which no `.`, `؟` or `!` is directly followed by `'\n'` (in particular, text without `'\n'`), mapping the three breaks back recovers the input |
| StreamlitApp.NoNewlineNoMarkNewline | streamlit_app.py:22 | text without `'\n'` meets the round trip's condition |
| StreamlitApp.BreakRemovesPairs | streamlit_app.py:22 | one `replace(c + ' ', c + '\n\n')` leaves no `c ` pair |
| StreamlitApp.BreakKeepsNoPair | streamlit_app.py:22 | a replacement for one mark creates no pair of another mark |
| StreamlitApp.BreakKeepsPairs | streamlit_app.py:22 | a replacement for one mark keeps the number of another mark's pairs |
| StreamlitApp.JoinAfterBreak | streamlit_app.py:22 | one replacement is undone by the reverse replacement when no `c\n` pair was there |
| StreamlitApp.GetTranscriptParagraphs | streamlit_app.py:11-26 | an unrecognised link gives the invalid-link message and no library request; otherwise there is exactly one request for `(id, ['ar','en'])`; success gives split text that holds no mark-space pair and that maps back to the fetched text whenever no mark in that text is directly followed by `'\n'`; an exception gives the error-prefixed message |
| StreamlitApp.EmbedAndShortsNotLookedUp | streamlit_app.py:8-14 | embed and shorts links give the invalid-link message without a library request |
| UrlValidation.ValidIffMarker | youtube_downloader.py:13-14 | after the host's `/`, a URL is valid exactly when one of the markers (none, `watch?v=`, `embed/`, `v/`, text then `?v=`) is followed by 11 characters not in `&=%?` |
| UrlValidation.HostsAccepted | youtube_downloader.py:11-13 | every host/TLD combination of `youtube`, `youtu`, `youtube-nocookie` with `com`, `be`, with an optional scheme and `www.`, is accepted before 11 token characters |
| UrlValidation.OtherHostRejected | youtube_downloader.py:11-12 | after the optional scheme and `www.`, a URL must go on with `youtu`, the start of all three hosts; any other continuation (such as `yahoo.com/` or `youbube.com/`) is rejected, whatever follows, unless it starts with an `h` or `w` that the scheme or `www.` part could still take |
| UrlValidation.MobileAndCapitalRejected | youtube_downloader.py:11-12 | as instances of `OtherHostRejected`: `m.youtube.com` links are rejected, and so is `YouTube.com`, because the host is matched in lower case |
| UrlValidation.ShortTokenRejected | youtube_downloader.py:13 | `youtu.be/` followed by fewer than 11 characters is rejected |
| UrlValidation.ChannelPathAccepted | youtube_downloader.py:13 | `youtube.com/channel/<id>` is accepted, since `channel/UC…` supplies 11 token characters |
| UrlValidation.ValidExtends | youtube_downloader.py:14 | `re.match` only needs a prefix: a valid URL stays valid whatever is appended |
| UrlValidation.ValidRoom | youtube_downloader.py:13 | a valid URL has at least 11 characters after its host |
| UrlValidation.FindQueryMarker | youtube_downloader.py:13 | finds a `?v=` marker followed by 11 token characters within the line, or shows that there is none |
| FileSystem.AfterCleanup | youtube_downloader.py:71-77 | an existing path is removed unless unlinking raises; no other file is changed |
| FileSystem.CleanupIdempotent | youtube_downloader.py:71-77 | after a clean-up whose unlink did not raise, a second clean-up of the same path changes nothing, whether or not its unlink would raise |
| FileSystem.CleanupsCommute | youtube_downloader.py:71-77 | clean-ups of two paths can be done in either order |
| FileSystem.Disk.CleanupTempFile | youtube_downloader.py:71-77 | (the same function as youtube_downloader_pytube.py:126-132) the disk afterwards is `AfterCleanup` of the disk before; the warning is shown exactly when the path existed and unlinking raised |
| FileSystem.Disk.CreateTemp | youtube_downloader.py:55 | a fresh, empty file is added; it stays when the `with` block ends (also youtube_downloader_pytube.py:98) |
| Downloader.GetVideoInfo | youtube_downloader.py:16-28 | None exactly when `YouTube(url)` raises; otherwise the video's title, length, author and views |
| Downloader.DownloadYoutubeAudio | youtube_downloader.py:30-69 | an invalid URL returns None before any library call; no audio stream returns None after opening the video; otherwise the temporary file is created and stays, and its path is returned exactly when the download succeeds |
| Downloader.DownloadVideoWithProgress | youtube_downloader.py:80-103 | an empty URL returns None before any lookup, with the disk unchanged; otherwise the video is opened for its information and then `download_youtube_audio` runs: an invalid URL or a video without audio streams returns None with the disk unchanged; otherwise the temporary file is created and stays, and its path is returned exactly when the download succeeded (and the name is non-empty) |
| PytubeDownloader.GetVideoInfo | youtube_downloader_pytube.py:18-37 | the loop returns exactly the result and trace of `Run` over the attempts, a 2-second pause between each two attempts |
| PytubeDownloader.InfoAttemptShape | youtube_downloader_pytube.py:21-36 | an attempt opens the video once and returns exactly when that succeeds |
| PytubeDownloader.InfoCounts | youtube_downloader_pytube.py:20-34 | at most `max_retries` attempts, one pause fewer than attempts |
| PytubeDownloader.InfoFirstSuccess | youtube_downloader_pytube.py:22-29 | the first successful attempt gives its information |
| PytubeDownloader.InfoAllFail | youtube_downloader_pytube.py:30-36 | when every attempt raises, all are made and the result is None |
| PytubeDownloader.InfoNoBudget | youtube_downloader_pytube.py:20-37 | with `max_retries <= 0`, no attempt and None |
| PytubeDownloader.FindCascade | youtube_downloader_pytube.py:52-59 | `['ar']`, `['en']` and `['ar','en']` are tried in this order, each only after the earlier ones raised; the cascade fails only when all three did |
| PytubeDownloader.CascadeOrder | youtube_downloader_pytube.py:52-59 | which lookup's track is used, and how many finds were made, in each case |
| PytubeDownloader.CascadeLanguages | youtube_downloader_pytube.py:58-59 | if the library returns only tracks in the languages asked for, the track is Arabic or English, never another "first available" one |
| PytubeDownloader.GetYoutubeCaptions | youtube_downloader_pytube.py:39-77 | the loop returns exactly the result and trace of `Run` over the attempts |
| PytubeDownloader.CaptionsNameError | youtube_downloader_pytube.py:43-77 | as written, every attempt raises `NameError`: all attempts are made, `max_retries - 1` pauses are taken, nothing but the id step is called, and the result is None |
| PytubeDownloader.CaptionsWithoutId | youtube_downloader_pytube.py:44-46 | when no id comes out, None at once, without a retry |
| PytubeDownloader.CaptionsWithExtractedId | youtube_downloader_pytube.py:41-76 | with a working id step, captions come back exactly when some attempt gets them through, and the first such attempt's text is returned after one pause per earlier attempt |
| PytubeDownloader.DeliveringAttempt | youtube_downloader_pytube.py:42-68 | an attempt returns exactly when listing, cascade and fetch all succeed, with the formatted text |
| PytubeDownloader.DownloadOnce | youtube_downloader_pytube.py:82-123 | one pass of the loop body returns what `DownloadAttempt` describes and leaves the disk as `AttemptFiles` says |
| PytubeDownloader.RetryDownload | youtube_downloader_pytube.py:81-124 | the loop returns exactly the result and trace of `Run` over the download attempts, and leaves the files of all attempts it made |
| PytubeDownloader.DownloadYoutubeAudio | youtube_downloader_pytube.py:79-124 | the same, with the URL checked by `is_valid_youtube_url` |
| PytubeDownloader.FilesKept | youtube_downloader_pytube.py:98-123 | earlier files are untouched; the temporary file of every attempt that got that far stays, even when it failed, unless the download left no file (then it is removed); no other file appears |
| PytubeDownloader.DownloadedFile | youtube_downloader_pytube.py:101-105 | a returned path is the last attempt's temporary file, and it exists and is non-empty |
| PytubeDownloader.DownloadEarlyExits | youtube_downloader_pytube.py:83-95 | an invalid URL, or no audio stream on the first attempt, returns None after one attempt and no retry, with the disk unchanged |
| PytubeDownloader.DownloadVideoWithProgress | youtube_downloader_pytube.py:134-163 | an empty URL gives a bare None; otherwise captions are consulted before audio; non-empty captions give `(None, captions)` with no download; otherwise `(path, None)` or `(None, None)` from the download; with the `NameError` of the id step the captions branch is never taken |
| Retry.RunIsSpaced | app.py:16-49 | the loop makes attempts up to the first that returns (or the last allowed), with one pause between each two |
| Retry.RunCounts | app.py:16-49 | one call per attempt made and one pause fewer (the same loop shape as youtube_downloader_pytube.py:20-37) |
| Retry.FirstReturn | app.py:16-20 | the first attempt that returns ends the loop with its value |
| Retry.NoneReturns | app.py:40-49 | when no attempt returns, every attempt is made and the last one's failure value is the result |

## Left out

- User interface and serving: Streamlit widgets and messages (`st.error`, `st.warning`, `st.info`, spinners), Flask templates, `request.get_json`, `jsonify`, `io.BytesIO` and `send_file`. A route's reply is only its status and body.
- Library behaviour: pytube, youtube_transcript_api, `TextFormatter`, `SRTFormatter` and `tempfile` appear only as oracle outcomes. The formatted caption text is whatever the oracle gives, and a temporary file's name is a parameter.
- Downloader.DownloadYoutubeAudio and PytubeDownloader.FileAfter: a `stream.download` that raises is taken to leave the temporary file empty (size 0). A real download that fails partway can leave partial content. The size after a raise is not modelled.
- Time: `time.sleep` is a recorded pause of 1 or 2 seconds. No clock is modelled.
- Regex engine: `\s` and `str.strip` read whitespace as the ASCII characters `str.isspace` accepts: space, tab, `\n`, `\v`, `\f`, `\r` and U+001C to U+001F. `\d` is read as the ASCII digits. Python's versions are Unicode-aware, so non-ASCII whitespace (such as U+00A0 or U+2003) and non-ASCII digits are not modelled.
- AppTranscript.FormatTranscript: it assumes each entry has a `text` string. A missing key would raise `KeyError` inside the loop, and that case is not modelled.
- AppTranscript.GetTranscriptRoute: a request without a JSON body (`get_json()` returning None) is not modelled. The URL field is an `Option`.
- The bare `except:` clauses also catch exceptions that are not `Exception`, such as `KeyboardInterrupt`. Every oracle exception is taken to be an `Exception`.
- Downloader.DownloadYoutubeAudio: the choice of the highest-bitrate stream (`order_by('abr')`) is not modelled. Only the number of audio streams matters.
- PytubeDownloader.DownloadOnce: the check after the download (`os.path.exists` and `os.path.getsize`) uses the outcome of the download oracle: a size written, or no file at all. `tempfile` failing to create a file is not modelled.
- Temporary names for different attempts are assumed fresh and distinct, as a precondition of the download methods. The source relies on `tempfile` for this.
- `is_valid_youtube_url` is one predicate shared by both downloader modules. The two definitions are character for character the same, so there is no second model to prove equal.
- `is_valid_youtube_url` is evaluated once per call of the pytube `download_youtube_audio`. It is pure, so re-evaluating it on each attempt gives the same answer.
- YoutubeUtils.CleanYoutubeUrl: the `except` branch is left out. `re.sub` and the extraction cannot raise on a string, so that branch never runs.
- The oracles receive the id and the attempt. Their answers need not depend on the id, so no behaviour of the caption library per video is modelled.
- `download_audio` in utils/youtube_utils.py is not part of this model: it is pydub conversion and temporary-directory I/O.
- utils/system_utils.py, utils/audio_utils.py, utils/whisper_utils.py, utils/transcript_utils.py, utils/youtube_transcript.py and utils/file_utils.py are not part of this model. They are installers, OS plumbing and wrappers over foreign libraries.
- The text of the video information (`yt.captions`, and view counts formatted with `:,`) is only carried along, never shaped.

## Findings

| source | as written | input that shows it | evidently intended | confidence | as-written member | corrected member |
|---|---|---|---|---|---|---|
| youtube_downloader_pytube.py:43 | `extract_video_id` is neither defined nor imported in this file, so each attempt raises `NameError`. The `except Exception` retries it, and the function always returns None after `max_retries` attempts, so `download_video_with_progress` never takes its captions branch. | any URL, e.g. `https://www.youtube.com/watch?v=dQw4w9WgXcQ` | the id is extracted (as `utils/youtube_utils.py` does) and the captions are fetched, with Arabic first | not executed | PytubeDownloader.CaptionsNameError | PytubeDownloader.CaptionsWithExtractedId |
