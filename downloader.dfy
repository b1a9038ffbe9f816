/** youtube_downloader.py: single-attempt video information and audio
    download over pytube. Each library step is an oracle outcome; the calls
    made are returned in order, so the early exits can be stated as "no
    call was made". */
module Downloader {
  import opened Wrappers
  import opened UrlValidation
  import opened FileSystem

  /** What `YouTube(url)` exposes that this file reads. `audioStreams` is
      the number of streams `yt.streams.filter(only_audio=True)` finds. */
  datatype Video = Video(title: string, length: nat, author: string, views: nat, audioStreams: nat)

  /** The dictionary `get_video_info` returns. */
  datatype Info = Info(title: string, length: nat, author: string, views: nat)

  datatype Call = OpenVideo | CreateTemp(name: string) | Download(name: string)

  /** `get_video_info(url)`: the fields of the video, or None when `YouTube(url)` raises. */
  function GetVideoInfo(open: Reply<Video>): (r: Option<Info>)
    ensures r.None? <==> open.Raised?
    ensures r.Some? ==> r.value.title == open.value.title && r.value.length == open.value.length
                        && r.value.author == open.value.author && r.value.views == open.value.views
  {
    match open
    case Raised(_) => None
    case Ok(v) => Some(Info(v.title, v.length, v.author, v.views))
  }

  /** `download_youtube_audio(url)`. `open` is the outcome of `YouTube(url)`
      together with the stream listing, `tempName` the name the temporary
      file gets, `download` the outcome of `stream.download` (the number of
      bytes written). Every failure is caught and gives None. */
  method DownloadYoutubeAudio(disk: Disk, url: string, open: Reply<Video>, tempName: string, download: Reply<nat>)
    returns (path: Option<string>, calls: seq<Call>)
    requires tempName !in disk.files
    modifies disk
    ensures !IsValidYoutubeUrl(url) ==> path.None? && calls == [] && disk.files == old(disk.files)
    ensures IsValidYoutubeUrl(url) && (open.Raised? || open.value.audioStreams == 0) ==>
      path.None? && calls == [OpenVideo] && disk.files == old(disk.files)
    ensures IsValidYoutubeUrl(url) && open.Ok? && open.value.audioStreams > 0 ==>
      && calls == [OpenVideo, CreateTemp(tempName), Download(tempName)]
      && (path.Some? <==> download.Ok?)
      && (path.Some? ==> path.value == tempName)
      && disk.files == old(disk.files)[tempName := if download.Ok? then download.value else 0]
    ensures path.Some? ==> path.value in disk.files
  {
    calls := [];
    if !IsValidYoutubeUrl(url) {
      return None, calls;
    }
    calls := calls + [OpenVideo];
    if open.Raised? || open.value.audioStreams == 0 {
      return None, calls;
    }
    disk.CreateTemp(tempName);
    calls := calls + [CreateTemp(tempName), Download(tempName)];
    match download {
      case Ok(size) =>
        disk.Write(tempName, size);
        path := Some(tempName);
      case Raised(_) =>
        // the `delete=False` file stays behind
        path := None;
    }
  }

  /** `download_video_with_progress(url)`: an empty URL stops before any
      lookup; otherwise the information is fetched (and only shown), then
      the audio is downloaded, each step opening the video anew. */
  method DownloadVideoWithProgress(disk: Disk, url: string, infoOpen: Reply<Video>, open: Reply<Video>,
                                   tempName: string, download: Reply<nat>)
    returns (path: Option<string>, calls: seq<Call>)
    requires tempName !in disk.files
    modifies disk
    ensures url == "" ==> path.None? && calls == [] && disk.files == old(disk.files)
    ensures url != "" ==> |calls| >= 1 && calls[0] == OpenVideo
    ensures url != "" && !IsValidYoutubeUrl(url) ==> path.None? && calls == [OpenVideo] && disk.files == old(disk.files)
    ensures url != "" && IsValidYoutubeUrl(url) && (open.Raised? || open.value.audioStreams == 0) ==>
      path.None? && calls == [OpenVideo, OpenVideo] && disk.files == old(disk.files)
    ensures url != "" && IsValidYoutubeUrl(url) && open.Ok? && open.value.audioStreams > 0 ==>
      && calls == [OpenVideo, OpenVideo, CreateTemp(tempName), Download(tempName)]
      && (path.Some? <==> download.Ok? && tempName != "")
      && disk.files == old(disk.files)[tempName := if download.Ok? then download.value else 0]
    ensures path.Some? ==> IsValidYoutubeUrl(url) && download.Ok? && path.value == tempName && path.value in disk.files
  {
    if url == "" {
      return None, [];
    }
    var info := GetVideoInfo(infoOpen);
    var audioPath, audioCalls := DownloadYoutubeAudio(disk, url, open, tempName, download);
    calls := [OpenVideo] + audioCalls;
    path := if audioPath.Some? && audioPath.value != "" then audioPath else None;
  }
}
