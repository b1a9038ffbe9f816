/** The part of the file system the downloaders touch: which paths exist
    and how many bytes each holds. `cleanup_temp_file` is the same function
    in youtube_downloader.py and youtube_downloader_pytube.py. */
module FileSystem {

  /** The files after `cleanup_temp_file(path)`: an existing path is
      unlinked, unless `os.unlink` raises, in which case only a warning is
      shown and nothing changes. */
  function AfterCleanup(files: map<string, nat>, path: string, unlinkRaises: bool): (r: map<string, nat>)
    ensures path !in files ==> r == files
    ensures !unlinkRaises ==> path !in r
    ensures forall q :: q in r <==> q in files && !(q == path && !unlinkRaises)
    ensures forall q :: q in r ==> r[q] == files[q]
  {
    if path in files && !unlinkRaises then files - {path} else files
  }

  /** A second clean-up of the same path finds nothing to unlink, so whether
      `os.unlink` would raise no longer matters. */
  lemma CleanupIdempotent(files: map<string, nat>, path: string, second: bool)
    ensures AfterCleanup(AfterCleanup(files, path, false), path, second) == AfterCleanup(files, path, false)
  {
    assert path !in AfterCleanup(files, path, false);
  }

  /** Clean-ups of different paths do not interfere. */
  lemma CleanupsCommute(files: map<string, nat>, p: string, q: string, rp: bool, rq: bool)
    ensures AfterCleanup(AfterCleanup(files, p, rp), q, rq) == AfterCleanup(AfterCleanup(files, q, rq), p, rp)
  {
    var a, b := AfterCleanup(AfterCleanup(files, p, rp), q, rq), AfterCleanup(AfterCleanup(files, q, rq), p, rp);
    assert a.Keys == b.Keys;
  }

  class Disk {
    var files: map<string, nat>

    constructor (initial: map<string, nat>)
      ensures files == initial
    {
      files := initial;
    }

    predicate Exists(path: string)
      reads this
    {
      path in files
    }

    /** `tempfile.NamedTemporaryFile(delete=False)`: a new, empty file that
        stays behind when the `with` block ends. The name is chosen by the
        library and is fresh. */
    method CreateTemp(name: string)
      requires name !in files
      modifies this
      ensures files == old(files)[name := 0]
      ensures Exists(name) && files[name] == 0
    {
      files := files[name := 0];
    }

    /** `stream.download(filename=name)` writing `size` bytes. */
    method Write(name: string, size: nat)
      modifies this
      ensures files == old(files)[name := size]
    {
      files := files[name := size];
    }

    /** A file that is gone after a library call wrote elsewhere. */
    method Remove(name: string)
      modifies this
      ensures files == old(files) - {name}
    {
      files := files - {name};
    }

    /** `cleanup_temp_file(path)`; `warned` is whether the warning about a
        failed unlink is shown. */
    method CleanupTempFile(path: string, unlinkRaises: bool) returns (warned: bool)
      modifies this
      ensures files == AfterCleanup(old(files), path, unlinkRaises)
      ensures warned <==> path in old(files) && unlinkRaises
      ensures forall q :: q != path ==> (q in files <==> q in old(files))
    {
      warned := false;
      if Exists(path) {
        if unlinkRaises {
          warned := true;
        } else {
          files := files - {path};
        }
      }
    }
  }
}
