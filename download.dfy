/**
  What `download_video` returns (bot.py lines 19-23 and 39-62). The fetch
  itself and the listing of the temporary directory are inputs: the model
  starts from what youtube_dl did and from the names `os.listdir` gave.
 */
module Download {
  import opened Wrappers

  /** How youtube_dl's `download` call ended. */
  datatype FetchOutcome =
    | Fetched                           // returned normally
    | DownloadError(trace: string)      // raised DownloadError; `trace` is the formatted traceback
    | TimeoutError(trace: string)       // raised TimeoutError
    | OtherError                        // raised anything else, which is not caught

  /**
    An exception that leaves `download_video`, or later the handler. The
    handler's own failure, `SendException`, is declared here too, so that a
    completed download and a finished handler share one exception type.
   */
  datatype Exception =
    | IndexError       // `[...][0]` on an empty directory listing
    | FetchException   // a fetch exception other than the two caught ones
    | SendException    // opening or sending the file failed with something other than NetworkError

  /** `Video_response`: a file path and an error text, either of which may be None. */
  datatype VideoResponse = VideoResponse(filepath: Option<string>, error: Option<string>)

  /** What a call of `download_video` does: return a response, or raise. */
  datatype Completion = Returned(response: VideoResponse) | Raised(exception: Exception)

  /** Of the two fields exactly one is set. */
  predicate WellFormed(r: VideoResponse) {
    r.filepath.Some? != r.error.Some?
  }

  /** `os.path.join(dir, name)` on POSIX. */
  function Join(dir: string, name: string): (p: string)
    ensures |p| >= |name|
  {
    if name != [] && name[0] == '/' then name
    else if dir == [] || dir[|dir| - 1] == '/' then dir + name
    else dir + "/" + name
  }

  /** `os.path.basename(p)`: what follows the last '/'. */
  function Basename(p: string): (b: string)
    ensures '/' !in b
    ensures |b| <= |p| && b == p[|p| - |b|..]
  {
    if p == [] || p[|p| - 1] == '/' then []
    else Basename(p[..|p| - 1]) + [p[|p| - 1]]
  }

  /**
    Lines 47-62: on success the path of the first listed entry inside the
    temporary directory, on a caught failure the traceback text.
   */
  function DownloadVideo(tempdir: string, fetch: FetchOutcome, listing: seq<string>): (c: Completion)
    ensures c.Returned? ==> WellFormed(c.response)
    ensures c.Raised? <==> (fetch.Fetched? && listing == []) || fetch.OtherError?
    ensures c.Raised? ==> c.exception == (if fetch.OtherError? then FetchException else IndexError)
    ensures c.Returned? && c.response.filepath.Some? ==>
      fetch.Fetched? && c.response.filepath.value == Join(tempdir, listing[0])
    ensures c.Returned? && c.response.error.Some? ==>
      (fetch.DownloadError? || fetch.TimeoutError?) && c.response.error.value == fetch.trace
  {
    if fetch.OtherError? then Raised(FetchException)
    else
      var success := fetch.Fetched?;
      if success then
        if listing == [] then Raised(IndexError)
        else Returned(VideoResponse(Some(Join(tempdir, listing[0])), None))
      else Returned(VideoResponse(None, Some(fetch.trace)))
  }

  lemma {:induction false} BasenameAfterSlash(x: string, name: string)
    requires '/' !in name
    ensures Basename(x + "/" + name) == name
    decreases |name|
  {
    var p := x + "/" + name;
    if name == [] {
      assert p[|p| - 1] == '/';
    } else {
      var init := name[..|name| - 1];
      assert p[..|p| - 1] == x + "/" + init;
      assert p[|p| - 1] == name[|name| - 1];
      BasenameAfterSlash(x, init);
      assert init + [name[|name| - 1]] == name;
    }
  }

  lemma {:induction false} BasenameWithoutSlash(name: string)
    requires '/' !in name
    ensures Basename(name) == name
    decreases |name|
  {
    if name != [] {
      var init := name[..|name| - 1];
      BasenameWithoutSlash(init);
      assert init + [name[|name| - 1]] == name;
    }
  }

  lemma JoinPrefix(dir: string, name: string)
    requires name == [] || name[0] != '/'
    ensures StartsWith(Join(dir, name), dir)
  {
    var p := Join(dir, name);
    assert p[..|dir|] == dir;
  }

  lemma BasenameOfJoin(dir: string, name: string)
    requires '/' !in name
    ensures Basename(Join(dir, name)) == name
  {
    if name != [] {
      assert name[0] in name;
    }
    if dir == [] {
      assert Join(dir, name) == name;
      BasenameWithoutSlash(name);
    } else if dir[|dir| - 1] == '/' {
      var x := dir[..|dir| - 1];
      assert Join(dir, name) == x + "/" + name by {
        assert dir == x + "/";
      }
      BasenameAfterSlash(x, name);
    } else {
      assert Join(dir, name) == dir + "/" + name;
      BasenameAfterSlash(dir, name);
    }
  }

  /**
    Joining a non-empty directory and an entry name puts the name after a
    '/' that ends either the directory itself or the directory plus "/".
   */
  lemma JoinDirPart(dir: string, name: string)
    requires dir != [] && '/' !in name
    ensures var p := Join(dir, name);
      && |p| > |name| && p == p[..|p| - |name|] + name && p[|p| - |name| - 1] == '/'
      && (p[..|p| - |name|] == dir || p[..|p| - |name|] == dir + "/")
  {
    if name != [] {
      assert name[0] in name;
    }
  }

  /**
    A directory entry (a name without '/') joined to the temporary
    directory names a file in that directory whose base name is the
    entry: joining and taking the base name are inverse, and what comes
    before the name is the directory, ending in '/' or followed by one.
   */
  lemma JoinInsideDir(dir: string, name: string)
    requires '/' !in name
    ensures Basename(Join(dir, name)) == name
    ensures StartsWith(Join(dir, name), dir)
    ensures dir != [] ==> var p := Join(dir, name);
      && |p| > |name| && p == p[..|p| - |name|] + name && p[|p| - |name| - 1] == '/'
      && (p[..|p| - |name|] == dir || p[..|p| - |name|] == dir + "/")
  {
    if name != [] {
      assert name[0] in name;
    }
    JoinPrefix(dir, name);
    BasenameOfJoin(dir, name);
    if dir != [] {
      JoinDirPart(dir, name);
    }
  }

  /**
    On success the response names the first listed file: it lies in the
    temporary directory and its base name is the first entry.
   */
  lemma SuccessNamesFirstEntry(tempdir: string, listing: seq<string>)
    requires listing != [] && '/' !in listing[0]
    ensures DownloadVideo(tempdir, Fetched, listing).Returned?
    ensures var r := DownloadVideo(tempdir, Fetched, listing).response;
      && r.error == None && r.filepath.Some?
      && StartsWith(r.filepath.value, tempdir)
      && Basename(r.filepath.value) == listing[0]
    ensures tempdir != [] ==> var p := DownloadVideo(tempdir, Fetched, listing).response.filepath.value;
      var n := listing[0];
      && |p| > |n| && p == p[..|p| - |n|] + n && p[|p| - |n| - 1] == '/'
      && (p[..|p| - |n|] == tempdir || p[..|p| - |n|] == tempdir + "/")
  {
    JoinInsideDir(tempdir, listing[0]);
  }

  /** The file "abc123.mp4" listed in "/tmp/w" is "/tmp/w/abc123.mp4". */
  lemma ExampleJoin(tempName: string, listing: seq<string>)
    requires tempName == "/tmp/w" && listing == ["abc123.mp4"]
    ensures DownloadVideo(tempName, Fetched, listing) == Returned(VideoResponse(Some("/tmp/w/abc123.mp4"), None))
    ensures Join(tempName, listing[0]) == "/tmp/w/abc123.mp4"
  {
    assert Join(tempName, listing[0]) == "/tmp/w/abc123.mp4";
  }
}
