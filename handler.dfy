/**
  The message handler `video` (bot.py lines 75-101): it rejects what is
  not a link, creates a temporary directory, acknowledges, downloads,
  edits the acknowledgment as delivery progresses and removes the
  directory. What Telegram and youtube_dl answer is an input, and what the
  handler does to the chat is recorded as a sequence of events.
 */
module Handler {
  import opened Wrappers
  import opened Extraction
  import opened Download

  const NOT_A_LINK: string := "It's not a link :("
  const DOWNLOADING: string := "Downloading..."
  const SENDING: string := "Download complete! Sending now..."
  const SENT: string := "Download success!"
  const TOO_LARGE: string := "Download failed. File is large :("
  const FAILED: string := "Download failed. Check your link or try again."

  /** One thing the handler does, in the order it does it. */
  datatype Event =
    | Reply(text: string)                      // a reply that is not kept
    | Acknowledge(text: string)                // the reply kept as `answer`
    | Edit(text: string)                       // `answer.edit_text`
    | UploadVideoAction                        // the UPLOAD_VIDEO chat action
    | DownloadCall(url: string, dir: string)   // `download_video(url, temp_dir.name)`
    | VideoSent(path: string)                  // `message.answer_video` with the opened file

  /** How `message.answer_video` ended. */
  datatype SendOutcome =
    | Delivered
    | NetworkError      // aiogram's NetworkError, which the handler catches
    | OtherSendError    // any other exception from opening or sending the file

  /** The effect of handling one message: events, final acknowledgment text, escaping exception. */
  datatype Run = Run(events: seq<Event>, ack: Option<string>, escaped: Option<Exception>)

  /** The paths of the videos sent, in order. */
  function VideosIn(events: seq<Event>): (paths: seq<string>)
    ensures |paths| <= |events|
  {
    if events == [] then []
    else
      var last := events[|events| - 1];
      VideosIn(events[..|events| - 1]) + (if last.VideoSent? then [last.path] else [])
  }

  /** The text the acknowledgment shows after `events`: its last reply or edit, if any. */
  function AckText(events: seq<Event>): (t: Option<string>)
  {
    if events == [] then None
    else
      match events[|events| - 1]
      case Acknowledge(text) => Some(text)
      case Edit(text) => Some(text)
      case _ => AckText(events[..|events| - 1])
  }

  /** Lines 86-99: what happens once `download_video` has finished (or raised). */
  function Delivery(c: Completion, send: SendOutcome): (run: Run)
  {
    match c
    case Raised(e) => Run([], Some(DOWNLOADING), Some(e))
    case Returned(r) =>
      if r.error.Some? then Run([Edit(FAILED)], Some(FAILED), None)
      else
        var start := [Edit(SENDING), UploadVideoAction];
        if r.filepath.None? then Run(start, Some(SENDING), Some(SendException))
        else
          match send
          case Delivered => Run(start + [VideoSent(r.filepath.value), Edit(SENT)], Some(SENT), None)
          case NetworkError => Run(start + [Edit(TOO_LARGE)], Some(TOO_LARGE), None)
          case OtherSendError => Run(start, Some(SENDING), Some(SendException))
  }

  /**
    Lines 78-101 for one message whose text is `text`: `tempName` is the
    name the temporary directory gets, `fetch` and `listing` what the
    download and the directory listing give, `send` how sending ends.
   */
  function Handle(text: string, tempName: string, fetch: FetchOutcome, listing: seq<string>,
                  send: SendOutcome): (run: Run)
  {
    match Extract(text)
    case NotALink => Run([Reply(NOT_A_LINK)], None, None)
    case Link(url) =>
      var d := Delivery(DownloadVideo(tempName, fetch, listing), send);
      Run([Acknowledge(DOWNLOADING), DownloadCall(url, tempName)] + d.events, d.ack, d.escaped)
  }

  lemma VideosInSnoc(events: seq<Event>, e: Event)
    ensures VideosIn(events + [e]) == VideosIn(events) + (if e.VideoSent? then [e.path] else [])
  {
    assert (events + [e])[..|events|] == events;
  }

  lemma AckTextSnoc(events: seq<Event>, e: Event)
    ensures AckText(events + [e]) == if e.Acknowledge? || e.Edit? then Some(e.text) else AckText(events)
  {
    assert (events + [e])[..|events|] == events;
  }

  lemma {:induction false} VideosInConcat(a: seq<Event>, b: seq<Event>)
    ensures VideosIn(a + b) == VideosIn(a) + VideosIn(b)
    decreases |b|
  {
    if b == [] {
      assert a + b == a;
    } else {
      var init := b[..|b| - 1];
      var last := b[|b| - 1];
      assert a + b == (a + init) + [last];
      assert b == init + [last];
      VideosInConcat(a, init);
      VideosInSnoc(a + init, last);
      VideosInSnoc(init, last);
    }
  }

  /** A text rejected at line 79 gets the one reply and nothing else, and only such a text. */
  lemma RejectionIsOneReply(text: string, tempName: string, fetch: FetchOutcome, listing: seq<string>,
                            send: SendOutcome)
    ensures Handle(text, tempName, fetch, listing, send).events == [Reply(NOT_A_LINK)]
        <==> !IsLink(StripCommands(text))
  {
  }

  /**
    A link is acknowledged and then downloaded into the temporary
    directory, with exactly the text left after removing the commands.
   */
  lemma LinkIsAcknowledgedThenFetched(text: string, tempName: string, fetch: FetchOutcome,
                                      listing: seq<string>, send: SendOutcome)
    requires IsLink(StripCommands(text))
    ensures var events := Handle(text, tempName, fetch, listing, send).events;
      |events| >= 2 && events[..2] == [Acknowledge(DOWNLOADING), DownloadCall(StripCommands(text), tempName)]
  {
  }

  /**
    At most one video is sent: the first entry of the temporary directory,
    exactly when the download succeeded, the directory is not empty and
    Telegram accepted the file.
   */
  lemma OneVideoExactlyWhenDelivered(text: string, tempName: string, fetch: FetchOutcome,
                                     listing: seq<string>, send: SendOutcome)
    ensures VideosIn(Handle(text, tempName, fetch, listing, send).events)
         == if IsLink(StripCommands(text)) && fetch.Fetched? && listing != [] && send.Delivered?
            then [Join(tempName, listing[0])] else []
  {
    var c := DownloadVideo(tempName, fetch, listing);
    var d := Delivery(c, send);
    if IsLink(StripCommands(text)) {
      var head := [Acknowledge(DOWNLOADING), DownloadCall(StripCommands(text), tempName)];
      VideosInConcat(head, d.events);
      assert VideosIn(head) == [] by {
        assert head == [Acknowledge(DOWNLOADING)] + [DownloadCall(StripCommands(text), tempName)];
        VideosInSnoc([Acknowledge(DOWNLOADING)], DownloadCall(StripCommands(text), tempName));
        VideosInSnoc([], Acknowledge(DOWNLOADING));
      }
      DeliveryVideos(c, send);
    }
  }

  lemma DeliveryVideos(c: Completion, send: SendOutcome)
    ensures VideosIn(Delivery(c, send).events)
         == if c.Returned? && c.response.error.None? && c.response.filepath.Some? && send.Delivered?
            then [c.response.filepath.value] else []
  {
    var start := [Edit(SENDING), UploadVideoAction];
    assert VideosIn(start) == [] by {
      VideosInSnoc([Edit(SENDING)], UploadVideoAction);
      VideosInSnoc([], Edit(SENDING));
      assert start == [Edit(SENDING)] + [UploadVideoAction];
    }
    if c.Returned? && c.response.error.None? && c.response.filepath.Some? {
      var p := c.response.filepath.value;
      match send
      case Delivered =>
        VideosInSnoc(start, VideoSent(p));
        VideosInSnoc(start + [VideoSent(p)], Edit(SENT));
        assert start + [VideoSent(p), Edit(SENT)] == start + [VideoSent(p)] + [Edit(SENT)];
      case NetworkError =>
        VideosInSnoc(start, Edit(TOO_LARGE));
      case OtherSendError =>
    } else if c.Returned? && c.response.error.Some? {
      VideosInSnoc([], Edit(FAILED));
    }
  }

  /** The text recorded as the acknowledgment's is the one its last reply or edit shows. */
  lemma AckIsLastShown(text: string, tempName: string, fetch: FetchOutcome, listing: seq<string>,
                       send: SendOutcome)
    ensures var run := Handle(text, tempName, fetch, listing, send);
      run.ack == AckText(run.events)
  {
    var run := Handle(text, tempName, fetch, listing, send);
    if IsLink(StripCommands(text)) {
      var head := [Acknowledge(DOWNLOADING), DownloadCall(StripCommands(text), tempName)];
      var d := Delivery(DownloadVideo(tempName, fetch, listing), send);
      DeliveryAck(head, DownloadVideo(tempName, fetch, listing), send);
    } else {
      AckTextSnoc([], Reply(NOT_A_LINK));
    }
  }

  lemma DeliveryAck(head: seq<Event>, c: Completion, send: SendOutcome)
    requires AckText(head) == Some(DOWNLOADING)
    ensures AckText(head + Delivery(c, send).events) == Delivery(c, send).ack
  {
    var start := head + [Edit(SENDING), UploadVideoAction];
    assert AckText(start) == Some(SENDING) by {
      assert start == head + [Edit(SENDING)] + [UploadVideoAction];
      AckTextSnoc(head + [Edit(SENDING)], UploadVideoAction);
      AckTextSnoc(head, Edit(SENDING));
    }
    match c
    case Raised(_) =>
      assert head + [] == head;
    case Returned(r) =>
      if r.error.Some? {
        AckTextSnoc(head, Edit(FAILED));
      } else if r.filepath.Some? {
        match send
        case Delivered =>
          assert head + Delivery(c, send).events == start + [VideoSent(r.filepath.value)] + [Edit(SENT)];
          AckTextSnoc(start + [VideoSent(r.filepath.value)], Edit(SENT));
        case NetworkError =>
          assert head + Delivery(c, send).events == start + [Edit(TOO_LARGE)];
          AckTextSnoc(start, Edit(TOO_LARGE));
        case OtherSendError =>
          assert head + Delivery(c, send).events == start;
      } else {
        assert head + Delivery(c, send).events == start;
      }
  }

  /**
    An exception escapes (and so the temporary directory is not removed)
    exactly when the directory listing is empty, youtube_dl raised
    something other than the two caught errors, or sending failed with
    something other than NetworkError.
   */
  lemma EscapesExactlyWhen(text: string, tempName: string, fetch: FetchOutcome, listing: seq<string>,
                           send: SendOutcome)
    ensures Handle(text, tempName, fetch, listing, send).escaped
         == if !IsLink(StripCommands(text)) then None
            else if fetch.OtherError? then Some(FetchException)
            else if fetch.Fetched? && listing == [] then Some(IndexError)
            else if fetch.Fetched? && send.OtherSendError? then Some(SendException)
            else None
  {
  }

  /** The text the acknowledgment finally shows, for each way a link's handling can end. */
  lemma FinalAckText(text: string, tempName: string, fetch: FetchOutcome, listing: seq<string>,
                     send: SendOutcome)
    requires IsLink(StripCommands(text))
    ensures Handle(text, tempName, fetch, listing, send).ack
         == if fetch.OtherError? || (fetch.Fetched? && listing == []) then Some(DOWNLOADING)
            else if !fetch.Fetched? then Some(FAILED)
            else if send.Delivered? then Some(SENT)
            else if send.NetworkError? then Some(TOO_LARGE)
            else Some(SENDING)
  {
  }

  lemma LinkRun(before: seq<Event>, text: string, tempName: string, fetch: FetchOutcome,
                listing: seq<string>, send: SendOutcome)
    requires IsLink(StripCommands(text))
    ensures var run := Handle(text, tempName, fetch, listing, send);
      var d := Delivery(DownloadVideo(tempName, fetch, listing), send);
      && before + [Acknowledge(DOWNLOADING)] + [DownloadCall(StripCommands(text), tempName)] + d.events
         == before + run.events
      && VideosIn(before + run.events) == VideosIn(before) + VideosIn(run.events)
      && run.ack == d.ack && run.escaped == d.escaped
  {
    VideosInConcat(before, Handle(text, tempName, fetch, listing, send).events);
  }

  /** A link whose download and sending succeed: its transcript in full. */
  lemma DeliveredLinkRun(text: string, tempName: string, listing: seq<string>)
    requires Extract(text).Link? && listing != []
    ensures Handle(text, tempName, Fetched, listing, Delivered)
         == Run([Acknowledge(DOWNLOADING), DownloadCall(Extract(text).url, tempName),
                 Edit(SENDING), UploadVideoAction, VideoSent(Join(tempName, listing[0])), Edit(SENT)],
                Some(SENT), None)
  {
  }

  /**
    A link whose download fails with a caught error: the acknowledgment ends
    on the failure text, with no upload action and no video.
   */
  lemma FailedFetchRun(text: string, tempName: string, fetch: FetchOutcome, listing: seq<string>,
                       send: SendOutcome)
    requires Extract(text).Link?
    requires fetch.DownloadError? || fetch.TimeoutError?
    ensures Handle(text, tempName, fetch, listing, send)
         == Run([Acknowledge(DOWNLOADING), DownloadCall(Extract(text).url, tempName), Edit(FAILED)],
                Some(FAILED), None)
  {
  }

  /**
    A private link whose download leaves "abc123.mp4" in the temporary
    directory: that file is sent and the acknowledgment ends on success.
   */
  lemma ScenarioPrivateLink(text: string, tempName: string, listing: seq<string>)
    requires text == "https://example.com/video" && tempName == "/tmp/w" && listing == ["abc123.mp4"]
    ensures Handle(text, tempName, Fetched, listing, Delivered)
         == Run([Acknowledge(DOWNLOADING), DownloadCall(text, tempName),
                 Edit(SENDING), UploadVideoAction, VideoSent("/tmp/w/abc123.mp4"), Edit(SENT)],
                Some(SENT), None)
  {
    ExamplePrivateLink();
    DeliveredLinkRun(text, tempName, listing);
    ExampleJoin(tempName, listing);
  }

  /** "/download not-a-url" gets the rejection and no download is started. */
  lemma ScenarioNotAUrl(tempName: string, fetch: FetchOutcome, listing: seq<string>, send: SendOutcome)
    ensures Handle("/download not-a-url", tempName, fetch, listing, send) == Run([Reply(NOT_A_LINK)], None, None)
  {
    ExampleNotAUrl();
  }

  /** The per-message state of the handler. */
  class Request {
    /** The text of `answer`, once the acknowledgment has been sent. */
    var ack: Option<string>
    /** What the handler has done so far. */
    var log: seq<Event>
    /** The paths of the videos sent so far. */
    var videos: seq<string>
    /** The name of the temporary directory, once created. */
    var tempDir: Option<string>
    /** Whether that directory still exists. */
    var tempLive: bool

    ghost predicate Valid()
      reads this
    {
      && videos == VideosIn(log)
      && ack == AckText(log)
      && (tempLive ==> tempDir.Some?)
    }

    constructor ()
      ensures Valid()
      ensures ack == None && log == [] && videos == [] && tempDir == None && !tempLive
    {
      ack, log, videos, tempDir, tempLive := None, [], [], None, false;
    }

    /** `message.reply(text)` whose result is not kept (line 80). */
    method ReplyToUser(text: string)
      requires Valid()
      modifies this
      ensures Valid()
      ensures log == old(log) + [Reply(text)]
      ensures ack == old(ack) && videos == old(videos) && tempDir == old(tempDir) && tempLive == old(tempLive)
    {
      VideosInSnoc(log, Reply(text));
      AckTextSnoc(log, Reply(text));
      log := log + [Reply(text)];
    }

    /** `answer = await message.reply(text)` (line 84). */
    method SendAcknowledgment(text: string)
      requires Valid()
      modifies this
      ensures Valid()
      ensures log == old(log) + [Acknowledge(text)] && ack == Some(text)
      ensures videos == old(videos) && tempDir == old(tempDir) && tempLive == old(tempLive)
    {
      VideosInSnoc(log, Acknowledge(text));
      AckTextSnoc(log, Acknowledge(text));
      log := log + [Acknowledge(text)];
      ack := Some(text);
    }

    /** `answer.edit_text(text)` (lines 87, 94, 97 and 99). */
    method EditAcknowledgment(text: string)
      requires Valid() && ack.Some?
      modifies this
      ensures Valid()
      ensures log == old(log) + [Edit(text)] && ack == Some(text)
      ensures videos == old(videos) && tempDir == old(tempDir) && tempLive == old(tempLive)
    {
      VideosInSnoc(log, Edit(text));
      AckTextSnoc(log, Edit(text));
      log := log + [Edit(text)];
      ack := Some(text);
    }

    /** `bot.send_chat_action(..., UPLOAD_VIDEO)` (line 88). */
    method SendUploadAction()
      requires Valid()
      modifies this
      ensures Valid()
      ensures log == old(log) + [UploadVideoAction]
      ensures ack == old(ack) && videos == old(videos) && tempDir == old(tempDir) && tempLive == old(tempLive)
    {
      VideosInSnoc(log, UploadVideoAction);
      AckTextSnoc(log, UploadVideoAction);
      log := log + [UploadVideoAction];
    }

    /** The call `download_video(url, temp_dir.name)` (line 85). */
    method CallDownload(url: string, dir: string)
      requires Valid()
      modifies this
      ensures Valid()
      ensures log == old(log) + [DownloadCall(url, dir)]
      ensures ack == old(ack) && videos == old(videos) && tempDir == old(tempDir) && tempLive == old(tempLive)
    {
      VideosInSnoc(log, DownloadCall(url, dir));
      AckTextSnoc(log, DownloadCall(url, dir));
      log := log + [DownloadCall(url, dir)];
    }

    /** `message.answer_video(video=...)` (lines 91-92): the video is sent only if Telegram accepts it. */
    method AnswerVideo(path: string, send: SendOutcome)
      requires Valid()
      modifies this
      ensures Valid()
      ensures send.Delivered? ==> log == old(log) + [VideoSent(path)] && videos == old(videos) + [path]
      ensures !send.Delivered? ==> log == old(log) && videos == old(videos)
      ensures ack == old(ack) && tempDir == old(tempDir) && tempLive == old(tempLive)
    {
      if send.Delivered? {
        VideosInSnoc(log, VideoSent(path));
        AckTextSnoc(log, VideoSent(path));
        log := log + [VideoSent(path)];
        videos := videos + [path];
      }
    }

    /** `tempfile.TemporaryDirectory()` (line 83). */
    method CreateTempDir(name: string)
      requires Valid()
      modifies this
      ensures Valid()
      ensures tempDir == Some(name) && tempLive
      ensures ack == old(ack) && log == old(log) && videos == old(videos)
    {
      tempDir, tempLive := Some(name), true;
    }

    /** `temp_dir.cleanup()` (line 101). */
    method CleanupTempDir()
      requires Valid()
      modifies this
      ensures Valid()
      ensures !tempLive
      ensures ack == old(ack) && log == old(log) && videos == old(videos) && tempDir == old(tempDir)
    {
      tempLive := false;
    }

    /** Lines 90-97: send the file at `path` and edit the acknowledgment by the outcome. */
    method SendFile(path: string, send: SendOutcome) returns (raised: Option<Exception>)
      requires Valid() && ack.Some?
      modifies this
      ensures Valid()
      ensures send.Delivered? ==> log == old(log) + [VideoSent(path), Edit(SENT)] && ack == Some(SENT)
      ensures send.NetworkError? ==> log == old(log) + [Edit(TOO_LARGE)] && ack == Some(TOO_LARGE)
      ensures send.OtherSendError? ==> log == old(log) && ack == old(ack)
      ensures raised == (if send.OtherSendError? then Some(SendException) else None)
      ensures tempDir == old(tempDir) && tempLive == old(tempLive)
    {
      AnswerVideo(path, send);
      match send
      case Delivered =>
        EditAcknowledgment(SENT);
        raised := None;
      case NetworkError =>
        EditAcknowledgment(TOO_LARGE);
        raised := None;
      case OtherSendError =>
        raised := Some(SendException);
    }

    /** Lines 86-99, once `download_video` has completed as `c`. */
    method Deliver(c: Completion, send: SendOutcome) returns (raised: Option<Exception>)
      requires Valid() && ack == Some(DOWNLOADING)
      modifies this
      ensures Valid()
      ensures log == old(log) + Delivery(c, send).events
      ensures ack == Delivery(c, send).ack && raised == Delivery(c, send).escaped
      ensures tempDir == old(tempDir) && tempLive == old(tempLive)
    {
      match c
      case Raised(e) =>
        raised := Some(e);
      case Returned(r) =>
        if r.error.Some? {
          EditAcknowledgment(FAILED);
          raised := None;
        } else {
          EditAcknowledgment(SENDING);
          SendUploadAction();
          if r.filepath.None? {
            raised := Some(SendException);
          } else {
            raised := SendFile(r.filepath.value, send);
          }
        }
    }

    /**
      The handler `video` for one message: the chat sees exactly the
      events `Handle` gives, the acknowledgment ends on its text, and the
      temporary directory is created for a link and removed unless an
      exception escaped.
     */
    method Video(text: string, tempName: string, fetch: FetchOutcome, listing: seq<string>,
                 send: SendOutcome) returns (raised: Option<Exception>)
      requires Valid()
      modifies this
      ensures Valid()
      ensures var run := Handle(text, tempName, fetch, listing, send);
        && log == old(log) + run.events
        && videos == old(videos) + VideosIn(run.events)
        && raised == run.escaped
        && ack == (if run.ack.Some? then run.ack else old(ack))
      ensures IsLink(StripCommands(text)) ==> tempDir == Some(tempName) && (tempLive <==> raised.Some?)
      ensures !IsLink(StripCommands(text)) ==> tempDir == old(tempDir) && tempLive == old(tempLive)
    {
      var candidate := Extract(text);
      if candidate.NotALink? {
        ReplyToUser(NOT_A_LINK);
        raised := None;
        VideosInConcat(old(log), [Reply(NOT_A_LINK)]);
        return;
      }
      CreateTempDir(tempName);
      SendAcknowledgment(DOWNLOADING);
      CallDownload(candidate.url, tempName);
      var result := DownloadVideo(tempName, fetch, listing);
      raised := Deliver(result, send);
      LinkRun(old(log), text, tempName, fetch, listing, send);
      if raised == None {
        CleanupTempDir();
      }
    }
  }

  /**
    The same private link driven through a fresh `Request`: one video is
    sent and the temporary directory is gone afterwards.
   */
  method PrivateLinkExample(text: string, tempName: string, listing: seq<string>)
      returns (videos: seq<string>, ack: Option<string>, dirLeft: bool)
    requires text == "https://example.com/video" && tempName == "/tmp/w" && listing == ["abc123.mp4"]
    ensures videos == ["/tmp/w/abc123.mp4"] && ack == Some(SENT) && !dirLeft
  {
    var r := new Request();
    ExamplePrivateLink();
    ExampleJoin(tempName, listing);
    DeliveredLinkRun(text, tempName, listing);
    OneVideoExactlyWhenDelivered(text, tempName, Fetched, listing, Delivered);
    var raised := r.Video(text, tempName, Fetched, listing, Delivered);
    videos, ack, dirLeft := r.videos, r.ack, r.tempLive;
  }
}
