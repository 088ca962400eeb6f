# video-downloader-bot, modelled in Dafny

The Telegram bot `bot.py` takes a message, decides whether it asks for a
video, and turns its text into a URL. It downloads the video with
youtube_dl into a fresh temporary directory, then keeps the user informed by
editing one acknowledgment message while it sends the file back. This
project models that request flow in four modules.

- `Wrappers` (wrappers.dfy): `Option`, for the fields Python leaves as `None`, and the prefix test `StartsWith`.
- `Extraction` (extraction.dfy), pure functions:
  - `Triggers`: the two message filters the handler is registered with.
  - `StripCommands`: the command stripping `re.sub(r'/download\s*', '', text)`. It uses Python's exact `\s` code-point set.
  - `IsLink`: the link test, `^https?://` on the lowercased text.
  - `Extract`: the handler's verdict on the text.
- `Download` (download.dfy), pure functions:
  - `DownloadVideo`: what `download_video` returns for a given fetch outcome and directory listing. It keeps the code's `success` flag.
  - `Join`: POSIX `os.path.join`.
- `Handler` (handler.dfy):
  - `Handle`: a specification function giving the events one message produces, the acknowledgment's final text and any exception that escapes.
  - The class `Request`: the per-message state the handler changes. Its fields are the acknowledgment's text, the event log, the videos sent and the temporary directory and whether it still exists.
  - `Request.Video`: runs the handler step by step and is proved to produce exactly `Handle`'s events. It keeps the invariant that the stored acknowledgment text is the one its last reply or edit put there.

What the model follows that a reader might not expect:

- `re.sub` deletes every occurrence of "/download", wherever it is, not only a leading command. So a private-chat link such as "https://download.example.com/v" becomes "https:/.example.com/v" and is answered "It's not a link :(" (`HostStartingWithDownloadRejected`). When the host is followed by '/' instead, as in "https://download/x.com/v", the link is accepted and the bot fetches "https://x.com/v", a different address from the one sent (`HostStartingWithDownloadRerouted`). Also, stripping once can create a new occurrence (`StripNotIdempotent`).
- The routing filters are case-sensitive and accept only "https://" in a private chat. The link test accepts "http://" and any letter case. So "HTTPS://..." or "http://..." in a private chat never reaches the handler, and would be accepted only after "/download" (`TriggerValidationAsymmetry`).
- `temp_dir.cleanup()` is an ordinary statement at the end of the handler, not a `finally`. When an exception escapes, the handler does not remove the directory (see Left out) and the acknowledgment stays where it was. The model records this in `tempLive` and in `Handle(...).escaped`. Exceptions escape in three cases:
  - the download succeeds but the directory is empty (`IndexError`);
  - youtube_dl raises anything but DownloadError or TimeoutError;
  - opening or sending the file fails with anything but NetworkError.
- The video goes to the chat with `answer_video`. It is not a reply to the acknowledgment. The upload chat action goes to the sender's user id.

Telegram, youtube_dl and the file system are inputs, not code:
- the fetch outcome (`FetchOutcome`);
- the directory entries `os.listdir` returns;
- the temporary directory's name;
- how sending the file ends (`SendOutcome`).

Everything the handler does to the chat is recorded as an `Event`.

`str.lower()` is modelled on the ASCII letters only. This cannot change the link test. The only characters outside A-Z whose lowercase form contains an ASCII character are U+0130 (to "i" and a combining dot) and the Kelvin sign U+212A (to "k"). Neither "i" nor "k" occurs in "http://" or "https://". And U+0130 lengthens the string only after the point where it occurs, which is a point where the test has already failed.

## Model

| member | source | states |
|---|---|---|
| Extraction.Triggers | bot.py:75-76 | definition of the two filters; characterized by `TriggerLinkIsLink`, `PlainLinkPassesUnchanged`, `CommandArgumentExtracted` and `TriggerValidationAsymmetry` |
| Extraction.IsSpace | bot.py:78 | definition of `\s`: the code points for which Python's str.isspace() holds; used by `SkipSpaces` and `SkipSpacesRun` |
| Extraction.IsLink | bot.py:79 | definition of the link test; characterized character by character by `IsLinkCharwise` and `LowerStartsWith`, and by `IsLinkIgnoresCase` |
| Extraction.SkipSpaces | bot.py:78 | the matched `\s*` run: what is dropped is all whitespace, what remains is a suffix not starting with whitespace |
| Extraction.StripCommands | bot.py:78 | stripping never lengthens the text |
| Extraction.Lower | bot.py:79 | the lowercased copy has the same length, turns each of "A".."Z" into the letter at the same place in "a".."z", holds no upper-case ASCII letter, and keeps every other character |
| Extraction.Extract | bot.py:78-81 | an accepted URL passes the link test and is the message text with characters deleted, in their order and case; a text without "/download" is accepted as itself exactly when it is a link |
| Extraction.LowerStartsWith | bot.py:79 | the lowercased text starts with a prefix iff each leading character lowercases to the prefix's |
| Extraction.IsLinkCharwise | bot.py:79 | a candidate is a link iff it is "http" in any case, an optional "s" in any case, then "://" exactly |
| Extraction.IsLinkIgnoresCase | bot.py:79 | texts differing only in letter case get the same verdict |
| Extraction.StripKeepsPrefix | bot.py:78 | a prefix in which no "/download" starts is kept unchanged in front of the stripped rest |
| Extraction.StripWithoutCommand | bot.py:78 | a text without "/download" is returned unchanged |
| Extraction.SkipSpacesRun | bot.py:78 | `\s*` consumes a whole whitespace run and stops at the first other character |
| Extraction.StripRemovesOccurrence | bot.py:78 | "/download" and the whole whitespace run after it are deleted and stripping resumes after them |
| Extraction.StripAtFirstOccurrence | bot.py:78 | at the leftmost occurrence: the text before it is kept, it and its blanks go, the rest is stripped in turn |
| Extraction.StripIsSubsequence | bot.py:78 | stripping only deletes characters; the others stay in order |
| Extraction.StripAfterPrefix | bot.py:78 | after a prefix holding no "/d", that prefix is kept and the next command and its blanks are removed |
| Extraction.TriggerLinkIsLink | bot.py:75-79 | every text routed by the "https://" filter passes the link test if nothing is stripped |
| Extraction.PlainLinkPassesUnchanged | bot.py:75-79 | a private "https://" text without "/download" triggers the handler and is the URL, unchanged |
| Extraction.CommandArgumentExtracted | bot.py:76-79 | "/download", blanks and an argument that starts with no blank and holds no "/download": fires in every chat, and the argument is the candidate, accepted iff it is a link |
| Extraction.ExamplePrivateLink | bot.py:75-79 | "https://example.com/video" in a private chat triggers and is passed on unchanged |
| Extraction.ExampleNotAUrl | bot.py:76-81 | "/download not-a-url" triggers in a group and is rejected |
| Extraction.TriggerValidationAsymmetry | bot.py:75-79 | "HTTPS://..." and "http://..." pass the link test but do not trigger in a private chat |
| Extraction.StripKeepsHead | bot.py:78 | a text not starting with '/' keeps its first character |
| Extraction.HttpsSlashIsNotLink | bot.py:79 | "https:/" followed by anything but '/' fails the link test |
| Extraction.HostStartingWithDownloadStripped | bot.py:75-78 | a private link "https://download..." triggers and is stripped to "https:/..." |
| Extraction.HostStartingWithDownloadRejected | bot.py:75-81 | when what follows "download" is empty or starts with neither whitespace nor '/', such a link is rejected as not a link |
| Extraction.HostStartingWithDownloadRerouted | bot.py:75-79 | when what follows "download" is '/' and a remainder holding no "/download", such a link is routed and accepted, and the URL passed on is "https://" followed by that remainder |
| Extraction.ExampleRerouted | bot.py:75-79 | "https://download/x.com/v" in a private chat is routed and passed on as "https://x.com/v" |
| Extraction.StripJoinsNeighbours | bot.py:78 | deleting one occurrence can join its neighbours into a new "/download" |
| Extraction.StripNotIdempotent | bot.py:78 | so a stripped text may still contain "/download" |
| Download.WellFormed | bot.py:19-23 | definition: of the two fields of a `VideoResponse` (the `Video_response` tuple) exactly one is set; `DownloadVideo` ensures every returned response has it |
| Download.Join | bot.py:58 | the joined path is at least as long as the entry name |
| Download.JoinDirPart | bot.py:58 | joining a non-empty directory and an entry name without '/' gives the name preceded by a '/' and, before that, exactly the directory, or the directory followed by "/" |
| Download.JoinInsideDir | bot.py:58 | an entry name without '/' joined to the directory has that entry as base name, starts with the directory, and (for a non-empty directory) is the name preceded by a '/' and, before that, exactly the directory, or the directory followed by "/", so the file lies directly inside the directory |
| Download.DownloadVideo | bot.py:47-62 | a returned response has exactly one field set; the path is the directory joined with the first entry, and only after a successful fetch; the error is the traceback of a DownloadError or TimeoutError; an empty listing after success raises IndexError and any other fetch exception propagates |
| Download.SuccessNamesFirstEntry | bot.py:57-59 | after a successful fetch the response has no error, its base name is the first entry, and (for a non-empty directory name) the path is that entry preceded by a '/' and, before that, exactly the directory, or the directory followed by "/", so it names a file directly inside the temporary directory |
| Download.ExampleJoin | bot.py:57-59 | "abc123.mp4" listed in "/tmp/w" gives the response with path "/tmp/w/abc123.mp4" |
| Handler.Delivery | bot.py:86-99 | definition of what follows the download; characterized by `DeliveryVideos` and `DeliveryAck`, and implemented by `Request.Deliver` |
| Handler.Handle | bot.py:78-101 | definition of one message's events, final acknowledgment text and escaping exception; characterized by the lemmas below and implemented by `Request.Video` |
| Handler.RejectionIsOneReply | bot.py:79-81 | the events are the single reply "It's not a link :(" iff the stripped text fails the link test |
| Handler.LinkIsAcknowledgedThenFetched | bot.py:83-85 | for a link the first events are the "Downloading..." acknowledgment and the download of the stripped URL into the temporary directory |
| Handler.OneVideoExactlyWhenDelivered | bot.py:86-97 | at most one video is sent, the first directory entry, exactly when the text is a link, the fetch succeeded, the directory is not empty and sending succeeded |
| Handler.DeliveryVideos | bot.py:86-97 | after the download, a video is sent exactly when the response has a path and no error and sending succeeded |
| Handler.AckIsLastShown | bot.py:84-99 | the recorded final acknowledgment text is the text of its last reply or edit in the events |
| Handler.EscapesExactlyWhen | bot.py:85-101 | an exception escapes (so no cleanup) exactly on an empty listing, an uncaught fetch exception or a non-network send failure |
| Handler.FinalAckText | bot.py:84-99 | the acknowledgment's final text for each way a link's handling ends |
| Handler.DeliveredLinkRun | bot.py:84-94 | a link whose download and sending succeed produces the whole sequence: acknowledgment, download, "Sending now", upload action, the video, "Download success!" |
| Handler.FailedFetchRun | bot.py:85-99 | a link whose download raises DownloadError or TimeoutError produces exactly the acknowledgment, the download and the edit "Download failed. Check your link or try again.": no upload action and no video |
| Handler.ScenarioPrivateLink | bot.py:75-101 | "https://example.com/video" downloading to "abc123.mp4" sends "/tmp/w/abc123.mp4" and ends on "Download success!" |
| Handler.ScenarioNotAUrl | bot.py:76-81 | "/download not-a-url" gets only the rejection reply; nothing is downloaded |
| Handler.Request.ReplyToUser | bot.py:80 | a reply is appended to the log; nothing else changes |
| Handler.Request.SendAcknowledgment | bot.py:84 | the acknowledgment is appended and its text recorded |
| Handler.Request.EditAcknowledgment | bot.py:87 | an edit is appended and becomes the acknowledgment's text |
| Handler.Request.SendUploadAction | bot.py:88 | the upload chat action is appended |
| Handler.Request.CallDownload | bot.py:85 | the download call with URL and directory is appended |
| Handler.Request.AnswerVideo | bot.py:91-92 | the video is logged and counted only when sending succeeds |
| Handler.Request.CreateTempDir | bot.py:83 | the temporary directory exists and is named |
| Handler.Request.CleanupTempDir | bot.py:101 | the temporary directory no longer exists |
| Handler.Request.SendFile | bot.py:90-97 | success edits to "Download success!" after the video; NetworkError edits to "File is large"; any other failure escapes with no edit |
| Handler.Request.Deliver | bot.py:86-99 | the log grows by exactly the delivery events; the acknowledgment text and the escaping exception are the ones `Delivery` gives |
| Handler.Request.Video | bot.py:77-101 | the log grows by exactly `Handle`'s events, the videos by the ones among them, and the acknowledgment ends on `Handle`'s text; the result is the exception that escapes; for a link the directory is created and removed unless an exception escaped, otherwise left as it was; the invariant is kept |
| Handler.PrivateLinkExample | bot.py:77-101 | a fresh request for the example link sends exactly "/tmp/w/abc123.mp4", ends on "Download success!" and leaves no directory |

## Left out

- The aiogram transport: `Bot`, `Dispatcher`, `executor.start_polling` and the message objects. The dispatcher's choice of handler is `Extraction.Triggers`; `Request.Video` accepts any text, as the handler's body does not test the filter again.
- Messages without text (captions, media): the filters are modelled on the message text only.
- Failures of `reply`, `edit_text` and `send_chat_action`. They are assumed to succeed. In particular a NetworkError raised by the "Download success!" edit, which lies inside the `try`, is not modelled.
- The target of the upload chat action (the sender's user id) is not recorded in `UploadVideoAction`.
- youtube_dl itself and its options (bot.py:42-50), including the output template: the outcome of the fetch and the entries of the directory are inputs.
- `run_in_executor` and asyncio (bot.py:32-37). Each message is handled on its own, with no interleaving between requests.
- Process startup (bot.py:25-29): the token check, `exit` and logging.
- The `/start` and `/help` handlers (bot.py:65-73): a fixed reply each.
- `traceback.format_exc` and logging: the traceback text is part of the fetch outcome.
- `tempfile.TemporaryDirectory`'s naming and its finalizer, which removes a directory left behind when the object is garbage-collected.
- `str.lower()` is modelled on A-Z only; the argument above shows why this cannot change the link test.
- Extraction.StripCommands: its own contract gives only a length bound; what stripping does is stated by the lemmas in the table.
- Download.Join: its own contract gives only a length bound; what joining means for a directory entry is stated by `Download.JoinDirPart` and `Download.JoinInsideDir`.
