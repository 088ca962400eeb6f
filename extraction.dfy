/**
  Which messages reach the video handler, how the handler turns the message
  text into a candidate URL, and how it decides whether that candidate is a
  link (bot.py lines 75-81).
 */
module Extraction {
  import opened Wrappers

  /** The bot command that the handler deletes from the text. */
  const COMMAND: string := "/download"

  /** The case-sensitive prefix that routes a private-chat message to the handler. */
  const LINK_TRIGGER: string := "https://"

  /**
    The chat kinds a message handler can see a message from. Channel posts
    arrive as a different kind of update and never reach a message handler.
   */
  datatype ChatType = Private | Group | Supergroup

  /** The handler's verdict on the text: a link to download, or a reply that it is not one. */
  datatype Candidate = Link(url: string) | NotALink

  /**
    The two filters the handler is registered with: text starting with
    "https://" in a private chat, or text starting with "/download" in any
    chat. Both prefix tests are case-sensitive.
   */
  predicate Triggers(text: string, chat: ChatType) {
    (StartsWith(text, LINK_TRIGGER) && chat == Private) || StartsWith(text, COMMAND)
  }

  /**
    The characters that Python's `\s` matches in a str pattern: the code
    points for which str.isspace() holds.
   */
  predicate IsSpace(c: char) {
    var n := c as int;
    (0x09 <= n <= 0x0D) || (0x1C <= n <= 0x20) || n == 0x85 || n == 0xA0 || n == 0x1680
    || (0x2000 <= n <= 0x200A) || n == 0x2028 || n == 0x2029 || n == 0x202F
    || n == 0x205F || n == 0x3000
  }

  predicate AllSpaces(w: string) {
    forall i :: 0 <= i < |w| ==> IsSpace(w[i])
  }

  /** "/download" occurs in `s` starting at index `i`. */
  predicate OccursAt(s: string, i: int) {
    0 <= i && i + |COMMAND| <= |s| && s[i..i + |COMMAND|] == COMMAND
  }

  predicate HasCommand(s: string) {
    exists i :: 0 <= i < |s| && OccursAt(s, i)
  }

  /** The greedy `\s*` after a match: drops the run of whitespace at the front of `s`. */
  function SkipSpaces(s: string): (r: string)
    ensures |r| <= |s| && r == s[|s| - |r|..]
    ensures AllSpaces(s[..|s| - |r|])
    ensures r == [] || !IsSpace(r[0])
  {
    if s != [] && IsSpace(s[0]) then
      var r := SkipSpaces(s[1..]);
      assert s[..|s| - |r|] == [s[0]] + s[1..][..|s| - 1 - |r|];
      r
    else s
  }

  /**
    `re.sub(r'/download\s*', '', s)`: scanning left to right, every
    non-overlapping occurrence of "/download" is deleted together with the
    whitespace run that follows it; every other character is kept.
   */
  function StripCommands(s: string): (r: string)
    ensures |r| <= |s|
    decreases |s|
  {
    if s == [] then []
    else if StartsWith(s, COMMAND) then StripCommands(SkipSpaces(s[|COMMAND|..]))
    else [s[0]] + StripCommands(s[1..])
  }

  /** Python's str.lower() on the ASCII letters; every other character is kept. */
  function LowerChar(c: char): char {
    if 'A' <= c <= 'Z' then (c as int + 32) as char else c
  }

  function Lower(s: string): (r: string)
    ensures |r| == |s|
    ensures forall i :: 0 <= i < |r| ==> !('A' <= r[i] <= 'Z')
    ensures forall i :: 0 <= i < |s| && !('A' <= s[i] <= 'Z') ==> r[i] == s[i]
    ensures forall i, k ::
              0 <= i < |s| && 0 <= k < 26 && s[i] == "ABCDEFGHIJKLMNOPQRSTUVWXYZ"[k]
              ==> r[i] == "abcdefghijklmnopqrstuvwxyz"[k]
  {
    seq(|s|, i requires 0 <= i < |s| => LowerChar(s[i]))
  }

  /** `re.findall(r"^https?://", u.lower())` is non-empty. */
  predicate IsLink(u: string) {
    StartsWith(Lower(u), "http://") || StartsWith(Lower(u), "https://")
  }

  /**
    Lines 78-81: strip the commands, then accept the remainder when it is a
    link. The accepted URL keeps its original case.
   */
  function Extract(text: string): (r: Candidate)
    ensures r.Link? ==> IsLink(r.url) && IsSubsequence(r.url, text)
    ensures !HasCommand(text) ==> r == (if IsLink(text) then Link(text) else NotALink)
  {
    var url := StripCommands(text);
    StripIsSubsequence(text);
    assert !HasCommand(text) ==> url == text by {
      if !HasCommand(text) {
        StripWithoutCommand(text);
      }
    }
    if IsLink(url) then Link(url) else NotALink
  }

  // ---------------------------------------------------------------------
  // Validation
  // ---------------------------------------------------------------------

  /** The lowercased copy starts with `p` exactly when each leading character lowercases to `p`'s. */
  lemma LowerStartsWith(u: string, p: string)
    ensures StartsWith(Lower(u), p) <==> |p| <= |u| && forall i :: 0 <= i < |p| ==> LowerChar(u[i]) == p[i]
  {
    if |p| <= |u| && forall i :: 0 <= i < |p| ==> LowerChar(u[i]) == p[i] {
      assert Lower(u)[..|p|] == p;
    }
  }

  /**
    The validation, character by character: "http" in any case, an optional
    "s" in any case, then "://" exactly.
   */
  lemma IsLinkCharwise(u: string)
    ensures IsLink(u) <==>
      && |u| >= 7
      && LowerChar(u[0]) == 'h' && LowerChar(u[1]) == 't'
      && LowerChar(u[2]) == 't' && LowerChar(u[3]) == 'p'
      && ((u[4] == ':' && u[5] == '/' && u[6] == '/')
          || (|u| >= 8 && LowerChar(u[4]) == 's' && u[5] == ':' && u[6] == '/' && u[7] == '/'))
  {
    LowerStartsWith(u, "http://");
    LowerStartsWith(u, "https://");
  }

  /** Two candidates that differ only in the case of ASCII letters get the same verdict. */
  lemma {:induction false} IsLinkIgnoresCase(u: string, v: string)
    requires |u| == |v|
    requires forall i :: 0 <= i < |u| ==> LowerChar(u[i]) == LowerChar(v[i])
    ensures IsLink(u) == IsLink(v)
  {
    assert Lower(u) == Lower(v);
  }

  // ---------------------------------------------------------------------
  // Stripping
  // ---------------------------------------------------------------------

  lemma OccursInTail(s: string, i: int)
    requires s != [] && OccursAt(s[1..], i)
    ensures OccursAt(s, i + 1)
  {
    assert s[1..][i..i + |COMMAND|] == s[i + 1..i + 1 + |COMMAND|];
  }

  lemma StripCons(s: string)
    requires s != [] && !OccursAt(s, 0)
    ensures StripCommands(s) == [s[0]] + StripCommands(s[1..])
  {
    assert !StartsWith(s, COMMAND);
  }

  lemma NoCommandInTail(s: string, k: nat)
    requires 0 < k <= |s|
    requires forall i :: 0 <= i < k ==> !OccursAt(s, i)
    ensures forall i :: 0 <= i < k - 1 ==> !OccursAt(s[1..], i)
  {
    forall i | 0 <= i < k - 1 ensures !OccursAt(s[1..], i) {
      if OccursAt(s[1..], i) {
        OccursInTail(s, i);
      }
    }
  }

  lemma TailSlices(s: string, k: nat)
    requires 0 < k <= |s|
    ensures s[1..][k - 1..] == s[k..]
    ensures s[..k] == [s[0]] + s[1..][..k - 1]
  {
  }

  /**
    Characters before the first occurrence of "/download" are kept, in
    order, and stripping goes on after them.
   */
  lemma {:induction false} StripKeepsPrefix(s: string, k: nat)
    requires k <= |s|
    requires forall i :: 0 <= i < k ==> !OccursAt(s, i)
    ensures StripCommands(s) == s[..k] + StripCommands(s[k..])
  {
    if k > 0 {
      StripCons(s);
      NoCommandInTail(s, k);
      StripKeepsPrefix(s[1..], k - 1);
      TailSlices(s, k);
    }
  }

  /** A text in which "/download" does not occur comes back unchanged. */
  lemma StripWithoutCommand(s: string)
    requires !HasCommand(s)
    ensures StripCommands(s) == s
  {
    StripKeepsPrefix(s, |s|);
    assert s[..|s|] == s;
  }

  lemma {:induction false} SkipSpacesRun(w: string, t: string)
    requires AllSpaces(w)
    requires t == [] || !IsSpace(t[0])
    ensures SkipSpaces(w + t) == t
  {
    if w != [] {
      assert (w + t)[1..] == w[1..] + t;
      SkipSpacesRun(w[1..], t);
    } else {
      assert w + t == t;
    }
  }

  /**
    An occurrence of "/download" is deleted together with the whole
    whitespace run after it, and stripping resumes at the first
    non-whitespace character.
   */
  lemma StripRemovesOccurrence(w: string, t: string)
    requires AllSpaces(w)
    requires t == [] || !IsSpace(t[0])
    ensures StripCommands(COMMAND + w + t) == StripCommands(t)
  {
    var s := COMMAND + w + t;
    assert s[..|COMMAND|] == COMMAND;
    assert s[|COMMAND|..] == w + t;
    SkipSpacesRun(w, t);
  }

  /**
    The leftmost occurrence decides: everything before it is kept, then it
    and its whitespace run go, then the rest is stripped in turn.
   */
  lemma StripAtFirstOccurrence(s: string, i: nat)
    requires OccursAt(s, i)
    requires forall j :: 0 <= j < i ==> !OccursAt(s, j)
    ensures StripCommands(s) == s[..i] + StripCommands(SkipSpaces(s[i + |COMMAND|..]))
  {
    StripKeepsPrefix(s, i);
    var rest := s[i..];
    assert rest[..|COMMAND|] == COMMAND;
    assert rest[|COMMAND|..] == s[i + |COMMAND|..];
  }

  /** `a` is obtained from `b` by deleting characters. */
  predicate IsSubsequence(a: string, b: string)
    decreases |b|
  {
    a == [] || (b != [] && ((a[0] == b[0] && IsSubsequence(a[1..], b[1..])) || IsSubsequence(a, b[1..])))
  }

  lemma {:induction false} SubsequenceOfSuffix(a: string, b: string, k: nat)
    requires k <= |b|
    requires IsSubsequence(a, b[k..])
    ensures IsSubsequence(a, b)
    decreases k
  {
    if k > 0 {
      assert b[1..][k - 1..] == b[k..];
      SubsequenceOfSuffix(a, b[1..], k - 1);
    } else {
      assert b[k..] == b;
    }
  }

  /** Stripping only deletes characters: what is left keeps its order. */
  lemma {:induction false} StripIsSubsequence(s: string)
    ensures IsSubsequence(StripCommands(s), s)
    decreases |s|
  {
    if s == [] {
    } else if StartsWith(s, COMMAND) {
      var t := SkipSpaces(s[|COMMAND|..]);
      StripIsSubsequence(t);
      var k := |s| - |t|;
      assert s[k..] == t;
      SubsequenceOfSuffix(StripCommands(t), s, k);
    } else {
      StripIsSubsequence(s[1..]);
      var r := StripCommands(s);
      assert r == [s[0]] + StripCommands(s[1..]);
      assert r[0] == s[0] && r[1..] == StripCommands(s[1..]);
    }
  }

  // ---------------------------------------------------------------------
  // Texts whose prefix cannot start an occurrence
  // ---------------------------------------------------------------------

  /** No '/' in `s` is followed by 'd', so "/download" cannot start at any index of `s` but the last. */
  predicate NoSlashD(s: string) {
    forall i :: 0 <= i < |s| - 1 && s[i] == '/' ==> s[i + 1] != 'd'
  }

  lemma NoSlashDBefore(s: string, k: int)
    requires forall i :: 0 <= i < k && i + 1 < |s| && s[i] == '/' ==> s[i + 1] != 'd'
    ensures forall i :: 0 <= i < k ==> !OccursAt(s, i)
  {
    forall i | 0 <= i < k ensures !OccursAt(s, i) {
      if i + |COMMAND| <= |s| {
        assert s[i..i + |COMMAND|][0] == s[i] && s[i..i + |COMMAND|][1] == s[i + 1];
      }
    }
  }

  lemma NoSlashDHasNoCommand(s: string)
    requires NoSlashD(s)
    ensures !HasCommand(s)
  {
    NoSlashDBefore(s, |s|);
  }

  /** A prefix without '/' is kept as it is, whatever follows it. */
  lemma StripSlashFreePrefix(a: string, t: string)
    requires '/' !in a
    ensures StripCommands(a + t) == a + StripCommands(t)
  {
    NoSlashDBefore(a + t, |a|);
    StripKeepsPrefix(a + t, |a|);
    assert (a + t)[..|a|] == a && (a + t)[|a|..] == t;
  }

  lemma StripPrefixThen(a: string, t: string)
    requires NoSlashD(a)
    requires t != [] && t[0] == '/'
    ensures StripCommands(a + t) == a + StripCommands(t)
  {
    NoSlashDBefore(a + t, |a|);
    StripKeepsPrefix(a + t, |a|);
    assert (a + t)[..|a|] == a && (a + t)[|a|..] == t;
  }

  /**
    When `a` holds no "/d", the first occurrence in `a + "/download" + w + b`
    is the one after `a`: `a` is kept, and the command and its blanks go.
   */
  lemma StripAfterPrefix(s: string, a: string, w: string, b: string)
    requires s == a + COMMAND + w + b
    requires NoSlashD(a)
    requires AllSpaces(w)
    requires b == [] || !IsSpace(b[0])
    ensures StripCommands(s) == a + StripCommands(b)
  {
    var t := COMMAND + w + b;
    assert s == a + t;
    StripPrefixThen(a, t);
    StripRemovesOccurrence(w, b);
  }

  // ---------------------------------------------------------------------
  // What reaches the downloader
  // ---------------------------------------------------------------------

  lemma TriggerLinkIsLink(text: string)
    requires StartsWith(text, LINK_TRIGGER)
    ensures IsLink(text)
  {
    LowerStartsWith(text, "https://");
  }

  /**
    A private-chat link without "/download" in it is passed on exactly as
    sent.
   */
  lemma PlainLinkPassesUnchanged(text: string)
    requires StartsWith(text, LINK_TRIGGER)
    requires !HasCommand(text)
    ensures Triggers(text, Private)
    ensures Extract(text) == Link(text)
  {
    StripWithoutCommand(text);
    TriggerLinkIsLink(text);
  }

  /**
    `/download`, blanks, then an argument without "/download" in it: the
    handler fires in any chat, and the argument itself, in its own case, is
    the candidate.
   */
  lemma CommandArgumentExtracted(w: string, arg: string, chat: ChatType)
    requires AllSpaces(w)
    requires arg == [] || !IsSpace(arg[0])
    requires !HasCommand(arg)
    ensures Triggers(COMMAND + w + arg, chat)
    ensures Extract(COMMAND + w + arg) == if IsLink(arg) then Link(arg) else NotALink
  {
    var text := COMMAND + w + arg;
    assert text[..|COMMAND|] == COMMAND;
    StripRemovesOccurrence(w, arg);
    StripWithoutCommand(arg);
  }

  /** "https://example.com/video" in a private chat reaches the downloader unchanged. */
  lemma ExamplePrivateLink()
    ensures Triggers("https://example.com/video", Private)
    ensures Extract("https://example.com/video") == Link("https://example.com/video")
  {
    NoSlashDHasNoCommand("https://example.com/video");
    PlainLinkPassesUnchanged("https://example.com/video");
  }

  /** "/download not-a-url" is answered with "It's not a link :(". */
  lemma ExampleNotAUrl()
    ensures Triggers("/download not-a-url", Group)
    ensures Extract("/download not-a-url") == NotALink
  {
    NoSlashDHasNoCommand("not-a-url");
    assert COMMAND + " " + "not-a-url" == "/download not-a-url";
    CommandArgumentExtracted(" ", "not-a-url", Group);
    IsLinkCharwise("not-a-url");
  }

  /**
    The two prefix tests disagree: a link with an upper-case scheme, or
    with "http://", is a link to the validation but does not route a
    private message to the handler; only "/download" in front of it does.
   */
  lemma TriggerValidationAsymmetry(rest: string)
    ensures IsLink("HTTPS://" + rest) && !Triggers("HTTPS://" + rest, Private)
    ensures IsLink("http://" + rest) && !Triggers("http://" + rest, Private)
  {
    IsLinkCharwise("HTTPS://" + rest);
    IsLinkCharwise("http://" + rest);
    assert ("HTTPS://" + rest)[0] != LINK_TRIGGER[0] && ("HTTPS://" + rest)[0] != COMMAND[0];
    assert ("http://" + rest)[4] != LINK_TRIGGER[4] && ("http://" + rest)[0] != COMMAND[0];
  }

  /** A text that does not start with '/' keeps its first character. */
  lemma StripKeepsHead(s: string)
    requires s != [] && s[0] != '/'
    ensures StripCommands(s) != [] && StripCommands(s)[0] == s[0]
  {
    StripCons(s);
  }

  /** "https:/" followed by anything but '/' is not a link. */
  lemma HttpsSlashIsNotLink(v: string)
    requires v == [] || v[0] != '/'
    ensures !IsLink("https:/" + v)
  {
    IsLinkCharwise("https:/" + v);
  }

  /**
    Stripping is not limited to a leading command: a private-chat link
    whose host starts with "download" ("https://download...") loses that
    "/download" and becomes "https:/...".
   */
  lemma HostStartingWithDownloadStripped(text: string, rest: string)
    requires text == LINK_TRIGGER + "download" + rest
    requires rest == [] || !IsSpace(rest[0])
    ensures Triggers(text, Private)
    ensures StripCommands(text) == "https:/" + StripCommands(rest)
  {
    assert text[..8] == LINK_TRIGGER;
    assert text == "https:/" + COMMAND + "" + rest;
    StripAfterPrefix(text, "https:/", "", rest);
  }

  /**
    ... and is then answered as not a link, although the message was routed
    to the handler as one.
   */
  lemma HostStartingWithDownloadRejected(text: string, rest: string)
    requires text == LINK_TRIGGER + "download" + rest
    requires rest == [] || (!IsSpace(rest[0]) && rest[0] != '/')
    ensures Extract(text) == NotALink
  {
    HostStartingWithDownloadStripped(text, rest);
    if rest != [] {
      StripKeepsHead(rest);
    }
    HttpsSlashIsNotLink(StripCommands(rest));
  }

  /**
    When the host starts with "download/", stripping deletes "/download"
    and the URL handed to the downloader is "https://" followed by what
    came after it: a different address from the one the user sent.
   */
  lemma HostStartingWithDownloadRerouted(text: string, rest: string)
    requires text == LINK_TRIGGER + "download" + ("/" + rest)
    requires !HasCommand("/" + rest)
    ensures Triggers(text, Private)
    ensures Extract(text) == Link(LINK_TRIGGER + rest)
  {
    HostStartingWithDownloadStripped(text, "/" + rest);
    StripWithoutCommand("/" + rest);
    assert "https:/" + ("/" + rest) == LINK_TRIGGER + rest;
    TriggerLinkIsLink(LINK_TRIGGER + rest);
  }

  /** "https://download/x.com/v" is routed and fetched as "https://x.com/v". */
  lemma ExampleRerouted(text: string, rest: string)
    requires rest == "x.com/v" && text == LINK_TRIGGER + "download/" + rest
    ensures Triggers(text, Private)
    ensures Extract(text) == Link("https://x.com/v")
  {
    assert NoSlashD("/" + rest);
    NoSlashDHasNoCommand("/" + rest);
    assert text == LINK_TRIGGER + "download" + ("/" + rest);
    HostStartingWithDownloadRerouted(text, rest);
    assert LINK_TRIGGER + rest == "https://x.com/v";
  }

  lemma CommandThenHasCommand(t: string)
    ensures HasCommand(COMMAND + t)
  {
    assert (COMMAND + t)[..|COMMAND|] == COMMAND;
    assert OccursAt(COMMAND + t, 0);
  }

  /** The literal facts `StripJoinsNeighbours` needs, kept apart so that its proof stays small. */
  lemma SlashThenWord(t: string)
    ensures '/' !in "download"
    ensures "/" + ("download" + t) == COMMAND + t
  {
  }

  /**
    Deleting one occurrence can join the characters around it into a new
    one: "//downloaddownload..." strips to "/download...".
   */
  lemma StripJoinsNeighbours(text: string, rest: string)
    requires text == "/" + COMMAND + "download" + rest
    ensures StripCommands(text) == COMMAND + StripCommands(rest)
  {
    assert text == "/" + COMMAND + "" + ("download" + rest);
    StripAfterPrefix(text, "/", "", "download" + rest);
    SlashThenWord(StripCommands(rest));
    StripSlashFreePrefix("download", rest);
  }

  /** So the result of stripping may still contain "/download": stripping is not idempotent. */
  lemma StripNotIdempotent(text: string, rest: string)
    requires text == "/" + COMMAND + "download" + rest
    ensures HasCommand(StripCommands(text))
  {
    StripJoinsNeighbours(text, rest);
    CommandThenHasCommand(StripCommands(rest));
  }
}
