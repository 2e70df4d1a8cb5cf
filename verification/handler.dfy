/**
 * handle_url in bot.py: one inbound text message, from classification to the
 * final reply and the removal of the progress message.
 *
 * The Telegram transport and the extraction engine are not modelled. What
 * they do in one run is an input: the engine's result, the files in the
 * scratch directory afterwards, where (if anywhere) the deadline or an outside
 * cancellation cuts in, and which transport calls fail. Every Telegram call
 * the handler makes, the start of the download and the opening and removal
 * of the scratch directory are appended to a log. Handle is the reference
 * definition of that log. Relay.HandleUrl builds it step by step, as the
 * source does.
 */
module RequestHandler {
  import opened Wrappers
  import opened UrlClassifier
  import opened Artifact

  // ---------------------------------------------------------------------
  // str.strip()

  /** str.isspace for one character: the ASCII controls TAB..CR and FS..US,
      the space, NEL, NO-BREAK SPACE and the other Unicode spaces and
      separators. */
  predicate IsSpace(c: char): (r: bool)
    ensures r ==> !('a' <= c <= 'z' || 'A' <= c <= 'Z' || '0' <= c <= '9' || c == '.' || c == '/' || c == ':')
    ensures c == ' ' || c == '\t' || c == '\n' || c == '\r' ==> r
  {
    ('\t' <= c <= '\r') || ('\U{1C}' <= c <= ' ') || c == '\U{85}' || c == '\U{A0}' ||
    c == '\U{1680}' || ('\U{2000}' <= c <= '\U{200A}') || c == '\U{2028}' || c == '\U{2029}' ||
    c == '\U{202F}' || c == '\U{205F}' || c == '\U{3000}'
  }

  /** How many whitespace characters the text starts with. */
  function LeadingSpaces(s: string): (n: nat)
    ensures n <= |s|
    ensures forall k :: 0 <= k < n ==> IsSpace(s[k])
    ensures n < |s| ==> !IsSpace(s[n])
  {
    if s != [] && IsSpace(s[0]) then 1 + LeadingSpaces(s[1..]) else 0
  }

  /** How many whitespace characters the text ends with. */
  function TrailingSpaces(s: string): (n: nat)
    ensures n <= |s|
    ensures forall k :: |s| - n <= k < |s| ==> IsSpace(s[k])
    ensures n < |s| ==> !IsSpace(s[|s| - n - 1])
  {
    if s != [] && IsSpace(s[|s| - 1]) then 1 + TrailingSpaces(s[..|s| - 1]) else 0
  }

  /** str.strip(): the text without its leading and trailing whitespace. */
  function Strip(s: string): (r: string)
    ensures r == [] || (!IsSpace(r[0]) && !IsSpace(r[|r| - 1]))
    ensures exists lo, hi ::
      (0 <= lo <= hi <= |s| && r == s[lo..hi] &&
       (forall k :: 0 <= k < lo ==> IsSpace(s[k])) && (forall k :: hi <= k < |s| ==> IsSpace(s[k])))
  {
    var lo := LeadingSpaces(s);
    var rest := s[lo..];
    StripBounds(s, lo, rest);
    rest[..|rest| - TrailingSpaces(rest)]
  }

  /** The trimmed tail of s[lo..] is the slice of s that ends where the
      trailing whitespace of s begins. */
  lemma {:induction false} StripBounds(s: string, lo: nat, rest: string)
    requires lo <= |s| && rest == s[lo..]
    ensures var hi := lo + |rest| - TrailingSpaces(rest);
      rest[..|rest| - TrailingSpaces(rest)] == s[lo..hi] &&
      forall k :: hi <= k < |s| ==> IsSpace(s[k])
  {
    var hi := lo + |rest| - TrailingSpaces(rest);
    forall k | hi <= k < |s| ensures IsSpace(s[k]) {
      assert s[k] == rest[k - lo];
    }
  }

  lemma {:induction false} MatchedNotSpace(t: string, i: nat, b: nat, k: nat)
    requires b < |Hosts| && MatchesAt(t, i, Hosts[b]) && k < |Hosts[b]|
    ensures !IsSpace(t[i + k])
  {
    HostAlphabet(b, k);
    assert Fold(t[i + k]) == Hosts[b][k];
  }

  /** A match inside a slice is a match in the whole text. */
  lemma {:induction false} SliceMatchLifts(t: string, lo: nat, hi: nat)
    requires lo <= hi <= |t|
    requires IsSupportedUrl(t[lo..hi])
    ensures IsSupportedUrl(t)
  {
    var u := t[lo..hi];
    var i: nat, b: nat :| b < |Hosts| && MatchesAt(u, i, Hosts[b]);
    var h := Hosts[b];
    assert MatchesAt(t, lo + i, h) by {
      forall k | 0 <= k < |h| ensures Fold(t[lo + i + k]) == h[k] {
        assert t[lo + i + k] == u[i + k];
      }
    }
  }

  /** A match never touches whitespace, so it lies inside the part of the
      text that trimming keeps. */
  lemma {:induction false} MatchInsideTrim(t: string, lo: nat, hi: nat, i: nat, b: nat)
    requires lo <= hi <= |t|
    requires forall k :: 0 <= k < lo ==> IsSpace(t[k])
    requires forall k :: hi <= k < |t| ==> IsSpace(t[k])
    requires b < |Hosts| && MatchesAt(t, i, Hosts[b])
    ensures lo <= i && i + |Hosts[b]| <= hi
  {
    MatchedNotSpace(t, i, b, 0);
    MatchedNotSpace(t, i, b, |Hosts[b]| - 1);
  }

  lemma {:induction false} MatchInSlice(t: string, lo: nat, hi: nat, i: nat, h: string)
    requires lo <= i && i + |h| <= hi <= |t|
    requires MatchesAt(t, i, h)
    ensures MatchesAt(t[lo..hi], i - lo, h)
  {
    var u := t[lo..hi];
    forall k | 0 <= k < |h| ensures Fold(u[i - lo + k]) == h[k] {
      assert u[i - lo + k] == t[i + k];
    }
  }

  lemma {:induction false} TrimmedMatchSurvives(t: string, lo: nat, hi: nat)
    requires lo <= hi <= |t|
    requires forall k :: 0 <= k < lo ==> IsSpace(t[k])
    requires forall k :: hi <= k < |t| ==> IsSpace(t[k])
    requires IsSupportedUrl(t)
    ensures IsSupportedUrl(t[lo..hi])
  {
    var i: nat, b: nat :| b < |Hosts| && MatchesAt(t, i, Hosts[b]);
    MatchInsideTrim(t, lo, hi, i, b);
    MatchInSlice(t, lo, hi, i, Hosts[b]);
    assert MatchesAt(t[lo..hi], i - lo, Hosts[b]);
  }

  /** Stripping the message text never changes whether it is accepted: no
      host name contains whitespace. */
  lemma {:induction false} StripKeepsClassification(t: string)
    ensures IsSupportedUrl(Strip(t)) == IsSupportedUrl(t)
  {
    var lo := LeadingSpaces(t);
    var rest := t[lo..];
    var hi := lo + |rest| - TrailingSpaces(rest);
    assert Strip(t) == t[lo..hi];
    forall k | hi <= k < |t| ensures IsSpace(t[k]) {
      assert t[k] == rest[k - lo];
    }
    if IsSupportedUrl(t[lo..hi]) {
      SliceMatchLifts(t, lo, hi);
    }
    if IsSupportedUrl(t) {
      TrimmedMatchSurvives(t, lo, hi);
    }
  }

  // ---------------------------------------------------------------------
  // Replies and the log

  const RejectText: string := "Vui lòng gửi URL Facebook hoặc Instagram hợp lệ."
  const ProgressText: string := "Đang tải video, vui lòng chờ..."
  const SuccessCaption: string := "✅ Hoàn thành"
  const DownloadFailedPrefix: string := "Không tải được video: "
  const TimeoutText: string := "Quá thời gian xử lý, thử lại sau nhé."
  const UnexpectedPrefix: string := "Bot gặp lỗi: "

  /** A message the handler sends into the conversation. */
  datatype Reply = Text(body: string) | Video(file: string, caption: string)

  /** One step of the handler that the outside world sees. Sent records
      whether the reply reached the conversation, Deleted whether the
      deletion went through; Deleted names the progress message by its
      position in the log. DownloadStarted is the hand-over of download_video
      to the worker thread. */
  datatype Event =
    | Sent(reply: Reply, delivered: bool)
    | Deleted(message: nat, done: bool)
    | WorkspaceOpened
    | DownloadStarted
    | WorkspaceRemoved

  /** Where the five-minute deadline or an outside cancellation of the
      handler's task cuts into the job. DeadlineAfterDownload means the
      deadline expires while the video is being uploaded; it only matters
      when the download succeeded. */
  datatype Interruption =
    | Uninterrupted
    | DeadlineDuringDownload
    | DeadlineAfterDownload
    | CancelledDuringDownload

  /** Which transport calls fail in this run, and the description of the
      exception they raise. firstFails is the first reply (the rejection or
      the progress message), videoFails the video upload, errorReplyFails the
      text reply sent from an except branch, deleteFails the removal of the
      progress message. uploadLanded says whether a video upload that raised
      or was cut off by the deadline had already reached the conversation.
      videoFailure describes the exception the failed upload raises, which
      the generic except branch reports; failure describes the exception a
      failed reply raises, which leaves the handler. */
  datatype Transport = Transport(
    firstFails: bool, videoFails: bool, errorReplyFails: bool, deleteFails: bool,
    uploadLanded: bool, videoFailure: string, failure: string)

  /** How the job inside the try block ended. */
  datatype Outcome = Delivered(file: string) | Failed(error: Raised) | TimedOut | Cancelled

  /** An exception that leaves handle_url. */
  datatype Escaped = TransportFailure(description: string) | Cancellation

  datatype Exit = Returned | Raised(error: Escaped)

  datatype JobRun = JobRun(events: seq<Event>, outcome: Outcome)

  datatype Run = Run(events: seq<Event>, exit: Exit)

  /**
   * The body of the try block: the deadline scope, the scratch directory, the
   * download in a worker thread and the video upload. download is what
   * download_video returns or raises. The directory is opened first and
   * removed last on every path; the download starts inside it, and only the
   * upload follows.
   */
  function Job(download: Result<string, Raised>, cut: Interruption, t: Transport): (j: JobRun)
    ensures |j.events| >= 3 && j.events[0] == WorkspaceOpened && j.events[1] == DownloadStarted
    ensures j.events[|j.events| - 1] == WorkspaceRemoved
    ensures forall k :: 1 < k < |j.events| - 1 ==>
      j.events[k].Sent? && download.Ok? && j.events[k].reply == Video(download.value, SuccessCaption)
    ensures j.outcome.Delivered? ==> download == Ok(j.outcome.file)
    ensures j.outcome == Cancelled <==> cut == CancelledDuringDownload
  {
    if cut == DeadlineDuringDownload then
      JobRun([WorkspaceOpened, DownloadStarted, WorkspaceRemoved], TimedOut)
    else if cut == CancelledDuringDownload then
      JobRun([WorkspaceOpened, DownloadStarted, WorkspaceRemoved], Cancelled)
    else
      match download
      case Err(e) => JobRun([WorkspaceOpened, DownloadStarted, WorkspaceRemoved], Failed(e))
      case Ok(path) =>
        if cut == DeadlineAfterDownload then
          JobRun([WorkspaceOpened, DownloadStarted, Sent(Video(path, SuccessCaption), t.uploadLanded),
                  WorkspaceRemoved], TimedOut)
        else
          JobRun([WorkspaceOpened, DownloadStarted,
                  Sent(Video(path, SuccessCaption), !t.videoFails || t.uploadLanded), WorkspaceRemoved],
                 if t.videoFails then Failed(OtherError(t.videoFailure)) else Delivered(path))
  }

  /** The text the except branches send for an outcome; none on success and
      none on cancellation, which no branch catches. A TimeoutError raised
      inside the job is caught by the timeout branch, which comes before the
      generic one. */
  function ErrorReply(outcome: Outcome): (r: Option<string>)
    ensures r.None? <==> outcome.Delivered? || outcome.Cancelled?
    ensures outcome.TimedOut? || outcome == Failed(TimeoutError) ==> r == Some(TimeoutText)
  {
    match outcome
    case Delivered(_) => None
    case Cancelled => None
    case TimedOut => Some(TimeoutText)
    case Failed(DownloadError(message)) => Some(DownloadFailedPrefix + message)
    case Failed(TimeoutError) => Some(TimeoutText)
    case Failed(OtherError(description)) => Some(UnexpectedPrefix + description)
  }

  /**
   * The control flow of handle_url once the classifier's verdict on the
   * stripped text (supported) and the result of download_video (download)
   * are known. base is the log position at which the run starts, so that
   * the progress message can be named by its position.
   */
  function Respond(base: nat, supported: bool, download: Result<string, Raised>,
                   cut: Interruption, t: Transport): (r: Run)
    ensures r.events != [] && r.events[0].Sent?
    ensures r.events[0].reply == Text(if supported then ProgressText else RejectText)
  {
    if !supported then
      Run([Sent(Text(RejectText), !t.firstFails)],
          if t.firstFails then Raised(TransportFailure(t.failure)) else Returned)
    else if t.firstFails then
      Run([Sent(Text(ProgressText), false)], Raised(TransportFailure(t.failure)))
    else
      var job := Job(download, cut, t);
      var reply := ErrorReply(job.outcome);
      var replyEvents := if reply.Some? then [Sent(Text(reply.value), !t.errorReplyFails)] else [];
      var exit :=
        if job.outcome == Cancelled then Raised(Cancellation)
        else if reply.Some? && t.errorReplyFails then Raised(TransportFailure(t.failure))
        else Returned;
      Run([Sent(Text(ProgressText), true)] + job.events + replyEvents + [Deleted(base, !t.deleteFails)], exit)
  }

  /** handle_url for one message text, with the engine's result and the
      scratch directory's contents as the extraction engine leaves them. */
  function Handle(base: nat, text: string, engine: EngineResult, files: map<string, nat>,
                  cut: Interruption, t: Transport): (r: Run)
    ensures DownloadStarted in r.events ==> IsSupportedUrl(Strip(text)) && !t.firstFails
  {
    Respond(base, IsSupportedUrl(Strip(text)), DownloadVideo(engine, files), cut, t)
  }

  /** The replies that reached the conversation, in order. */
  function DeliveredReplies(events: seq<Event>): (r: seq<Reply>)
    ensures |r| <= |events|
    ensures forall x :: x in r ==> Sent(x, true) in events
  {
    if events == [] then []
    else
      var rest := DeliveredReplies(events[1..]);
      if events[0].Sent? && events[0].delivered then [events[0].reply] + rest else rest
  }

  lemma DeliveredOne(e: Event)
    ensures DeliveredReplies([e]) == if e.Sent? && e.delivered then [e.reply] else []
  {
    assert [e][1..] == [];
  }

  lemma {:induction false} DeliveredRepliesAppend(a: seq<Event>, b: seq<Event>)
    ensures DeliveredReplies(a + b) == DeliveredReplies(a) + DeliveredReplies(b)
  {
    if a == [] {
      assert a + b == b;
    } else {
      assert (a + b)[0] == a[0];
      assert (a + b)[1..] == a[1..] + b;
      DeliveredRepliesAppend(a[1..], b);
    }
  }

  lemma AppendTwo(a: seq<Event>, b: seq<Event>, c: seq<Event>)
    ensures a + b + c == a + (b + c)
  {
  }

  lemma AppendThree(a: seq<Event>, b: seq<Event>, c: seq<Event>, d: seq<Event>)
    ensures a + b + c + d == a + (b + c + d)
  {
  }

  // ---------------------------------------------------------------------
  // The handler, step by step

  class Relay {
    /** Everything the handler has done to the outside world, oldest first. */
    var log: seq<Event>
    /** Whether a scratch directory of the current request exists. */
    ghost var workspaceLive: bool

    constructor ()
      ensures log == [] && !workspaceLive
    {
      log := [];
      workspaceLive := false;
    }

    /** tempfile.TemporaryDirectory() entered: a fresh scratch directory. */
    method OpenWorkspace()
      requires !workspaceLive
      modifies this
      ensures workspaceLive && log == old(log) + [WorkspaceOpened]
    {
      log := log + [WorkspaceOpened];
      workspaceLive := true;
    }

    /** download_video handed to a worker thread; it writes into the scratch
        directory, so that directory must exist. */
    method StartDownload()
      requires workspaceLive
      modifies this
      ensures workspaceLive && log == old(log) + [DownloadStarted]
    {
      log := log + [DownloadStarted];
    }

    /** reply_video with the bytes of the artifact, which is read from the
        scratch directory, so that directory must still exist. */
    method Upload(path: string, landed: bool)
      requires workspaceLive
      modifies this
      ensures workspaceLive && log == old(log) + [Sent(Video(path, SuccessCaption), landed)]
    {
      log := log + [Sent(Video(path, SuccessCaption), landed)];
    }

    /** The scratch directory's with block left: it is removed. */
    method RemoveWorkspace()
      requires workspaceLive
      modifies this
      ensures !workspaceLive && log == old(log) + [WorkspaceRemoved]
    {
      log := log + [WorkspaceRemoved];
      workspaceLive := false;
    }

    /** The try block of handle_url: inside the deadline scope, open the
        scratch directory, wait for download_video in a worker thread, upload
        the video, and remove the directory again whatever happened. dl is
        what download_video returns or raises for this run. */
    method RunJob(dl: Result<string, Raised>, cut: Interruption, t: Transport)
      returns (outcome: Outcome)
      requires !workspaceLive
      modifies this
      ensures !workspaceLive
      ensures log == old(log) + Job(dl, cut, t).events
      ensures outcome == Job(dl, cut, t).outcome
    {
      OpenWorkspace();
      StartDownload();
      if cut == DeadlineDuringDownload {
        outcome := TimedOut;
      } else if cut == CancelledDuringDownload {
        outcome := Cancelled;
      } else {
        match dl {
          case Err(e) =>
            outcome := Failed(e);
          case Ok(path) =>
            if cut == DeadlineAfterDownload {
              Upload(path, t.uploadLanded);
              outcome := TimedOut;
            } else {
              Upload(path, !t.videoFails || t.uploadLanded);
              outcome := if t.videoFails then Failed(OtherError(t.videoFailure)) else Delivered(path);
            }
        }
      }
      RemoveWorkspace();
    }

    method HandleUrl(text: string, engine: EngineResult, files: map<string, nat>,
                     cut: Interruption, t: Transport) returns (exit: Exit)
      requires !workspaceLive
      modifies this
      ensures !workspaceLive
      ensures log == old(log) + Handle(|old(log)|, text, engine, files, cut, t).events
      ensures exit == Handle(|old(log)|, text, engine, files, cut, t).exit
    {
      ghost var before := log;
      var url := Strip(text);
      ghost var expected := Respond(|log|, IsSupportedUrl(url), DownloadVideo(engine, files), cut, t);
      assert expected == Handle(|log|, text, engine, files, cut, t);
      if !IsSupportedUrl(url) {
        log := log + [Sent(Text(RejectText), !t.firstFails)];
        exit := if t.firstFails then Raised(TransportFailure(t.failure)) else Returned;
        return;
      }
      var progress := |log|;
      log := log + [Sent(Text(ProgressText), !t.firstFails)];
      if t.firstFails {
        exit := Raised(TransportFailure(t.failure));
        return;
      }

      // try
      var download := DownloadVideo(engine, files);
      ghost var job := Job(download, cut, t);
      ghost var posted := log;
      var outcome := RunJob(download, cut, t);
      assert log == posted + job.events;

      // except: one text reply per caught exception
      exit := Returned;
      var reply := ErrorReply(outcome);
      if reply.Some? {
        log := log + [Sent(Text(reply.value), !t.errorReplyFails)];
        if t.errorReplyFails {
          exit := Raised(TransportFailure(t.failure));
        }
      }

      // finally: remove the progress message, swallowing any failure
      ghost var replyEvents := if reply.Some? then [Sent(Text(reply.value), !t.errorReplyFails)] else [];
      ghost var tail := [Sent(Text(ProgressText), true)] + job.events + replyEvents;
      AppendThree(before, [Sent(Text(ProgressText), true)], job.events, replyEvents);
      assert log == before + tail;
      log := log + [Deleted(progress, !t.deleteFails)];
      if outcome == Cancelled {
        exit := Raised(Cancellation);
      }
      assert expected.events == tail + [Deleted(progress, !t.deleteFails)];
      AppendTwo(before, tail, [Deleted(progress, !t.deleteFails)]);
      assert log == before + expected.events;
    }
  }

  // ---------------------------------------------------------------------
  // What the handler guarantees

  /** An unsupported text gets exactly one reply, the rejection: no progress
      message, no scratch directory, no download, no deletion. */
  lemma {:induction false} RejectedWithoutProgress(base: nat, download: Result<string, Raised>,
                                                   cut: Interruption, t: Transport)
    ensures Respond(base, false, download, cut, t).events == [Sent(Text(RejectText), !t.firstFails)]
    ensures DownloadStarted !in Respond(base, false, download, cut, t).events
    ensures WorkspaceOpened !in Respond(base, false, download, cut, t).events
    ensures Respond(base, false, download, cut, t).exit ==
      if t.firstFails then Raised(TransportFailure(t.failure)) else Returned
  {
  }

  /** For a supported text the progress message comes first. If it cannot be
      posted, the handler stops there and the transport's exception leaves
      it; nothing is downloaded and nothing is deleted. */
  lemma {:induction false} ProgressFirst(base: nat, download: Result<string, Raised>,
                                         cut: Interruption, t: Transport)
    ensures Respond(base, true, download, cut, t).events[0] == Sent(Text(ProgressText), !t.firstFails)
    ensures t.firstFails ==>
      Respond(base, true, download, cut, t) ==
      Run([Sent(Text(ProgressText), false)], Raised(TransportFailure(t.failure)))
  {
  }

  /** Once the progress message is posted, it is the only one, and the last
      step on every path is one attempt to delete it. */
  lemma {:induction false} ProgressDeletedLast(base: nat, download: Result<string, Raised>,
                                               cut: Interruption, t: Transport)
    requires !t.firstFails
    ensures var ev := Respond(base, true, download, cut, t).events;
      |ev| >= 5 && ev[0] == Sent(Text(ProgressText), true) &&
      ev[|ev| - 1] == Deleted(base, !t.deleteFails) &&
      (forall k :: 0 <= k < |ev| - 1 ==> !ev[k].Deleted?) &&
      (forall k :: 0 < k < |ev| ==> !(ev[k].Sent? && ev[k].reply == Text(ProgressText)))
  {
    var ev := Respond(base, true, download, cut, t).events;
    var job := Job(download, cut, t);
    forall k | 0 < k < |ev| ensures !(ev[k].Sent? && ev[k].reply == Text(ProgressText)) {
      if 1 + |job.events| <= k < |ev| - 1 {
        var body := ev[k].reply.body;
        assert body == ErrorReply(job.outcome).value;
        assert body[0] != ProgressText[0];
      }
    }
  }

  /** The scratch directory is opened right after the progress message, the
      download starts inside it, once, and the directory is removed exactly
      once. Only the video upload follows the download while the directory
      exists; the text replies and the deletion come after its removal. */
  lemma {:induction false} WorkspaceScoped(base: nat, download: Result<string, Raised>,
                                           cut: Interruption, t: Transport)
    requires !t.firstFails
    ensures var ev := Respond(base, true, download, cut, t).events;
      ev[1] == WorkspaceOpened && ev[2] == DownloadStarted &&
      (forall j :: 0 <= j < |ev| && j != 2 ==> ev[j] != DownloadStarted) &&
      exists r :: 2 < r < |ev| - 1 && ev[r] == WorkspaceRemoved &&
        (forall j :: 2 < j < r ==> ev[j].Sent? && ev[j].reply.Video?) &&
        (forall j :: r < j < |ev| - 1 ==> ev[j].Sent? && ev[j].reply.Text?)
  {
    var ev := Respond(base, true, download, cut, t).events;
    var job := Job(download, cut, t);
    var r := |job.events|;
    assert ev[r] == job.events[|job.events| - 1];
    forall j | 0 < j <= r ensures ev[j] == job.events[j - 1] {
    }
  }

  /** The only video the handler sends is the path download_video returned,
      with the success caption, and only for a supported text. */
  lemma {:induction false} VideoOnlyFromDownload(base: nat, supported: bool, download: Result<string, Raised>,
                                                 cut: Interruption, t: Transport)
    ensures var ev := Respond(base, supported, download, cut, t).events;
      forall k :: 0 <= k < |ev| && ev[k].Sent? && ev[k].reply.Video? ==>
        supported && download.Ok? && ev[k].reply == Video(download.value, SuccessCaption)
  {
    if supported && !t.firstFails {
      var job := Job(download, cut, t);
      var reply := ErrorReply(job.outcome);
      var replyEvents := if reply.Some? then [Sent(Text(reply.value), !t.errorReplyFails)] else [];
      var ev := [Sent(Text(ProgressText), true)] + job.events + replyEvents + [Deleted(base, !t.deleteFails)];
      assert Respond(base, supported, download, cut, t).events == ev;
      forall k | 0 <= k < |ev| && ev[k].Sent? && ev[k].reply.Video?
        ensures download.Ok? && ev[k].reply == Video(download.value, SuccessCaption)
      {
        if 0 < k <= |job.events| {
          assert ev[k] == job.events[k - 1];
        }
      }
    }
  }

  /** End to end: a video is only ever sent for a supported text, with the
      success caption, and only the artifact that download_video accepted,
      an existing ".mp4" file within the size limit. */
  lemma {:induction false} VideoOnlyAfterValidation(base: nat, text: string, engine: EngineResult,
                                                    files: map<string, nat>, cut: Interruption, t: Transport)
    ensures var ev := Handle(base, text, engine, files, cut, t).events;
      forall k :: 0 <= k < |ev| && ev[k].Sent? && ev[k].reply.Video? ==>
        IsSupportedUrl(Strip(text)) && ev[k].reply.caption == SuccessCaption &&
        ev[k].reply.file in files && files[ev[k].reply.file] <= MaxFileSizeBytes &&
        Suffix(Name(ev[k].reply.file)) == Mp4
  {
    var download := DownloadVideo(engine, files);
    VideoOnlyFromDownload(base, IsSupportedUrl(Strip(text)), download, cut, t);
  }

  /** When the text replies go through, the conversation receives the
      progress message and then the reply that matches the outcome: the
      video on success, the DownloadError's message after a DownloadError,
      the timeout text when the deadline expires or a TimeoutError is raised,
      the exception's description for anything else. An upload cut off by
      the deadline, or one that raised, may still have reached the
      conversation; then the video comes before the timeout or error text.
      An outside cancellation gets no reply. */
  lemma {:induction false} ReplyMatchesOutcome(base: nat, download: Result<string, Raised>,
                                               cut: Interruption, t: Transport)
    requires !t.firstFails && !t.errorReplyFails
    ensures var rs := DeliveredReplies(Respond(base, true, download, cut, t).events);
      var p := Text(ProgressText);
      var landed := if download.Ok? && t.uploadLanded then [Video(download.value, SuccessCaption)] else [];
      (cut == DeadlineDuringDownload ==> rs == [p, Text(TimeoutText)]) &&
      (cut == CancelledDuringDownload ==> rs == [p]) &&
      (cut != DeadlineDuringDownload && cut != CancelledDuringDownload && download.Err? ==>
        rs == [p, Text(match download.error
                       case DownloadError(message) => DownloadFailedPrefix + message
                       case TimeoutError => TimeoutText
                       case OtherError(description) => UnexpectedPrefix + description)]) &&
      (cut == DeadlineAfterDownload && download.Ok? ==> rs == [p] + landed + [Text(TimeoutText)]) &&
      (cut == Uninterrupted && download.Ok? && !t.videoFails ==>
        rs == [p, Video(download.value, SuccessCaption)]) &&
      (cut == Uninterrupted && download.Ok? && t.videoFails ==>
        rs == [p] + landed + [Text(UnexpectedPrefix + t.videoFailure)])
  {
    if cut == DeadlineDuringDownload || cut == CancelledDuringDownload {
      RepliesWhenCutEarly(base, download, cut, t);
    } else if download.Err? {
      RepliesAfterFailure(base, download, cut, t);
    } else {
      RepliesAfterUpload(base, download, cut, t);
    }
  }

  lemma {:induction false} RepliesWhenCutEarly(base: nat, download: Result<string, Raised>,
                                               cut: Interruption, t: Transport)
    requires !t.firstFails && !t.errorReplyFails
    requires cut == DeadlineDuringDownload || cut == CancelledDuringDownload
    ensures DeliveredReplies(Respond(base, true, download, cut, t).events) ==
      if cut == DeadlineDuringDownload then [Text(ProgressText), Text(TimeoutText)] else [Text(ProgressText)]
  {
    RunReplies(base, download, cut, t);
    JobReplies(download, cut, t);
  }

  lemma {:induction false} RepliesAfterFailure(base: nat, download: Result<string, Raised>,
                                               cut: Interruption, t: Transport)
    requires !t.firstFails && !t.errorReplyFails && download.Err?
    requires cut == Uninterrupted || cut == DeadlineAfterDownload
    ensures DeliveredReplies(Respond(base, true, download, cut, t).events) ==
      [Text(ProgressText), Text(match download.error
                                case DownloadError(message) => DownloadFailedPrefix + message
                                case TimeoutError => TimeoutText
                                case OtherError(description) => UnexpectedPrefix + description)]
  {
    RunReplies(base, download, cut, t);
    JobReplies(download, cut, t);
    assert Job(download, cut, t).outcome == Failed(download.error);
  }

  lemma {:induction false} RepliesAfterUpload(base: nat, download: Result<string, Raised>,
                                              cut: Interruption, t: Transport)
    requires !t.firstFails && !t.errorReplyFails && download.Ok?
    requires cut == Uninterrupted || cut == DeadlineAfterDownload
    ensures var video := Video(download.value, SuccessCaption);
      var landed := if t.uploadLanded then [video] else [];
      DeliveredReplies(Respond(base, true, download, cut, t).events) ==
        if cut == DeadlineAfterDownload then [Text(ProgressText)] + landed + [Text(TimeoutText)]
        else if t.videoFails then [Text(ProgressText)] + landed + [Text(UnexpectedPrefix + t.videoFailure)]
        else [Text(ProgressText), video]
  {
    RunReplies(base, download, cut, t);
    JobReplies(download, cut, t);
  }

  /** The delivered replies of a run whose progress message went out: the
      progress message, what the job delivered, and the error reply if there
      is one and it went through. */
  lemma {:induction false} RunReplies(base: nat, download: Result<string, Raised>,
                                      cut: Interruption, t: Transport)
    requires !t.firstFails
    ensures var job := Job(download, cut, t);
      var reply := ErrorReply(job.outcome);
      DeliveredReplies(Respond(base, true, download, cut, t).events) ==
        [Text(ProgressText)] + DeliveredReplies(job.events) +
        (if reply.Some? && !t.errorReplyFails then [Text(reply.value)] else [])
  {
    var job := Job(download, cut, t);
    var reply := ErrorReply(job.outcome);
    var replyEvents := if reply.Some? then [Sent(Text(reply.value), !t.errorReplyFails)] else [];
    var last := [Deleted(base, !t.deleteFails)];
    var head := [Sent(Text(ProgressText), true)];
    assert Respond(base, true, download, cut, t).events == head + job.events + replyEvents + last;
    DeliveredRepliesAppend(head + job.events + replyEvents, last);
    DeliveredRepliesAppend(head + job.events, replyEvents);
    DeliveredRepliesAppend(head, job.events);
    DeliveredOne(head[0]);
    DeliveredOne(last[0]);
    if reply.Some? {
      DeliveredOne(replyEvents[0]);
    }
  }

  /** The job delivers the video when the upload completes, or when an
      upload that was cut off or raised had already landed, and nothing
      else. */
  lemma {:induction false} JobReplies(download: Result<string, Raised>, cut: Interruption, t: Transport)
    ensures DeliveredReplies(Job(download, cut, t).events) ==
      if download.Ok? && ((cut == Uninterrupted && !t.videoFails) ||
                          ((cut == Uninterrupted || cut == DeadlineAfterDownload) && t.uploadLanded))
      then [Video(download.value, SuccessCaption)] else []
  {
    var je := Job(download, cut, t).events;
    if |je| == 3 {
      assert je == [WorkspaceOpened, DownloadStarted, WorkspaceRemoved];
      FrameDeliversNothing();
    } else {
      assert je == [WorkspaceOpened, DownloadStarted, je[2], WorkspaceRemoved];
      FrameDeliversInner(je[2]);
    }
  }

  lemma FrameDeliversNothing()
    ensures DeliveredReplies([WorkspaceOpened, DownloadStarted, WorkspaceRemoved]) == []
  {
    var s := [WorkspaceOpened, DownloadStarted, WorkspaceRemoved];
    assert s[1..][1..][1..] == [];
  }

  lemma FrameDeliversInner(e: Event)
    ensures DeliveredReplies([WorkspaceOpened, DownloadStarted, e, WorkspaceRemoved]) ==
      if e.Sent? && e.delivered then [e.reply] else []
  {
    var s := [WorkspaceOpened, DownloadStarted, e, WorkspaceRemoved];
    var tail := [e, WorkspaceRemoved];
    assert s[1..][1..] == tail;
    assert DeliveredReplies(s) == DeliveredReplies(tail);
    assert tail[1..] == [WorkspaceRemoved];
    DeliveredOne(WorkspaceRemoved);
  }

  /** Job failures, timeouts and a failed deletion never leave the handler:
      it returns normally unless a reply cannot be sent or the task is
      cancelled from outside. */
  lemma {:induction false} FailuresStayInside(base: nat, supported: bool, download: Result<string, Raised>,
                                              cut: Interruption, t: Transport)
    requires !t.firstFails && !t.errorReplyFails && cut != CancelledDuringDownload
    ensures Respond(base, supported, download, cut, t).exit == Returned
  {
  }

  /** Whether the deletion of the progress message fails changes nothing but
      that attempt's own result: the earlier steps and the way the handler
      ends are the same. */
  lemma {:induction false} DeleteFailureSwallowed(base: nat, supported: bool, download: Result<string, Raised>,
                                                  cut: Interruption, t: Transport)
    ensures var a := Respond(base, supported, download, cut, t.(deleteFails := false));
      var b := Respond(base, supported, download, cut, t.(deleteFails := true));
      a.exit == b.exit && |a.events| == |b.events| && a.events[..|a.events| - 1] == b.events[..|b.events| - 1]
  {
  }
}
