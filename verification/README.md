# Telegram video relay bot: a Dafny model of its core

The bot in `bot.py` takes a text message from a Telegram chat. It checks
whether the text names a Facebook or Instagram host, then downloads the video
with yt-dlp into a scratch directory and sends it back. Every failure gets a
text reply, and the "downloading" progress message is always deleted
afterwards. This project models the three parts of that file that carry its
logic, and proves what they guarantee:

- `classifier.dfy`, module `UrlClassifier`, covers `VIDEO_DOMAIN_RE` and
  `is_supported_url`. The case-insensitive regex search is modelled as the
  regex engine runs it: leftmost start position first, then the alternatives
  in the pattern's order. It is proved equal to the declarative reading "the
  case-folded text contains one of the four host names".
- `artifact.dfy`, module `Artifact`, covers the tail of `download_video`. It
  rewrites the reported file name's last suffix to `.mp4` with pathlib's
  `with_suffix` rules, checks that the file exists, and applies the
  `MAX_FILESIZE_BYTES` limit. The engine's result and the scratch directory's
  contents afterwards (a map from path to size) are inputs.
- `handler.dfy`, module `RequestHandler`, covers `handle_url`. `str.strip`,
  the early rejection, the progress message, the try block (deadline, scratch
  directory, download, upload), the three `except` branches and the `finally`
  deletion are all modelled. Every Telegram call the handler makes, the
  hand-over of `download_video` to the worker thread, and the opening and
  removal of the scratch directory are appended to a log of events. `Handle`
  is the reference definition of that log. The class `Relay` builds the same
  log step by step, as the source does. A ghost flag records whether the
  scratch directory exists, and the download and the upload require it. The
  transport and the engine are inputs:
  - the engine's result;
  - the files the engine leaves behind;
  - where the five-minute deadline or an outside cancellation cuts in;
  - which Telegram calls fail, with the description of the exception the
    failed video upload raises and, separately, of the exception a failed
    text reply lets escape from the handler;
  - whether a video upload that raised or was cut off had already reached
    the chat.
- `wrappers.dfy` holds `Option` and `Result`.

A missing artifact and an oversized artifact both raise yt-dlp's
`DownloadError` (bot.py:78-85). Both get the "Không tải được video: …" reply
with the exception's message.

## Model

| member | source | states |
|---|---|---|
| UrlClassifier.Fold | bot.py:32 | the case folding of `re.IGNORECASE` for the host names' alphabet: upper-case ASCII letters map to lower case, lower-case letters and the dot are kept, and any changed character becomes a lower-case ASCII letter |
| UrlClassifier.AlternativeAt | bot.py:31 | returns the first alternative of the pattern, in the pattern's order, that matches at the given position, and none before it matches |
| UrlClassifier.SearchFrom | bot.py:55 | a found match lies in the text and matches there; no earlier position has any match, and at the found position no earlier alternative matches (the leftmost-first result of `re.search`) |
| UrlClassifier.IsSupportedUrl | bot.py:54-55 | `is_supported_url(u)` holds exactly when some host name matches, ignoring case, at some position of the text |
| UrlClassifier.MatchMeansSupported | bot.py:54-55 | a host name matching anywhere in the text makes the text supported |
| UrlClassifier.IsSupportedUrlSpec | bot.py:30-33 | `is_supported_url(u)` holds exactly when the case-folded text contains `facebook.com`, `fb.watch`, `instagram.com` or `instagr.am` as a contiguous substring (both directions) |
| UrlClassifier.MatchesAtIffOccurs | bot.py:32 | a case-insensitive match at a position is the same as the folded host name occurring there |
| UrlClassifier.SameFoldSameVerdict | bot.py:32 | texts with the same case-folded form are classified alike; this covers the four non-ASCII characters that fold onto host-name letters |
| UrlClassifier.CaseInsensitive | bot.py:32 | changing the ASCII letter case of any characters does not change the verdict |
| UrlClassifier.SupportedUnderExtension | bot.py:55 | if `u` is supported, then `p + u + s` is supported for every `p` and `s` |
| UrlClassifier.HostAlphabet | bot.py:31 | every character of every host name is a lower-case ASCII letter or a literal dot |
| Artifact.LastIndexOf | bot.py:76 | the index found holds the character, and no later index does; none means the character does not occur |
| Artifact.Name | bot.py:76 | the name is the part of the path after the last `/`: a suffix of the path, free of `/`, preceded by `/` when shorter than the path |
| Artifact.DirPrefix | bot.py:76 | the path is its directory part followed by its name, and the directory part is empty or ends in `/` |
| Artifact.Suffix | bot.py:76 | pathlib's suffix: a non-empty suffix is a tail of the name of length at least 2 that starts with the name's last dot, which is not its first character; the suffix is empty only when the name is empty, ends in a dot, or has no dot after its first character |
| Artifact.Stem | bot.py:76 | the name is its stem followed by its suffix, and a non-empty name has a non-empty stem |
| Artifact.NameOfJoin | bot.py:64 | joining a directory and a `/`-free name splits back into exactly that directory and name |
| Artifact.SuffixAfterStem | bot.py:76 | `stem + ".mp4"` has the suffix `.mp4` and the stem `stem` |
| Artifact.JoinMp4 | bot.py:76 | a directory joined with `stem + ".mp4"` splits back into that directory and name, whose suffix is `.mp4` and whose stem is `stem` |
| Artifact.RewriteParts | bot.py:76 | the rewritten path keeps the directory and the stem, and its name's suffix is `.mp4` |
| Artifact.WithMp4Suffix | bot.py:76 | `with_suffix(".mp4")` fails exactly when the name is empty, with the ValueError's text; otherwise the directory and the stem are kept, and only the last suffix is replaced by `.mp4` (or `.mp4` is appended) |
| Artifact.WithMp4SuffixIdempotent | bot.py:76 | rewriting the suffix of an already rewritten path changes nothing |
| Artifact.FilledParts | bot.py:64 | the template `video.%(ext)s` in the scratch directory, filled with an extension without `/`, names the file `video.<ext>` directly inside that directory |
| Artifact.NameOfTemplate | bot.py:64 | a filled template name contains no `/` when the extension has none |
| Artifact.SingleExtension | bot.py:64 | the stem of `video.<ext>` is `video` for every extension without a dot |
| Artifact.TemplateArtifact | bot.py:64-76 | whatever single extension fills the template `video.%(ext)s`, the artifact looked for is `video.mp4` in the scratch directory |
| Artifact.DownloadVideo | bot.py:74-87 | a path is returned only when the engine extracted a file: it is the `.mp4` rewrite of the reported name, it exists, its size is at most `MAX_FILESIZE_BYTES`, it is in the same directory and its suffix is `.mp4`; the engine's DownloadError, TimeoutError and other exceptions propagate unchanged |
| Artifact.DownloadAcceptedIff | bot.py:78-87 | a path is returned exactly when the engine extracted a file whose `.mp4` rewrite exists and is within the limit (both directions) |
| Artifact.MissingArtifactRejected | bot.py:78-79 | a missing artifact after a successful extraction is a DownloadError whose message names the path |
| Artifact.SizeLimitBoundary | bot.py:81-85 | a size of exactly 50 331 648 bytes is accepted; any larger size is a DownloadError with the "too large" message |
| Artifact.OnlyArtifactConsulted | bot.py:76-81 | two directory states that agree on the `.mp4` artifact give the same result, whatever other files the engine left |
| RequestHandler.IsSpace | bot.py:92 | `str.isspace`: the space, tab, newline and carriage return are whitespace, and no whitespace character is a letter, a digit, `.`, `/` or `:` |
| RequestHandler.LeadingSpaces | bot.py:92 | counts exactly the whitespace characters the text starts with |
| RequestHandler.TrailingSpaces | bot.py:92 | counts exactly the whitespace characters the text ends with |
| RequestHandler.Strip | bot.py:92 | `str.strip()`: the result is a slice of the text with only whitespace before and after it, and it is empty or starts and ends with a character that is not whitespace |
| RequestHandler.StripBounds | bot.py:92 | the trimmed remainder is the slice of the text that ends where its trailing whitespace begins |
| RequestHandler.MatchedNotSpace | bot.py:31 | no character of a host-name match is whitespace |
| RequestHandler.SliceMatchLifts | bot.py:55 | a match inside a slice of the text is a match in the whole text |
| RequestHandler.MatchInsideTrim | bot.py:92 | a match lies inside the part of the text that stripping keeps |
| RequestHandler.MatchInSlice | bot.py:55 | a match inside the kept part is a match of that slice |
| RequestHandler.TrimmedMatchSurvives | bot.py:92-94 | stripping whitespace from both ends keeps a supported text supported |
| RequestHandler.StripKeepsClassification | bot.py:92-94 | classifying the stripped text gives the same verdict as classifying the raw text |
| RequestHandler.Job | bot.py:102-111 | the scratch directory is opened first and removed last; the download starts right after the opening; after it only the video reply of a successful download can be sent; a delivered outcome carries the path download_video returned; the job is cancelled exactly when the outside cancellation cuts in |
| RequestHandler.ErrorReply | bot.py:112-123 | the except branches send a text for every outcome except success and cancellation; the deadline and a TimeoutError raised inside the job both get the timeout text, because that branch comes before the generic one |
| RequestHandler.Respond | bot.py:94-128 | every run starts with a reply: the progress message for a supported text, the rejection otherwise |
| RequestHandler.Handle | bot.py:90-128 | the reference run of handle_url; a download is started only for a text that is supported once stripped, and only after the progress message was posted |
| RequestHandler.DeliveredReplies | bot.py:95-122 | the replies that reached the chat: every one of them is a reply event marked as having reached it, and there are no more of them than events |
| RequestHandler.DeliveredOne | bot.py:95-122 | a single event contributes its reply exactly when it reached the chat |
| RequestHandler.DeliveredRepliesAppend | bot.py:95-122 | the delivered replies of two consecutive stretches of the log are those of the first followed by those of the second |
| RequestHandler.Relay.constructor | bot.py:90 | the log starts empty, with no scratch directory |
| RequestHandler.Relay.OpenWorkspace | bot.py:104 | entering the scratch directory's scope logs its opening and makes it live |
| RequestHandler.Relay.StartDownload | bot.py:105-107 | the download is handed to the worker thread only while the scratch directory exists, and is logged |
| RequestHandler.Relay.Upload | bot.py:108-111 | the video is uploaded only while the scratch directory exists, with the success caption, and is logged with whether it reached the chat |
| RequestHandler.Relay.RemoveWorkspace | bot.py:104 | leaving the scope logs the removal and the directory is no longer live |
| RequestHandler.Relay.RunJob | bot.py:102-111 | appends exactly the job's events to the log and returns the job's outcome; no scratch directory is left behind |
| RequestHandler.Relay.HandleUrl | bot.py:90-128 | appends exactly the reference run's events to the log and ends the way the reference run ends; no scratch directory is left behind |
| RequestHandler.RejectedWithoutProgress | bot.py:92-98 | an unsupported text gets exactly one event, the rejection reply: no progress message, no scratch directory, no download started, no deletion |
| RequestHandler.ProgressFirst | bot.py:100 | for a supported text the progress message comes first; if it cannot be posted, the transport's exception leaves the handler and nothing else happens |
| RequestHandler.ProgressDeletedLast | bot.py:124-128 | once the progress message is posted it is the only one, there are at least five events, and the last event, and the only deletion, is one attempt to delete that message |
| RequestHandler.WorkspaceScoped | bot.py:103-111 | the scratch directory is opened right after the progress message, the download starts inside it exactly once, and the directory is removed once; while it exists only the video is sent after the download, and the text replies and the deletion come after its removal |
| RequestHandler.VideoOnlyFromDownload | bot.py:105-111 | every video sent is the path download_video returned, with the caption "✅ Hoàn thành", for a supported text |
| RequestHandler.VideoOnlyAfterValidation | bot.py:90-111 | end to end: every video sent is for a supported text, with the success caption, and is an existing `.mp4` artifact of at most `MAX_FILESIZE_BYTES` |
| RequestHandler.ReplyMatchesOutcome | bot.py:108-123 | when the text replies go through, the chat receives the progress message and then: the video on success; the DownloadError's message after "Không tải được video: "; the timeout text for the deadline or a TimeoutError; "Bot gặp lỗi: " with the exception's description for anything else, the failed upload's included; an upload that was cut off or raised but had already landed appears before the timeout or error text; an outside cancellation gets no reply |
| RequestHandler.RepliesWhenCutEarly | bot.py:103-118 | a deadline during the download gives the progress message and the timeout text; a cancellation gives the progress message alone |
| RequestHandler.RepliesAfterFailure | bot.py:112-123 | a failed download gives the progress message and the except branch's text for that exception |
| RequestHandler.RepliesAfterUpload | bot.py:108-123 | after a successful download: the video alone when the upload completes, and otherwise the video if it landed, followed by the timeout or error text |
| RequestHandler.RunReplies | bot.py:100-123 | the delivered replies of a run are the progress message, what the job delivered, and the error reply if it went through |
| RequestHandler.JobReplies | bot.py:108-111 | the job delivers the video exactly when the download succeeded and either the upload completed uninterrupted or an upload that was cut off or raised had already landed, and nothing otherwise |
| RequestHandler.FailuresStayInside | bot.py:112-123 | download failures, timeouts and upload failures never leave the handler: it returns normally unless a reply cannot be sent or the task is cancelled |
| RequestHandler.DeleteFailureSwallowed | bot.py:125-128 | whether the deletion fails changes nothing but that attempt's own result: the same earlier events and the same way of ending |

## Behaviour of the source

- `Artifact.TemplateArtifact` and `Artifact.MissingArtifactRejected` together show a consequence of bot.py:64-66 and bot.py:76. Suppose the engine produces a single file that is not mp4, for example `video.webm`. The rewrite then looks for `video.mp4`, and the download is reported as "not found".

## Left out

- Telegram transport (`reply_text`, `reply_video`, `delete`, the `Application` builder, polling): network I/O. Each call is an event in the log, and whether it fails is an input.
- RequestHandler.Respond: a text reply or the progress message whose call raised is recorded as not having reached the chat. python-telegram-bot can raise a timeout after the server accepted a message; only the video upload has a separate input for that (`uploadLanded`).
- The `start` command handler (bot.py:47-51): one fixed reply with no logic.
- yt-dlp (`YoutubeDL`, `extract_info`, `prepare_filename`, the options at bot.py:63-72): a foreign library. Its result is an input: the reported file name, a DownloadError with its message, a TimeoutError, or another exception.
- `asyncio.timeout` and `asyncio.to_thread`: wall-clock time and threads. The deadline and outside cancellation are an input saying where they cut in. Cancellation is modelled only during the download, the longest await.
- The worker thread after a deadline (bot.py:105): the deadline does not stop the thread running `download_video`; the handler only stops waiting for it. The model records the handler's side alone, so the thread's later writes into the removed directory are not modelled.
- `tempfile.TemporaryDirectory`, `Path.exists`, `stat`: the real filesystem. The directory's contents are a map from path to size, and the directory's lifetime is the ghost flag `workspaceLive` plus two log events.
- The removal of the scratch directory is assumed to succeed. The cleanup of `TemporaryDirectory` can raise OSError, for example when the worker thread still writes into it after a deadline or a cancellation. The source would then reply "Bot gặp lỗi: …" instead of the timeout text, and after an outside cancellation the handler would return normally. The model does not capture this.
- `read_bytes` (bot.py:109): a failure reading the artifact is not modelled separately. A failing upload stands for every exception raised while sending the video.
- Relay.RunJob: receives the result of `download_video` as a parameter. `HandleUrl` computes that result inside the try section, after the progress message, and the `DownloadStarted` event marks its hand-over inside the scratch directory. `download_video` is a pure function of its inputs in the model, so computing it just before the directory opens does not change the result.
- Artifact.WithMp4Suffix: paths are taken in pathlib's normal form, with no repeated or trailing `/` and no `.` components. pathlib's normalisation of other spellings is not modelled: `Path('.')` has an empty name in pathlib, but the model rewrites it to `..mp4`. The ValueError text is modelled as the `PosixPath` repr with the path inserted verbatim, without Python's quoting of special characters.
- UrlClassifier.IsSupportedUrl: only the fixed four-way alternation is modelled, not a general regex engine. Case folding covers ASCII letters plus the four non-ASCII characters (KELVIN SIGN, the two dotted/dotless i's, LONG S) that Python's case-insensitive matching maps onto letters of the host names.
- The `assert update.message` (bot.py:91): the model assumes the update carries a text message.
- `validate_env`, `load_dotenv`, logging and `main`: configuration and start-up, with no logic to prove.
