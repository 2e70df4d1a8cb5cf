/**
 * The tail of download_video in bot.py: after the extraction engine has run,
 * the reported file name gets ".mp4" as its last suffix. The result is then
 * accepted only if that file exists and is no larger than the size limit.
 *
 * Paths are strings with '/' as the separator, taken in the normal form that
 * pathlib gives them (no repeated or trailing separators). The scratch
 * directory's contents after the engine has run are a map from path to size
 * in bytes.
 */
module Artifact {
  import opened Wrappers

  /** MAX_FILESIZE_BYTES: 48 MiB, kept below Telegram's own upload limit. */
  const MaxFileSizeBytes: nat := 48 * 1024 * 1024

  /** The suffix the artifact path is given. */
  const Mp4: string := ".mp4"

  /** The exceptions download_video can raise, sorted by the except branch
      of handle_url that catches them. DownloadError is yt-dlp's exception
      class. TimeoutError is Python's builtin one (asyncio.TimeoutError is the
      same class since Python 3.11), for example a socket timeout escaping the
      engine. OtherError is any other exception, reported with its
      description. */
  datatype Raised = DownloadError(message: string) | TimeoutError | OtherError(description: string)

  /** What the extraction engine reports for one URL. Extracted carries the
      file name prepare_filename gives for the extracted media. ExtractFailed
      is a DownloadError raised by the engine, with its message.
      EngineTimedOut is a TimeoutError escaping the engine. EngineCrashed is
      any other exception escaping the engine. */
  datatype EngineResult =
    | Extracted(filename: string)
    | ExtractFailed(reason: string)
    | EngineTimedOut
    | EngineCrashed(description: string)

  const NotFoundPrefix: string := "Không tìm thấy file sau khi tải: "
  const TooLargeMessage: string :=
    "Video lớn hơn giới hạn gửi file của bot (≈48MB). Hãy thử link khác hoặc video ngắn hơn."

  /** str.rfind for one character. */
  function LastIndexOf(s: string, c: char): (r: Option<nat>)
    ensures r.Some? ==> r.value < |s| && s[r.value] == c
    ensures forall k :: (if r.Some? then r.value + 1 else 0) <= k < |s| ==> s[k] != c
  {
    if s == [] then None
    else if s[|s| - 1] == c then Some(|s| - 1)
    else LastIndexOf(s[..|s| - 1], c)
  }

  /** PurePath.name: the text after the last separator. */
  function Name(p: string): (r: string)
    ensures |r| <= |p| && r == p[|p| - |r|..]
    ensures '/' !in r
    ensures |r| < |p| ==> p[|p| - |r| - 1] == '/'
  {
    match LastIndexOf(p, '/')
    case Some(i) => p[i + 1..]
    case None => p
  }

  /** Everything in front of the name, separator included. */
  function DirPrefix(p: string): (r: string)
    ensures p == r + Name(p)
    ensures r == [] || r[|r| - 1] == '/'
  {
    p[..|p| - |Name(p)|]
  }

  /** PurePath.suffix: from the name's last dot to its end, unless that dot is
      the name's first or last character, in which case there is none. */
  function Suffix(name: string): (r: string)
    ensures r == [] || (2 <= |r| < |name| && r == name[|name| - |r|..] && r[0] == '.')
    ensures r != [] ==> forall k :: 1 <= k < |r| ==> r[k] != '.'
    ensures r == [] ==> name == [] || name[|name| - 1] == '.' || forall k :: 0 < k < |name| ==> name[k] != '.'
  {
    match LastIndexOf(name, '.')
    case Some(i) =>
      if 0 < i < |name| - 1 then name[i..] else []
    case None => []
  }

  /** The name without its suffix. */
  function Stem(name: string): (r: string)
    ensures name == r + Suffix(name)
    ensures name != [] ==> r != []
  {
    name[..|name| - |Suffix(name)|]
  }

  /** The text that Path.with_suffix's ValueError carries. */
  function EmptyNameText(p: string): string {
    "PosixPath('" + p + "') has an empty name"
  }

  lemma {:induction false} NameOfJoin(d: string, x: string)
    requires d == [] || d[|d| - 1] == '/'
    requires '/' !in x
    ensures Name(d + x) == x && DirPrefix(d + x) == d
  {
    var q := d + x;
    var n := Name(q);
    assert |n| == |x|;
    assert n == q[|d|..] == x;
  }

  lemma {:induction false} SuffixAfterStem(stem: string)
    requires stem != [] && '/' !in stem
    ensures Suffix(stem + Mp4) == Mp4 && Stem(stem + Mp4) == stem
  {
    var n := stem + Mp4;
    var r := LastIndexOf(n, '.');
    assert n[|stem|] == '.';
    assert r == Some(|stem|);
    assert n[|stem|..] == Mp4;
  }

  /**
   * Path(p).with_suffix(".mp4"): the last suffix of the name is replaced by
   * ".mp4", or ".mp4" is appended when the name has none. The directory and
   * the stem are kept. A path with an empty name is a ValueError.
   */
  function WithMp4Suffix(p: string): (r: Result<string, Raised>)
    ensures r.Err? <==> Name(p) == []
    ensures r.Err? ==> r.error == OtherError(EmptyNameText(p))
    ensures r.Ok? ==> DirPrefix(r.value) == DirPrefix(p)
    ensures r.Ok? ==> Name(r.value) == Stem(Name(p)) + Mp4
    ensures r.Ok? ==> Suffix(Name(r.value)) == Mp4 && Stem(Name(r.value)) == Stem(Name(p))
  {
    if Name(p) == [] then Err(OtherError(EmptyNameText(p)))
    else
      RewriteParts(p);
      Ok(DirPrefix(p) + Stem(Name(p)) + Mp4)
  }

  /** How the rewritten path splits into directory, name, stem and suffix. */
  lemma {:induction false} RewriteParts(p: string)
    requires Name(p) != []
    ensures var q := DirPrefix(p) + Stem(Name(p)) + Mp4;
      DirPrefix(q) == DirPrefix(p) && Name(q) == Stem(Name(p)) + Mp4 &&
      Suffix(Name(q)) == Mp4 && Stem(Name(q)) == Stem(Name(p))
  {
    NoSlashInStem(Name(p));
    JoinMp4(DirPrefix(p), Stem(Name(p)));
  }

  lemma NoSlashInStem(name: string)
    requires '/' !in name
    ensures '/' !in Stem(name)
  {
  }

  lemma {:induction false} NoSlashAfterStem(stem: string)
    requires '/' !in stem
    ensures '/' !in stem + Mp4
  {
    var x := stem + Mp4;
    assert forall k :: 0 <= k < |x| ==> x[k] == if k < |stem| then stem[k] else Mp4[k - |stem|];
  }

  /** Directory d joined with stem + ".mp4" splits back into d and that name,
      and the name's suffix is ".mp4". */
  lemma {:induction false} JoinMp4(d: string, stem: string)
    requires d == [] || d[|d| - 1] == '/'
    requires stem != [] && '/' !in stem
    ensures Name(d + stem + Mp4) == stem + Mp4 && DirPrefix(d + stem + Mp4) == d
    ensures Suffix(stem + Mp4) == Mp4 && Stem(stem + Mp4) == stem
  {
    NoSlashAfterStem(stem);
    NameOfJoin(d, stem + Mp4);
    assert d + stem + Mp4 == d + (stem + Mp4);
    SuffixAfterStem(stem);
  }

  /** Rewriting the suffix a second time changes nothing. */
  lemma {:induction false} WithMp4SuffixIdempotent(p: string)
    requires WithMp4Suffix(p).Ok?
    ensures WithMp4Suffix(WithMp4Suffix(p).value) == WithMp4Suffix(p)
  {
    var q := WithMp4Suffix(p).value;
    assert Name(q) != [];
    assert DirPrefix(q) + Stem(Name(q)) + Mp4 == q;
  }

  /** The file name yt-dlp makes from the template "video.%(ext)s" inside the
      scratch directory, for the extension ext. */
  function Filled(workdir: string, ext: string): string {
    workdir + "/" + ("video." + ext)
  }

  /** For an extension without a separator, the filled template is the name
      "video.<ext>" directly inside the scratch directory. */
  lemma {:induction false} FilledParts(workdir: string, ext: string)
    requires '/' !in ext
    ensures Name(Filled(workdir, ext)) == "video." + ext
    ensures DirPrefix(Filled(workdir, ext)) == workdir + "/"
  {
    NameOfTemplate(ext);
    NameOfJoin(workdir + "/", "video." + ext);
  }

  lemma {:induction false} NameOfTemplate(ext: string)
    requires '/' !in ext
    ensures '/' !in "video." + ext
  {
    var name := "video." + ext;
    assert forall k :: 0 <= k < |name| ==> name[k] == if k < 6 then "video."[k] else ext[k - 6];
  }

  lemma {:induction false} SingleExtension(ext: string)
    requires ext != [] && '.' !in ext
    ensures Stem("video." + ext) == "video"
  {
    var name := "video." + ext;
    var r := LastIndexOf(name, '.');
    assert name[5] == '.';
    assert forall k :: 6 <= k < |name| ==> name[k] == ext[k - 6];
    assert r == Some(5);
    assert Suffix(name) == name[5..];
  }

  /** Whatever single extension the engine filled in, the artifact looked for
      is "video.mp4" in the same directory. */
  lemma {:induction false} TemplateArtifact(workdir: string, ext: string)
    requires ext != [] && '/' !in ext && '.' !in ext
    ensures WithMp4Suffix(Filled(workdir, ext)) == Ok(workdir + "/" + "video" + Mp4)
  {
    FilledParts(workdir, ext);
    SingleExtension(ext);
  }

  /**
   * download_video after the engine has run: the engine's own failures
   * propagate unchanged. Otherwise the ".mp4" artifact must exist and must
   * not be larger than MaxFileSizeBytes, and its path is returned.
   */
  function DownloadVideo(engine: EngineResult, files: map<string, nat>): (r: Result<string, Raised>)
    ensures r.Ok? ==> engine.Extracted? && WithMp4Suffix(engine.filename) == Ok(r.value)
    ensures r.Ok? ==> r.value in files && files[r.value] <= MaxFileSizeBytes
    ensures r.Ok? ==> Suffix(Name(r.value)) == Mp4 && DirPrefix(r.value) == DirPrefix(engine.filename)
    ensures engine.ExtractFailed? ==> r == Err(DownloadError(engine.reason))
    ensures engine.EngineTimedOut? ==> r == Err(TimeoutError)
    ensures engine.EngineCrashed? ==> r == Err(OtherError(engine.description))
  {
    match engine
    case ExtractFailed(reason) => Err(DownloadError(reason))
    case EngineTimedOut => Err(TimeoutError)
    case EngineCrashed(description) => Err(OtherError(description))
    case Extracted(filename) =>
      match WithMp4Suffix(filename)
      case Err(e) => Err(e)
      case Ok(path) =>
        if path !in files then Err(DownloadError(NotFoundPrefix + path))
        else if files[path] > MaxFileSizeBytes then Err(DownloadError(TooLargeMessage))
        else Ok(path)
  }

  /** A path is returned exactly when the engine reported a file whose ".mp4"
      artifact exists and is within the limit. */
  lemma {:induction false} DownloadAcceptedIff(engine: EngineResult, files: map<string, nat>)
    ensures DownloadVideo(engine, files).Ok? <==>
      engine.Extracted? && WithMp4Suffix(engine.filename).Ok? &&
      WithMp4Suffix(engine.filename).value in files &&
      files[WithMp4Suffix(engine.filename).value] <= MaxFileSizeBytes
  {
  }

  /** A missing artifact after a successful extraction is a DownloadError
      naming the path; no path is returned. */
  lemma {:induction false} MissingArtifactRejected(filename: string, files: map<string, nat>)
    requires WithMp4Suffix(filename).Ok? && WithMp4Suffix(filename).value !in files
    ensures DownloadVideo(Extracted(filename), files) ==
      Err(DownloadError(NotFoundPrefix + WithMp4Suffix(filename).value))
  {
  }

  /** The size check is strict: exactly MaxFileSizeBytes is accepted, one
      byte more is a DownloadError with the "too large" message. */
  lemma {:induction false} SizeLimitBoundary(filename: string, files: map<string, nat>)
    requires WithMp4Suffix(filename).Ok? && WithMp4Suffix(filename).value in files
    ensures var p := WithMp4Suffix(filename).value;
      (files[p] == MaxFileSizeBytes ==> DownloadVideo(Extracted(filename), files) == Ok(p)) &&
      (files[p] > MaxFileSizeBytes ==> DownloadVideo(Extracted(filename), files) == Err(DownloadError(TooLargeMessage)))
  {
  }

  /** Only the ".mp4" artifact is consulted: two directory states that agree
      on it give the same result, whatever else the engine left behind (a
      file under the extension it reported included). */
  lemma {:induction false} OnlyArtifactConsulted(engine: EngineResult, files: map<string, nat>, files': map<string, nat>)
    requires engine.Extracted? && WithMp4Suffix(engine.filename).Ok?
    requires var p := WithMp4Suffix(engine.filename).value;
      (p in files <==> p in files') && (p in files ==> files[p] == files'[p])
    ensures DownloadVideo(engine, files) == DownloadVideo(engine, files')
  {
    var p := WithMp4Suffix(engine.filename).value;
    if p in files && files[p] <= MaxFileSizeBytes {
      assert DownloadVideo(engine, files) == Ok(p) == DownloadVideo(engine, files');
    }
  }
}
