/**
 * `VideoExtractorEngine.extract`: fetch the yt-dlp document of a URL, read
 * the video's metadata with their defaults, turn its formats into the two
 * stream tables, and report any exception as a failed envelope.
 */
module Service {
  import opened Optional
  import opened Text
  import opened FormatLabels
  import opened FormatTable
  import opened UrlCleaning
  import opened Cascade
  import opened Ordering

  /**
   * The top-level fields of a yt-dlp document the engine reads, each `None`
   * when missing; `top` is the document read as a format entry, used when it
   * has no `formats` list of its own.
   */
  datatype RawInfo = RawInfo(
    title: Option<string>,
    duration: Option<int>,
    thumbnail: Option<string>,
    uploader: Option<string>,
    channel: Option<string>,
    uploadDate: Option<string>,
    viewCount: Option<int>,
    likeCount: Option<int>,
    webpageUrl: Option<string>,
    extractor: Option<string>,
    formats: Option<seq<RawFormat>>,
    top: RawFormat)

  /** What `json.loads` returns: an object, or a value of another JSON type (named as Python names it). */
  datatype Document = Object(info: RawInfo) | NonObject(typeName: string)

  datatype VideoInfo = VideoInfo(
    title: string, duration: int, thumbnail: string, uploader: string,
    uploadDate: string, viewCount: int, likeCount: int,
    webpageUrl: string, extractor: string)

  /** The response of `extract`, without its timestamp. */
  datatype Envelope =
    | Success(info: VideoInfo, videos: seq<VideoStream>, audios: seq<AudioStream>,
              totalVideos: nat, totalAudios: nat)
    | Failure(error: string)

  /** The metadata with their defaults; the page URL defaults to the URL as requested, before cleaning. */
  function InfoOf(d: RawInfo, requested: string): (v: VideoInfo)
    ensures v.uploader == (if d.uploader.Some? then d.uploader.value
                           else if d.channel.Some? then d.channel.value else "Unknown")
    ensures v.webpageUrl == d.webpageUrl.GetOr(requested)
    ensures d.title.None? ==> v.title == "Unknown"
  {
    VideoInfo(
      d.title.GetOr("Unknown"), d.duration.GetOr(0), d.thumbnail.GetOr(""),
      d.uploader.GetOr(d.channel.GetOr("Unknown")),
      d.uploadDate.GetOr(""), d.viewCount.GetOr(0), d.likeCount.GetOr(0),
      d.webpageUrl.GetOr(requested), d.extractor.GetOr("unknown"))
  }

  /**
   * The formats the loop walks: the `formats` list, or, when that is missing
   * or empty and the document has a non-empty `url`, the document itself.
   */
  function EffectiveFormats(d: RawInfo): (fs: seq<RawFormat>)
    ensures d.formats.Some? && d.formats.value != [] ==> fs == d.formats.value
    ensures (d.formats.None? || d.formats.value == []) && d.top.url.Some? && d.top.url.value != ""
            ==> fs == [d.top]
    ensures (d.formats.None? || d.formats.value == []) && !(d.top.url.Some? && d.top.url.value != "")
            ==> fs == []
  {
    var listed := d.formats.GetOr([]);
    if listed == [] && d.top.url.Some? && d.top.url.value != "" then [d.top] else listed
  }

  /** The message of the `AttributeError` raised by `.get` on a value that is not a dict. */
  function NoGetMessage(typeName: string): string {
    "'" + typeName + "' object has no attribute 'get'"
  }

  /** The envelope built from a parsed object. */
  function Tables(d: RawInfo, requested: string): Envelope {
    var fs := EffectiveFormats(d);
    Success(InfoOf(d, requested),
            Prefix(UniqueVideos(fs), 20), Prefix(UniqueAudios(fs), 10),
            |UniqueVideos(fs)|, |UniqueAudios(fs)|)
  }

  /** The reference result of `extract`. */
  function ExtractResult(url: string, timeout: int, python: string,
                         env: nat -> Outcome, parse: string -> Option<Document>): Envelope {
    var reply: Reply<Document> := CascadeReply(CleanUrl(url), timeout, python, env, Reader(parse));
    match reply
    case Failed(m) => Failure(m)
    case Parsed(NonObject(t)) => Failure(NoGetMessage(t))
    case Parsed(Object(d)) => Tables(d, url)
  }

  /**
   * `extract`: run the cascade, read the document, build both tables; every
   * exception becomes a failed envelope carrying its message.
   */
  method Extract(url: string, timeout: int, python: string,
                 env: nat -> Outcome, parse: string -> Option<Document>)
    returns (r: Envelope, calls: seq<Command>)
    ensures r == ExtractResult(url, timeout, python, env, parse)
    ensures calls == CascadeCalls(CleanUrl(url), python, env, Reader(parse))
  {
    var reply: Reply<Document>;
    reply, calls := RunYtDlpJson(url, timeout, python, env, parse);
    match reply
    case Failed(m) =>
      r := Failure(m);
    case Parsed(NonObject(t)) =>
      r := Failure(NoGetMessage(t));
    case Parsed(Object(d)) =>
      var info := InfoOf(d, url);
      var fs := EffectiveFormats(d);
      var videos, audios, totalVideos, totalAudios := ProcessFormats(fs);
      r := Success(info, videos, audios, totalVideos, totalAudios);
  }

  /**
   * A successful envelope holds at most 20 videos and 10 audios, best first,
   * each list the head of the deduplicated list whose length it reports, and
   * no more entries in total than the document has formats.
   */
  lemma SuccessShape(url: string, timeout: int, python: string,
                     env: nat -> Outcome, parse: string -> Option<Document>)
    ensures var r := ExtractResult(url, timeout, python, env, parse);
      r.Success? ==>
        && |r.videos| <= 20 && |r.audios| <= 10
        && |r.videos| <= r.totalVideos && |r.audios| <= r.totalAudios
        && (r.totalVideos > 20 ==> |r.videos| == 20)
        && (r.totalAudios > 10 ==> |r.audios| == 10)
        && SortedDesc(r.videos, VideoRank) && SortedDesc(r.audios, AudioRank)
  {
    var reply: Reply<Document> := CascadeReply(CleanUrl(url), timeout, python, env, Reader(parse));
    match reply
    case Parsed(Object(d)) =>
      var fs := EffectiveFormats(d);
      UniqueVideosFacts(fs);
      UniqueAudiosFacts(fs);
      PrefixSorted(UniqueVideos(fs), 20, VideoRank);
      PrefixSorted(UniqueAudios(fs), 10, AudioRank);
    case _ =>
  }

  /** The envelope fails exactly when the cascade fails or yields something other than an object. */
  lemma FailureSource(url: string, timeout: int, python: string,
                      env: nat -> Outcome, parse: string -> Option<Document>)
    ensures var reply := CascadeReply(CleanUrl(url), timeout, python, env, Reader(parse));
      ExtractResult(url, timeout, python, env, parse).Failure? <==>
        reply.Failed? || reply.value.NonObject?
    ensures var reply := CascadeReply(CleanUrl(url), timeout, python, env, Reader(parse));
      reply.Failed? ==> ExtractResult(url, timeout, python, env, parse) == Failure(reply.message)
  {
  }

  /**
   * A timeout in the first attempt is reported as the timeout message itself,
   * after that one call.
   */
  lemma FirstTimeoutReported(url: string, timeout: int, python: string,
                             env: nat -> Outcome, parse: string -> Option<Document>)
    requires env(0).TimedOut?
    ensures ExtractResult(url, timeout, python, env, parse) == Failure(TimeoutMessage(timeout))
    ensures CascadeCalls(CleanUrl(url), python, env, Reader(parse)) == [Standard(CleanUrl(url))]
  {
    var u := CleanUrl(url);
    TimeoutEndsCall(u, timeout, python, env, Reader(parse), 0);
    PlanGating(u, python);
  }
}
