/**
 * The format loop of `extract`: each yt-dlp format with a usable URL becomes a
 * video entry (it has a video codec) or an audio entry (it has only an audio
 * codec); both lists are then sorted best first, stripped of duplicates and
 * cut to 20 videos and 10 audios.
 */
module FormatTable {
  import opened Optional
  import opened Text
  import opened FormatLabels
  import opened ByteSize
  import opened Ordering
  import opened Deduplication

  datatype VideoStream = VideoStream(
    formatId: string, url: string, ext: string, filesize: SizeField,
    filesizeHuman: Option<string>, protocol: string,
    height: int, width: int, fps: int, vcodec: string,
    qualityLabel: string, isAdaptive: bool)

  datatype AudioStream = AudioStream(
    formatId: string, url: string, ext: string, filesize: SizeField,
    filesizeHuman: Option<string>, protocol: string,
    acodec: string, abr: int, asr: int,
    qualityLabel: string, isAdaptive: bool)

  /** `vcodec not in ['none', None]` (a missing `vcodec` reads as `'none'`). */
  predicate HasVideo(f: RawFormat)
    ensures HasVideo(f) <==> f.vcodec !in [None, Some("none")]
  {
    f.vcodec.Some? && f.vcodec.value != "none"
  }

  /** `acodec not in ['none', None]`. */
  predicate HasAudio(f: RawFormat)
    ensures HasAudio(f) <==> f.acodec !in [None, Some("none")]
  {
    f.acodec.Some? && f.acodec.value != "none"
  }

  /** The reported `filesize`: the `filesize` field if present, else `filesize_approx`, else 0. */
  function ReportedSize(f: RawFormat): (r: SizeField)
    ensures f.filesize != Absent ==> r == f.filesize
    ensures f.filesize == Absent && f.filesizeApprox != Absent ==> r == f.filesizeApprox
    ensures f.filesize == Absent && f.filesizeApprox == Absent ==> r == Bytes(0)
  {
    if f.filesize != Absent then f.filesize
    else if f.filesizeApprox != Absent then f.filesizeApprox
    else Bytes(0)
  }

  /** The argument `_format_bytes` receives: the same lookup with no default, `null` as `None`. */
  function SizeArgument(f: RawFormat): Option<int> {
    var field := if f.filesize != Absent then f.filesize else f.filesizeApprox;
    match field
    case Bytes(n) => Some(n)
    case _ => None
  }

  /** The video entry of a format, given the URL picked for it. */
  function VideoOf(f: RawFormat, url: string): VideoStream
    requires HasVideo(f)
  {
    VideoStream(
      f.formatId.GetOr("unknown"), url, f.ext.GetOr("unknown"), ReportedSize(f),
      HumanSize(SizeArgument(f)), f.protocol.GetOr("https"),
      f.height, f.width, f.fps, f.vcodec.value,
      QualityLabel(f), !HasAudio(f))
  }

  /** The audio entry of a format, given the URL picked for it. */
  function AudioOf(f: RawFormat, url: string): AudioStream
    requires HasAudio(f)
  {
    AudioStream(
      f.formatId.GetOr("unknown"), url, f.ext.GetOr("unknown"), ReportedSize(f),
      HumanSize(SizeArgument(f)), f.protocol.GetOr("https"),
      f.acodec.value, f.abr, f.asr,
      AudioLabel(f.acodec, f.abr), true)
  }

  /**
   * What one format contributes to the video list: one entry exactly when it
   * has a usable URL and a video codec; that entry is adaptive exactly when
   * the format has no audio.
   */
  function VideoPart(f: RawFormat): (r: seq<VideoStream>)
    ensures |r| <= 1
    ensures |r| == 1 <==> ExtractFormatUrl(f).Some? && HasVideo(f)
    ensures |r| == 1 ==> r[0].url == ExtractFormatUrl(f).value && r[0].isAdaptive == !HasAudio(f)
  {
    match ExtractFormatUrl(f)
    case None => []
    case Some(url) => if HasVideo(f) then [VideoOf(f, url)] else []
  }

  /**
   * What one format contributes to the audio list: one entry exactly when it
   * has a usable URL, an audio codec and no video codec; audio entries are
   * always adaptive.
   */
  function AudioPart(f: RawFormat): (r: seq<AudioStream>)
    ensures |r| <= 1
    ensures |r| == 1 <==> ExtractFormatUrl(f).Some? && HasAudio(f) && !HasVideo(f)
    ensures |r| == 1 ==> r[0].url == ExtractFormatUrl(f).value && r[0].isAdaptive
  {
    match ExtractFormatUrl(f)
    case None => []
    case Some(url) => if HasAudio(f) && !HasVideo(f) then [AudioOf(f, url)] else []
  }

  /** No format lands in both lists. */
  lemma PartsExclusive(f: RawFormat)
    ensures |VideoPart(f)| + |AudioPart(f)| <= 1
  {
  }

  /** The video list the loop builds from `fs`, in input order. */
  function VideoEntries(fs: seq<RawFormat>): seq<VideoStream> {
    if fs == [] then [] else VideoEntries(fs[..|fs| - 1]) + VideoPart(fs[|fs| - 1])
  }

  /** The audio list the loop builds from `fs`, in input order. */
  function AudioEntries(fs: seq<RawFormat>): seq<AudioStream> {
    if fs == [] then [] else AudioEntries(fs[..|fs| - 1]) + AudioPart(fs[|fs| - 1])
  }

  /** Every format adds at most one entry to the two lists together. */
  lemma {:induction false} EntriesCount(fs: seq<RawFormat>)
    ensures |VideoEntries(fs)| + |AudioEntries(fs)| <= |fs|
    decreases |fs|
  {
    if fs != [] {
      EntriesCount(fs[..|fs| - 1]);
      PartsExclusive(fs[|fs| - 1]);
    }
  }

  /** The loop over `formats`: `continue` without a URL, else append to one list or neither. */
  method CollectFormats(fs: seq<RawFormat>) returns (videos: seq<VideoStream>, audios: seq<AudioStream>)
    ensures videos == VideoEntries(fs)
    ensures audios == AudioEntries(fs)
  {
    videos, audios := [], [];
    for i := 0 to |fs|
      invariant videos == VideoEntries(fs[..i])
      invariant audios == AudioEntries(fs[..i])
    {
      EntriesStep(fs, i);
      var f := fs[i];
      var url := ExtractFormatUrl(f);
      if url.None? {
        continue;
      }
      var human := FormatBytes(SizeArgument(f));
      if HasVideo(f) {
        var v := VideoStream(
          f.formatId.GetOr("unknown"), url.value, f.ext.GetOr("unknown"), ReportedSize(f),
          human, f.protocol.GetOr("https"),
          f.height, f.width, f.fps, f.vcodec.value,
          QualityLabel(f), !HasAudio(f));
        videos := videos + [v];
      }
      if HasAudio(f) && !HasVideo(f) {
        var a := AudioStream(
          f.formatId.GetOr("unknown"), url.value, f.ext.GetOr("unknown"), ReportedSize(f),
          human, f.protocol.GetOr("https"),
          f.acodec.value, f.abr, f.asr,
          AudioLabel(f.acodec, f.abr), true);
        audios := audios + [a];
      }
    }
    assert fs[..|fs|] == fs;
  }

  lemma EntriesStep(fs: seq<RawFormat>, i: nat)
    requires i < |fs|
    ensures VideoEntries(fs[..i + 1]) == VideoEntries(fs[..i]) + VideoPart(fs[i])
    ensures AudioEntries(fs[..i + 1]) == AudioEntries(fs[..i]) + AudioPart(fs[i])
  {
    assert fs[..i + 1][..i] == fs[..i];
  }

  /**
   * `f"{height}_{fps}_{vcodec}"`, the duplicate key of a video entry: split at
   * its first `_`, it gives back the height and the rest of the key.
   */
  function VideoKey(v: VideoStream): (r: string)
    ensures Contains(r, "_") && Before(r, "_") == IntToString(v.height)
    ensures Contains(r, "_") && After(r, "_") == IntToString(v.fps) + "_" + v.vcodec
  {
    var h, t := IntToString(v.height), IntToString(v.fps) + "_" + v.vcodec;
    IntToStringAvoids(v.height, '_');
    SplitFirst(h, t, '_');
    assert h + "_" + IntToString(v.fps) + "_" + v.vcodec == h + ['_'] + t;
    h + ['_'] + t
  }

  /**
   * `f"{abr}_{acodec}"`, the duplicate key of an audio entry: split at its
   * first `_`, it gives back the bitrate and the codec.
   */
  function AudioKey(a: AudioStream): (r: string)
    ensures Contains(r, "_") && Before(r, "_") == IntToString(a.abr) && After(r, "_") == a.acodec
  {
    IntToStringAvoids(a.abr, '_');
    SplitFirst(IntToString(a.abr), a.acodec, '_');
    IntToString(a.abr) + "_" + a.acodec
  }

  /** Video entries are sorted by `(height, fps)`. */
  function VideoRank(v: VideoStream): Rank {
    Rank(v.height, v.fps)
  }

  /** Audio entries are sorted by `abr` alone. */
  function AudioRank(a: AudioStream): Rank {
    Rank(a.abr, 0)
  }

  /** Two video entries have the same key exactly when they agree on height, fps and codec. */
  lemma VideoKeyInjective(v1: VideoStream, v2: VideoStream)
    ensures VideoKey(v1) == VideoKey(v2) <==>
            v1.height == v2.height && v1.fps == v2.fps && v1.vcodec == v2.vcodec
  {
    var h1, h2 := IntToString(v1.height), IntToString(v2.height);
    var f1, f2 := IntToString(v1.fps), IntToString(v2.fps);
    var t1, t2 := f1 + ['_'] + v1.vcodec, f2 + ['_'] + v2.vcodec;
    assert VideoKey(v1) == h1 + ['_'] + t1;
    assert VideoKey(v2) == h2 + ['_'] + t2;
    IntToStringAvoids(v1.height, '_');
    IntToStringAvoids(v2.height, '_');
    IntToStringAvoids(v1.fps, '_');
    IntToStringAvoids(v2.fps, '_');
    SplitAtSeparator(h1, t1, h2, t2, '_');
    SplitAtSeparator(f1, v1.vcodec, f2, v2.vcodec, '_');
    IntToStringInjective(v1.height, v2.height);
    IntToStringInjective(v1.fps, v2.fps);
  }

  /** Two audio entries have the same key exactly when they agree on bitrate and codec. */
  lemma AudioKeyInjective(a1: AudioStream, a2: AudioStream)
    ensures AudioKey(a1) == AudioKey(a2) <==> a1.abr == a2.abr && a1.acodec == a2.acodec
  {
    var b1, b2 := IntToString(a1.abr), IntToString(a2.abr);
    assert AudioKey(a1) == b1 + ['_'] + a1.acodec;
    assert AudioKey(a2) == b2 + ['_'] + a2.acodec;
    IntToStringAvoids(a1.abr, '_');
    IntToStringAvoids(a2.abr, '_');
    SplitAtSeparator(b1, a1.acodec, b2, a2.acodec, '_');
    IntToStringInjective(a1.abr, a2.abr);
  }

  /** The deduplicated video list before truncation. */
  function UniqueVideos(fs: seq<RawFormat>): seq<VideoStream> {
    Unique(SortDesc(VideoEntries(fs), VideoRank), VideoKey, {})
  }

  /** The deduplicated audio list before truncation. */
  function UniqueAudios(fs: seq<RawFormat>): seq<AudioStream> {
    Unique(SortDesc(AudioEntries(fs), AudioRank), AudioKey, {})
  }

  /**
   * The deduplicated video list is best first, holds no two entries with the
   * same height, fps and codec, and covers every such combination the format
   * list has; each entry kept is the first in the input with its combination.
   */
  lemma UniqueVideosFacts(fs: seq<RawFormat>)
    ensures var u := UniqueVideos(fs);
      && SortedDesc(u, VideoRank)
      && (forall i, j :: 0 <= i < j < |u| ==>
            !(u[i].height == u[j].height && u[i].fps == u[j].fps && u[i].vcodec == u[j].vcodec))
      && Keys(u, VideoKey) == Keys(VideoEntries(fs), VideoKey)
      && (forall v :: v in u ==> FirstWithKey(VideoEntries(fs), VideoKey, VideoKey(v)) == Some(v))
  {
    UniqueVideosOrder(fs);
    UniqueVideosChoice(fs);
  }

  lemma UniqueVideosOrder(fs: seq<RawFormat>)
    ensures var u := UniqueVideos(fs);
      && SortedDesc(u, VideoRank)
      && (forall i, j :: 0 <= i < j < |u| ==>
            !(u[i].height == u[j].height && u[i].fps == u[j].fps && u[i].vcodec == u[j].vcodec))
  {
    var sorted := SortDesc(VideoEntries(fs), VideoRank);
    var u := UniqueVideos(fs);
    SortDescSorted(VideoEntries(fs), VideoRank);
    UniqueSorted(sorted, VideoKey, {}, VideoRank);
    UniqueDistinct(sorted, VideoKey, {});
    forall i, j | 0 <= i < j < |u|
      ensures !(u[i].height == u[j].height && u[i].fps == u[j].fps && u[i].vcodec == u[j].vcodec)
    {
      VideoKeyInjective(u[i], u[j]);
    }
  }

  lemma UniqueVideosChoice(fs: seq<RawFormat>)
    ensures var u := UniqueVideos(fs);
      && Keys(u, VideoKey) == Keys(VideoEntries(fs), VideoKey)
      && (forall v :: v in u ==> FirstWithKey(VideoEntries(fs), VideoKey, VideoKey(v)) == Some(v))
  {
    var e := VideoEntries(fs);
    var sorted := SortDesc(e, VideoRank);
    UniqueKeys(sorted, VideoKey, {});
    SortedKeys(e, VideoKey, VideoRank);
    UniqueVideosFirst(fs);
  }

  lemma UniqueVideosFirst(fs: seq<RawFormat>)
    ensures forall v :: v in UniqueVideos(fs) ==> FirstWithKey(VideoEntries(fs), VideoKey, VideoKey(v)) == Some(v)
  {
    var e := VideoEntries(fs);
    var sorted := SortDesc(e, VideoRank);
    var u := UniqueVideos(fs);
    UniqueKeepsFirst(sorted, VideoKey, {});
    forall i, j | 0 <= i < |e| && 0 <= j < |e| && VideoKey(e[i]) == VideoKey(e[j])
      ensures VideoRank(e[i]) == VideoRank(e[j])
    {
      VideoKeyInjective(e[i], e[j]);
    }
    forall v | v in u ensures FirstWithKey(e, VideoKey, VideoKey(v)) == Some(v) {
      SortedFirstWithKey(e, VideoKey, VideoKey(v), VideoRank);
    }
  }

  /** The same for the audio list, with bitrate and codec. */
  lemma UniqueAudiosFacts(fs: seq<RawFormat>)
    ensures var u := UniqueAudios(fs);
      && SortedDesc(u, AudioRank)
      && (forall i, j :: 0 <= i < j < |u| ==> !(u[i].abr == u[j].abr && u[i].acodec == u[j].acodec))
      && Keys(u, AudioKey) == Keys(AudioEntries(fs), AudioKey)
      && (forall a :: a in u ==> FirstWithKey(AudioEntries(fs), AudioKey, AudioKey(a)) == Some(a))
  {
    UniqueAudiosOrder(fs);
    UniqueAudiosChoice(fs);
  }

  lemma UniqueAudiosOrder(fs: seq<RawFormat>)
    ensures var u := UniqueAudios(fs);
      && SortedDesc(u, AudioRank)
      && (forall i, j :: 0 <= i < j < |u| ==> !(u[i].abr == u[j].abr && u[i].acodec == u[j].acodec))
  {
    var sorted := SortDesc(AudioEntries(fs), AudioRank);
    var u := UniqueAudios(fs);
    SortDescSorted(AudioEntries(fs), AudioRank);
    UniqueSorted(sorted, AudioKey, {}, AudioRank);
    UniqueDistinct(sorted, AudioKey, {});
    forall i, j | 0 <= i < j < |u| ensures !(u[i].abr == u[j].abr && u[i].acodec == u[j].acodec) {
      AudioKeyInjective(u[i], u[j]);
    }
  }

  lemma UniqueAudiosChoice(fs: seq<RawFormat>)
    ensures var u := UniqueAudios(fs);
      && Keys(u, AudioKey) == Keys(AudioEntries(fs), AudioKey)
      && (forall a :: a in u ==> FirstWithKey(AudioEntries(fs), AudioKey, AudioKey(a)) == Some(a))
  {
    var e := AudioEntries(fs);
    var sorted := SortDesc(e, AudioRank);
    UniqueKeys(sorted, AudioKey, {});
    SortedKeys(e, AudioKey, AudioRank);
    UniqueAudiosFirst(fs);
  }

  lemma UniqueAudiosFirst(fs: seq<RawFormat>)
    ensures forall a :: a in UniqueAudios(fs) ==> FirstWithKey(AudioEntries(fs), AudioKey, AudioKey(a)) == Some(a)
  {
    var e := AudioEntries(fs);
    var sorted := SortDesc(e, AudioRank);
    var u := UniqueAudios(fs);
    UniqueKeepsFirst(sorted, AudioKey, {});
    forall i, j | 0 <= i < |e| && 0 <= j < |e| && AudioKey(e[i]) == AudioKey(e[j])
      ensures AudioRank(e[i]) == AudioRank(e[j])
    {
      AudioKeyInjective(e[i], e[j]);
    }
    forall a | a in u ensures FirstWithKey(e, AudioKey, AudioKey(a)) == Some(a) {
      SortedFirstWithKey(e, AudioKey, AudioKey(a), AudioRank);
    }
  }

  /**
   * The post-processing of `extract`: collect, sort best first, drop
   * duplicates, keep at most 20 videos and 10 audios, and report the
   * deduplicated totals before the cut.
   */
  method ProcessFormats(fs: seq<RawFormat>)
    returns (videos: seq<VideoStream>, audios: seq<AudioStream>, totalVideos: nat, totalAudios: nat)
    ensures videos == Prefix(UniqueVideos(fs), 20) && audios == Prefix(UniqueAudios(fs), 10)
    ensures totalVideos == |UniqueVideos(fs)| && totalAudios == |UniqueAudios(fs)|
    ensures |videos| <= 20 && |audios| <= 10
    ensures totalVideos + totalAudios <= |fs|
    ensures SortedDesc(videos, VideoRank) && SortedDesc(audios, AudioRank)
  {
    var allVideos, allAudios := CollectFormats(fs);
    allVideos := SortDesc(allVideos, VideoRank);
    var uniqueVideos := DedupByKey(allVideos, VideoKey);
    allAudios := SortDesc(allAudios, AudioRank);
    var uniqueAudios := DedupByKey(allAudios, AudioKey);
    videos := Prefix(uniqueVideos, 20);
    audios := Prefix(uniqueAudios, 10);
    totalVideos := |uniqueVideos|;
    totalAudios := |uniqueAudios|;
    TablesFacts(fs);
  }

  /** The cut lists are sorted, and the totals together do not exceed the number of formats. */
  lemma TablesFacts(fs: seq<RawFormat>)
    ensures SortedDesc(Prefix(UniqueVideos(fs), 20), VideoRank)
    ensures SortedDesc(Prefix(UniqueAudios(fs), 10), AudioRank)
    ensures |UniqueVideos(fs)| + |UniqueAudios(fs)| <= |fs|
  {
    EntriesCount(fs);
    UniqueVideosFacts(fs);
    UniqueAudiosFacts(fs);
    PrefixSorted(UniqueVideos(fs), 20, VideoRank);
    PrefixSorted(UniqueAudios(fs), 10, AudioRank);
  }

  lemma PrefixSorted<T>(s: seq<T>, n: nat, rank: T -> Rank)
    requires SortedDesc(s, rank)
    ensures SortedDesc(Prefix(s, n), rank)
  {
  }
}
