/**
 * One entry of yt-dlp's `formats` list as the engine reads it, and the pure
 * helpers that turn such an entry into a stream URL and a display label:
 * `_extract_format_url`, `_generate_quality_label` and `_generate_audio_label`.
 */
module FormatLabels {
  import opened Optional
  import opened Text

  /** A size field: missing from the entry, present as JSON `null`, or a byte count. */
  datatype SizeField = Absent | Null | Bytes(n: int)

  /**
   * A format entry. The URL and codec fields are `None` when missing or
   * `null`, which the engine treats alike; `formatId`, `ext` and `protocol`
   * are `None` when missing. The numeric fields hold the value of
   * `fmt.get(key, 0)`.
   */
  datatype RawFormat = RawFormat(
    formatId: Option<string>,
    url: Option<string>,
    manifestUrl: Option<string>,
    fragmentBaseUrl: Option<string>,
    ext: Option<string>,
    protocol: Option<string>,
    filesize: SizeField,
    filesizeApprox: SizeField,
    height: int,
    width: int,
    fps: int,
    vcodec: Option<string>,
    acodec: Option<string>,
    abr: int,
    asr: int,
    formatNote: string)

  /** A candidate URL is used when it is a non-empty string starting with `http`. */
  predicate Usable(u: Option<string>) {
    u.Some? && u.value != "" && StartsWith(u.value, "http")
  }

  /** The candidates `_extract_format_url` tries, in order. */
  function Candidates(f: RawFormat): seq<Option<string>> {
    [f.url, f.manifestUrl, f.fragmentBaseUrl]
  }

  /**
   * `_extract_format_url`: the first usable candidate among `url`,
   * `manifest_url` and `fragment_base_url`, or `None` when none is usable.
   */
  function ExtractFormatUrl(f: RawFormat): (r: Option<string>)
    ensures r.Some? <==> exists i :: 0 <= i < 3 && Usable(Candidates(f)[i])
    ensures r.Some? ==> exists i :: 0 <= i < 3 && Usable(Candidates(f)[i]) && r == Candidates(f)[i]
                          && forall j :: 0 <= j < i ==> !Usable(Candidates(f)[j])
    ensures r.Some? ==> StartsWith(r.value, "http")
  {
    var c := Candidates(f);
    assert c[0] == f.url && c[1] == f.manifestUrl && c[2] == f.fragmentBaseUrl;
    if Usable(f.url) then f.url
    else if Usable(f.manifestUrl) then f.manifestUrl
    else if Usable(f.fragmentBaseUrl) then f.fragmentBaseUrl
    else None
  }

  /** The resolution tiers: the lowest height of each tier and its name, highest first. */
  const Tiers: seq<(int, string)> := [
    (4320, "8K"), (2160, "4K"), (1440, "1440p"), (1080, "1080p"), (720, "720p"),
    (480, "480p"), (360, "360p"), (240, "240p"), (144, "144p")]

  /**
   * The resolution part of the quality label: the name of the highest tier the
   * height reaches; below every tier, the format note, or `{height}p` when the
   * note is empty.
   */
  function ResolutionName(height: int, note: string): (r: string)
    ensures forall i :: 0 <= i < |Tiers| && Tiers[i].0 <= height && (i == 0 || height < Tiers[i - 1].0)
              ==> r == Tiers[i].1
    ensures height < 144 ==> r == (if note != "" then note else IntToString(height) + "p")
  {
    if height >= 4320 then "8K"
    else if height >= 2160 then "4K"
    else if height >= 1440 then "1440p"
    else if height >= 1080 then "1080p"
    else if height >= 720 then "720p"
    else if height >= 480 then "480p"
    else if height >= 360 then "360p"
    else if height >= 240 then "240p"
    else if height >= 144 then "144p"
    else if note != "" then note
    else IntToString(height) + "p"
  }

  /**
   * The frame-rate part: `{fps}fps` above 30 frames per second, nothing
   * otherwise. The source's separate branch for exactly 60 is never taken,
   * since 60 is above 30 and the first branch already produces `60fps`.
   */
  function FpsSuffix(fps: int): (r: string)
    ensures fps > 30 ==> r == IntToString(fps) + "fps"
    ensures fps <= 30 ==> r == ""
    ensures fps == 60 ==> r == "60fps"
  {
    if fps != 0 && fps > 30 then IntToString(fps) + "fps"
    else if fps == 60 then "60fps"
    else ""
  }

  /**
   * The position of the first table entry whose key occurs in `name`, or the
   * table's length when no key occurs.
   */
  function FirstMatch(name: string, table: seq<(string, string)>): (k: nat)
    ensures k <= |table|
    ensures forall j :: 0 <= j < k ==> !Contains(name, table[j].0)
    ensures k < |table| ==> Contains(name, table[k].0)
    decreases |table|
  {
    if table == [] then 0
    else if Contains(name, table[0].0) then 0
    else 1 + FirstMatch(name, table[1..])
  }

  /** The codec tags of the quality label: substring to look for and tag appended, first match wins. */
  const VideoCodecTags: seq<(string, string)> := [("vp9", " (VP9)"), ("avc", " (H.264)"), ("av1", " (AV1)")]

  /** `vcodec` is present, non-empty and not the string `none`. */
  predicate HasCodec(c: Option<string>) {
    c.Some? && c.value != "" && c.value != "none"
  }

  /**
   * The codec part: for a real codec, the tag of the first table entry whose
   * key occurs in the lower-cased codec name; nothing when no key occurs or
   * there is no codec.
   */
  function CodecTag(vcodec: Option<string>): (r: string)
    ensures !HasCodec(vcodec) ==> r == ""
    ensures HasCodec(vcodec) ==>
      var k := FirstMatch(LowerAscii(vcodec.value), VideoCodecTags);
      r == if k < |VideoCodecTags| then VideoCodecTags[k].1 else ""
  {
    if !HasCodec(vcodec) then ""
    else
      var name := LowerAscii(vcodec.value);
      if Contains(name, "vp9") then " (VP9)"
      else if Contains(name, "avc") then " (H.264)"
      else if Contains(name, "av1") then " (AV1)"
      else ""
  }

  /** `_generate_quality_label`: resolution, then frame rate, then codec tag; never empty. */
  function QualityLabel(f: RawFormat): (r: string)
    ensures r == ResolutionName(f.height, f.formatNote) + FpsSuffix(f.fps) + CodecTag(f.vcodec)
    ensures r != ""
  {
    var res := ResolutionName(f.height, f.formatNote);
    assert res != "";
    res + FpsSuffix(f.fps) + CodecTag(f.vcodec)
  }

  /** The audio codec names: substring to look for and name, first match wins. */
  const AudioCodecNames: seq<(string, string)> :=
    [("opus", "Opus"), ("aac", "AAC"), ("mp3", "MP3"), ("flac", "FLAC"), ("vorbis", "Vorbis")]

  /**
   * The codec name of the audio label: the name of the first table entry whose
   * key occurs in the lower-cased codec, `Audio` when none does.
   */
  function AudioCodecName(acodec: Option<string>): (r: string)
    ensures var k := FirstMatch(LowerAscii(acodec.GetOr("")), AudioCodecNames);
      r == if k < |AudioCodecNames| then AudioCodecNames[k].1 else "Audio"
  {
    var name := LowerAscii(acodec.GetOr(""));
    if Contains(name, "opus") then "Opus"
    else if Contains(name, "aac") then "AAC"
    else if Contains(name, "mp3") then "MP3"
    else if Contains(name, "flac") then "FLAC"
    else if Contains(name, "vorbis") then "Vorbis"
    else "Audio"
  }

  /**
   * `_generate_audio_label`: the codec name, followed by ` {abr}kbps` exactly
   * when the bitrate is non-zero.
   */
  function AudioLabel(acodec: Option<string>, abr: int): (r: string)
    ensures abr == 0 ==> r == AudioCodecName(acodec)
    ensures abr != 0 ==> r == AudioCodecName(acodec) + " " + IntToString(abr) + "kbps"
  {
    var codec := AudioCodecName(acodec);
    if abr != 0 then codec + " " + IntToString(abr) + "kbps" else codec
  }

  /**
   * A quality label is the resolution name followed by the frame-rate and codec
   * parts, and the frame rate shows in it exactly when it is above 30.
   */
  lemma QualityLabelParts(f: RawFormat)
    ensures StartsWith(QualityLabel(f), ResolutionName(f.height, f.formatNote))
    ensures f.fps > 30 ==> StartsWith(QualityLabel(f), ResolutionName(f.height, f.formatNote) + IntToString(f.fps) + "fps")
    ensures f.fps <= 30 ==> QualityLabel(f) == ResolutionName(f.height, f.formatNote) + CodecTag(f.vcodec)
  {
    var res := ResolutionName(f.height, f.formatNote);
    var q := QualityLabel(f);
    assert q[..|res|] == res;
    if f.fps > 30 {
      var head := res + IntToString(f.fps) + "fps";
      assert q == head + CodecTag(f.vcodec);
      assert q[..|head|] == head;
    }
  }

  /** A 2160-line, 60 fps VP9 stream is labelled `4K60fps (VP9)`. */
  lemma QualityLabelExample(f: RawFormat)
    requires f.height == 2160 && f.fps == 60 && f.vcodec == Some("vp9")
    ensures QualityLabel(f) == "4K60fps (VP9)"
  {
    assert IntToString(60) == "60";
    assert LowerAscii("vp9") == "vp9";
    assert MatchAt("vp9", "vp9", 0);
  }

  /** An Opus stream at 160 kbps is labelled `Opus 160kbps`. */
  lemma AudioLabelExample()
    ensures AudioLabel(Some("opus"), 160) == "Opus 160kbps"
  {
    assert IntToString(160) == "160";
    assert LowerAscii("opus") == "opus";
    assert MatchAt("opus", "opus", 0);
  }
}
