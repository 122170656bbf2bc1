# Video extractor engine in Dafny

This project models the core of `VideoExtractorEngine` in `server.py`. That
core is the part of the service that turns a video page URL into a list of
downloadable streams:

- `_clean_url` trims the URL and rewrites YouTube short links, Shorts links and
  watch links to the canonical `https://www.youtube.com/watch?v=<id>` form.
- `_run_yt_dlp_json` runs `yt-dlp --dump-json` with up to five argument lists.
  The first one that prints JSON wins. When the last error carries YouTube's
  "Sign in to confirm" marker, `_yt_dlp_fallback_extraction` tries the ios and
  tv player clients.
- `extract` reads the video's metadata with their defaults. It keeps a format
  with a usable URL as a video stream when it has a video codec, as an audio
  stream when it has only an audio codec, and drops it when it has neither
  (storyboards, for example). It labels every stream it keeps
  (`_generate_quality_label`, `_generate_audio_label`, `_format_bytes`). It sorts
  both lists best first, drops duplicates, keeps 20 videos and 10 audios, and
  turns every exception into a failed envelope.

The modules follow the source:

| file | module | models |
|---|---|---|
| `text.dfy` | `Optional`, `Text` | Python `str` behaviour the core relies on (`strip`, `in`, `split(sep)[0]`, `s[:n]`, ASCII `lower`, `f"{int}"`) |
| `url_cleaning.dfy` | `UrlCleaning` | `_clean_url` |
| `format_labels.dfy` | `FormatLabels` | the format entry, `_extract_format_url`, both labels |
| `byte_size.dfy` | `ByteSize` | `_format_bytes` |
| `ordering.dfy` | `Ordering` | `list.sort(key=..., reverse=True)` as a stable descending sort |
| `dedup.dfy` | `Deduplication` | the `seen`-set loops that drop duplicates |
| `format_table.dfy` | `FormatTable` | the format loop, the keys, sort, dedup and cut of `extract` |
| `cascade.dfy` | `Cascade` | `_run_yt_dlp_json`, `_yt_dlp_fallback_extraction` |
| `service.dfy` | `Service` | `extract` |

Nothing is executed, so the outside world becomes parameters:

- The subprocess becomes `env: nat -> Outcome`: the i-th call of one request
  times out, crashes with an exception message, or finishes with its stdout and
  stderr.
- `json.loads` becomes `parse: string -> Option<J>`, which is `None` where it
  raises.
- `sys.executable` becomes the parameter `python`.

Methods that loop or run calls (`FormatBytes`, `DedupByKey`, `CollectFormats`,
`RunAttempts`, `FallbackExtraction`, `Extract`) are proved equal to reference
functions. The lemmas state the source's promises about those functions.

The five attempts of `_run_yt_dlp_json` are written out one after another in
the source. Here they are the command list `Plan` (attempts 2 and 4 only for
YouTube URLs), which `RunAttempts` walks in a loop. The commands and their
order are the same.

### Behaviour of the code worth knowing

- **URL cleaning is not idempotent.** The short link `youtu.be/'?` becomes the
  watch URL ending in `'`, and cleaning that URL again strips the quote.
  `CleanUrlNotIdempotent` exhibits this. Cleaning twice equals cleaning once for
  URLs without YouTube markers whose trimmed form does not end in whitespace
  (`CleanUrlIdempotentOffYouTube`), and for watch links whose `v` value is a
  canonical id (`WatchUrlIdempotent`).
- **A timeout in any attempt ends the call.** Each of the five attempts reaches
  the `except subprocess.TimeoutExpired` clause, which ends the call with the
  timeout message. Only the fallback swallows timeouts (`TimeoutEndsCall`).
- **A failed fallback has its own message.** It raises
  `YouTube bot detection - ...`, and the catch-all puts `yt-dlp error: ` in
  front (`BotDetectionFallback`).

## Model

| member | source | states |
|---|---|---|
| Text.Strip | server.py:354-357 | the result is a slice of the input with no stripped character at either end, and every character before and after the slice is stripped |
| Text.StripUnique | server.py:354-357 | any slice with those properties is the result, so the contract of `Strip` determines it |
| UrlCleaning.Trimmed | server.py:354-357 | after both strips no quote, blank, tab or line break is left at either end |
| UrlCleaning.TrimmedSlice | server.py:354-357 | the trimmed URL is a slice of the input, and everything removed around it is whitespace or a quote |
| UrlCleaning.ShortLinkId | server.py:361 | the id after a short-link marker is the start of the segment after the marker, holds no `?` or `&`, and ends at the first of them or at the segment's end |
| UrlCleaning.Rewrite | server.py:359-379 | the URL is either kept or replaced by a URL starting with the watch prefix; a URL without any YouTube marker is kept |
| UrlCleaning.CleanUrl | server.py:349-385 | empty input gives the empty string; every other input gives a URL starting with `http://` or `https://` |
| UrlCleaning.ShortLinkBecomesWatchUrl | server.py:360-362 | a `youtu.be/` link becomes the watch URL of its id; the id is the start of the segment after the marker, holds no `?` or `&`, and stops at the first of them or at the segment's end |
| UrlCleaning.ShortsLinkBecomesWatchUrl | server.py:365-367 | the same rewrite for a `youtube.com/shorts/` link without a `youtu.be/` marker |
| UrlCleaning.QueryOf | server.py:373 | the query `urlparse` finds is the text after the first `?` of the part before the first `#`, or empty when that part has no `?`; it consists of characters of the URL |
| UrlCleaning.Fields | server.py:374 | the query splits into at least one `&`-free field, each made of query characters |
| UrlCleaning.FieldsJoin | server.py:374 | joining the fields with `&` gives back the query |
| UrlCleaning.JoinFieldsSplit | server.py:374 | splitting `&`-free fields joined with `&` gives back those fields |
| UrlCleaning.LookupV | server.py:374-376 | a value is found exactly when some field is `v=` followed by a non-empty value; the value found is that of the first such field; it contains no `&` and is made of query characters |
| UrlCleaning.WatchUrlKeepsOnlyV | server.py:370-383 | a watch URL whose query has a non-empty `v` becomes the watch URL of the first `v` value alone, so every other parameter is dropped |
| UrlCleaning.WatchUrlFixedPoint | server.py:354-385 | the canonical watch URL of an id with no `#` or `&`, no short-link marker and no strippable last character is left as it is by cleaning |
| UrlCleaning.WatchUrlIdempotent | server.py:354-385 | cleaning a watch link whose `v` value is such an id twice equals cleaning it once |
| UrlCleaning.EnsureScheme | server.py:381-383 | a URL with an `http://` or `https://` scheme is kept; any other gets `https://` in front |
| UrlCleaning.CleanUrlChars | server.py:354-383 | every character of the result comes from the trimmed input or from the fixed watch prefix |
| UrlCleaning.CleanUrlNotIdempotent | server.py:357-362 | `youtu.be/'?` cleans to the watch URL ending in `'`, and cleaning that URL changes it again |
| UrlCleaning.CleanUrlIdempotentOffYouTube | server.py:354-385 | without YouTube markers, and with no whitespace left at the end of the trimmed input, cleaning twice equals cleaning once |
| FormatLabels.ExtractFormatUrl | server.py:387-404 | the result is the first of `url`, `manifest_url`, `fragment_base_url` that is a non-empty string starting with `http`; it is `None` exactly when none is |
| FormatLabels.ResolutionName | server.py:413-433 | a height in a tier gets that tier's name; below 144 the result is the format note, or `{height}p` when the note is empty |
| FormatLabels.FpsSuffix | server.py:435-439 | `{fps}fps` exactly above 30 fps and nothing otherwise; 60 fps gives `60fps` through the first branch |
| FormatLabels.CodecTag | server.py:441-448 | a real codec gets the tag of the first of vp9, avc, av1 found in its lower-cased name; no codec, or `none`, gets no tag |
| FormatLabels.QualityLabel | server.py:406-450 | the label is the resolution name, then the frame-rate suffix, then the codec tag, and it is never empty |
| FormatLabels.QualityLabelParts | server.py:406-450 | the label starts with the resolution name; the frame rate appears exactly above 30 fps; otherwise the label is the resolution plus the codec tag |
| FormatLabels.QualityLabelExample | server.py:406-450 | 2160 lines at 60 fps in VP9 are labelled `4K60fps (VP9)` |
| FormatLabels.AudioCodecName | server.py:457-467 | the name of the first of opus, aac, mp3, flac, vorbis found in the lower-cased codec, else `Audio` |
| FormatLabels.AudioLabel | server.py:452-471 | the codec name, followed by ` {abr}kbps` exactly when the bitrate is non-zero |
| FormatLabels.AudioLabelExample | server.py:452-471 | Opus at 160 kbps is labelled `Opus 160kbps` |
| ByteSize.Scale | server.py:479-483 | the unit index `k` satisfies: when `k < 4`, the size is below 1024^(k+1); when `k > 0`, the size is at least 1024^k |
| ByteSize.ScaleIsFirstFit | server.py:479-483 | those first-fit conditions determine the unit uniquely |
| ByteSize.ScaledValueRange | server.py:479-483 | the value shown is in [1, 1024) in KB, MB and GB, and at least 1 in TB |
| ByteSize.RoundHalfEven | server.py:481 | `.1f` rounding lands within half a tenth and breaks ties to even |
| ByteSize.Tenths | server.py:481 | the rendering ends in a point and exactly one digit; with the point removed it reads back as the number of tenths; it starts with `-` exactly for negative values; its integer part has no leading zero |
| ByteSize.FormatBytes | server.py:473-485 | the loop that divides by 1024 returns the reference rendering: `None` for a missing or zero size, else the size in its first fitting unit |
| ByteSize.FormatBytesExample | server.py:473-485 | 1536 bytes are shown as `1.5 KB` |
| Ordering.SortDesc | server.py:568-571 | the sort is a permutation of its input |
| Ordering.SortDescSorted | server.py:568-571 | the sorted list does not increase in key |
| Ordering.SortDescStable | server.py:568-571 | entries with equal keys keep their input order |
| Deduplication.DedupByKey | server.py:574-580 | the `seen`-set loop returns the reference list of first-of-key entries |
| Deduplication.UniqueDistinct | server.py:576-580 | no two kept entries share a key |
| Deduplication.UniqueKeys | server.py:576-580 | the kept keys are exactly the input's keys |
| Deduplication.UniqueKeepsFirst | server.py:576-580 | every kept entry is the first in its input with its key |
| Deduplication.UniqueSorted | server.py:574-580 | dropping duplicates keeps the list sorted |
| Deduplication.SortedKeys | server.py:567-580 | sorting does not change the set of keys |
| Deduplication.SortedFirstWithKey | server.py:567-580 | when equal keys imply equal sort keys, the first entry with a key is the same before and after the stable sort |
| FormatTable.HasVideo | server.py:529 | a format has video exactly when its `vcodec` is neither missing, `null` nor `none` |
| FormatTable.HasAudio | server.py:530 | a format has audio exactly when its `acodec` is neither missing, `null` nor `none` |
| FormatTable.ReportedSize | server.py:537 | the reported size is `filesize` when present, else `filesize_approx`, else 0 |
| FormatTable.VideoPart | server.py:520-553 | a format gives a video entry exactly when it has a usable URL and a video codec; the entry is adaptive exactly when the format has no audio |
| FormatTable.AudioPart | server.py:555-565 | a format gives an audio entry exactly when it has a usable URL, an audio codec and no video codec; audio entries are adaptive |
| FormatTable.PartsExclusive | server.py:543-565 | no format gives both entries |
| FormatTable.EntriesCount | server.py:520-565 | the two lists together hold at most one entry per format |
| FormatTable.CollectFormats | server.py:517-565 | the loop builds exactly the reference video and audio lists |
| FormatTable.VideoKey | server.py:577 | the key `{height}_{fps}_{vcodec}` splits at its first `_` into the height and the rest |
| FormatTable.AudioKey | server.py:589 | the key `{abr}_{acodec}` splits at its first `_` into the bitrate and the codec |
| FormatTable.VideoKeyInjective | server.py:577 | two video keys are equal exactly when height, fps and codec are |
| FormatTable.AudioKeyInjective | server.py:589 | two audio keys are equal exactly when bitrate and codec are |
| Text.Prefix | server.py:597-598 | `s[:n]` has length min(`|s|`, n) and is a prefix of `s`; the same cut gives the 200-character error message |
| FormatTable.UniqueVideosFacts | server.py:567-580 | the deduplicated video list is best first; it has no two entries with the same height, fps and codec; it covers every combination in the input; each entry is the first in the input with its combination |
| FormatTable.UniqueAudiosFacts | server.py:582-592 | the same for audio entries, with bitrate and codec |
| FormatTable.ProcessFormats | server.py:517-600 | the result is the first 20 videos and 10 audios of the deduplicated lists, sorted best first, plus their full lengths; those lengths add up to at most the number of formats |
| FormatTable.PrefixSorted | server.py:597-598 | cutting a sorted list keeps it sorted |
| Cascade.Argv | server.py:123-253 | every argument list is longer than the five base options, so it has room for the URL |
| Cascade.ArgvEndsWithTarget | server.py:123-253 | every call passes the URL it fetches as the last argument |
| Cascade.ArgvStartsWithBase | server.py:123-233 | every direct call starts with `yt-dlp --dump-json --no-playlist --no-warnings --ignore-errors` |
| Cascade.ModuleArgv | server.py:252-253 | the module call runs the interpreter on `yt_dlp` with the options of the call before it |
| Cascade.Plan | server.py:140-262 | five attempts for YouTube URLs and three otherwise; the last runs the command before it as a module |
| Cascade.PlanGating | server.py:161-233 | the Firefox-agent and android-client attempts are planned exactly for YouTube URLs; the first attempt is the standard one; every attempt fetches the cleaned URL |
| Cascade.ParsedOutput | server.py:152-157 | output that is all whitespace gives nothing; anything parsed is a non-empty line without a newline that starts the stripped output |
| Cascade.Verdict | server.py:282-285 | a decisive attempt yields JSON exactly when it finished; a crash gives its message behind `yt-dlp error: `; a timeout gives the timeout message, which lacks that prefix |
| Cascade.ErrorMessage | server.py:272 | empty stderr gives `No output from yt-dlp`; any other stderr gives stderr with the whitespace around it removed |
| Cascade.FirstDecisive | server.py:140-269 | the index of the first call that timed out, crashed or printed JSON, or the number of attempts when none did |
| Cascade.Attempt | server.py:142-159 | an attempt runs call number `|calls|`, records it, and decides the call exactly when it times out, crashes or prints JSON, returning the verdict |
| Cascade.RunAttempts | server.py:140-269 | the attempts run in order up to the first decisive one, which gives the verdict; when none decides, all ran and the last one finished |
| Cascade.FallbackExtraction | server.py:287-347 | the ios client, then the tv client; the first JSON wins; errors are swallowed; with neither, the bot-detection message |
| Cascade.Exhausted | server.py:271-280 | with the sign-in marker, the fallback; otherwise a failure carrying the error message cut to 200 characters |
| Cascade.RunYtDlpJson | server.py:114-285 | the call returns the reference reply for the cleaned URL and runs the reference sequence of commands |
| Cascade.BlankOutputNotParsed | server.py:153 | output that is all whitespace is never parsed |
| Cascade.FirstLineParsed | server.py:153-157 | only the first line of the output is parsed, and whatever follows the first newline is ignored |
| Cascade.FirstJsonWins | server.py:140-269 | the first attempt that prints JSON gives the result, and no later command runs |
| Cascade.TimeoutEndsCall | server.py:282-283 | a timeout in any attempt ends the call with `Timeout after {timeout} seconds`, without the `yt-dlp error: ` prefix, and no later command runs |
| Cascade.CrashEndsCall | server.py:284-285 | any other exception in an attempt ends the call with its message behind `yt-dlp error: ` |
| Cascade.ExhaustionMessage | server.py:271-280 | with every attempt spent and no sign-in marker, the call fails with `yt-dlp error: yt-dlp failed: ` and at most 200 characters of the error, after exactly the planned commands |
| Cascade.BotDetectionFallback | server.py:271-347 | with the sign-in marker, ios and then tv are tried; their first JSON is the result; with neither, the call fails with `yt-dlp error: YouTube bot detection - ...` |
| Cascade.CallCount | server.py:114-347 | a call runs between one command and the planned ones plus two; it always starts with the standard attempt; a non-YouTube URL runs at most five |
| Service.InfoOf | server.py:497-508 | the uploader is `uploader`, else `channel`, else `Unknown`; the page URL defaults to the URL as requested; the title defaults to `Unknown` |
| Service.EffectiveFormats | server.py:510-515 | the `formats` list when it is non-empty; otherwise the document itself when its `url` is non-empty; otherwise nothing |
| Service.Extract | server.py:487-613 | the envelope is the reference result: the cascade's failure message, the `.get` error for a non-object, or the tables built from the object |
| Service.SuccessShape | server.py:567-602 | a successful envelope holds at most 20 videos and 10 audios, best first; it holds 20 or 10 whenever the totals are larger; the totals are at least the list lengths |
| Service.FailureSource | server.py:604-613 | the envelope fails exactly when the cascade fails or yields a non-object; a cascade failure's message is passed on unchanged |
| Service.FirstTimeoutReported | server.py:282-283 | a timeout in the first attempt gives the failed envelope with the timeout message, after that one command |

## Left out

- Process execution, its text decoding with `errors='replace'` and the Windows `creationflags` are not modelled: each call's outcome is the parameter `env`.
- `json.loads` is the parameter `parse`.
- Logging is not modelled.
- `extraction_time` is not modelled, because it reads the clock.
- The failed envelope's constant empty `video_info`, `video_formats` and `audio_formats` are not modelled.
- `_find_yt_dlp` is not modelled: the interpreter path is the parameter `python`.
- The FastAPI application and the rest of `server.py` are not part of this model.
- UrlCleaning.CleanUrl: the `isinstance(url, str)` test is not modelled, because every input is a string.
- UrlCleaning.CleanUrl: percent-decoding and `+` in `parse_qs` are not modelled; the `v` value is taken as written.
- UrlCleaning.CleanUrl: the `ValueError` that `urlparse` can raise (and the `except: pass` around it) is not modelled; `urlparse`'s query is taken as the text after the first `?` and before `#`. `urlsplit` also deletes every tab, carriage return and line feed inside the URL before splitting it; that is not modelled, so a `v` value with such a character inside differs from the source.
- Text.LowerAscii: `str.lower` is modelled on ASCII letters only; other letters are left unchanged.
- FormatLabels.RawFormat: `height`, `width`, `fps`, `abr` and `asr` are integers that read as 0 when missing; JSON `null` in them is not modelled. In the source a `null` width or asr is only copied. A `null` fps reads as false in the label, and raises a `TypeError` only in the video sort, when two entries tie on height. A `null` abr raises in the audio sort once there are two audio entries. A `null` height in a video entry raises in the label's `height >= 4320` comparison. Each such `TypeError` fails the whole extraction.
- FormatLabels.RawFormat: a JSON `null` in `format_id`, `ext` or `protocol` is not modelled. The source copies the `null` into the entry, while the model reads those fields as missing and gives `unknown` or `https`.
- FormatLabels.RawFormat: float values are not modelled. The `int(fps)` and `int(abr)` truncation in the labels and the float keys in sorting and deduplication are therefore not covered.
- FormatLabels.RawFormat: codec fields are strings or missing; the `str(vcodec)` of non-string values is not modelled.
- ByteSize.FormatBytes: exact rational arithmetic replaces doubles. The two agree for sizes below 2^53 bytes; larger sizes are not covered.
- Service.RawInfo: top-level fields are missing or hold a value of their expected type. JSON `null` (which `get` returns instead of the default) is not modelled, and neither is a `formats` value that is not a list.
- Service.Extract: exceptions raised inside the format loop by malformed entries are not modelled (a format entry that is not an object, for example).
