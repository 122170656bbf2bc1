/**
 * `_run_yt_dlp_json` and `_yt_dlp_fallback_extraction`: run yt-dlp with up to
 * five argument lists until one prints JSON, then, when YouTube's bot check
 * stopped them all, two more with other player clients.
 *
 * A subprocess call is not executed: the i-th call made returns `env(i)`.
 * `json.loads` is the partial function `parse` (None where it raises); the
 * cascade reads every output through `Reader(parse)`.
 */
module Cascade {
  import opened Optional
  import opened Text
  import opened UrlCleaning

  /** The argument list of one call, by the options it is built from. */
  datatype Command =
    | Standard(url: string)                     // attempt 1
    | AltAgent(url: string)                     // attempt 2
    | Minimal(url: string)                      // attempt 3
    | Client(url: string, client: string)       // attempt 4 and the fallback's two calls
    | Module(python: string, previous: Command) // attempt 5

  /** What one `subprocess.run` call ends with. */
  datatype Outcome =
    | TimedOut                                  // `subprocess.TimeoutExpired`
    | Crashed(message: string)                  // any other exception, e.g. no such executable
    | Finished(stdout: string, stderr: string)

  /** A parsed document, or the message of the exception that ends the call. */
  datatype Reply<J> = Parsed(value: J) | Failed(message: string)

  const ChromeAgent := "Mozilla/5.0 (Windows NT 10.0; Win64; x64) AppleWebKit/537.36 (KHTML, like Gecko) Chrome/120.0.0.0 Safari/537.36"
  const FirefoxAgent := "Mozilla/5.0 (Windows NT 10.0; Win64; x64; rv:121.0) Gecko/20100101 Firefox/121.0"
  const AcceptHeader := "Accept: text/html,application/xhtml+xml,application/xml;q=0.9,*/*;q=0.8"
  const SignInMarker := "Sign in to confirm"
  const BotDetected := "YouTube bot detection - try again later or use a different video"
  const ErrorPrefix := "yt-dlp error: "
  const FailedPrefix := "yt-dlp failed: "
  const TimeoutPrefix := "Timeout after "

  /** The options every call passes first. */
  const BaseOptions: seq<string> := ["yt-dlp", "--dump-json", "--no-playlist", "--no-warnings", "--ignore-errors"]

  /** The `cmd` list handed to `subprocess.run`. */
  function Argv(c: Command): (argv: seq<string>)
    ensures |argv| >= |BaseOptions| + 1
  {
    match c
    case Standard(url) =>
      BaseOptions + ["--no-check-certificate", "--geo-bypass", "--user-agent", ChromeAgent,
        "--add-header", AcceptHeader,
        "--add-header", "Accept-Language: en-us,en;q=0.5",
        "--add-header", "Sec-Fetch-Mode: navigate",
        url]
    case AltAgent(url) =>
      BaseOptions + ["--no-check-certificate", "--geo-bypass", "--user-agent", FirefoxAgent,
        "--add-header", AcceptHeader, url]
    case Minimal(url) => BaseOptions + ["--no-check-certificate", url]
    case Client(url, client) => BaseOptions + ["--extractor-args", "youtube:player_client=" + client, url]
    case Module(python, previous) => [python, "-m", "yt_dlp"] + Argv(previous)[1..]
  }

  /** The URL a command fetches. */
  function Target(c: Command): string {
    if c.Module? then Target(c.previous) else c.url
  }

  /** Every call ends with the URL it fetches. */
  lemma {:induction false} ArgvEndsWithTarget(c: Command)
    ensures Argv(c)[|Argv(c)| - 1] == Target(c)
  {
    if c.Module? {
      ArgvEndsWithTarget(c.previous);
      var a := Argv(c.previous);
      assert Argv(c) == [c.python, "-m", "yt_dlp"] + a[1..];
    }
  }

  /** Every direct call starts with the executable and the options asking for one video's JSON dump. */
  lemma ArgvStartsWithBase(c: Command)
    requires !c.Module?
    ensures Argv(c)[..|BaseOptions|] == BaseOptions
  {
  }

  /**
   * A module call runs the interpreter on `yt_dlp` and passes the options of
   * the direct call it replaces after its executable.
   */
  lemma ModuleArgv(python: string, previous: Command)
    requires !previous.Module?
    ensures Argv(Module(python, previous))[..3] == [python, "-m", "yt_dlp"]
    ensures Argv(Module(python, previous))[3..7] == BaseOptions[1..]
  {
    ArgvStartsWithBase(previous);
    var a := Argv(previous);
    assert Argv(Module(python, previous)) == [python, "-m", "yt_dlp"] + a[1..];
  }

  /** The gate of attempts 2 and 4. */
  predicate IsYouTube(url: string) {
    Contains(url, "youtube") || Contains(url, "youtu.be")
  }

  /**
   * The commands attempts 1 to 5 run, in order, for a cleaned URL: attempts 2
   * and 4 only for YouTube, and attempt 5 the last command built before it run
   * as a module.
   */
  function Plan(url: string, python: string): (p: seq<Command>)
    ensures |p| == if IsYouTube(url) then 5 else 3
    ensures p[|p| - 1] == Module(python, p[|p| - 2])
  {
    if IsYouTube(url) then
      [Standard(url), AltAgent(url), Minimal(url), Client(url, "android"), Module(python, Client(url, "android"))]
    else
      [Standard(url), Minimal(url), Module(python, Minimal(url))]
  }

  /** The YouTube-only commands are planned exactly for YouTube URLs, and every command fetches the cleaned URL. */
  lemma PlanGating(url: string, python: string)
    ensures AltAgent(url) in Plan(url, python) <==> IsYouTube(url)
    ensures Client(url, "android") in Plan(url, python) <==> IsYouTube(url)
    ensures Plan(url, python)[0] == Standard(url)
    ensures forall c :: c in Plan(url, python) ==> Target(c) == url
  {
    var p := Plan(url, python);
    if !IsYouTube(url) {
      assert p == [Standard(url), Minimal(url), Module(python, Minimal(url))];
    }
  }

  /**
   * `json.loads(stdout.strip().split('\n')[0])` when the stripped output is
   * non-empty: blank output gives nothing, and what is parsed is a non-empty
   * line that starts the stripped output.
   */
  function ParsedOutput<J>(stdout: string, parse: string -> Option<J>): (r: Option<J>)
    ensures (forall i :: 0 <= i < |stdout| ==> IsPyWhitespace(stdout[i])) ==> r == None
    ensures r.Some? ==> exists line :: r == parse(line) && line != "" && '\n' !in line
                                       && StartsWith(StripSpace(stdout), line)
  {
    var out := StripSpace(stdout);
    StripEmpty(stdout, IsPyWhitespace);
    if out == "" then None
    else
      var line := Before(out, "\n");
      FirstLineShape(out, line);
      parse(line)
  }

  /** The first line of a stripped, non-empty output is non-empty, holds no newline and starts it. */
  lemma FirstLineShape(out: string, line: string)
    requires out != "" && !IsPyWhitespace(out[0]) && line == Before(out, "\n")
    ensures line != "" && '\n' !in line && StartsWith(out, line)
  {
    BeforeChar(out, '\n');
  }

  /** The stdout reader of every call: strip, take the first line, parse it. */
  function Reader<J>(parse: string -> Option<J>): string -> Option<J> {
    s => ParsedOutput(s, parse)
  }

  /** An attempt ends the call: it timed out, crashed, or printed JSON. */
  predicate Decisive<J>(o: Outcome, read: string -> Option<J>) {
    o.TimedOut? || o.Crashed? || read(o.stdout).Some?
  }

  function TimeoutMessage(timeout: int): string {
    TimeoutPrefix + IntToString(timeout) + " seconds"
  }

  /**
   * How a decisive attempt ends the call. The timeout message is raised from
   * inside an `except` clause, so the catch-all beside it does not add the
   * `yt-dlp error: ` prefix; any other exception gets it.
   */
  function Verdict<J>(o: Outcome, timeout: int, read: string -> Option<J>): (r: Reply<J>)
    requires Decisive(o, read)
    ensures r.Parsed? <==> o.Finished?
    ensures o.Finished? ==> r.value == read(o.stdout).value
    ensures o.Crashed? ==> r == Failed(ErrorPrefix + o.message)
    ensures o.TimedOut? ==> r == Failed(TimeoutMessage(timeout)) && !StartsWith(r.message, ErrorPrefix)
  {
    TimeoutUnprefixed(timeout);
    match o
    case TimedOut => Failed(TimeoutMessage(timeout))
    case Crashed(m) => Failed(ErrorPrefix + m)
    case Finished(out, _) => Parsed(read(out).value)
  }

  /** The index of the first decisive call among calls `from` to `n - 1`, or `n`. */
  function FirstDecisive<J>(env: nat -> Outcome, read: string -> Option<J>, from: nat, n: nat): (k: nat)
    requires from <= n
    ensures from <= k <= n
    ensures forall i :: from <= i < k ==> !Decisive(env(i), read)
    ensures k < n ==> Decisive(env(k), read)
    decreases n - from
  {
    if from == n || Decisive(env(from), read) then from else FirstDecisive(env, read, from + 1, n)
  }

  /** The timeout message does not start with the `yt-dlp error: ` prefix. */
  lemma TimeoutUnprefixed(timeout: int)
    ensures !StartsWith(TimeoutMessage(timeout), ErrorPrefix)
  {
    assert TimeoutMessage(timeout)[0] == 'T';
  }

  /**
   * `result.stderr.strip() if result.stderr else "No output from yt-dlp"`: the
   * fixed text for empty stderr, else stderr with the whitespace around it
   * removed.
   */
  function ErrorMessage(stderr: string): (m: string)
    ensures stderr == "" ==> m == "No output from yt-dlp"
    ensures stderr != "" ==> IsStripOf(stderr, IsPyWhitespace, m)
  {
    if stderr == "" then "No output from yt-dlp" else StripSpace(stderr)
  }

  /** What a fallback call yields: its errors of any kind are swallowed. */
  function FallbackParse<J>(o: Outcome, read: string -> Option<J>): Option<J> {
    if o.Finished? then read(o.stdout) else None
  }

  /** The fallback's result when its calls are `env(start)` (ios) and `env(start + 1)` (tv). */
  function FallbackReply<J>(env: nat -> Outcome, start: nat, read: string -> Option<J>): Reply<J> {
    match FallbackParse(env(start), read)
    case Some(j) => Parsed(j)
    case None =>
      match FallbackParse(env(start + 1), read)
      case Some(j) => Parsed(j)
      case None => Failed(BotDetected)
  }

  /**
   * The result once every attempt is spent, `em` is the last error message and
   * the next call is number `start`: the fallback when `em` carries the
   * sign-in marker, otherwise a failure carrying `em` cut to 200 characters.
   * Either failure passes through the catch-all and gets its prefix.
   */
  function ExhaustedReply<J>(em: string, env: nat -> Outcome, start: nat, read: string -> Option<J>): Reply<J> {
    if Contains(em, SignInMarker) then
      match FallbackReply(env, start, read)
      case Parsed(j) => Parsed(j)
      case Failed(m) => Failed(ErrorPrefix + m)
    else Failed(ErrorPrefix + FailedPrefix + Prefix(em, 200))
  }

  /** The calls made once every attempt is spent. */
  function ExhaustedCalls<J>(url: string, em: string, env: nat -> Outcome, start: nat, read: string -> Option<J>): seq<Command> {
    if Contains(em, SignInMarker) then
      [Client(url, "ios")] + (if FallbackParse(env(start), read).Some? then [] else [Client(url, "tv")])
    else []
  }

  /** The reference result of the cascade for a cleaned URL. */
  function CascadeReply<J>(url: string, timeout: int, python: string,
                           env: nat -> Outcome, read: string -> Option<J>): Reply<J> {
    var n := |Plan(url, python)|;
    var k := FirstDecisive(env, read, 0, n);
    if k < n then Verdict(env(k), timeout, read)
    else ExhaustedReply(ErrorMessage(env(n - 1).stderr), env, n, read)
  }

  /** The commands the cascade runs, in order. */
  function CascadeCalls<J>(url: string, python: string, env: nat -> Outcome, read: string -> Option<J>): seq<Command> {
    var plan := Plan(url, python);
    var n := |plan|;
    var k := FirstDecisive(env, read, 0, n);
    if k < n then plan[..k + 1]
    else plan + ExhaustedCalls(url, ErrorMessage(env(n - 1).stderr), env, n, read)
  }

  /** One `subprocess.run` of the cascade: call number `|calls|` gets outcome `env(|calls|)`. */
  method Run(cmd: Command, calls: seq<Command>, env: nat -> Outcome) returns (o: Outcome, calls': seq<Command>)
    ensures o == env(|calls|) && calls' == calls + [cmd]
  {
    o := env(|calls|);
    calls' := calls + [cmd];
  }

  /**
   * `_yt_dlp_fallback_extraction`: the ios client, then the tv client; the
   * first JSON output wins, every error is swallowed, and with neither the
   * call fails with the bot-detection message.
   */
  method FallbackExtraction<J>(url: string, env: nat -> Outcome, calls: seq<Command>, read: string -> Option<J>)
    returns (reply: Reply<J>, calls': seq<Command>)
    ensures reply == FallbackReply(env, |calls|, read)
    ensures calls' == calls + [Client(url, "ios")]
      + (if FallbackParse(env(|calls|), read).Some? then [] else [Client(url, "tv")])
  {
    var o;
    o, calls' := Run(Client(url, "ios"), calls, env);
    if o.Finished? {
      var p := read(o.stdout);
      if p.Some? {
        return Parsed(p.value), calls';
      }
    }
    o, calls' := Run(Client(url, "tv"), calls', env);
    if o.Finished? {
      var p := read(o.stdout);
      if p.Some? {
        return Parsed(p.value), calls';
      }
    }
    reply := Failed(BotDetected);
  }

  /** The first decisive index is pinned down by its defining properties. */
  lemma FirstDecisiveIs<J>(env: nat -> Outcome, read: string -> Option<J>, n: nat, k: nat)
    requires k <= n
    requires forall i :: 0 <= i < k ==> !Decisive(env(i), read)
    requires k < n ==> Decisive(env(k), read)
    ensures FirstDecisive(env, read, 0, n) == k
  {
  }

  /**
   * One attempt of `_run_yt_dlp_json`: run the command; a timeout, a crash or
   * JSON output decides the call.
   */
  method Attempt<J>(cmd: Command, calls: seq<Command>, timeout: int,
                    env: nat -> Outcome, read: string -> Option<J>)
    returns (o: Outcome, calls': seq<Command>, decided: Option<Reply<J>>)
    ensures o == env(|calls|) && calls' == calls + [cmd]
    ensures decided.Some? <==> Decisive(o, read)
    ensures decided.Some? ==> Decisive(o, read) && decided.value == Verdict(o, timeout, read)
  {
    o, calls' := Run(cmd, calls, env);
    if o.TimedOut? {
      return o, calls', Some(Failed(TimeoutMessage(timeout)));
    }
    if o.Crashed? {
      return o, calls', Some(Failed(ErrorPrefix + o.message));
    }
    var p := read(o.stdout);
    decided := if p.Some? then Some(Parsed(p.value)) else None;
  }

  /**
   * Attempts 1 to 5 of `_run_yt_dlp_json` for a cleaned URL: the planned
   * commands in order, returning at the first decisive one. When none decides,
   * `last` is the outcome of the last attempt, which finished.
   */
  method RunAttempts<J>(url: string, timeout: int, python: string,
                         env: nat -> Outcome, read: string -> Option<J>)
    returns (decided: Option<Reply<J>>, last: Outcome, calls: seq<Command>)
    ensures var n := |Plan(url, python)|; var k := FirstDecisive(env, read, 0, n);
      && (decided.Some? <==> k < n)
      && (k < n ==> decided.value == Verdict(env(k), timeout, read) && calls == Plan(url, python)[..k + 1])
      && (k == n ==> calls == Plan(url, python) && last == env(n - 1) && last.Finished?)
  {
    var plan := Plan(url, python);
    var n := |plan|;
    calls := [];
    last := TimedOut;
    var i := 0;
    while i < n
      invariant 0 <= i <= n && |calls| == i
      invariant calls == plan[..i]
      invariant forall j :: 0 <= j < i ==> !Decisive(env(j), read)
      invariant i > 0 ==> last == env(i - 1)
    {
      var o, d;
      o, calls, d := Attempt(plan[i], calls, timeout, env, read);
      assert o == env(i) && calls == plan[..i + 1];
      if d.Some? {
        FirstDecisiveIs(env, read, n, i);
        return d, o, calls;
      }
      last := o;
      i := i + 1;
    }
    decided := None;
    FirstDecisiveIs(env, read, n, n);
  }

  /** The end of `_run_yt_dlp_json` when no attempt decided: the fallback, or a failure. */
  method Exhausted<J>(url: string, errorMsg: string, env: nat -> Outcome, calls: seq<Command>, read: string -> Option<J>)
    returns (reply: Reply<J>, calls': seq<Command>)
    ensures reply == ExhaustedReply(errorMsg, env, |calls|, read)
    ensures calls' == calls + ExhaustedCalls(url, errorMsg, env, |calls|, read)
  {
    if Contains(errorMsg, SignInMarker) {
      var fallback;
      fallback, calls' := FallbackExtraction(url, env, calls, read);
      reply := match fallback
        case Parsed(j) => Parsed(j)
        case Failed(m) => Failed(ErrorPrefix + m);
    } else {
      reply := Failed(ErrorPrefix + FailedPrefix + Prefix(errorMsg, 200));
      calls' := calls;
    }
  }

  /**
   * `_run_yt_dlp_json`: clean the URL, run the attempts, and when none decided
   * hand the last error message to the exhaustion step.
   */
  method RunYtDlpJson<J>(rawUrl: string, timeout: int, python: string,
                         env: nat -> Outcome, parse: string -> Option<J>)
    returns (reply: Reply<J>, calls: seq<Command>)
    ensures reply == CascadeReply(CleanUrl(rawUrl), timeout, python, env, Reader(parse))
    ensures calls == CascadeCalls(CleanUrl(rawUrl), python, env, Reader(parse))
  {
    var url := CleanUrl(rawUrl);
    var read := Reader(parse);
    var decided, last;
    decided, last, calls := RunAttempts(url, timeout, python, env, read);
    if decided.Some? {
      return decided.value, calls;
    }
    reply, calls := Exhausted(url, ErrorMessage(last.stderr), env, calls, read);
  }

  /** Output that is only whitespace is not parsed at all. */
  lemma BlankOutputNotParsed<J>(stdout: string, parse: string -> Option<J>)
    requires forall i :: 0 <= i < |stdout| ==> IsPyWhitespace(stdout[i])
    ensures ParsedOutput(stdout, parse) == None
  {
    StripEmpty(stdout, IsPyWhitespace);
  }

  /**
   * Only the first line of the output is parsed: whatever follows the first
   * newline is ignored.
   */
  lemma FirstLineParsed<J>(line: string, rest: string, parse: string -> Option<J>)
    requires line != [] && !IsPyWhitespace(line[0]) && !IsPyWhitespace(line[|line| - 1])
    requires '\n' !in line
    ensures ParsedOutput(line + "\n" + rest, parse) == parse(line)
  {
    var s := line + "\n" + rest;
    assert s[0] == line[0];
    assert TrimStart(s, IsPyWhitespace) == s;
    var out := StripSpace(s);
    assert out == TrimEnd(s, IsPyWhitespace);
    assert s[|line| - 1] == line[|line| - 1];
    assert !IsPyWhitespace(s[|line| - 1]);
    assert |out| >= |line|;
    assert out[..|line|] == line;
    FirstLineOf(out, line);
  }

  /** The first line of a string that starts with a newline-free `line`, followed by nothing or a newline. */
  lemma FirstLineOf(out: string, line: string)
    requires |out| >= |line| && out[..|line|] == line && '\n' !in line
    requires |out| == |line| || out[|line|] == '\n'
    ensures Before(out, "\n") == line
  {
    BeforeChar(out, '\n');
  }

  /** The first JSON output of an attempt is the result, and no later attempt runs. */
  lemma FirstJsonWins<J>(url: string, timeout: int, python: string,
                         env: nat -> Outcome, read: string -> Option<J>, k: nat)
    requires k < |Plan(url, python)|
    requires forall i :: 0 <= i < k ==> !Decisive(env(i), read)
    requires env(k).Finished? && read(env(k).stdout).Some?
    ensures CascadeReply(url, timeout, python, env, read) == Parsed(read(env(k).stdout).value)
    ensures CascadeCalls(url, python, env, read) == Plan(url, python)[..k + 1]
  {
    FirstDecisiveIs(env, read, |Plan(url, python)|, k);
  }

  /**
   * A timeout in any attempt ends the call with the timeout message, without
   * the `yt-dlp error: ` prefix, and no later attempt or fallback runs.
   */
  lemma TimeoutEndsCall<J>(url: string, timeout: int, python: string,
                           env: nat -> Outcome, read: string -> Option<J>, k: nat)
    requires k < |Plan(url, python)|
    requires forall i :: 0 <= i < k ==> !Decisive(env(i), read)
    requires env(k).TimedOut?
    ensures CascadeReply(url, timeout, python, env, read) == Failed(TimeoutMessage(timeout))
    ensures !StartsWith(TimeoutMessage(timeout), ErrorPrefix)
    ensures CascadeCalls(url, python, env, read) == Plan(url, python)[..k + 1]
  {
    FirstDecisiveIs(env, read, |Plan(url, python)|, k);
    TimeoutUnprefixed(timeout);
  }

  /** Any other exception in an attempt ends the call with its message behind the prefix. */
  lemma CrashEndsCall<J>(url: string, timeout: int, python: string,
                         env: nat -> Outcome, read: string -> Option<J>, k: nat)
    requires k < |Plan(url, python)|
    requires forall i :: 0 <= i < k ==> !Decisive(env(i), read)
    requires env(k).Crashed?
    ensures CascadeReply(url, timeout, python, env, read) == Failed(ErrorPrefix + env(k).message)
    ensures CascadeCalls(url, python, env, read) == Plan(url, python)[..k + 1]
  {
    FirstDecisiveIs(env, read, |Plan(url, python)|, k);
  }

  /**
   * With every attempt spent and no sign-in marker in the last error message,
   * the call fails with that message cut to 200 characters, after all planned
   * attempts and nothing else.
   */
  lemma ExhaustionMessage<J>(url: string, timeout: int, python: string,
                             env: nat -> Outcome, read: string -> Option<J>)
    requires forall i :: 0 <= i < |Plan(url, python)| ==> !Decisive(env(i), read)
    requires env(|Plan(url, python)| - 1).Finished?
    requires !Contains(ErrorMessage(env(|Plan(url, python)| - 1).stderr), SignInMarker)
    ensures var em := ErrorMessage(env(|Plan(url, python)| - 1).stderr);
      CascadeReply(url, timeout, python, env, read) == Failed(ErrorPrefix + FailedPrefix + Prefix(em, 200))
    ensures |CascadeReply(url, timeout, python, env, read).message| <= |ErrorPrefix| + |FailedPrefix| + 200
    ensures CascadeCalls(url, python, env, read) == Plan(url, python)
  {
    var n := |Plan(url, python)|;
    AllAttemptsSpent(url, timeout, python, env, read);
  }

  /**
   * With every attempt spent and the sign-in marker in the last error message,
   * the ios and then the tv client are tried; when neither prints JSON the call
   * fails with the bot-detection message behind the prefix.
   */
  lemma BotDetectionFallback<J>(url: string, timeout: int, python: string,
                                env: nat -> Outcome, read: string -> Option<J>)
    requires forall i :: 0 <= i < |Plan(url, python)| ==> !Decisive(env(i), read)
    requires env(|Plan(url, python)| - 1).Finished?
    requires Contains(ErrorMessage(env(|Plan(url, python)| - 1).stderr), SignInMarker)
    ensures var n := |Plan(url, python)|;
      FallbackParse(env(n), read).Some? ==>
        CascadeReply(url, timeout, python, env, read) == Parsed(FallbackParse(env(n), read).value)
        && CascadeCalls(url, python, env, read) == Plan(url, python) + [Client(url, "ios")]
    ensures var n := |Plan(url, python)|;
      FallbackParse(env(n), read).None? && FallbackParse(env(n + 1), read).Some? ==>
        CascadeReply(url, timeout, python, env, read) == Parsed(FallbackParse(env(n + 1), read).value)
    ensures var n := |Plan(url, python)|;
      FallbackParse(env(n), read).None? && FallbackParse(env(n + 1), read).None? ==>
        CascadeReply(url, timeout, python, env, read) == Failed(ErrorPrefix + BotDetected)
    ensures var n := |Plan(url, python)|;
      FallbackParse(env(n), read).None? ==>
        CascadeCalls(url, python, env, read) == Plan(url, python) + [Client(url, "ios"), Client(url, "tv")]
  {
    var n := |Plan(url, python)|;
    AllAttemptsSpent(url, timeout, python, env, read);
    var em := ErrorMessage(env(n - 1).stderr);
    assert ExhaustedCalls(url, em, env, n, read)
      == [Client(url, "ios")] + (if FallbackParse(env(n), read).Some? then [] else [Client(url, "tv")]);
  }

  /** With every attempt spent, the cascade's result and calls are those of the exhaustion step. */
  lemma AllAttemptsSpent<J>(url: string, timeout: int, python: string,
                            env: nat -> Outcome, read: string -> Option<J>)
    requires forall i :: 0 <= i < |Plan(url, python)| ==> !Decisive(env(i), read)
    requires env(|Plan(url, python)| - 1).Finished?
    ensures var n := |Plan(url, python)|; var em := ErrorMessage(env(n - 1).stderr);
      && CascadeReply(url, timeout, python, env, read) == ExhaustedReply(em, env, n, read)
      && CascadeCalls(url, python, env, read) == Plan(url, python) + ExhaustedCalls(url, em, env, n, read)
  {
    var n := |Plan(url, python)|;
    FirstDecisiveIs(env, read, n, n);
  }

  /**
   * A call runs between one and seven commands: the first is always the
   * standard attempt, and only the YouTube gate and the fallback add more
   * than three.
   */
  lemma CallCount<J>(url: string, python: string, env: nat -> Outcome, read: string -> Option<J>)
    ensures var calls := CascadeCalls(url, python, env, read);
      1 <= |calls| <= |Plan(url, python)| + 2 && calls[0] == Standard(url)
    ensures !IsYouTube(url) ==> |CascadeCalls(url, python, env, read)| <= 5
  {
    PlanGating(url, python);
  }
}
