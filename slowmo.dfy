/**
  The decisions of the `/slowmo` image-to-video handler (server.js): how the
  duration and frame rate are resolved from the request body, which image
  source is used, the ffmpeg command line, how the engine's terminal event is
  classified, what cleanup does to the filesystem, and `Handle`, the whole
  request as one reference function over an abstract filesystem (the set of
  paths that exist).
*/
module Slowmo {
  import opened Wrappers
  import opened Strings

  const DefaultDuration := 5
  const DefaultFps := 30
  const MinClamp := 1
  const MaxClamp := 60

  /**
    A numeric request-body field as `Number(field || default)` sees it.
    Falsy stands for every value `||` replaces by the default (undefined,
    null, the number 0, "", false); Numeric(n) for a truthy value that
    `Number` turns into the integer n (the number 7, the string "7", and also
    the string "0", which is truthy); NotANumber for a truthy value that
    `Number` turns into NaN (the string "abc").
  */
  datatype BodyValue = Falsy | Numeric(n: int) | NotANumber

  /** A JavaScript number restricted to the integers and NaN. */
  datatype JsNumber = Finite(n: int) | NaN

  /** `Number(v || default)`. */
  function ToNumber(v: BodyValue, default: int): JsNumber {
    match v
    case Falsy => Finite(default)
    case Numeric(n) => Finite(n)
    case NotANumber => NaN
  }

  /** `Math.min`: NaN if either argument is NaN, otherwise the smaller argument. */
  function MathMin(a: JsNumber, b: JsNumber): (m: JsNumber)
    ensures m.NaN? <==> a.NaN? || b.NaN?
    ensures m.Finite? ==> (m == a || m == b) && m.n <= a.n && m.n <= b.n
  {
    if a.NaN? || b.NaN? then NaN else if a.n <= b.n then a else b
  }

  /** `Math.max`: NaN if either argument is NaN, otherwise the larger argument. */
  function MathMax(a: JsNumber, b: JsNumber): (m: JsNumber)
    ensures m.NaN? <==> a.NaN? || b.NaN?
    ensures m.Finite? ==> (m == a || m == b) && m.n >= a.n && m.n >= b.n
  {
    if a.NaN? || b.NaN? then NaN else if a.n >= b.n then a else b
  }

  /**
    `Math.max(1, Math.min(Number(v || default), 60))`: NaN exactly for
    non-numeric text, otherwise the number (the default for a falsy field)
    moved to the nearest point of [1, 60].
  */
  function ClampedField(v: BodyValue, default: int): (c: JsNumber)
    ensures c.NaN? <==> v.NotANumber?
    ensures c.Finite? ==> MinClamp <= c.n <= MaxClamp
    ensures c.Finite? ==> var n := if v.Falsy? then default else v.n;
      (MinClamp <= n <= MaxClamp ==> c.n == n)
      && (n < MinClamp ==> c.n == MinClamp)
      && (n > MaxClamp ==> c.n == MaxClamp)
  {
    MathMax(Finite(MinClamp), MathMin(ToNumber(v, default), Finite(MaxClamp)))
  }

  /**
    The clip duration in seconds (server.js line 3). A falsy field gives the
    default 5; an integer is clamped into [1, 60]; a non-numeric text stays
    NaN, since NaN passes through `Math.min` and `Math.max` unclamped.
  */
  function ResolveDuration(v: BodyValue): (d: JsNumber)
    ensures d.NaN? <==> v.NotANumber?
    ensures d.Finite? ==> MinClamp <= d.n <= MaxClamp
    ensures v.Falsy? ==> d == Finite(DefaultDuration)
    ensures v.Numeric? && MinClamp <= v.n <= MaxClamp ==> d == Finite(v.n)
    ensures v.Numeric? && v.n < MinClamp ==> d == Finite(MinClamp)
    ensures v.Numeric? && v.n > MaxClamp ==> d == Finite(MaxClamp)
  {
    ClampedField(v, DefaultDuration)
  }

  /** The output frame rate (server.js line 4): default 30, otherwise as the duration. */
  function ResolveFps(v: BodyValue): (f: JsNumber)
    ensures f.NaN? <==> v.NotANumber?
    ensures f.Finite? ==> MinClamp <= f.n <= MaxClamp
    ensures v.Falsy? ==> f == Finite(DefaultFps)
    ensures v.Numeric? && MinClamp <= v.n <= MaxClamp ==> f == Finite(v.n)
    ensures v.Numeric? && v.n < MinClamp ==> f == Finite(MinClamp)
    ensures v.Numeric? && v.n > MaxClamp ==> f == Finite(MaxClamp)
  {
    ClampedField(v, DefaultFps)
  }

  /** Resolving a value that is already resolved changes nothing: the clamp is a fixpoint. */
  lemma ResolveIsIdempotent(v: BodyValue)
    ensures ResolveDuration(v).Finite? ==> ResolveDuration(Numeric(ResolveDuration(v).n)) == ResolveDuration(v)
    ensures ResolveFps(v).Finite? ==> ResolveFps(Numeric(ResolveFps(v).n)) == ResolveFps(v)
  {
  }

  /** `String(x)` for an integer or NaN. */
  function NumberText(x: JsNumber): (s: string)
    ensures x.NaN? ==> s == "NaN"
    ensures x.Finite? && x.n >= 0 ==> AllDigits(s) && DecimalValue(s) == x.n
    ensures x.Finite? && x.n < 0 ==> |s| >= 2 && s[0] == '-' && AllDigits(s[1..]) && DecimalValue(s[1..]) == -x.n
    // The shortest spelling: no leading zero, and "0" (not "") for zero.
    ensures x.Finite? && x.n >= 0 ==> |s| >= 1 && (s[0] == '0' ==> s == "0")
    ensures x.Finite? && x.n < 0 ==> s[1] != '0'
  {
    match x
    case NaN => "NaN"
    case Finite(n) =>
      if n < 0 then
        DecimalRoundTrip(-n);
        var digits := NatToDecimal(-n);
        assert ("-" + digits)[1..] == digits;
        "-" + digits
      else
        DecimalRoundTrip(n);
        NatToDecimal(n)
  }

  // ---------------------------------------------------------------- source

  /** The parts of the request the handler reads. */
  datatype Request = Request(url: Option<string>, hasVideoUpload: bool, duration: BodyValue, fps: BodyValue)

  /** `req.body?.url` is truthy: present and not the empty string. */
  predicate HasUrl(req: Request) {
    req.url.Some? && req.url.value != ""
  }

  /**
    The regular expression `/^https?:\/\//i`: the letters h, t, t, p in
    either case, an optional s in either case, then "://" at the very start.
  */
  predicate IsHttpUrl(s: string): (b: bool)
    ensures b <==>
      && |s| >= 7
      && AsciiLower(s[0]) == 'h' && AsciiLower(s[1]) == 't' && AsciiLower(s[2]) == 't' && AsciiLower(s[3]) == 'p'
      && (s[4..7] == "://" || (|s| >= 8 && AsciiLower(s[4]) == 's' && s[5..8] == "://"))
  {
    SchemePrefixes(s);
    StartsWithIgnoringAsciiCase(s, "http://") || StartsWithIgnoringAsciiCase(s, "https://")
  }

  /** The two case-blind prefix tests, character by character; ':' and '/' have no other case. */
  lemma SchemePrefixes(s: string)
    ensures StartsWithIgnoringAsciiCase(s, "http://") <==>
      && |s| >= 7
      && AsciiLower(s[0]) == 'h' && AsciiLower(s[1]) == 't' && AsciiLower(s[2]) == 't' && AsciiLower(s[3]) == 'p'
      && s[4..7] == "://"
    ensures StartsWithIgnoringAsciiCase(s, "https://") <==>
      && |s| >= 8
      && AsciiLower(s[0]) == 'h' && AsciiLower(s[1]) == 't' && AsciiLower(s[2]) == 't' && AsciiLower(s[3]) == 'p'
      && AsciiLower(s[4]) == 's' && s[5..8] == "://"
  {
    if |s| >= 7 {
      assert s[4..7] == [s[4], s[5], s[6]];
      assert StartsWithIgnoringAsciiCase(s, "http://") <==>
        && AsciiLower(s[0]) == 'h' && AsciiLower(s[1]) == 't' && AsciiLower(s[2]) == 't' && AsciiLower(s[3]) == 'p'
        && AsciiLower(s[4]) == ':' && AsciiLower(s[5]) == '/' && AsciiLower(s[6]) == '/';
    }
    if |s| >= 8 {
      assert s[5..8] == [s[5], s[6], s[7]];
      assert StartsWithIgnoringAsciiCase(s, "https://") <==>
        && AsciiLower(s[0]) == 'h' && AsciiLower(s[1]) == 't' && AsciiLower(s[2]) == 't' && AsciiLower(s[3]) == 'p'
        && AsciiLower(s[4]) == 's' && AsciiLower(s[5]) == ':' && AsciiLower(s[6]) == '/' && AsciiLower(s[7]) == '/';
    }
  }

  /** Which branch of the acquisition `if` the request takes (server.js lines 16-24). */
  datatype Source = InvalidUrl | FromUrl(url: string) | FromUpload | NoSource

  function ChooseSource(req: Request): (src: Source)
    // A URL, when present, decides alone: an upload next to it is ignored.
    ensures src.FromUrl? <==> HasUrl(req) && IsHttpUrl(req.url.value)
    ensures src.FromUrl? ==> src.url == req.url.value
    ensures src == InvalidUrl <==> HasUrl(req) && !IsHttpUrl(req.url.value)
    // Without one, the upload is used if there is one.
    ensures src == FromUpload <==> !HasUrl(req) && req.hasVideoUpload
    ensures src == NoSource <==> !HasUrl(req) && !req.hasVideoUpload
  {
    if HasUrl(req) then
      if IsHttpUrl(req.url.value) then FromUrl(req.url.value) else InvalidUrl
    else if req.hasVideoUpload then FromUpload
    else NoSource
  }

  /** The request gets as far as acquiring an input file (and so as far as cleanup). */
  predicate Acquires(req: Request) {
    ChooseSource(req).FromUrl? || ChooseSource(req).FromUpload?
  }

  /** The URL check ignores ASCII case: a URL and its lower-case spelling are judged alike. */
  lemma UrlCheckIgnoresCase(s: string, t: string)
    requires |s| == |t| && forall i :: 0 <= i < |s| ==> AsciiLower(s[i]) == AsciiLower(t[i])
    ensures IsHttpUrl(s) <==> IsHttpUrl(t)
  {
  }

  // ---------------------------------------------------------------- engine

  const ScaleAndPad := "scale=1080:1920:force_original_aspect_ratio=decrease,pad=1080:1920:(ow-iw)/2:(oh-ih)/2:black"

  /** The option/value pairs of the command line, in order (server.js lines 29-36). */
  function EngineOptions(input: string, duration: JsNumber, fps: JsNumber): seq<(string, string)> {
    [ ("-loop", "1"),                  // loop the single image
      ("-i", input),
      ("-t", NumberText(duration)),
      ("-r", NumberText(fps)),
      ("-vf", ScaleAndPad),
      ("-c:v", "libx264"),
      ("-pix_fmt", "yuv420p"),
      ("-movflags", "+faststart") ]
  }

  /** Option/value pairs laid out one argument after another. */
  function Flatten(options: seq<(string, string)>): (args: seq<string>)
    ensures |args| == 2 * |options|
  {
    if options == [] then [] else [options[0].0, options[0].1] + Flatten(options[1..])
  }

  /** The ffmpeg argument list (server.js lines 27-38): overwrite, the options, the output path. */
  function FfmpegArgs(input: string, output: string, duration: JsNumber, fps: JsNumber): (args: seq<string>)
    ensures |args| == 18 && args[0] == "-y" && args[|args| - 1] == output
  {
    ["-y"] + Flatten(EngineOptions(input, duration, fps)) + [output]
  }

  /** An argument ffmpeg reads as an option name: a dash followed by at least one character. */
  predicate IsOptionName(s: string) {
    |s| >= 2 && s[0] == '-'
  }

  /** How ffmpeg reads a command line: the overwrite switch, option/value pairs in order, output files. */
  datatype CommandLine = CommandLine(overwrite: bool, options: seq<(string, string)>, outputs: seq<string>)

  /**
    ffmpeg's reading of an argument list restricted to the options used here:
    `-y` takes no value, every other option name consumes the next argument as
    its value, and any other argument names an output file. None when an
    option lacks its value.
  */
  function ParseCommandLine(args: seq<string>): Option<CommandLine>
    decreases |args|
  {
    if args == [] then
      Some(CommandLine(false, [], []))
    else if args[0] == "-y" then
      match ParseCommandLine(args[1..])
      case None => None
      case Some(c) => Some(c.(overwrite := true))
    else if IsOptionName(args[0]) then
      if |args| < 2 then None
      else
        match ParseCommandLine(args[2..])
        case None => None
        case Some(c) => Some(c.(options := [(args[0], args[1])] + c.options))
    else
      match ParseCommandLine(args[1..])
      case None => None
      case Some(c) => Some(c.(outputs := [args[0]] + c.outputs))
  }

  /** Option pairs whose names are option names other than `-y` read back as themselves. */
  lemma {:induction false} ParseFlattened(options: seq<(string, string)>, output: string)
    requires forall i :: 0 <= i < |options| ==> IsOptionName(options[i].0) && options[i].0 != "-y"
    requires !IsOptionName(output) && output != "-y"
    ensures ParseCommandLine(Flatten(options) + [output]) == Some(CommandLine(false, options, [output]))
  {
    var args := Flatten(options) + [output];
    if options == [] {
      assert args == [output] && args[1..] == [];
      assert ParseCommandLine(args[1..]) == Some(CommandLine(false, [], []));
      assert ParseCommandLine(args) == Some(CommandLine(false, [], [output] + []));
      assert [output] + [] == [output];
    } else {
      ParseFlattened(options[1..], output);
      assert args[2..] == Flatten(options[1..]) + [output];
      assert [options[0]] + options[1..] == options;
    }
  }

  /**
    Reading the command line back gives the request's parameters: overwrite
    on, the input image after `-i` (looped), the duration after `-t` and the
    frame rate after `-r` spelled so that a decimal reader recovers the
    clamped values, the fixed filter, codec, pixel format and faststart flag,
    and a single output file, the output path.
  */
  lemma ArgsReadBack(input: string, output: string, duration: JsNumber, fps: JsNumber)
    requires !IsOptionName(output)
    ensures ParseCommandLine(FfmpegArgs(input, output, duration, fps)) == Some(CommandLine(true,
      [ ("-loop", "1"), ("-i", input), ("-t", NumberText(duration)), ("-r", NumberText(fps)),
        ("-vf", ScaleAndPad), ("-c:v", "libx264"), ("-pix_fmt", "yuv420p"), ("-movflags", "+faststart") ],
      [output]))
    ensures duration.Finite? && duration.n >= 0 ==> DecimalValue(NumberText(duration)) == duration.n
    ensures fps.Finite? && fps.n >= 0 ==> DecimalValue(NumberText(fps)) == fps.n
  {
    var options := EngineOptions(input, duration, fps);
    assert IsOptionName("-y");
    assert forall i :: 0 <= i < |options| ==> IsOptionName(options[i].0) && options[i].0 != "-y";
    ParseFlattened(options, output);
    var args := FfmpegArgs(input, output, duration, fps);
    assert args[1..] == Flatten(options) + [output];
  }

  /** `${code}` for the exit code Node reports; a process killed by a signal reports null. */
  function CodeText(code: Option<int>): (t: string)
    ensures code.None? ==> t == "null"
    ensures code.Some? && code.value >= 0 ==> AllDigits(t) && DecimalValue(t) == code.value
    ensures code.Some? && code.value < 0 ==> |t| >= 2 && t[0] == '-' && AllDigits(t[1..]) && DecimalValue(t[1..]) == -code.value
    // As for `String(n)`: exit code 0 reads "0", and no code has a leading zero.
    ensures code.Some? && code.value >= 0 ==> |t| >= 1 && (t[0] == '0' ==> t == "0")
    ensures code.Some? && code.value < 0 ==> t[1] != '0'
  {
    match code
    case None => "null"
    case Some(n) => NumberText(Finite(n))
  }

  /** `ffmpegErr += d.toString()` over the stderr chunks, in arrival order. */
  function Concat(chunks: seq<string>): (s: string)
    ensures |s| == SumOfLengths(chunks)
    // No stderr output leaves the text empty; a single chunk is the text itself.
    ensures chunks == [] ==> s == ""
    ensures |chunks| == 1 ==> s == chunks[0]
  {
    if chunks == [] then ""
    else
      assert |chunks| == 1 ==> chunks[..0] == [];
      Concat(chunks[..|chunks| - 1]) + chunks[|chunks| - 1]
  }

  /** Folding a longer list of chunks continues the fold of its first part: the text only ever grows at its end. */
  lemma {:induction false} ConcatAppend(a: seq<string>, b: seq<string>)
    ensures Concat(a + b) == Concat(a) + Concat(b)
  {
    if b == [] {
      assert a + b == a;
    } else {
      var n := |b| - 1;
      ConcatAppend(a, b[..n]);
      assert (a + b)[..|a + b| - 1] == a + b[..n];
    }
  }

  function SumOfLengths(chunks: seq<string>): nat {
    if chunks == [] then 0 else SumOfLengths(chunks[..|chunks| - 1]) + |chunks[|chunks| - 1]|
  }

  /**
    The `close` handler's test (server.js line 51): a null code (a signal),
    any non-zero code and a missing output each fail; only exit code 0 with
    the output present succeeds.
  */
  predicate CloseSucceeded(code: Option<int>, outputExists: bool): (ok: bool)
    ensures code.None? ==> !ok
    ensures code.Some? && code.value != 0 ==> !ok
    ensures !outputExists ==> !ok
    ensures code == Some(0) && outputExists ==> ok
  {
    code == Some(0) && outputExists
  }

  // ---------------------------------------------------------------- cleanup

  /**
    `cleanup` (server.js lines 9-12) on the set of existing paths: each of the
    two temp paths is removed if it exists; a missing one is skipped.
  */
  function CleanedUp(files: set<string>, input: string, output: string): (after: set<string>)
    ensures input !in after && output !in after
    ensures forall p :: p != input && p != output ==> (p in after <==> p in files)
    ensures after <= files
    ensures CleanedUp(after, input, output) == after
  {
    files - {input, output}
  }

  // ---------------------------------------------------------------- the request

  const NoImageMessage := "No image provided (use JSON { url } or form-data 'video')"
  const AttachmentName := "image-video.mp4"

  /** What the handler sends: a status with a text body, or the output file as a download. */
  datatype Response = Text(status: int, body: string) | Attachment(path: string, filename: string)

  /** The result of `downloadFile` or `req.files.video.mv`: done, or rejected with a message. */
  datatype Acquisition = Acquired | AcquireFailed(message: string)

  /**
    What the engine does once spawned: it fails to start (`error`), or it
    runs, writes stderr chunks, perhaps writes the output file, and exits
    with a code (null when killed by a signal) (`close`).
  */
  datatype EngineRun = SpawnFailed(message: string) | Exited(stderr: seq<string>, wroteOutput: bool, code: Option<int>)

  /** The terminal state of one request. */
  datatype Outcome = Outcome(response: Response, files: set<string>, invocation: Option<seq<string>>, cleanups: nat)

  /** `e.message || "Processing error"` in the catch block: the message, or the fallback when it is empty; never empty. */
  function CaughtMessage(message: string): (body: string)
    ensures message != "" ==> body == message
    ensures message == "" ==> body == "Processing error"
    ensures body != ""
  {
    if message == "" then "Processing error" else message
  }

  /**
    The whole `/slowmo` request: the response sent, the paths that exist at
    the end, the ffmpeg command line if one was spawned, and how many times
    cleanup ran. `files` is the set of paths that exist when the request
    arrives; `input` and `output` are the two temp paths.
  */
  function Handle(req: Request, input: string, output: string, files: set<string>, acq: Acquisition, run: EngineRun): (o: Outcome)
    // Input errors: 400, no file touched, no engine, no cleanup.
    ensures ChooseSource(req) == InvalidUrl ==> o == Outcome(Text(400, "Invalid URL"), files, None, 0)
    ensures ChooseSource(req) == NoSource ==> o == Outcome(Text(400, NoImageMessage), files, None, 0)
    // Once acquisition starts, cleanup runs exactly once and removes both temp paths and nothing else.
    ensures Acquires(req) ==> o.cleanups == 1 && o.files == CleanedUp(files, input, output)
    // `spawn` is called exactly when the image was acquired, with the fixed command line.
    ensures o.invocation.Some? <==> Acquires(req) && acq.Acquired?
    ensures o.invocation.Some? ==> o.invocation.value == FfmpegArgs(input, output, ResolveDuration(req.duration), ResolveFps(req.fps))
    // Failures after acquisition starts are 500s with the source's messages.
    ensures Acquires(req) && acq.AcquireFailed? ==> o.response == Text(500, CaughtMessage(acq.message))
    ensures Acquires(req) && acq.Acquired? && run.SpawnFailed? ==> o.response == Text(500, "FFmpeg spawn error: " + run.message)
    ensures Acquires(req) && acq.Acquired? && run.Exited? && !CloseSucceeded(run.code, run.wroteOutput || output in files + {input}) ==>
      o.response == Text(500, "FFmpeg failed (code " + CodeText(run.code) + "). " + Concat(run.stderr))
    // The file is delivered only after a clean exit that left the output in place.
    ensures o.response.Attachment? <==>
      Acquires(req) && acq.Acquired? && run.Exited? && CloseSucceeded(run.code, run.wroteOutput || output in files + {input})
    ensures o.response.Attachment? ==> o.response == Attachment(output, AttachmentName)
  {
    match ChooseSource(req)
    case InvalidUrl => Outcome(Text(400, "Invalid URL"), files, None, 0)
    case NoSource => Outcome(Text(400, NoImageMessage), files, None, 0)
    case _ =>
      match acq
      case AcquireFailed(message) =>
        Outcome(Text(500, CaughtMessage(message)), CleanedUp(files, input, output), None, 1)
      case Acquired =>
        var acquired := files + {input};
        var args := FfmpegArgs(input, output, ResolveDuration(req.duration), ResolveFps(req.fps));
        match run
        case SpawnFailed(message) =>
          Outcome(Text(500, "FFmpeg spawn error: " + message), CleanedUp(acquired, input, output), Some(args), 1)
        case Exited(stderr, wroteOutput, code) =>
          var afterRun := if wroteOutput then acquired + {output} else acquired;
          var response :=
            if !CloseSucceeded(code, output in afterRun) then
              Text(500, "FFmpeg failed (code " + CodeText(code) + "). " + Concat(stderr))
            else
              Attachment(output, AttachmentName);
          Outcome(response, CleanedUp(afterRun, input, output), Some(args), 1)
  }
}
