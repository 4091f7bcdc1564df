/**
  The `/slowmo` handler as the state machine it is in server.js: one object
  per request holding the set of existing paths, the single response, the
  accumulated ffmpeg stderr text and the phase, with one method per event
  (the acquisition step, stderr data, the engine writing its output, the
  `error` and `close` events, and the end of the download). `Serve` drives
  one request through these events and is proved to end in the state that
  `Slowmo.Handle` describes.
*/
module SlowmoHandler {
  import opened Wrappers
  import opened Slowmo

  /** Where the request is: before acquisition, engine running, file streaming, answered and done. */
  datatype Phase = Receiving | Spawned | Streaming | Finished

  class Handler {
    const request: Request
    const input: string
    const output: string
    const duration: JsNumber
    const fps: JsNumber
    ghost const initialFiles: set<string>

    var files: set<string>               // the paths that exist
    var response: Option<Response>       // what was sent, once sent
    var invocation: Option<seq<string>>  // the ffmpeg command line, once spawned
    var stderrText: string               // `ffmpegErr`
    var phase: Phase
    ghost var cleanups: nat              // how many times `cleanup` ran

    /** The handler's invariant: at most one response, and cleanup exactly once on every path that acquires. */
    ghost predicate Valid()
      reads this
    {
      && duration == ResolveDuration(request.duration)
      && fps == ResolveFps(request.fps)
      && (phase == Receiving ==>
            response.None? && invocation.None? && cleanups == 0 && files == initialFiles)
      && (phase == Spawned ==>
            response.None? && cleanups == 0 && Acquires(request)
            && invocation == Some(FfmpegArgs(input, output, duration, fps)))
      && (phase == Streaming ==>
            response == Some(Attachment(output, AttachmentName)) && cleanups == 0 && Acquires(request)
            && invocation.Some? && output in files)
      && (phase == Finished ==>
            response.Some?
            && (Acquires(request) ==> cleanups == 1 && input !in files && output !in files)
            && (!Acquires(request) ==>
                  cleanups == 0 && files == initialFiles && invocation.None?
                  && response.value.Text? && response.value.status == 400))
    }

    /** The request arrives: duration and fps are resolved (server.js lines 3-7). */
    constructor (req: Request, inputPath: string, outputPath: string, existing: set<string>)
      ensures Valid() && phase == Receiving
      ensures request == req && input == inputPath && output == outputPath
      ensures initialFiles == existing && files == existing
    {
      request := req;
      input := inputPath;
      output := outputPath;
      duration := ResolveDuration(req.duration);
      fps := ResolveFps(req.fps);
      initialFiles := existing;
      files := existing;
      response := None;
      invocation := None;
      stderrText := "";
      phase := Receiving;
      cleanups := 0;
    }

    /** `cleanup` (server.js lines 9-12): remove whichever of the two temp paths exist. */
    method Cleanup()
      modifies this`files, this`cleanups
      ensures files == CleanedUp(old(files), input, output)
      ensures cleanups == old(cleanups) + 1
    {
      if input in files {
        files := files - {input};
      }
      if output in files {
        files := files - {output};
      }
      cleanups := cleanups + 1;
    }

    /**
      The `try` block up to the spawn (server.js lines 14-43): choose the
      source, reject a bad URL or a missing image with 400, otherwise acquire
      the image; a failed acquisition is caught, cleaned up and answered 500;
      a successful one spawns ffmpeg with the fixed command line.
    */
    method Start(acq: Acquisition)
      requires Valid() && phase == Receiving
      modifies this`files, this`cleanups, this`response, this`invocation, this`stderrText, this`phase
      ensures Valid()
      ensures !Acquires(request) ==> phase == Finished && files == old(files)
      ensures ChooseSource(request) == InvalidUrl ==> response == Some(Text(400, "Invalid URL"))
      ensures ChooseSource(request) == NoSource ==> response == Some(Text(400, NoImageMessage))
      ensures Acquires(request) && acq.AcquireFailed? ==>
        phase == Finished && response == Some(Text(500, CaughtMessage(acq.message)))
        && files == CleanedUp(old(files), input, output) && invocation.None?
      ensures Acquires(request) && acq.Acquired? ==>
        phase == Spawned && files == old(files) + {input} && stderrText == ""
    {
      match ChooseSource(request)
      case InvalidUrl =>
        response := Some(Text(400, "Invalid URL"));
        phase := Finished;
      case NoSource =>
        response := Some(Text(400, NoImageMessage));
        phase := Finished;
      case _ =>
        match acq
        case AcquireFailed(message) =>
          Cleanup();
          response := Some(Text(500, CaughtMessage(message)));
          phase := Finished;
        case Acquired =>
          files := files + {input};
          invocation := Some(FfmpegArgs(input, output, duration, fps));
          stderrText := "";
          phase := Spawned;
    }

    /** A `data` event on ffmpeg's stderr (server.js line 43). */
    method OnStderrData(chunk: string)
      requires Valid() && phase == Spawned
      modifies this`stderrText
      ensures Valid() && stderrText == old(stderrText) + chunk
    {
      stderrText := stderrText + chunk;
    }

    /** The engine creates the output file while it runs. */
    method EngineWritesOutput()
      requires Valid() && phase == Spawned
      modifies this`files
      ensures Valid() && files == old(files) + {output}
    {
      files := files + {output};
    }

    /** The `error` event (server.js lines 45-48): the engine could not be started. */
    method OnError(message: string)
      requires Valid() && phase == Spawned
      modifies this`files, this`cleanups, this`response, this`phase
      ensures Valid() && phase == Finished
      ensures response == Some(Text(500, "FFmpeg spawn error: " + message))
      ensures files == CleanedUp(old(files), input, output) && invocation == old(invocation)
    {
      Cleanup();
      response := Some(Text(500, "FFmpeg spawn error: " + message));
      phase := Finished;
    }

    /**
      The `close` event (server.js lines 50-60): a non-zero or null exit code,
      or a missing output file, is cleaned up and answered 500 with the
      stderr text; otherwise the download of the output starts.
    */
    method OnClose(code: Option<int>)
      requires Valid() && phase == Spawned
      modifies this`files, this`cleanups, this`response, this`phase
      ensures Valid() && invocation == old(invocation)
      ensures !CloseSucceeded(code, output in old(files)) ==>
        phase == Finished && files == CleanedUp(old(files), input, output)
        && response == Some(Text(500, "FFmpeg failed (code " + CodeText(code) + "). " + old(stderrText)))
      ensures CloseSucceeded(code, output in old(files)) ==>
        phase == Streaming && files == old(files) && response == Some(Attachment(output, AttachmentName))
    {
      if !CloseSucceeded(code, output in files) {
        Cleanup();
        response := Some(Text(500, "FFmpeg failed (code " + CodeText(code) + "). " + stderrText));
        phase := Finished;
      } else {
        response := Some(Attachment(output, AttachmentName));
        phase := Streaming;
      }
    }

    /**
      The download callback (server.js lines 56-59): cleanup runs whether the
      transfer succeeded or failed; an error is only logged.
    */
    method OnDownloadDone(error: Option<string>)
      requires Valid() && phase == Streaming
      modifies this`files, this`cleanups, this`phase
      ensures Valid() && phase == Finished
      ensures response == old(response) && invocation == old(invocation)
      ensures files == CleanedUp(old(files), input, output)
    {
      Cleanup();
      phase := Finished;
    }
  }

  /**
    One request from arrival to its last event: acquisition, then either the
    spawn error or the stderr chunks, the output write and the close, then
    the download. It ends finished, in the state `Handle` gives.
  */
  method Serve(req: Request, input: string, output: string, existing: set<string>,
               acq: Acquisition, run: EngineRun, downloadError: Option<string>)
    returns (h: Handler)
    ensures fresh(h) && h.Valid() && h.phase == Finished
    ensures Outcome(h.response.value, h.files, h.invocation, h.cleanups) == Handle(req, input, output, existing, acq, run)
  {
    h := new Handler(req, input, output, existing);
    h.Start(acq);
    if h.phase == Spawned {
      match run
      case SpawnFailed(message) =>
        h.OnError(message);
      case Exited(stderr, wroteOutput, code) =>
        var i := 0;
        while i < |stderr|
          invariant 0 <= i <= |stderr|
          invariant h.Valid() && h.phase == Spawned
          invariant h.files == existing + {input} && h.stderrText == Concat(stderr[..i])
          invariant h.request == req && h.input == input && h.output == output
        {
          assert stderr[..i + 1][..i] == stderr[..i];
          h.OnStderrData(stderr[i]);
          i := i + 1;
        }
        assert stderr[..|stderr|] == stderr;
        if wroteOutput {
          h.EngineWritesOutput();
        }
        h.OnClose(code);
        if h.phase == Streaming {
          h.OnDownloadDone(downloadError);
        }
    }
  }
}
