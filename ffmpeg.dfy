/** `compress_video` (app.py:51-90): the ffmpeg argument vector, Python's
    `str(crf)`, and how the outcome of `subprocess.run(command, check=True,
    capture_output=True)` collapses into a boolean. Running the process is a
    parameter: a function from the argument vector to what the process did. */
module Ffmpeg {
  import opened Wrappers
  import opened Decimal

  /** The default `crf` of `compress_video`, the one the handler uses. */
  const DefaultCrf: int := 28

  /** The argument vector of app.py:71-79. */
  function Command(videoFile: string, outputPath: string, crf: int): seq<string>
  {
    ["ffmpeg", "-i", videoFile, "-vcodec", "libx264", "-crf", IntToString(crf),
     "-preset", "medium", "-y", outputPath]
  }

  /** What an argument vector asks ffmpeg to do. */
  datatype Invocation = Invocation(input: string, output: string, crf: int)

  /** Reads an argument vector of the fixed shape back into its three inputs. */
  function ParseCommand(argv: seq<string>): (r: Option<Invocation>)
    ensures r.Some? ==> |argv| == 11 && argv[0] == "ffmpeg"
  {
    if |argv| == 11 && argv[0] == "ffmpeg" && argv[1] == "-i" && argv[3] == "-vcodec"
       && argv[4] == "libx264" && argv[5] == "-crf" && ParseInt(argv[6]).Some?
       && argv[7] == "-preset" && argv[8] == "medium" && argv[9] == "-y"
    then Some(Invocation(argv[2], argv[10], ParseInt(argv[6]).value))
    else None
  }

  /** The command carries the input path, the output path and the crf each as
      one whole argument, whatever characters the paths hold, and nothing is
      lost in building it. */
  lemma CommandRoundTrip(videoFile: string, outputPath: string, crf: int)
    ensures ParseCommand(Command(videoFile, outputPath, crf)) == Some(Invocation(videoFile, outputPath, crf))
  {
    IntRoundTrip(crf);
  }

  /** Different inputs give different commands. */
  lemma CommandInjective(i1: string, o1: string, c1: int, i2: string, o2: string, c2: int)
    requires Command(i1, o1, c1) == Command(i2, o2, c2)
    ensures i1 == i2 && o1 == o2 && c1 == c2
  {
    CommandRoundTrip(i1, o1, c1);
    CommandRoundTrip(i2, o2, c2);
  }

  /** With the default crf the command is exactly
      `ffmpeg -i <in> -vcodec libx264 -crf 28 -preset medium -y <out>`. */
  lemma DefaultCommand(videoFile: string, outputPath: string)
    ensures Command(videoFile, outputPath, DefaultCrf)
         == ["ffmpeg", "-i", videoFile, "-vcodec", "libx264", "-crf", "28",
             "-preset", "medium", "-y", outputPath]
  {
    assert DigitChar(2) == '2' && DigitChar(8) == '8';
    assert NatToDecimal(2) == "2";
    assert NatToDecimal(28) == NatToDecimal(2) + [DigitChar(8)] == "28";
  }

  /** What `subprocess.run` did with the command: the process ran and exited
      with `code`, writing the bytes `stderr`; or the executable was not found
      (FileNotFoundError); or some other exception was raised. */
  datatype ProcessOutcome =
    | Exited(code: int, stderr: seq<bv8>)
    | ExecutableMissing
    | Errored(message: string)

  /** A continuation byte of UTF-8: 10xxxxxx. */
  predicate IsContinuation(b: bv8)
  {
    0x80 <= b <= 0xBF
  }

  /** `bytes.decode()` succeeds: the bytes are well-formed UTF-8 (RFC 3629,
      section 4), which is what Python's strict 'utf-8' codec accepts. */
  predicate IsUtf8(b: seq<bv8>)
    decreases |b|
  {
    if b == [] then true
    else if b[0] <= 0x7F then IsUtf8(b[1..])
    else if 0xC2 <= b[0] <= 0xDF then
      |b| >= 2 && IsContinuation(b[1]) && IsUtf8(b[2..])
    else if b[0] == 0xE0 then
      |b| >= 3 && 0xA0 <= b[1] <= 0xBF && IsContinuation(b[2]) && IsUtf8(b[3..])
    else if 0xE1 <= b[0] <= 0xEC || 0xEE <= b[0] <= 0xEF then
      |b| >= 3 && IsContinuation(b[1]) && IsContinuation(b[2]) && IsUtf8(b[3..])
    else if b[0] == 0xED then
      |b| >= 3 && 0x80 <= b[1] <= 0x9F && IsContinuation(b[2]) && IsUtf8(b[3..])
    else if b[0] == 0xF0 then
      |b| >= 4 && 0x90 <= b[1] <= 0xBF && IsContinuation(b[2]) && IsContinuation(b[3])
      && IsUtf8(b[4..])
    else if 0xF1 <= b[0] <= 0xF3 then
      |b| >= 4 && IsContinuation(b[1]) && IsContinuation(b[2]) && IsContinuation(b[3])
      && IsUtf8(b[4..])
    else if b[0] == 0xF4 then
      |b| >= 4 && 0x80 <= b[1] <= 0x8F && IsContinuation(b[2]) && IsContinuation(b[3])
      && IsUtf8(b[4..])
    else false
  }

  /** Stands for the text of the UnicodeDecodeError raised by `decode()`. */
  const UndecodableStderr: string := "'utf-8' codec can't decode byte"

  /** `compress_video` as written. A zero exit returns True; FileNotFoundError
      and any other exception of `subprocess.run` return False. A non-zero exit
      raises CalledProcessError, whose handler evaluates `e.stderr.decode()`
      (app.py:86): when the captured stderr is not UTF-8 that raises
      UnicodeDecodeError from inside the handler, which the later
      `except Exception` clause does not catch, so the call raises. */
  function CompressVideoAsWritten(videoFile: string, outputPath: string, crf: int,
                                  run: seq<string> -> ProcessOutcome): (r: Outcome<bool>)
    ensures r.Raises? <==>
      (var o := run(Command(videoFile, outputPath, crf));
       o.Exited? && o.code != 0 && !IsUtf8(o.stderr))
  {
    match run(Command(videoFile, outputPath, crf))
    case Exited(code, stderr) =>
      if code == 0 then Returns(true)
      else if IsUtf8(stderr) then Returns(false)
      else Raises(UndecodableStderr)
    case ExecutableMissing => Returns(false)
    case Errored(_) => Returns(false)
  }

  /** `compress_video` as its docstring promises it: True if the ffmpeg run
      completed, False on every failure, never raising. */
  function CompressVideo(videoFile: string, outputPath: string, crf: int,
                         run: seq<string> -> ProcessOutcome): (ok: bool)
    ensures ok <==> run(Command(videoFile, outputPath, crf)).Exited?
                    && run(Command(videoFile, outputPath, crf)).code == 0
  {
    match run(Command(videoFile, outputPath, crf))
    case Exited(code, _) => code == 0
    case ExecutableMissing => false
    case Errored(_) => false
  }

  /** Whenever the code as written returns, it returns what the corrected
      `CompressVideo` returns. */
  lemma AsWrittenAgreesWhenItReturns(videoFile: string, outputPath: string, crf: int,
                                     run: seq<string> -> ProcessOutcome)
    ensures CompressVideoAsWritten(videoFile, outputPath, crf, run).Returns? ==>
            CompressVideoAsWritten(videoFile, outputPath, crf, run).value
            == CompressVideo(videoFile, outputPath, crf, run)
  {
  }

  /** The byte 0xFF never occurs in UTF-8, so an ffmpeg failure whose stderr
      holds it makes the code as written raise instead of returning False. */
  lemma UndecodableStderrEscapes(videoFile: string, outputPath: string,
                                 run: seq<string> -> ProcessOutcome)
    requires run(Command(videoFile, outputPath, DefaultCrf)) == Exited(1, [0xFF])
    ensures CompressVideoAsWritten(videoFile, outputPath, DefaultCrf, run).Raises?
    ensures !CompressVideo(videoFile, outputPath, DefaultCrf, run)
  {
  }
}
