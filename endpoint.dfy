/** The `/upload-and-compress` handler, `upload_and_compress` (app.py:94-182):
    validation with early 400 returns, the synchronous image path, and the
    video path with its two temporary files. Flask, Pillow, Cloudinary and the
    ffmpeg process are collaborators whose outcomes are parameters; every call
    made to them, and every temporary file created or removed, is recorded in
    order as a `Call`. */
module Endpoint {
  import opened Wrappers
  import opened Classify
  import Ffmpeg
  import opened TempFiles

  type Bytes = seq<bv8>

  /** The dict `cloudinary.uploader.upload` returns. */
  type Reply = map<string, string>

  /** One entry of `request.files`. A part without a file name has `None`. */
  datatype FileStorage = FileStorage(filename: Option<string>, stream: Bytes)

  /** The multipart parts of the request, by field name. */
  datatype Request = Request(files: map<string, FileStorage>)

  /** The JSON body of a response. */
  datatype Body =
    | ErrorBody(error: string)
    | Uploaded(message: string, originalFilename: string, cloudinaryUrl: string, publicId: string)

  datatype Response = Response(status: int, body: Body)

  /** What is handed to the uploader: the compressed image buffer, or the path
      of the compressed video. */
  datatype UploadSource = Buffer(bytes: Bytes) | FilePath(path: string)

  /** The arguments of `cloudinary.uploader.upload`. */
  datatype UploadRequest = UploadRequest(source: UploadSource, resourceType: string, folder: string, quality: string)

  /** One observable step of the handler, in the order it happens. */
  datatype Call =
    | CompressImage(stream: Bytes)
    | Upload(request: UploadRequest)
    | CreateTemp(path: TempPath)
    | SaveUpload(path: TempPath)
    | RunProcess(argv: seq<string>)
    | Unlink(path: TempPath)

  /** What the collaborators do: `compress_image` (which catches its own
      errors and gives `None`), the uploader (which may raise), the ffmpeg
      process, and whether creating the input file, saving the upload into it,
      and creating the output file complete or raise. */
  datatype Collaborators = Collaborators(
    compressImage: Bytes -> Option<Bytes>,
    upload: UploadRequest -> Outcome<Reply>,
    runProcess: seq<string> -> Ffmpeg.ProcessOutcome,
    createInput: Step,
    saveUpload: Step,
    createOutput: Step)

  function ErrorResponse(status: int, error: string): Response
  {
    Response(status, ErrorBody(error))
  }

  /** The `except Exception as e` clause of app.py:178-180. */
  function InternalError(message: string): Response
  {
    ErrorResponse(500, "An internal server error occurred: " + message)
  }

  const NoFilePart: Response := ErrorResponse(400, "No file part in the request")
  const NoSelectedFile: Response := ErrorResponse(400, "No selected file")
  const UnsupportedType: Response := ErrorResponse(400, "Unsupported file type")
  const SomethingWentWrong: Response := ErrorResponse(500, "Something went wrong")
  const ImageCompressionFailed: Response := ErrorResponse(500, "Failed to compress image")
  const VideoCompressionFailed: Response := ErrorResponse(500, "Failed to compress video (ffmpeg issue)")
  const ImageUploaded: string := "Image compressed and uploaded successfully"
  const VideoUploaded: string := "Video compressed and uploaded successfully"

  /** A request that passed validation. */
  datatype Accepted = Accepted(filename: string, extension: string, kind: ResourceType, stream: Bytes)

  /** The checks of app.py:99-115, in their order: a missing `file` part, then
      an empty file name, then (for a part whose file name is `None`, which is
      falsy) the fall-through of line 182, then an unsupported extension. */
  function Validate(req: Request): (r: Result<Accepted, Response>)
    ensures "file" !in req.files ==> r == Failure(NoFilePart)
    ensures "file" in req.files && req.files["file"].filename == Some("") ==> r == Failure(NoSelectedFile)
    ensures "file" in req.files && req.files["file"].filename == None ==> r == Failure(SomethingWentWrong)
    ensures "file" in req.files && req.files["file"].filename.Some? && req.files["file"].filename.value != "" ==>
              (r.Success? <==> Classification(req.files["file"].filename.value).Some?)
              && (r.Failure? ==> r.error == UnsupportedType)
    ensures r.Success? ==>
              && "file" in req.files
              && Some(r.value.filename) == req.files["file"].filename
              && r.value.extension == Extension(r.value.filename)
              && Classification(r.value.filename) == Some(r.value.kind)
              && r.value.stream == req.files["file"].stream
  {
    if "file" !in req.files then Failure(NoFilePart)
    else
      var file := req.files["file"];
      if file.filename == Some("") then Failure(NoSelectedFile)
      else if file.filename.None? then Failure(SomethingWentWrong)
      else
        var filename := file.filename.value;
        var ext := Extension(filename);
        match ResourceTypeOf(ext)
        case None => Failure(UnsupportedType)
        case Some(kind) => Success(Accepted(filename, ext, kind, file.stream))
  }

  /** `upload_result[key]`: the value, or a KeyError whose text is the key's
      repr. */
  function Lookup(reply: Reply, key: string): (r: Outcome<string>)
    ensures r.Returns? <==> key in reply
    ensures r.Returns? ==> r.value == reply[key]
    ensures r.Raises? ==> r.message == "'" + key + "'"
  {
    if key in reply then Returns(reply[key]) else Raises("'" + key + "'")
  }

  /** The 200 response built from the upload result (app.py:131-136 and
      171-176); `secure_url` is looked up before `public_id`, and a missing
      key is a KeyError caught by the handler's `except` clause. */
  function SuccessResponse(message: string, filename: string, reply: Reply): (r: Response)
    ensures r.status == 200 <==> "secure_url" in reply && "public_id" in reply
    ensures r.status == 200 ==>
              r.body == Uploaded(message, filename, reply["secure_url"], reply["public_id"])
    ensures "secure_url" !in reply ==> r == InternalError("'secure_url'")
    ensures "secure_url" in reply && "public_id" !in reply ==> r == InternalError("'public_id'")
  {
    match Lookup(reply, "secure_url")
    case Raises(m) => assert m == "'secure_url'"; InternalError(m)
    case Returns(url) =>
      match Lookup(reply, "public_id")
      case Raises(m) => assert m == "'public_id'"; InternalError(m)
      case Returns(id) => Response(200, Uploaded(message, filename, url, id))
  }

  /** What a request did: the response, the calls in order, the temporary
      files it created that still exist, and how many it created. */
  datatype Effects = Effects(response: Response, calls: seq<Call>, leftover: set<TempPath>, created: nat)

  function ImageUploadRequest(buffer: Bytes): UploadRequest
  {
    UploadRequest(Buffer(buffer), "image", "compressed_gallery_images", "auto:eco")
  }

  /** The image path (app.py:118-136). It works on the request stream and
      creates no temporary file. */
  function ImageBranch(a: Accepted, env: Collaborators): (e: Effects)
    ensures e.leftover == {} && e.created == 0
    ensures |e.calls| >= 1 && e.calls[0] == CompressImage(a.stream)
    ensures env.compressImage(a.stream).None? ==>
              e.response == ImageCompressionFailed && e.calls == [CompressImage(a.stream)]
    ensures env.compressImage(a.stream).Some? ==>
              e.calls == [CompressImage(a.stream), Upload(ImageUploadRequest(env.compressImage(a.stream).value))]
    ensures e.response.status == 200 ==>
              && env.compressImage(a.stream).Some?
              && var u := env.upload(ImageUploadRequest(env.compressImage(a.stream).value));
              && u.Returns? && "secure_url" in u.value && "public_id" in u.value
              && e.response.body == Uploaded(ImageUploaded, a.filename, u.value["secure_url"], u.value["public_id"])
    ensures env.compressImage(a.stream).Some? ==>
              var u := env.upload(ImageUploadRequest(env.compressImage(a.stream).value));
              && (u.Raises? ==> e.response == InternalError(u.message))
              && (u.Returns? ==> e.response == SuccessResponse(ImageUploaded, a.filename, u.value))
  {
    match env.compressImage(a.stream)
    case None => Effects(ImageCompressionFailed, [CompressImage(a.stream)], {}, 0)
    case Some(buffer) =>
      var req := ImageUploadRequest(buffer);
      var calls := [CompressImage(a.stream), Upload(req)];
      match env.upload(req)
      case Raises(m) => Effects(InternalError(m), calls, {}, 0)
      case Returns(reply) => Effects(SuccessResponse(ImageUploaded, a.filename, reply), calls, {}, 0)
  }

  /** The temporary file the video path saves the upload into: the `n`-th
      file created, with the lower-cased extension as suffix (app.py:140). */
  function InputPath(n: nat, ext: string): TempPath
  {
    TempPath(n, "." + ext)
  }

  /** The temporary file ffmpeg writes to (app.py:145). */
  function OutputPath(n: nat): TempPath
  {
    TempPath(n + 1, "_compressed.mp4")
  }

  /** The two files of one request have different names, and so have the
      files of requests that start from different counters. */
  lemma TempNamesDistinct(n: nat, ext: string, m: nat, ext': string)
    ensures PathName(InputPath(n, ext)) != PathName(OutputPath(n))
    ensures PathName(InputPath(n, ext)) == PathName(InputPath(m, ext')) ==> n == m && ext == ext'
    ensures PathName(OutputPath(n)) == PathName(OutputPath(m)) ==> n == m
  {
    if PathName(InputPath(n, ext)) == PathName(OutputPath(n)) {
      PathNameInjective(InputPath(n, ext), OutputPath(n));
    }
    if PathName(InputPath(n, ext)) == PathName(InputPath(m, ext')) {
      PathNameInjective(InputPath(n, ext), InputPath(m, ext'));
      assert ext == ("." + ext)[1..] && ext' == ("." + ext')[1..];
    }
    if PathName(OutputPath(n)) == PathName(OutputPath(m)) {
      PathNameInjective(OutputPath(n), OutputPath(m));
    }
  }

  function VideoCommand(n: nat, ext: string): seq<string>
  {
    Ffmpeg.Command(PathName(InputPath(n, ext)), PathName(OutputPath(n)), Ffmpeg.DefaultCrf)
  }

  function VideoUploadRequest(n: nat): UploadRequest
  {
    UploadRequest(FilePath(PathName(OutputPath(n))), "video", "compressed_gallery_videos", "auto:eco")
  }

  /** The video path (app.py:138-176) when `n` temporary files have been
      created before and `compress_video` had the outcome `compressed`. Any
      exception inside the `try` block skips the remaining `os.unlink` calls. */
  function VideoBranch(a: Accepted, env: Collaborators, n: nat, compressed: Outcome<bool>): Effects
  {
    var input, output := InputPath(n, a.extension), OutputPath(n);
    if env.createInput.Fails? then
      Effects(InternalError(env.createInput.message), [], {}, 0)
    else if env.saveUpload.Fails? then
      Effects(InternalError(env.saveUpload.message), [CreateTemp(input), SaveUpload(input)], {input}, 1)
    else if env.createOutput.Fails? then
      Effects(InternalError(env.createOutput.message), [CreateTemp(input), SaveUpload(input)], {input}, 1)
    else
      var started := [CreateTemp(input), SaveUpload(input), CreateTemp(output), RunProcess(VideoCommand(n, a.extension))];
      match compressed
      case Raises(m) => Effects(InternalError(m), started, {input, output}, 2)
      case Returns(false) =>
        Effects(VideoCompressionFailed, started + [Unlink(input), Unlink(output)], {}, 2)
      case Returns(true) =>
        var uploading := started + [Unlink(input), Upload(VideoUploadRequest(n))];
        match env.upload(VideoUploadRequest(n))
        case Raises(m) => Effects(InternalError(m), uploading, {output}, 2)
        case Returns(reply) =>
          Effects(SuccessResponse(VideoUploaded, a.filename, reply), uploading + [Unlink(output)], {}, 2)
  }

  /** What `compress_video` returns for the request's two temporary files. */
  function CompressOutcome(a: Accepted, env: Collaborators, n: nat): bool
  {
    Ffmpeg.CompressVideo(PathName(InputPath(n, a.extension)), PathName(OutputPath(n)),
                         Ffmpeg.DefaultCrf, env.runProcess)
  }

  /** The whole handler, when `n` temporary files have been created before,
      with `compress_video` as its docstring promises it (`CompressOutcome`). */
  function Handle(req: Request, env: Collaborators, n: nat): Effects
  {
    match Validate(req)
    case Failure(response) => Effects(response, [], {}, 0)
    case Success(a) =>
      if a.kind == Image then ImageBranch(a, env)
      else VideoBranch(a, env, n, Returns(CompressOutcome(a, env, n)))
  }

  /** `upload_and_compress`, step by step over the temporary directory. */
  method UploadAndCompress(dir: TempDir, req: Request, env: Collaborators) returns (response: Response, calls: seq<Call>)
    requires dir.Valid()
    modifies dir
    ensures dir.Valid()
    ensures var e := Handle(req, env, old(dir.issued));
            && response == e.response
            && calls == e.calls
            && e.leftover !! old(dir.live)
            && dir.live == old(dir.live) + e.leftover
            && dir.issued == old(dir.issued) + e.created
  {
    var v := Validate(req);
    if v.Failure? {
      return v.error, [];
    }
    var a := v.value;
    if a.kind == Image {
      var e := ImageBranch(a, env);
      return e.response, e.calls;
    }

    response, calls := UploadVideo(dir, a, env);
  }

  /** The video path of `upload_and_compress` (app.py:138-176). */
  method UploadVideo(dir: TempDir, a: Accepted, env: Collaborators) returns (response: Response, calls: seq<Call>)
    requires dir.Valid()
    modifies dir
    ensures dir.Valid()
    ensures var n := old(dir.issued);
            var e := VideoBranch(a, env, n, Returns(CompressOutcome(a, env, n)));
            && response == e.response
            && calls == e.calls
            && dir.live == old(dir.live) + e.leftover
            && dir.issued == n + e.created
  {
    ghost var n, before := dir.issued, dir.live;
    ghost var e := VideoBranch(a, env, n, Returns(CompressOutcome(a, env, n)));
    calls := [];
    if env.createInput.Fails? {
      return InternalError(env.createInput.message), calls;
    }
    var input := dir.Create("." + a.extension);
    assert input == InputPath(n, a.extension) && input !in before;
    calls := calls + [CreateTemp(input), SaveUpload(input)];
    if env.saveUpload.Fails? {
      return InternalError(env.saveUpload.message), calls;
    }
    if env.createOutput.Fails? {
      return InternalError(env.createOutput.message), calls;
    }
    var output := dir.Create("_compressed.mp4");
    assert output == OutputPath(n) && output !in before && output != input;
    calls := calls + [CreateTemp(output)];

    var inputName, outputName := PathName(input), PathName(output);
    calls := calls + [RunProcess(Ffmpeg.Command(inputName, outputName, Ffmpeg.DefaultCrf))];
    var ok := Ffmpeg.CompressVideo(inputName, outputName, Ffmpeg.DefaultCrf, env.runProcess);
    ghost var started := calls;
    assert started == [CreateTemp(input), SaveUpload(input), CreateTemp(output), RunProcess(VideoCommand(n, a.extension))];
    assert ok == CompressOutcome(a, env, n);

    dir.Unlink(input);
    calls := calls + [Unlink(input)];
    assert dir.live == before + {output};

    if !ok {
      var present := dir.Exists(output);
      if present {
        dir.Unlink(output);
        calls := calls + [Unlink(output)];
      }
      assert dir.live == before;
      assert calls == started + [Unlink(input), Unlink(output)];
      return VideoCompressionFailed, calls;
    }

    var upload := UploadRequest(FilePath(outputName), "video", "compressed_gallery_videos", "auto:eco");
    assert upload == VideoUploadRequest(n);
    calls := calls + [Upload(upload)];
    var result := env.upload(upload);
    if result.Raises? {
      assert e == Effects(InternalError(result.message), calls, {output}, 2);
      return InternalError(result.message), calls;
    }

    dir.Unlink(output);
    calls := calls + [Unlink(output)];
    response := SuccessResponse(VideoUploaded, a.filename, result.value);
    assert dir.live == before;
    assert e == Effects(response, calls, {}, 2);
  }

  // ---------------------------------------------------------------------
  // Properties of the handler
  // ---------------------------------------------------------------------

  /** Every response carries 200, 400 or 500. */
  lemma StatusCodes(req: Request, env: Collaborators, n: nat)
    ensures Handle(req, env, n).response.status in {200, 400, 500}
  {
  }

  /** A request that fails validation calls no collaborator and creates no
      temporary file; its status is 400, except for a file part without a
      name, which falls through to 500. */
  lemma RejectedRequestHasNoEffects(req: Request, env: Collaborators, n: nat)
    requires Validate(req).Failure?
    ensures var e := Handle(req, env, n);
            && e.calls == [] && e.leftover == {} && e.created == 0
            && (e.response.status == 400 || e.response == SomethingWentWrong)
  {
  }

  /** The image path never creates a temporary file, and the uploader is
      called only when compression produced a buffer. */
  lemma ImagePathCreatesNoTempFile(req: Request, env: Collaborators, n: nat)
    requires Validate(req).Success? && Validate(req).value.kind == Image
    ensures var e := Handle(req, env, n);
            && e.leftover == {} && e.created == 0
            && (forall i :: 0 <= i < |e.calls| ==> !e.calls[i].CreateTemp?)
            && (env.compressImage(Validate(req).value.stream).None? ==>
                  e.response == ImageCompressionFailed && |e.calls| == 1)
  {
  }

  /** On the image path a 200 response carries the uploader's `secure_url`
      and `public_id` unchanged, and the original file name. */
  lemma ImageSuccessCarriesUploadResult(req: Request, env: Collaborators, n: nat)
    requires Validate(req).Success? && Validate(req).value.kind == Image
    requires Handle(req, env, n).response.status == 200
    ensures var a := Validate(req).value;
            var reply := env.upload(ImageUploadRequest(env.compressImage(a.stream).value)).value;
            Handle(req, env, n).response.body
              == Uploaded(ImageUploaded, req.files["file"].filename.value, reply["secure_url"], reply["public_id"])
  {
  }

  /** On the image path, once compression gives a buffer and the uploader
      returns, the response is the one built from the upload result and the
      original file name: 200 exactly when the result has both keys. An
      exception from the uploader is answered with 500 and its text. */
  lemma ImageUploadResponse(req: Request, env: Collaborators, n: nat)
    requires Validate(req).Success? && Validate(req).value.kind == Image
    requires env.compressImage(Validate(req).value.stream).Some?
    ensures var u := env.upload(ImageUploadRequest(env.compressImage(Validate(req).value.stream).value));
            var r := Handle(req, env, n).response;
            && (u.Returns? ==> r == SuccessResponse(ImageUploaded, req.files["file"].filename.value, u.value))
            && (u.Returns? ==> (r.status == 200 <==> "secure_url" in u.value && "public_id" in u.value))
            && (u.Raises? ==> r == InternalError(u.message))
  {
  }

  /** Once the video reaches ffmpeg, the very next step, whatever ffmpeg did,
      is removing the input file (with `compress_video` returning a boolean,
      as `Handle` has it). */
  lemma InputRemovedRightAfterCompression(req: Request, env: Collaborators, n: nat, i: nat)
    requires Validate(req).Success? && Validate(req).value.kind == Video
    requires i < |Handle(req, env, n).calls| && Handle(req, env, n).calls[i].RunProcess?
    ensures i + 1 < |Handle(req, env, n).calls|
    ensures Handle(req, env, n).calls[i + 1] == Unlink(InputPath(n, Validate(req).value.extension))
  {
  }

  /** When ffmpeg fails the response is 500, the uploader is not called, and
      both temporary files are gone. */
  lemma VideoCompressionFailureCleansUp(req: Request, env: Collaborators, n: nat)
    requires Validate(req).Success? && Validate(req).value.kind == Video
    requires env.createInput.Completes? && env.saveUpload.Completes? && env.createOutput.Completes?
    requires !CompressOutcome(Validate(req).value, env, n)
    ensures var e := Handle(req, env, n);
            && e.response == VideoCompressionFailed
            && e.leftover == {}
            && forall i :: 0 <= i < |e.calls| ==> !e.calls[i].Upload?
  {
  }

  /** When every step succeeds the order is: create and fill the input file,
      create the output file, run ffmpeg, remove the input, upload the output,
      remove the output; no temporary file of the request remains, and the
      response is built from the upload result and the original file name. */
  lemma VideoSuccessOrderAndCleanup(req: Request, env: Collaborators, n: nat)
    requires Validate(req).Success? && Validate(req).value.kind == Video
    requires env.createInput.Completes? && env.saveUpload.Completes? && env.createOutput.Completes?
    requires CompressOutcome(Validate(req).value, env, n)
    requires env.upload(VideoUploadRequest(n)).Returns?
    ensures var ext := Validate(req).value.extension;
            var e := Handle(req, env, n);
            && e.leftover == {}
            && e.calls == [CreateTemp(InputPath(n, ext)), SaveUpload(InputPath(n, ext)),
                           CreateTemp(OutputPath(n)), RunProcess(VideoCommand(n, ext)),
                           Unlink(InputPath(n, ext)), Upload(VideoUploadRequest(n)),
                           Unlink(OutputPath(n))]
    ensures Handle(req, env, n).response
              == SuccessResponse(VideoUploaded, req.files["file"].filename.value, env.upload(VideoUploadRequest(n)).value)
  {
  }

  /** An exception raised by the video upload is answered with 500 and its
      text, and leaves the compressed output file behind. */
  lemma VideoUploadExceptionLeavesOutput(req: Request, env: Collaborators, n: nat)
    requires Validate(req).Success? && Validate(req).value.kind == Video
    requires env.createInput.Completes? && env.saveUpload.Completes? && env.createOutput.Completes?
    requires CompressOutcome(Validate(req).value, env, n)
    requires env.upload(VideoUploadRequest(n)).Raises?
    ensures Handle(req, env, n).response == InternalError(env.upload(VideoUploadRequest(n)).message)
    ensures Handle(req, env, n).leftover == {OutputPath(n)}
  {
  }

  /** An exception while creating the input file, saving the upload into it
      or creating the output file is answered with 500 and its text. The
      files created before it stay, and neither ffmpeg nor the uploader is
      called. */
  lemma TempFileFailureIsInternalError(req: Request, env: Collaborators, n: nat)
    requires Validate(req).Success? && Validate(req).value.kind == Video
    requires env.createInput.Fails? || env.saveUpload.Fails? || env.createOutput.Fails?
    ensures var input := InputPath(n, Validate(req).value.extension);
            var e := Handle(req, env, n);
            && (env.createInput.Fails? ==>
                  e.response == InternalError(env.createInput.message) && e.leftover == {} && e.calls == [])
            && (env.createInput.Completes? && env.saveUpload.Fails? ==>
                  e.response == InternalError(env.saveUpload.message) && e.leftover == {input})
            && (env.createInput.Completes? && env.saveUpload.Completes? && env.createOutput.Fails? ==>
                  e.response == InternalError(env.createOutput.message) && e.leftover == {input})
            && forall i :: 0 <= i < |e.calls| ==> !e.calls[i].RunProcess? && !e.calls[i].Upload?
  {
  }

  /** A 200 response leaves no temporary file behind, and a file is left
      behind only when an exception was answered with 500. */
  lemma LeftoverOnlyAfterException(req: Request, env: Collaborators, n: nat)
    ensures Handle(req, env, n).response.status == 200 ==> Handle(req, env, n).leftover == {}
    ensures Handle(req, env, n).leftover != {} ==>
              Handle(req, env, n).response.status == 500
              && Handle(req, env, n).response.body.ErrorBody?
              && Handle(req, env, n).response.body.error[..35] == "An internal server error occurred: "
  {
  }

  /** The files a request leaves behind are among the ones it created, which
      are numbered from `n` on and so were not there before. */
  lemma LeftoverIsFresh(req: Request, env: Collaborators, n: nat)
    ensures forall p :: p in Handle(req, env, n).leftover ==>
              n <= p.id < n + Handle(req, env, n).created
  {
  }

  /** With `compress_video` as written, a failed ffmpeg run whose stderr is
      not UTF-8 escapes the handler's cleanup: the response is a 500 and both
      temporary files are left behind. */
  lemma UndecodableStderrLeaksBothFiles(req: Request, env: Collaborators, n: nat)
    requires Validate(req).Success? && Validate(req).value.kind == Video
    requires env.createInput.Completes? && env.saveUpload.Completes? && env.createOutput.Completes?
    requires env.runProcess(VideoCommand(n, Validate(req).value.extension)) == Ffmpeg.Exited(1, [0xFF])
    ensures var a := Validate(req).value;
            var asWritten := Ffmpeg.CompressVideoAsWritten(PathName(InputPath(n, a.extension)),
                                                           PathName(OutputPath(n)), Ffmpeg.DefaultCrf, env.runProcess);
            var e := VideoBranch(a, env, n, asWritten);
            && e.response == InternalError(Ffmpeg.UndecodableStderr)
            && e.leftover == {InputPath(n, a.extension), OutputPath(n)}
            && forall i :: 0 <= i < |e.calls| ==> !e.calls[i].Unlink?
  {
  }
}
