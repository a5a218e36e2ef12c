# Image and video compressor endpoint, modelled in Dafny

The repository is one Flask application, `app.py`. It exposes a single route,
`POST /upload-and-compress`, that takes a multipart `file` part and does three things.
It classifies the file as an image or a video by its extension. An image is
recompressed in memory and uploaded to Cloudinary. A video is written to a temporary
file, transcoded by an `ffmpeg` process into a second temporary file, and uploaded.
Both temporary files are removed along the way. Everything happens synchronously
inside the request.

The model covers the three pieces of logic in that file:

- **Classification** (`classify.dfy`, module `Classify`). Python's
  `filename.split('.')[-1].lower()` and the two allow-lists. `Split` and `Join` model
  `str.split('.')` and `'.'.join`. The lemmas prove that the last piece is exactly the
  text after the final dot, and that the classification ignores letter case.
- **The ffmpeg call** (`decimal.dfy`, `ffmpeg.dfy`, modules `Decimal` and `Ffmpeg`).
  The argument vector, Python's `str(crf)`, and how the outcome of
  `subprocess.run(..., check=True, capture_output=True)` collapses into a boolean.
  The process run is a parameter: a function from the argument vector to what the
  process did.
- **The handler** (`tempfiles.dfy`, `endpoint.dfy`, modules `TempFiles` and
  `Endpoint`). Validation with early returns, the image path and the video path.
  - The temporary files live in a `TempDir` object: a set of existing temporary
    paths, plus a counter that makes every new path fresh.
  - `UploadAndCompress` and `UploadVideo` are methods that create and unlink files
    step by step. Their postconditions tie the response, the ordered list of
    collaborator calls and the new set of files to the pure function `Handle`.
  - `Handle` and the two methods use `compress_video` corrected to return False on
    every ffmpeg failure (`Ffmpeg.CompressVideo`), not the code as written, which
    can raise (see "## Findings"). The as-written behaviour at handler level is
    stated separately by `Endpoint.UndecodableStderrLeaksBothFiles`.
  - Lemmas about `Handle` state what the endpoint promises.
  - Pillow, Cloudinary, ffmpeg and the creation of temporary files are collaborators.
    Their outcomes are parameters of type `Collaborators`.

The video path runs synchronously inside the request and answers 200. There is no job
queue, worker pool, job store, progress report or content-signature check: the file
type is decided by the file name's extension alone.

## Model

| member | source | states |
|---|---|---|
| Classify.Split | app.py:109 | `split('.')` yields one more piece than the name has dots, and no piece contains a dot |
| Classify.JoinSplit | app.py:109 | joining the pieces of `split('.')` with dots gives back the name |
| Classify.SplitJoin | app.py:109 | splitting the dot-join of dot-free pieces gives back the pieces (the other direction of the round trip) |
| Classify.LastPieceIsAfterLastDot | app.py:109 | `split('.')[-1]` is a dot-free suffix of the name that is either the whole name or is preceded by a dot, i.e. the text after the final dot |
| Classify.AfterLastDotUnique | app.py:109 | there is only one text after the final dot, so the characterisation above determines the extension |
| Classify.NoDotWholeName | app.py:109 | a name without a dot is its own extension before lower-casing |
| Classify.LowerLastPiece | app.py:109 | lower-casing commutes with taking the text after the final dot |
| Classify.ExtensionIsAfterLastDot | app.py:109 | the extension is the text after the final dot of the lower-cased name and contains no dot |
| Classify.ResourceTypeOf | app.py:110-112 | image iff the extension is in {jpg, jpeg, png, gif, webp}; video iff it is in {mp4, mov, avi, mkv}; `None` iff in neither (the lists are disjoint, so the answer is unique) |
| Classify.ExtensionIgnoresCase | app.py:109 | two names equal up to letter case have the same extension |
| Classify.ClassificationIgnoresCase | app.py:109-112 | two names equal up to letter case get the same resource type |
| Classify.WholeNameExamples | app.py:108-112 | `"PNG"` alone is an image and `"MKV"` alone is a video |
| Classify.LastPieceExamples | app.py:108-112 | only the final piece counts: `clip.png.mov` is a video, `archive.tar.gz` is unsupported |
| Decimal.NatToDecimal | app.py:75 | `str()` of a natural number is a non-empty string of digits without a leading zero |
| Decimal.DecimalRoundTrip | app.py:75 | reading the digits of `str(n)` back gives `n` |
| Decimal.IntRoundTrip | app.py:75 | `str(crf)` for any integer `crf`, negative included, reads back as `crf` |
| Ffmpeg.CommandRoundTrip | app.py:71-79 | the argument vector carries the input path, the output path and `crf`, each as one whole argument whatever characters the paths hold, and they can be read back |
| Ffmpeg.CommandInjective | app.py:71-79 | different (input, output, crf) triples give different commands |
| Ffmpeg.DefaultCommand | app.py:51-79 | with the default crf the command is exactly `['ffmpeg','-i',in,'-vcodec','libx264','-crf','28','-preset','medium','-y',out]` |
| Ffmpeg.CompressVideoAsWritten | app.py:80-90 | the code as written raises exactly when ffmpeg exits non-zero with stderr that is not UTF-8; otherwise it returns a boolean |
| Ffmpeg.CompressVideo | app.py:80-90 | corrected `compress_video`: True iff the run exits with code 0; False for a missing executable, a non-zero exit or any other exception |
| Ffmpeg.AsWrittenAgreesWhenItReturns | app.py:80-90 | whenever the code as written returns, it returns what the corrected function returns |
| Ffmpeg.UndecodableStderrEscapes | app.py:85-87 | exit code 1 with stderr `b'\xff'` makes the code as written raise, while the corrected function returns False |
| TempFiles.PathNameInjective | app.py:140-146 | two temporary files whose suffixes do not start with a digit have different names |
| TempFiles.TempDir.Create | app.py:140-146 | a `NamedTemporaryFile(delete=False)` is a new file, different from every existing one, and it stays after the `with` block |
| TempFiles.TempDir.Exists | app.py:156 | `os.path.exists` is true exactly for an existing file |
| TempFiles.TempDir.Unlink | app.py:152 | `os.unlink` removes that file and no other |
| Endpoint.Validate | app.py:99-115 | checks run in order: no `file` part gives 400, an empty filename gives 400, a part whose filename is `None` falls through to the 500 of line 182, and an unsupported extension gives 400. Otherwise the request is accepted with its name, its extension and its resource type |
| Endpoint.Lookup | app.py:134-135 | `upload_result[key]` returns the value when the key is present, and otherwise raises a KeyError whose text is the key's repr |
| Endpoint.SuccessResponse | app.py:131-136 | 200 iff the upload result has both `secure_url` and `public_id`, and then the body carries them unchanged with the original filename. A missing key gives 500 with the KeyError text, `secure_url` checked first |
| Endpoint.TempNamesDistinct | app.py:140-146 | the input and output files of a request have different names, and files created from different counters have different names |
| Endpoint.ImageBranch | app.py:117-180 | the image path creates no temporary file and starts by compressing. If compression gives `None` the response is 500 and the uploader is not called. Otherwise the uploader receives the compressed buffer; when it returns, the response is `SuccessResponse` of its result and the original filename (200 iff both keys are present), and when it raises, the response is 500 with the exception text |
| Endpoint.UploadAndCompress | app.py:94-182 | the handler with the corrected `compress_video`: the response, the ordered calls and the new set of temporary files are those of `Handle`. Files left behind are new ones, disjoint from the files that existed before |
| Endpoint.UploadVideo | app.py:138-176 | the video path with the corrected `compress_video`, done step by step on the temporary directory, agrees with `VideoBranch` |
| Endpoint.StatusCodes | app.py:99-182 | every response is 200, 400 or 500 |
| Endpoint.RejectedRequestHasNoEffects | app.py:99-115 | a rejected request calls no collaborator and creates no temporary file. Its status is 400, except for the nameless part, which gets 500 |
| Endpoint.ImagePathCreatesNoTempFile | app.py:118-130 | the image path creates no temporary file. A `None` from compression gives 500 and makes no upload call |
| Endpoint.ImageUploadResponse | app.py:124-180 | once compression gives a buffer: an upload result gives `SuccessResponse` with the original filename, 200 exactly when it has both `secure_url` and `public_id`; an upload exception gives 500 with its text |
| Endpoint.ImageSuccessCarriesUploadResult | app.py:131-136 | an image 200 carries `secure_url` and `public_id` unchanged from the upload result, and the original filename |
| Endpoint.InputRemovedRightAfterCompression | app.py:149-152 | with the corrected `compress_video`, the step right after the ffmpeg run on the video path is always unlinking the input file, whether ffmpeg succeeded or failed (as written, an undecodable stderr skips it; see `UndecodableStderrLeaksBothFiles`) |
| Endpoint.VideoCompressionFailureCleansUp | app.py:154-158 | when ffmpeg fails the response is 500 with the ffmpeg message, the uploader is not called, and no temporary file of the request remains |
| Endpoint.VideoSuccessOrderAndCleanup | app.py:140-176 | when every step succeeds the order is: create and save the input, create the output, run ffmpeg, unlink the input, upload the output, unlink the output. No temporary file remains, and the response is `SuccessResponse` of the upload result with the original filename |
| Endpoint.VideoUploadExceptionLeavesOutput | app.py:161-180 | an exception from the video upload gives 500 with its text and leaves the compressed output file in place |
| Endpoint.TempFileFailureIsInternalError | app.py:138-180 | an exception while creating the input file, saving into it or creating the output file gives 500 with its text; no file remains after the first, the input file remains after the other two, and ffmpeg and the uploader are not called |
| Endpoint.LeftoverOnlyAfterException | app.py:117-180 | a 200 response leaves no temporary file. A file is left only when an exception was answered with the internal-error 500 |
| Endpoint.LeftoverIsFresh | app.py:140-146 | every file a request leaves behind is one it created itself |
| Endpoint.UndecodableStderrLeaksBothFiles | app.py:149-180 | with `compress_video` as written, an ffmpeg failure with non-UTF-8 stderr gives 500, performs no unlink, and leaves both temporary files |

## Left out

- `compress_image` (app.py:27-49) is left out. Pillow's decoding and encoding is a foreign library, so compression is a parameter returning an optional buffer. The RGBA-to-RGB conversion and JPEG quality 85 are not modelled. Its exceptions are caught inside it, so it never raises.
- Running `ffmpeg` is not modelled: the process is a parameter from the argument vector to an exit code and stderr bytes, a missing executable, or another exception. What ffmpeg writes into the output file is not modelled either.
- Cloudinary configuration and environment reads (app.py:12-21) are left out. The upload is a parameter that returns a dict or raises. The dict's values are modelled as strings.
- Flask routing, multipart parsing, `jsonify`, `app.run` and every `print` are left out. Failures of `print` itself are not modelled.
- Temporary file names are not modelled as random: a counter gives each new file a fresh id, and its name is written `/tmp/tmp<id><suffix>`. File contents are not modelled, only which files exist.
- TempFiles.TempDir.Unlink: requires that the file exists, so the `FileNotFoundError` that `os.unlink` raises otherwise is not modelled. The handler only unlinks files it created and has not yet removed.
- Classify.LowerChar: folds only ASCII capitals and KELVIN SIGN (U+212A, which Python lower-cases to `k`). Other characters stay unchanged, so `Extension` differs from Python's full Unicode `str.lower()` on text with other non-ASCII letters. The classification is unaffected, because no other character lower-cases to text made only of ASCII letters.
- Ffmpeg.UndecodableStderr: stands for the text of the UnicodeDecodeError. The byte value and position that Python puts in that message are not modelled.
- The failure steps of the video path (creating the input file, saving into it, creating the output file) are parameters that complete or raise. A partly written file after a failed save is modelled only as an existing file.
- The ffmpeg process neither creates nor removes files in the model, and the output file always exists when it is checked, so the false branch of `os.path.exists` (app.py:156) is never taken and a failed compression always records `Unlink(output)`.
- Concurrent requests are not modelled. The code has no shared state other than the file system.

## Findings

| source | as written | input that shows it | evidently intended | confidence | as-written member | corrected member |
|---|---|---|---|---|---|---|
| app.py:85-87 | The `CalledProcessError` handler evaluates `e.stderr.decode()` on bytes. Non-UTF-8 stderr raises UnicodeDecodeError inside the handler, and the later `except Exception` does not catch it. `compress_video` then raises instead of returning False, `upload_and_compress` skips both `os.unlink` calls (lines 152 and 157), and both temporary files stay | ffmpeg exits with code 1 and stderr `b'\xff'` | return False on every ffmpeg failure, so the input file is removed at line 152 and the output file at line 157 | medium; not executed | Ffmpeg.CompressVideoAsWritten, Endpoint.UndecodableStderrLeaksBothFiles | Ffmpeg.CompressVideo, Endpoint.VideoCompressionFailureCleansUp |
