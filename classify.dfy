/** File-type classification of `upload_and_compress`: the extension is the text
    after the final '.', lower-cased, and it selects the image or video
    allow-list (app.py:108-115). */
module Classify {
  import opened Wrappers

  /** Python's `s.split('.')`: the pieces between consecutive dots, left to
      right. There is always at least one piece, and no piece holds a dot. */
  function Split(s: string): (parts: seq<string>)
    ensures |parts| == DotCount(s) + 1
    ensures forall i :: 0 <= i < |parts| ==> '.' !in parts[i]
  {
    if s == [] then [[]]
    else
      var init := Split(s[..|s| - 1]);
      var c := s[|s| - 1];
      if c == '.' then init + [[]]
      else init[..|init| - 1] + [init[|init| - 1] + [c]]
  }

  /** The number of dots in `s`. */
  function DotCount(s: string): nat
  {
    if s == [] then 0
    else DotCount(s[..|s| - 1]) + (if s[|s| - 1] == '.' then 1 else 0)
  }

  /** Python's `'.'.join(parts)`, the inverse of `Split`. */
  function Join(parts: seq<string>): string
  {
    if |parts| == 0 then []
    else if |parts| == 1 then parts[0]
    else Join(parts[..|parts| - 1]) + "." + parts[|parts| - 1]
  }

  /** Joining the pieces with dots gives back the original name. */
  lemma {:induction false} JoinSplit(s: string)
    ensures Join(Split(s)) == s
  {
    if s != [] {
      var init := Split(s[..|s| - 1]);
      JoinSplit(s[..|s| - 1]);
      var parts := Split(s);
      if s[|s| - 1] == '.' {
        assert parts[..|parts| - 1] == init;
      } else if |init| == 1 {
        assert parts == [init[0] + [s[|s| - 1]]];
      } else {
        assert parts[..|parts| - 1] == init[..|init| - 1];
      }
      assert s == s[..|s| - 1] + [s[|s| - 1]];
    }
  }

  /** Appending ".w" to a name, where w has no dot, appends one piece. */
  lemma {:induction false} SplitAppend(x: string, w: string)
    requires '.' !in w
    ensures Split(x + "." + w) == Split(x) + [w]
  {
    if w == [] {
      assert x + "." + w == x + ".";
      assert (x + ".")[..|x|] == x;
    } else {
      var w' := w[..|w| - 1];
      SplitAppend(x, w');
      assert (x + "." + w)[..|x + "." + w| - 1] == x + "." + w';
      assert w' + [w[|w| - 1]] == w;
    }
  }

  /** A name without a dot splits into itself alone. */
  lemma {:induction false} SplitNoDot(w: string)
    requires '.' !in w
    ensures Split(w) == [w]
  {
    if w != [] {
      SplitNoDot(w[..|w| - 1]);
      assert w[..|w| - 1] + [w[|w| - 1]] == w;
    }
  }

  /** Splitting the dot-join of dot-free pieces gives back the pieces. */
  lemma {:induction false} SplitJoin(parts: seq<string>)
    requires |parts| >= 1
    requires forall i :: 0 <= i < |parts| ==> '.' !in parts[i]
    ensures Split(Join(parts)) == parts
  {
    if |parts| == 1 {
      SplitNoDot(parts[0]);
    } else {
      var init := parts[..|parts| - 1];
      SplitJoin(init);
      SplitAppend(Join(init), parts[|parts| - 1]);
      assert init + [parts[|parts| - 1]] == parts;
    }
  }

  /** `filename.split('.')[-1]`: the last piece. */
  function LastPiece(s: string): string
  {
    var parts := Split(s);
    parts[|parts| - 1]
  }

  /** `r` is the text after the final dot of `s`: a dot-free suffix of `s`
      that is either all of `s` or is preceded by a dot. */
  ghost predicate AfterLastDot(s: string, r: string)
  {
    && |r| <= |s|
    && r == s[|s| - |r|..]
    && '.' !in r
    && (|r| == |s| || s[|s| - |r| - 1] == '.')
  }

  /** The text after the final dot is determined by the name. */
  lemma AfterLastDotUnique(s: string, a: string, b: string)
    requires AfterLastDot(s, a) && AfterLastDot(s, b)
    ensures a == b
  {
  }

  /** How the last piece grows as the name grows by one character. */
  lemma LastPieceStep(s: string)
    requires s != []
    ensures s[|s| - 1] == '.' ==> LastPiece(s) == []
    ensures s[|s| - 1] != '.' ==> LastPiece(s) == LastPiece(s[..|s| - 1]) + [s[|s| - 1]]
  {
  }

  /** The last piece of `split('.')` is exactly the text after the final dot. */
  lemma {:induction false} LastPieceIsAfterLastDot(s: string)
    ensures AfterLastDot(s, LastPiece(s))
  {
    if s != [] {
      var init, c := s[..|s| - 1], s[|s| - 1];
      LastPieceStep(s);
      if c != '.' {
        LastPieceIsAfterLastDot(init);
        var r := LastPiece(init);
        assert s[|s| - |r| - 1..] == init[|init| - |r|..] + [c];
      }
    }
  }

  /** A name with no dot is its own last piece, so `"PNG"` alone has the
      extension "png" (app.py:109). */
  lemma NoDotWholeName(s: string)
    requires '.' !in s
    ensures LastPiece(s) == s
  {
    SplitNoDot(s);
  }

  /** Python's `str.lower()` on one character, as far as the allow-lists can
      observe it: ASCII capitals, and KELVIN SIGN (U+212A), whose lower case is
      the ASCII 'k'. */
  function LowerChar(c: char): char
  {
    if 'A' <= c <= 'Z' then (c as int + 32) as char
    else if c == '\U{212A}' then 'k'
    else c
  }

  function Lower(s: string): string
  {
    seq(|s|, i requires 0 <= i < |s| => LowerChar(s[i]))
  }

  /** Lower-casing keeps every dot and makes no new one, so it commutes with
      taking the text after the final dot. */
  lemma LowerLastPiece(s: string)
    ensures LastPiece(Lower(s)) == Lower(LastPiece(s))
  {
    var r := LastPiece(s);
    LastPieceIsAfterLastDot(s);
    LowerKeepsAfterLastDot(s, r);
    LastPieceIsAfterLastDot(Lower(s));
    AfterLastDotUnique(Lower(s), Lower(r), LastPiece(Lower(s)));
  }

  /** Lower-casing a name and its text after the final dot keeps the relation. */
  lemma LowerKeepsAfterLastDot(s: string, r: string)
    requires AfterLastDot(s, r)
    ensures AfterLastDot(Lower(s), Lower(r))
  {
  }

  /** `filename.split('.')[-1].lower()` (app.py:109). */
  function Extension(filename: string): string
  {
    Lower(LastPiece(filename))
  }

  /** The `resource_type` the handler picks. */
  datatype ResourceType = Image | Video

  const ImageExtensions: seq<string> := ["jpg", "jpeg", "png", "gif", "webp"]
  const VideoExtensions: seq<string> := ["mp4", "mov", "avi", "mkv"]

  /** The conditional expression of app.py:110-112: image when the extension
      is on the image list, video when it is on the video list, `None`
      otherwise. The lists share no entry, so at most one holds. */
  function ResourceTypeOf(ext: string): (r: Option<ResourceType>)
    ensures r == Some(Image) <==> ext in ImageExtensions
    ensures r == Some(Video) <==> ext in VideoExtensions
    ensures r == None <==> ext !in ImageExtensions && ext !in VideoExtensions
  {
    if ext in ImageExtensions then Some(Image)
    else if ext in VideoExtensions then Some(Video)
    else None
  }

  /** The resource type of an uploaded file name. */
  function Classification(filename: string): Option<ResourceType>
  {
    ResourceTypeOf(Extension(filename))
  }

  /** The extension depends only on the lower-cased name. */
  lemma ExtensionIgnoresCase(a: string, b: string)
    requires Lower(a) == Lower(b)
    ensures Extension(a) == Extension(b)
  {
    LowerLastPiece(a);
    LowerLastPiece(b);
  }

  /** Names that differ only in letter case are classified alike. */
  lemma ClassificationIgnoresCase(a: string, b: string)
    requires Lower(a) == Lower(b)
    ensures Classification(a) == Classification(b)
  {
    ExtensionIgnoresCase(a, b);
  }

  /** The extension is the lower-cased text after the final dot, and it holds
      no dot itself. */
  lemma ExtensionIsAfterLastDot(filename: string)
    ensures AfterLastDot(Lower(filename), Extension(filename))
    ensures '.' !in Extension(filename)
  {
    LowerLastPiece(filename);
    LastPieceIsAfterLastDot(Lower(filename));
  }

  /** A name without a dot is classified by the whole name: `"PNG"` is an
      image and `"MKV"` is a video. */
  lemma WholeNameExamples()
    ensures Classification("PNG") == Some(Image)
    ensures Classification("MKV") == Some(Video)
  {
    NoDotWholeName("PNG");
    assert Lower("PNG") == "png";
    NoDotWholeName("MKV");
    assert Lower("MKV") == "mkv";
  }

  /** Only the final piece counts: "clip.png.mov" is a video, and
      "archive.tar.gz" is unsupported. */
  lemma LastPieceExamples()
    ensures Classification("clip.png.mov") == Some(Video)
    ensures Classification("archive.tar.gz") == None
  {
    SplitJoin(["clip", "png", "mov"]);
    assert Join(["clip", "png", "mov"]) == "clip.png.mov";
    assert Lower("mov") == "mov";
    SplitJoin(["archive", "tar", "gz"]);
    assert Join(["archive", "tar", "gz"]) == "archive.tar.gz";
    assert Lower("gz") == "gz";
  }
}
