/**
 * Image preparation in the vision demo: the media type `_encode_image`
 * derives from the file suffix, and the retry schedule of
 * `_resize_and_encode_image`, which re-encodes the image with lower JPEG
 * quality and then smaller dimensions until the base64 text fits.
 */
module ImageEncoding {
  import opened PyText

  /** The path without its trailing slashes. */
  function TrimTrailingSlashes(path: string): (r: string)
    ensures |r| <= |path| && r == path[..|r|]
    ensures r == [] || r[|r| - 1] != '/'
    ensures forall j :: |r| <= j < |path| ==> path[j] == '/'
  {
    if path != [] && path[|path| - 1] == '/' then TrimTrailingSlashes(path[..|path| - 1]) else path
  }

  /** The final path component, trailing slashes ignored: `PurePosixPath(path).name`. */
  function FileName(path: string): (name: string)
    ensures '/' !in name
    ensures var t := TrimTrailingSlashes(path); |name| <= |t| && name == t[|t| - |name|..]
  {
    var t := TrimTrailingSlashes(path);
    var k := LastAtOrBefore(t, "/", |t| - 1);
    forall j | k < j < |t| ensures t[j] != '/' {
      assert !OccursAt(t, "/", j);
      assert t[j..j + 1] == [t[j]];
    }
    t[k + 1..]
  }

  /** The suffix of a file name: from its last dot, when that dot is neither first nor last. */
  function NameSuffix(name: string): (ext: string)
    ensures ext == [] || (ext[0] == '.' && |ext| >= 2)
    ensures |ext| <= |name| && ext == name[|name| - |ext|..]
  {
    var i := LastAtOrBefore(name, ".", |name| - 1);
    if 0 < i < |name| - 1 then
      assert name[i..i + 1] == ".";
      name[i..]
    else []
  }

  /** `Path(path).suffix`: the suffix of the final component. */
  function Suffix(path: string): (ext: string)
    ensures ext == [] || (ext[0] == '.' && |ext| >= 2)
    ensures '/' !in ext
  {
    var name := FileName(path);
    var ext := NameSuffix(name);
    assert forall j :: 0 <= j < |ext| ==> ext[j] == name[|name| - |ext| + j];
    ext
  }

  /** `media_type_map.get(ext, 'image/jpeg')`. */
  function MediaTypeFor(ext: string): (mediaType: string)
    ensures ext in {".png"} ==> mediaType == "image/png"
    ensures ext in {".webp"} ==> mediaType == "image/webp"
    ensures ext in {".gif"} ==> mediaType == "image/gif"
    ensures ext !in {".png", ".webp", ".gif"} ==> mediaType == "image/jpeg"
  {
    if ext == ".jpg" || ext == ".jpeg" then "image/jpeg"
    else if ext == ".png" then "image/png"
    else if ext == ".webp" then "image/webp"
    else if ext == ".gif" then "image/gif"
    else "image/jpeg"
  }

  /** `original_media_type` in `_encode_image`: the map's entry for the lower-cased suffix. */
  function OriginalMediaType(path: string): (mediaType: string)
    ensures mediaType in {"image/jpeg", "image/png", "image/webp", "image/gif"}
  {
    MediaTypeFor(Lower(Suffix(path)))
  }

  /** The last occurrence of `t` at or before `i` is at `k`. */
  lemma LastAtOrBeforeIs(s: string, t: string, i: int, k: int)
    requires k <= i
    requires k == -1 || OccursAt(s, t, k)
    requires forall j :: k < j <= i ==> !OccursAt(s, t, j)
    ensures LastAtOrBefore(s, t, i) == k
  {
  }

  /** No occurrence of a one-character string `[c]` where the text does not hold `c`. */
  lemma NoCharNoOccurrence(s: string, c: char, lo: int, hi: int)
    requires forall j :: lo <= j < hi && 0 <= j < |s| ==> s[j] != c
    ensures forall j :: lo <= j < hi ==> !OccursAt(s, [c], j)
  {
    forall j | lo <= j < hi ensures !OccursAt(s, [c], j) {
      if 0 <= j < |s| {
        assert s[j..j + 1][0] == s[j];
      }
    }
  }

  /** The name of `dir` + `name`, for a directory part ending in `/` (or empty) and a name without `/` that does not end the path with `/`, is `name`. */
  lemma FileNameOfSimplePath(dir: string, name: string)
    requires dir == [] || dir[|dir| - 1] == '/'
    requires name != [] && '/' !in name
    ensures FileName(dir + name) == name
  {
    var path := dir + name;
    assert path[|path| - 1] == name[|name| - 1];
    forall j | |dir| <= j < |path| ensures path[j] != '/' {
      assert path[j] == name[j - |dir|];
    }
    NoCharNoOccurrence(path, '/', |dir|, |path|);
    if dir != [] {
      assert path[|dir| - 1..|dir|] == "/";
    }
    LastAtOrBeforeIs(path, "/", |path| - 1, |dir| - 1);
    FileNameAfterSlash(path, |dir| - 1);
    assert path[|dir|..] == name;
  }

  /** A path not ending in `/` whose last `/` is at `k` (or that has none, `k == -1`) is named by what follows `k`. */
  lemma FileNameAfterSlash(path: string, k: int)
    requires path != [] && path[|path| - 1] != '/'
    requires LastAtOrBefore(path, "/", |path| - 1) == k
    ensures FileName(path) == path[k + 1..]
  {
    assert TrimTrailingSlashes(path) == path;
  }

  /** The suffix of a name made of a dotless stem and `.xyz` without further dots is `.xyz`. */
  lemma SuffixOfSimpleName(stem: string, ext: string)
    requires stem != [] && '.' !in stem
    requires |ext| >= 2 && ext[0] == '.' && '.' !in ext[1..]
    ensures NameSuffix(stem + ext) == ext
  {
    var name := stem + ext;
    forall j | |stem| < j < |name| ensures name[j] != '.' {
      assert name[j] == ext[1..][j - |stem| - 1];
    }
    NoCharNoOccurrence(name, '.', |stem| + 1, |name|);
    assert name[|stem|..|stem| + 1] == ".";
    LastAtOrBeforeIs(name, ".", |name| - 1, |stem|);
    assert name[|stem|..] == ext;
  }

  /**
   * For a path made of a directory part ending in `/` (or nothing), a stem
   * without dots and a suffix `.xyz` without further dots, the suffix is
   * exactly that `.xyz`, and the media type is the map's entry for its
   * lower-cased form.
   */
  lemma SuffixOfSimplePath(dir: string, stem: string, ext: string)
    requires dir == [] || dir[|dir| - 1] == '/'
    requires stem != [] && '/' !in stem && '.' !in stem
    requires |ext| >= 2 && ext[0] == '.' && '/' !in ext && '.' !in ext[1..]
    ensures Suffix(dir + stem + ext) == ext
    ensures OriginalMediaType(dir + stem + ext) == MediaTypeFor(Lower(ext))
  {
    assert '/' !in stem + ext by {
      forall j | 0 <= j < |stem + ext| ensures (stem + ext)[j] != '/' {
        if j >= |stem| {
          assert (stem + ext)[j] == ext[j - |stem|];
        }
      }
    }
    assert dir + stem + ext == dir + (stem + ext);
    FileNameOfSimplePath(dir, stem + ext);
    SuffixOfSimpleName(stem, ext);
  }

  /** The suffix is matched case-insensitively: `photo.PNG` is a PNG. */
  lemma UpperCaseSuffix(dir: string, stem: string)
    requires dir == [] || dir[|dir| - 1] == '/'
    requires stem != [] && '/' !in stem && '.' !in stem
    ensures OriginalMediaType(dir + stem + ".PNG") == "image/png"
  {
    var ext := ".PNG";
    assert '/' !in ext && '.' !in ext[1..];
    SuffixOfSimplePath(dir, stem, ext);
    LowerPng();
  }

  /** Lower-casing `.PNG` gives `.png`. */
  lemma LowerPng()
    ensures Lower(".PNG") == ".png"
  {
    var lowered := Lower(".PNG");
    assert lowered[0] == '.' && lowered[1] == 'p' && lowered[2] == 'n' && lowered[3] == 'g';
  }

  /** The format the resized image is saved in. */
  datatype SaveFormat = Jpeg | Png | WebP

  /** PNG and WebP keep their format (to keep transparency); everything else becomes JPEG. */
  function SaveFormatFor(ext: string): (f: SaveFormat)
    ensures f == Png <==> ext == ".png"
    ensures f == WebP <==> ext == ".webp"
  {
    if ext == ".png" then Png else if ext == ".webp" then WebP else Jpeg
  }

  function FormatMediaType(f: SaveFormat): (mediaType: string)
    ensures f == Jpeg ==> mediaType == "image/jpeg"
    ensures f == Png ==> mediaType == "image/png"
    ensures f == WebP ==> mediaType == "image/webp"
  {
    match f
    case Jpeg => "image/jpeg"
    case Png => "image/png"
    case WebP => "image/webp"
  }

  /** The resize loop's cap on encodes. */
  const MaxAttempts: nat := 15

  /** Attempts up to this count lower the quality only; later ones also shrink the image. */
  const QualityOnlyAttempts: nat := 5

  /** Neither side may shrink below this many pixels. */
  const MinSide: int := 100

  function Max(a: int, b: int): int {
    if a >= b then a else b
  }

  /** `quality` after `k` failed encodes that did not stop the loop. */
  function QualityAfter(f: SaveFormat, k: nat): Option<int> {
    if k == 0 then (if f == Jpeg then Some(90) else None)
    else
      var prev := QualityAfter(f, k - 1);
      if (f == Jpeg || f == WebP) && prev.Some? && prev.value != 0 then
        Some(if k <= QualityOnlyAttempts then Max(60, prev.value - 10) else Max(40, prev.value - 5))
      else prev
  }

  /** The quality passed to `save`: JPEG uses `quality`, PNG none, WebP `quality or 90`. */
  function SavedQuality(f: SaveFormat, quality: Option<int>): Option<int> {
    match f
    case Jpeg => quality
    case Png => None
    case WebP => if quality.Some? && quality.value != 0 then quality else Some(90)
  }

  /** A side of the image after `k` failed encodes: unchanged for the first five, then `int(side * 0.9)` each time. */
  function ScaledSide(side: int, k: nat): int {
    if k <= QualityOnlyAttempts then side else ScaledSide(side, k - 1) * 9 / 10
  }

  /** The JPEG schedule in closed form: 90, 80, 70, then 60 until the fifth retry, then down by 5 to a floor of 40. */
  function JpegQuality(k: nat): int {
    if k <= 3 then 90 - 10 * k
    else if k <= 5 then 60
    else if k <= 9 then 60 - 5 * (k - 5)
    else 40
  }

  lemma {:induction false} JpegQualitySchedule(k: nat)
    ensures QualityAfter(Jpeg, k) == Some(JpegQuality(k))
  {
    if k > 0 {
      JpegQualitySchedule(k - 1);
    }
  }

  /** JPEG quality stays within [40, 90], never rises, and is at least 60 during the first five retries. */
  lemma JpegQualityBounds(k: nat)
    ensures QualityAfter(Jpeg, k).Some?
    ensures 40 <= QualityAfter(Jpeg, k).value <= 90
    ensures QualityAfter(Jpeg, k + 1).value <= QualityAfter(Jpeg, k).value
    ensures k <= QualityOnlyAttempts ==> QualityAfter(Jpeg, k).value >= 60
  {
    JpegQualitySchedule(k);
    JpegQualitySchedule(k + 1);
  }

  /** WebP starts without a quality, so its quality never drops: every WebP encode uses 90. PNG never has one. */
  lemma {:induction false} WebPAndPngQualityFixed(k: nat)
    ensures QualityAfter(WebP, k) == None && SavedQuality(WebP, QualityAfter(WebP, k)) == Some(90)
    ensures QualityAfter(Png, k) == None && SavedQuality(Png, QualityAfter(Png, k)) == None
  {
    if k > 0 {
      WebPAndPngQualityFixed(k - 1);
    }
  }

  /** Sides never grow. */
  lemma {:induction false} ScaledSideShrinks(side: int, k: nat)
    requires side >= 0
    ensures 0 <= ScaledSide(side, k + 1) <= ScaledSide(side, k) <= side
  {
    if k > QualityOnlyAttempts {
      ScaledSideShrinks(side, k - 1);
    }
  }

  /** The encoded size the `k`-th encode (counted from 0) would produce; `encodedSize` stands for PIL plus base64. */
  function EncodedSizeAt(f: SaveFormat, width: int, height: int, encodedSize: (Option<int>, int, int) -> int, k: nat): int {
    encodedSize(SavedQuality(f, QualityAfter(f, k)), ScaledSide(width, k), ScaledSide(height, k))
  }

  /** Every encode before the `k`-th (counted from 0) came out larger than `maxBytes`. */
  ghost predicate TooLargeBefore(f: SaveFormat, width: int, height: int, encodedSize: (Option<int>, int, int) -> int,
                                 maxBytes: int, k: nat) {
    forall j :: 0 <= j < k ==> EncodedSizeAt(f, width, height, encodedSize, j) > maxBytes
  }

  /** How the resize loop ended. */
  datatype ResizeOutcome =
    | Encoded(attempt: nat, width: int, height: int, savedQuality: Option<int>)
    | BelowMinimumSize(attempt: nat)
    | AttemptsExhausted

  /**
   * `_resize_and_encode_image`: encodes, and while the result exceeds
   * `maxBytes`, lowers the quality (first five retries) or shrinks both
   * sides to 90% (later retries, abandoning below 100 pixels), for at most
   * 15 encodes. Returns how it ended and the media type of the save format.
   */
  method ResizeAndEncode(ext: string, width: int, height: int, maxBytes: int,
                         encodedSize: (Option<int>, int, int) -> int)
    returns (outcome: ResizeOutcome, mediaType: string)
    ensures mediaType == FormatMediaType(SaveFormatFor(ext))
    ensures outcome.Encoded? ==>
      var f, k := SaveFormatFor(ext), outcome.attempt;
      && k < MaxAttempts
      && outcome.width == ScaledSide(width, k) && outcome.height == ScaledSide(height, k)
      && outcome.savedQuality == SavedQuality(f, QualityAfter(f, k))
      && EncodedSizeAt(f, width, height, encodedSize, k) <= maxBytes
      && TooLargeBefore(f, width, height, encodedSize, maxBytes, k)
      && (k > QualityOnlyAttempts ==> ScaledSide(width, k) >= MinSide && ScaledSide(height, k) >= MinSide)
    ensures outcome.BelowMinimumSize? ==>
      var f, k := SaveFormatFor(ext), outcome.attempt;
      && QualityOnlyAttempts < k <= MaxAttempts
      && (ScaledSide(width, k) < MinSide || ScaledSide(height, k) < MinSide)
      && (k - 1 > QualityOnlyAttempts ==>
            ScaledSide(width, k - 1) >= MinSide && ScaledSide(height, k - 1) >= MinSide)
      && TooLargeBefore(f, width, height, encodedSize, maxBytes, k)
    ensures outcome.AttemptsExhausted? ==>
      && TooLargeBefore(SaveFormatFor(ext), width, height, encodedSize, maxBytes, MaxAttempts)
      && ScaledSide(width, MaxAttempts) >= MinSide && ScaledSide(height, MaxAttempts) >= MinSide
  {
    var saveFormat := SaveFormatFor(ext);
    mediaType := FormatMediaType(saveFormat);
    var quality: Option<int> := if saveFormat == Jpeg then Some(90) else None;
    var w, h := width, height;
    var attempt: nat := 0;
    while attempt < MaxAttempts
      invariant attempt <= MaxAttempts
      invariant quality == QualityAfter(saveFormat, attempt)
      invariant w == ScaledSide(width, attempt) && h == ScaledSide(height, attempt)
      invariant TooLargeBefore(saveFormat, width, height, encodedSize, maxBytes, attempt)
      invariant attempt > QualityOnlyAttempts ==> w >= MinSide && h >= MinSide
    {
      var savedQuality := SavedQuality(saveFormat, quality);
      var size := encodedSize(savedQuality, w, h);
      if size <= maxBytes {
        return Encoded(attempt, w, h, savedQuality), mediaType;
      }
      assert EncodedSizeAt(saveFormat, width, height, encodedSize, attempt) > maxBytes;
      assert TooLargeBefore(saveFormat, width, height, encodedSize, maxBytes, attempt + 1);
      attempt := attempt + 1;
      if attempt <= QualityOnlyAttempts {
        if (saveFormat == Jpeg || saveFormat == WebP) && quality.Some? && quality.value != 0 {
          quality := Some(Max(60, quality.value - 10));
        }
      } else {
        assert w == ScaledSide(width, attempt - 1) && h == ScaledSide(height, attempt - 1);
        var newWidth, newHeight := w * 9 / 10, h * 9 / 10;
        assert newWidth == ScaledSide(width, attempt) && newHeight == ScaledSide(height, attempt);
        if newWidth < MinSide || newHeight < MinSide {
          return BelowMinimumSize(attempt), mediaType;
        }
        w, h := newWidth, newHeight;
        if (saveFormat == Jpeg || saveFormat == WebP) && quality.Some? && quality.value != 0 {
          quality := Some(Max(40, quality.value - 5));
        }
      }
    }
    outcome := AttemptsExhausted;
  }

  /** The length of the base64 text of `n` bytes: four characters per started group of three. */
  function Base64Length(n: nat): (len: nat)
    ensures len % 4 == 0
    ensures 4 * n <= 3 * len < 4 * n + 12
  {
    4 * ((n + 2) / 3)
  }

  /** The estimate `file_size * 1.37` exceeds the limit, compared exactly. */
  predicate EstimateTooLarge(fileSize: nat, maxBytes: int) {
    137 * fileSize > 100 * maxBytes
  }

  /**
   * The media type `_resize_and_encode_image` returns: that of the save
   * format on every exit of its loop, and `image/jpeg` when it raises.
   */
  function ResizedMediaType(path: string, resizeRaises: bool): (mediaType: string)
    ensures mediaType in {"image/jpeg", "image/png", "image/webp"}
  {
    if resizeRaises then "image/jpeg" else FormatMediaType(SaveFormatFor(Lower(Suffix(path))))
  }

  /**
   * The media type `_encode_image` returns. The file system and PIL are
   * parameters: `fileSize` is what `os.path.getsize` gives (`None` when it
   * raises), `readRaises` whether reading the file raises, `resizeRaises`
   * whether `_resize_and_encode_image` raises. Too large an estimate, or too
   * long a base64 text, hands over to the resize; any exception yields
   * `image/jpeg`; otherwise the map's entry for the suffix is returned.
   */
  function EncodeImageMediaType(path: string, fileSize: Option<nat>, readRaises: bool, maxBytes: int,
                                resizeRaises: bool): (mediaType: string)
    ensures mediaType in {"image/jpeg", "image/png", "image/webp", "image/gif"}
  {
    if fileSize.None? then "image/jpeg"
    else if EstimateTooLarge(fileSize.value, maxBytes) then ResizedMediaType(path, resizeRaises)
    else if readRaises then "image/jpeg"
    else if Base64Length(fileSize.value) > maxBytes then ResizedMediaType(path, resizeRaises)
    else OriginalMediaType(path)
  }

  /** `_encode_image` hands the file to the resize. */
  predicate TakesResizeRoute(fileSize: nat, readRaises: bool, maxBytes: int) {
    EstimateTooLarge(fileSize, maxBytes) || (!readRaises && Base64Length(fileSize) > maxBytes)
  }

  /** The save format's media type differs from the map's entry for exactly one suffix: `.gif`, saved as JPEG. */
  lemma SaveFormatTypeDiffersOnlyForGif(ext: string)
    ensures FormatMediaType(SaveFormatFor(ext)) != MediaTypeFor(ext) <==> ext == ".gif"
  {
    if ext == ".gif" {
      assert MediaTypeFor(ext) == "image/gif";
      assert FormatMediaType(SaveFormatFor(ext)) == "image/jpeg";
    }
  }

  /**
   * When nothing raises, `_encode_image` returns the map's entry for the
   * suffix, except that a `.gif` handed to the resize comes back as
   * `image/jpeg`, the type of the JPEG it was re-encoded as; the resize
   * route agrees with the media type `ResizeAndEncode` reports. Whenever
   * something raises on the route taken, the type is `image/jpeg`.
   */
  lemma EncodeImageMediaTypeSpec(path: string, fileSize: nat, readRaises: bool, maxBytes: int, resizeRaises: bool)
    ensures var route := TakesResizeRoute(fileSize, readRaises, maxBytes);
      var mediaType := EncodeImageMediaType(path, Some(fileSize), readRaises, maxBytes, resizeRaises);
      && (route && !resizeRaises ==> mediaType == FormatMediaType(SaveFormatFor(Lower(Suffix(path)))))
      && (route && resizeRaises ==> mediaType == "image/jpeg")
      && (!route && readRaises ==> mediaType == "image/jpeg")
      && (!route && !readRaises ==> mediaType == OriginalMediaType(path))
      && (!(if route then resizeRaises else readRaises) ==>
            (mediaType != OriginalMediaType(path) <==> route && Lower(Suffix(path)) == ".gif"))
  {
    SaveFormatTypeDiffersOnlyForGif(Lower(Suffix(path)));
  }
}
