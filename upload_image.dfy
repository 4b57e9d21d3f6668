/**
 * `useUploadImage`: the image compression step (its scaling rule and its failure cases), and the
 * `loading` / `imageList` bookkeeping of `afterUpload` and `uploadImg`. Reading the file, loading
 * the image, encoding the canvas and the upload call are parameters.
 */
module UploadImage {
  import opened Wrappers
  import opened Js
  import opened Text

  const MaxWidth: real := 1024.0
  const MaxHeight: real := 1024.0

  /** The rejection reasons of `compressImage`. */
  const ReaderError: string := "FileReader\U{9519}\U{8BEF}"
  const EncodeError: string := "\U{538B}\U{7F29}\U{5931}\U{8D25}"
  const LoadError: string := "\U{56FE}\U{7247}\U{52A0}\U{8F7D}\U{5931}\U{8D25}"

  /** The messages of the errors thrown by `afterUpload` and `uploadImg`. */
  const InvalidReply: string := "\U{670D}\U{52A1}\U{5668}\U{8FD4}\U{56DE}\U{7684}\U{6570}\U{636E}\U{65E0}\U{6548}"
  const NoFileInWrapper: string := "\U{65E0}\U{6CD5}\U{83B7}\U{53D6}\U{6709}\U{6548}\U{7684}File\U{5BF9}\U{8C61}"
  const NotAFile: string := "\U{4E0D}\U{662F}\U{6709}\U{6548}\U{7684}File\U{5BF9}\U{8C61}"

  /** The toast shown for a failure that is not a string. */
  const UploadFailed: string := "\U{4E0A}\U{4F20}\U{5931}\U{8D25}"

  datatype File = File(name: string, mimeType: string)

  /** How reading the file and loading it as an image ends. */
  datatype ImageLoad = ReaderFailed | ImageFailed | Loaded(width: nat, height: nat)

  /** What `compressImage` resolves with: the file itself, or a JPEG of the scaled image. */
  datatype Blob = Unchanged(file: File) | Jpeg(source: File, width: real, height: real)

  /** What a `catch` receives: a rejection with a string, an `Error` with its message, or a `TypeError`. */
  datatype Thrown = Reason(text: string) | ErrorObject(message: string) | TypeError

  /** One `formData.append(field, blob, filename)`. */
  datatype Part = Part(field: string, blob: Blob, filename: string)

  /** `x *= limit / longer`: the shorter side, scaled by the factor that brings the longer one to `limit`. */
  function Scaled(x: real, limit: real, longer: real): real
    requires longer > 0.0
  {
    x * (limit / longer)
  }

  /**
   * The scaling rule of `compressImage`: the longer side is brought down to 1024 keeping the
   * aspect ratio; a square image takes the height branch; an image that fits is unchanged.
   */
  function FitDimensions(width: nat, height: nat): (r: (real, real))
    ensures r.0 * (height as real) == r.1 * (width as real)
    ensures width as real <= MaxWidth && height as real <= MaxHeight ==> r == (width as real, height as real)
    ensures width > height && width as real > MaxWidth ==> r.0 == MaxWidth
    ensures width <= height && height as real > MaxHeight ==> r.1 == MaxHeight
  {
    var w, h := width as real, height as real;
    if w > h then
      if w > MaxWidth then (MaxWidth, Scaled(h, MaxWidth, w)) else (w, h)
    else
      if h > MaxHeight then (Scaled(w, MaxHeight, h), MaxHeight) else (w, h)
  }

  /** The scaling step of `compressImage`, updating `width` and `height` in turn as the source does. */
  method ScaleDimensions(imgWidth: nat, imgHeight: nat) returns (width: real, height: real)
    ensures (width, height) == FitDimensions(imgWidth, imgHeight)
  {
    width, height := imgWidth as real, imgHeight as real;
    if width > height {
      if width > MaxWidth {
        height := Scaled(height, MaxWidth, width);
        width := MaxWidth;
      }
    } else {
      if height > MaxHeight {
        width := Scaled(width, MaxHeight, height);
        height := MaxHeight;
      }
    }
  }

  /** Scaling the shorter side by `limit / longer` keeps it between 0 and `limit`. */
  lemma ScaledWithin(x: real, limit: real, longer: real)
    requires 0.0 <= x <= longer && longer > 0.0 && limit >= 0.0
    ensures 0.0 <= Scaled(x, limit, longer) <= limit
  {
    var f := limit / longer;
    assert f >= 0.0;
    assert (longer - x) * f >= 0.0;
    assert longer * f == limit;
    assert x * f == longer * f - (longer - x) * f;
  }

  /** After scaling, both sides are within 1024 and neither is negative. */
  lemma FitWithinBounds(width: nat, height: nat)
    ensures var (w, h) := FitDimensions(width, height);
      0.0 <= w <= MaxWidth && 0.0 <= h <= MaxHeight
  {
    var W, H := width as real, height as real;
    if W > H && W > MaxWidth {
      ScaledWithin(H, MaxWidth, W);
      assert FitDimensions(width, height) == (MaxWidth, Scaled(H, MaxWidth, W));
    } else if W <= H && H > MaxHeight {
      ScaledWithin(W, MaxHeight, H);
      assert FitDimensions(width, height) == (Scaled(W, MaxHeight, H), MaxHeight);
    } else {
      assert FitDimensions(width, height) == (W, H);
    }
  }

  /**
   * `compressImage(file)`: a file whose type does not start with `image/` resolves unchanged;
   * otherwise the image is scaled by `FitDimensions` and encoded, or the promise rejects with
   * one of three reasons.
   */
  function Compress(file: File, load: File -> ImageLoad, encode: (File, real, real) -> bool): (r: Result<Blob, string>)
    ensures !StartsWith(file.mimeType, "image/") ==> r == Success(Unchanged(file))
    ensures StartsWith(file.mimeType, "image/") ==>
      match load(file)
      case ReaderFailed => r == Failure(ReaderError)
      case ImageFailed => r == Failure(LoadError)
      case Loaded(w, h) =>
        var (w', h') := FitDimensions(w, h);
        r == (if encode(file, w', h') then Success(Jpeg(file, w', h')) else Failure(EncodeError))
    ensures r.Failure? ==> r.error in {ReaderError, LoadError, EncodeError}
  {
    if !StartsWith(file.mimeType, "image/") then Success(Unchanged(file))
    else
      match load(file)
      case ReaderFailed => Failure(ReaderError)
      case ImageFailed => Failure(LoadError)
      case Loaded(w, h) =>
        var (w', h') := FitDimensions(w, h);
        if encode(file, w', h') then Success(Jpeg(file, w', h')) else Failure(EncodeError)
  }

  /** Every JPEG `compressImage` produces fits in 1024 by 1024. */
  lemma CompressedWithinBounds(file: File, load: File -> ImageLoad, encode: (File, real, real) -> bool)
    requires Compress(file, load, encode).Success? && Compress(file, load, encode).value.Jpeg?
    ensures var b := Compress(file, load, encode).value;
      0.0 <= b.width <= MaxWidth && 0.0 <= b.height <= MaxHeight
  {
    FitWithinBounds(load(file).width, load(file).height);
  }

  /** The argument of `afterUpload`: an array of `{ file }` entries, or a single entry. `None` is an entry without a file. */
  datatype FilesArg = Many(entries: seq<Option<File>>) | One(entry: Option<File>)

  /** `Array.isArray(files) ? files : [files]`. */
  function Entries(files: FilesArg): (r: seq<Option<File>>)
    ensures files.Many? ==> r == files.entries
    ensures files.One? ==> r == [files.entry]
  {
    match files
    case Many(entries) => entries
    case One(entry) => [entry]
  }

  /** The blobs collected by the compression loop: entries without a file and failed compressions are skipped. */
  function Compressed(entries: seq<Option<File>>, load: File -> ImageLoad, encode: (File, real, real) -> bool): seq<Blob>
  {
    if |entries| == 0 then []
    else
      var before := Compressed(entries[..|entries| - 1], load, encode);
      var last := entries[|entries| - 1];
      if last.None? then before
      else
        match Compress(last.value, load, encode)
        case Success(blob) => before + [blob]
        case Failure(_) => before
  }

  /** Every collected blob comes from an entry with a file whose compression succeeded. */
  lemma {:induction false} CompressedFromEntries(entries: seq<Option<File>>, load: File -> ImageLoad,
                                                 encode: (File, real, real) -> bool)
    ensures |Compressed(entries, load, encode)| <= |entries|
    ensures forall b :: b in Compressed(entries, load, encode) ==>
      exists i :: 0 <= i < |entries| && entries[i].Some? && Compress(entries[i].value, load, encode) == Success(b)
    decreases |entries|
  {
    if |entries| > 0 {
      var init := entries[..|entries| - 1];
      CompressedFromEntries(init, load, encode);
      forall b | b in Compressed(entries, load, encode)
        ensures exists i :: 0 <= i < |entries| && entries[i].Some? && Compress(entries[i].value, load, encode) == Success(b)
      {
        if b in Compressed(init, load, encode) {
          var i :| 0 <= i < |init| && init[i].Some? && Compress(init[i].value, load, encode) == Success(b);
          assert entries[i] == init[i];
        } else {
          assert entries[|entries| - 1].Some? && Compress(entries[|entries| - 1].value, load, encode) == Success(b);
        }
      }
    }
  }

  /** The loop works entry by entry: the blobs of two runs of entries are collected one run after the other. */
  lemma {:induction false} CompressedAppend(a: seq<Option<File>>, b: seq<Option<File>>, load: File -> ImageLoad,
                                            encode: (File, real, real) -> bool)
    ensures Compressed(a + b, load, encode) == Compressed(a, load, encode) + Compressed(b, load, encode)
    decreases |b|
  {
    if |b| == 0 {
      assert a + b == a;
    } else {
      var init := b[..|b| - 1];
      assert (a + b)[..|a + b| - 1] == a + init;
      assert (a + b)[|a + b| - 1] == b[|b| - 1];
      CompressedAppend(a, init, load, encode);
    }
  }

  /** One entry yields its compressed blob when it has a file whose compression succeeds, and nothing otherwise. */
  lemma CompressedOne(entry: Option<File>, load: File -> ImageLoad, encode: (File, real, real) -> bool)
    ensures Compressed([entry], load, encode) ==
      if entry.Some? && Compress(entry.value, load, encode).Success? then [Compress(entry.value, load, encode).value] else []
  {
    assert [entry][..0] == [];
  }

  /** Every entry with a file whose compression succeeds has its blob collected. */
  lemma CompressedComplete(entries: seq<Option<File>>, i: nat, load: File -> ImageLoad,
                           encode: (File, real, real) -> bool)
    requires i < |entries| && entries[i].Some? && Compress(entries[i].value, load, encode).Success?
    ensures Compress(entries[i].value, load, encode).value in Compressed(entries, load, encode)
  {
    assert entries == entries[..i] + [entries[i]] + entries[i + 1..];
    CompressedAppend(entries[..i] + [entries[i]], entries[i + 1..], load, encode);
    CompressedAppend(entries[..i], [entries[i]], load, encode);
    CompressedOne(entries[i], load, encode);
  }

  /** When every entry has a non-image file, every file is collected unchanged, in order. */
  lemma {:induction false} NonImagesPassThrough(files: seq<File>, load: File -> ImageLoad,
                                                encode: (File, real, real) -> bool)
    requires forall i :: 0 <= i < |files| ==> !StartsWith(files[i].mimeType, "image/")
    ensures Compressed(seq(|files|, i requires 0 <= i < |files| => Some(files[i])), load, encode) ==
            seq(|files|, i requires 0 <= i < |files| => Unchanged(files[i]))
    decreases |files|
  {
    if |files| > 0 {
      var init := files[..|files| - 1];
      NonImagesPassThrough(init, load, encode);
      var entries := seq(|files|, i requires 0 <= i < |files| => Some(files[i]));
      assert entries[..|files| - 1] == seq(|init|, i requires 0 <= i < |init| => Some(init[i]));
      assert seq(|files|, i requires 0 <= i < |files| => Unchanged(files[i])) ==
             seq(|init|, i requires 0 <= i < |init| => Unchanged(init[i])) + [Unchanged(files[|files| - 1])];
    }
  }

  /** `image_${index}.jpg`. */
  function PartName(i: nat): (name: string)
    ensures StartsWith(name, "image_")
    ensures name[|name| - 4..] == ".jpg"
  {
    "image_" + NatToDecimal(i) + ".jpg"
  }

  /** Distinct positions give distinct part names. */
  lemma PartNamesDistinct(i: nat, j: nat)
    requires i != j
    ensures PartName(i) != PartName(j)
  {
    DecimalInjective(i, j);
    var p, q := PartName(i), PartName(j);
    assert p[6..|p| - 4] == NatToDecimal(i);
    assert q[6..|q| - 4] == NatToDecimal(j);
  }

  /** `compressedFiles.forEach((file, index) => formData.append("files", file, \`image_${index}.jpg\`))`. */
  function Parts(blobs: seq<Blob>): (r: seq<Part>)
    ensures |r| == |blobs|
    ensures forall i :: 0 <= i < |blobs| ==> r[i] == Part("files", blobs[i], PartName(i))
  {
    seq(|blobs|, i requires 0 <= i < |blobs| => Part("files", blobs[i], PartName(i)))
  }

  /** `urls.length`, or `undefined`. */
  function Length(v: Js.Value): Option<Js.Value> {
    match v
    case JArray(items) => Some(JNumber(|items| as real))
    case JString(s) => Some(JNumber(|s| as real))
    case JObject(_) => Field(v, "length")
    case _ => None
  }

  /**
   * `data.urls` when the reply passes `!data || !data.urls || !data.urls.length`, where `data` is
   * the reply's `data` property; reading it from `null` throws too.
   */
  function ReplyUrls(reply: Js.Value): (urls: Option<Js.Value>)
    ensures urls.Some? ==> Js.Truthy(urls.value) && OptTruthy(Length(urls.value))
    ensures urls.Some? ==> reply.JObject? && "data" in reply.fields && reply.fields["data"].JObject?
    ensures urls.Some? ==> urls == Field(reply.fields["data"], "urls")
  {
    if reply == JNull then None
    else
      var data := Field(reply, "data");
      if !OptTruthy(data) then None
      else
        var urls := Field(data.value, "urls");
        if !OptTruthy(urls) || !OptTruthy(Length(urls.value)) then None else urls
  }

  /** A reply whose `data.urls` is a non-empty array passes the check. */
  lemma NonEmptyArrayAccepted(items: seq<Js.Value>, rest: map<string, Js.Value>, other: map<string, Js.Value>)
    requires |items| > 0
    ensures ReplyUrls(JObject(other["data" := JObject(rest["urls" := JArray(items)])])) == Some(JArray(items))
  {
  }

  /** An empty `urls` array, or a reply without `data`, does not pass. */
  lemma EmptyUrlsRejected(rest: map<string, Js.Value>, other: map<string, Js.Value>)
    ensures ReplyUrls(JObject(other["data" := JObject(rest["urls" := JArray([])])])).None?
    ensures "data" !in other ==> ReplyUrls(JObject(other)).None?
  {
  }

  /** `[...urls]`: the elements of an array, the one-character strings of a string; anything else throws. */
  function Spread(urls: Js.Value): (r: Option<seq<Js.Value>>)
    ensures urls.JArray? ==> r == Some(urls.items)
    ensures urls.JString? ==> r.Some? && |r.value| == |urls.s|
    ensures urls.JString? ==> forall i :: 0 <= i < |urls.s| ==> r.value[i] == JString([urls.s[i]])
    ensures !urls.JArray? && !urls.JString? ==> r.None?
  {
    match urls
    case JArray(items) => Some(items)
    case JString(s) => Some(seq(|s|, i requires 0 <= i < |s| => JString([s[i]])))
    case _ => None
  }

  /** `urls[0]`, or `undefined`. */
  function First(urls: Js.Value): (r: Option<Js.Value>)
    ensures urls.JArray? && |urls.items| > 0 ==> r == Some(urls.items[0])
  {
    match urls
    case JArray(items) => if |items| > 0 then Some(items[0]) else None
    case JString(s) => if |s| > 0 then Some(JString([s[0]])) else None
    case JObject(_) => Field(urls, "0")
    case _ => None
  }

  /** `isString(error) ? error : "上传失败"`: the toast for a caught failure. */
  function FailureToast(t: Thrown): (m: string)
    ensures t.Reason? ==> m == t.text
    ensures !t.Reason? ==> m == UploadFailed
  {
    if t.Reason? then t.text else UploadFailed
  }

  /** The argument of `uploadImg`: falsy, a `File`, an object with `originFileObj`, or another value. */
  datatype FileArg = Falsy | AFile(file: File) | Wrapper(origin: Option<File>) | OtherValue

  /** The hook's state: the re-entrancy guard and the list of uploaded URLs. */
  class Uploader {
    var loading: bool
    var imageList: seq<Js.Value>

    constructor ()
      ensures !loading && imageList == []
    {
      loading := false;
      imageList := [];
    }

    /**
     * `afterUpload(files)`. `upload` stands for `addPic`: it resolves with the reply or rejects
     * with what it throws; destructuring `data` from a `null` reply throws a `TypeError`.
     * `result` is `None` for the `undefined` returned while busy; every failure is caught and
     * gives `[]`, with `failure` saying what was caught.
     */
    method AfterUpload(files: FilesArg, load: File -> ImageLoad, encode: (File, real, real) -> bool,
                       upload: seq<Part> -> Result<Js.Value, Thrown>)
      returns (result: Option<Js.Value>, failure: Option<Thrown>, toast: Option<string>)
      modifies this
      ensures toast == (if failure.Some? then Some(FailureToast(failure.value)) else None)
      ensures old(loading) ==> loading && imageList == old(imageList) && result.None? && failure.None?
      ensures !old(loading) ==> !loading && result.Some?
      ensures !old(loading) ==>
        var blobs := Compressed(Entries(files), load, encode);
        if blobs == [] then result == Some(JArray([])) && imageList == old(imageList) && failure.None?
        else match upload(Parts(blobs))
          case Failure(t) => result == Some(JArray([])) && imageList == old(imageList) && failure == Some(t)
          case Success(reply) =>
            if reply == JNull then result == Some(JArray([])) && imageList == old(imageList) && failure == Some(TypeError)
            else match ReplyUrls(reply)
            case None =>
              result == Some(JArray([])) && imageList == old(imageList) && failure == Some(ErrorObject(InvalidReply))
            case Some(urls) =>
              match Spread(urls)
              case None => result == Some(JArray([])) && imageList == old(imageList) && failure == Some(TypeError)
              case Some(added) => result == Some(urls) && imageList == old(imageList) + added && failure.None?
    {
      failure, toast := None, None;
      if loading {
        result := None;
        return;
      }
      loading := true;
      var compressedFiles: seq<Blob> := [];
      var entries := Entries(files);
      var i := 0;
      while i < |entries|
        invariant 0 <= i <= |entries|
        invariant compressedFiles == Compressed(entries[..i], load, encode)
        invariant loading && imageList == old(imageList)
      {
        assert entries[..i + 1][..i] == entries[..i];
        var entry := entries[i];
        if entry.Some? {
          match Compress(entry.value, load, encode) {
            case Success(blob) => compressedFiles := compressedFiles + [blob];
            case Failure(_) =>
          }
        }
        i := i + 1;
      }
      assert entries[..i] == entries;
      if compressedFiles == [] {
        result := Some(JArray([]));
      } else {
        var reply := upload(Parts(compressedFiles));
        if reply.Failure? {
          result, failure := Some(JArray([])), Some(reply.error);
        } else if reply.value == JNull {
          result, failure := Some(JArray([])), Some(TypeError);
        } else {
          var urls := ReplyUrls(reply.value);
          if urls.None? {
            result, failure := Some(JArray([])), Some(ErrorObject(InvalidReply));
          } else {
            var added := Spread(urls.value);
            if added.None? {
              result, failure := Some(JArray([])), Some(TypeError);
            } else {
              imageList := imageList + added.value;
              result := urls;
            }
          }
        }
      }
      if failure.Some? {
        toast := Some(FailureToast(failure.value));  // the `message.error` of the `catch`
      }
      loading := false;
    }

    /**
     * `uploadImg(file)`: `result` is the first returned URL, or `None` for `undefined`. While busy,
     * or for a falsy argument, nothing changes.
     */
    method UploadImg(arg: FileArg, load: File -> ImageLoad, encode: (File, real, real) -> bool,
                     upload: seq<Part> -> Result<Js.Value, Thrown>)
      returns (result: Option<Js.Value>, failure: Option<Thrown>, toast: Option<string>)
      modifies this
      ensures toast == (if failure.Some? then Some(FailureToast(failure.value)) else None)
      ensures imageList == old(imageList)
      ensures old(loading) || arg.Falsy? ==> loading == old(loading) && result.None? && failure.None?
      ensures !old(loading) ==> !loading
      ensures !old(loading) && (arg.OtherValue? || arg == Wrapper(None)) ==>
        result.None? && failure.Some? && failure.value.ErrorObject?
      ensures !old(loading) && (arg.AFile? || (arg.Wrapper? && arg.origin.Some?)) ==>
        var file := if arg.AFile? then arg.file else arg.origin.value;
        match Compress(file, load, encode)
        case Failure(reason) => result.None? && failure == Some(Reason(reason)) && toast == Some(reason)
        case Success(blob) =>
          match upload([Part("files", blob, if file.name != "" then file.name else "image.jpg")])
          case Failure(t) => result.None? && failure == Some(t)
          case Success(reply) =>
            if ReplyUrls(reply).None? then result.None? && failure == Some(ErrorObject(InvalidReply))
            else result == First(ReplyUrls(reply).value) && failure.None?
    {
      result, failure, toast := None, None, None;
      if loading || arg.Falsy? {
        return;
      }
      loading := true;
      var file: File;
      match arg {
        case AFile(f) => file := f;
        case Wrapper(origin) =>
          if origin.None? {
            failure, toast := Some(ErrorObject(NoFileInWrapper)), Some(UploadFailed);
            loading := false;
            return;
          }
          file := origin.value;
        case OtherValue =>
          failure, toast := Some(ErrorObject(NotAFile)), Some(UploadFailed);
          loading := false;
          return;
      }
      var compressed := Compress(file, load, encode);
      if compressed.Failure? {
        failure := Some(Reason(compressed.error));
      } else {
        var name := if file.name != "" then file.name else "image.jpg";
        var reply := upload([Part("files", compressed.value, name)]);
        if reply.Failure? {
          failure := Some(reply.error);
        } else if ReplyUrls(reply.value).None? {
          failure := Some(ErrorObject(InvalidReply));
        } else {
          result := First(ReplyUrls(reply.value).value);
        }
      }
      if failure.Some? {
        toast := Some(FailureToast(failure.value));  // the `message.error` of the `catch`
      }
      loading := false;
    }
  }
}
