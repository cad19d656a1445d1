/**
 * clerk's `process_image` for one image, with the remote model's reply, the
 * JSON parser and the ISO-8601 test as inputs: which files are written, which
 * record is stored in the image's extended attribute, and which file is
 * deleted afterwards.
 */
module Clerk {
  import opened Wrappers
  import opened Paths
  import opened Scaling
  import opened Normalizer
  import opened Schema
  import opened Extraction
  import opened Responses

  /** `save_response_to_file`: the raw reply is kept only in debug mode. */
  function ResponseFile(image: Path, debug: bool): (r: Option<Path>)
    ensures r.Some? <==> debug
    ensures r.Some? ==> r.value == ResponsePath(image)
    ensures r.Some? ==> r.value.dir == image.dir && r.value != image && Suffix(r.value.name) == ".txt"
  {
    if debug then Some(ResponsePath(image)) else None
  }

  /** The cleanup test after the call: `not debug and image_to_process != image_path`. */
  predicate ShouldRemove(image: Path, processed: Path, debug: bool)
  {
    !debug && processed != image
  }

  /** Everything one image's processing leaves behind. */
  datatype Effects = Effects(
    normalized: Normalized,          // the copy written, if any, and the path sent
    responseFile: Option<Path>,      // raw reply kept on disk
    outcome: Option<Outcome>,        // none when the remote call failed
    attribute: Option<Json>,         // record stored in the extended attribute
    removed: Option<Path>)           // file deleted at the end

  /**
   * `process_image` as written: `reply` is none when the remote call raises,
   * in which case the handler skips everything after the call.
   */
  function ProcessImage(image: Path, size: Size, maxSize: int, rotation: int, debug: bool,
                        reply: Option<string>, parse: string -> Result<Json, string>,
                        isIsoDate: string -> bool): (fx: Effects)
    requires size.Positive()
    ensures fx.normalized == Normalize(image, size, maxSize, rotation, debug)
    ensures reply.Some? ==> fx.responseFile == ResponseFile(image, debug)
    ensures reply.None? ==>
      fx.responseFile.None? && fx.outcome.None? && fx.attribute.None? && fx.removed.None?
    ensures reply.Some? ==> (fx.removed.Some? <==> !debug && fx.normalized.saved.Some?)
    ensures fx.removed.Some? ==> fx.removed == fx.normalized.saved && fx.removed.value != image
    ensures fx.attribute.Some? ==> reply.Some? && IsRecord(fx.attribute.value, isIsoDate)
    ensures reply.Some? ==> fx.outcome == Some(ExtractAndValidate(reply.value, parse, isIsoDate))
    ensures reply.Some? ==> fx.attribute == fx.outcome.value.Returned()
  {
    var n := Normalize(image, size, maxSize, rotation, debug);
    match reply
    case None => Effects(n, None, None, None, None)
    case Some(response) =>
      var e := ExtractAndValidate(response, parse, isIsoDate);
      Effects(n, ResponseFile(image, debug), Some(e), e.Returned(),
              if ShouldRemove(image, n.result, debug) then Some(n.result) else None)
  }

  /**
   * After a successful call, the file deleted is exactly the temporary copy
   * the normaliser wrote: something is deleted iff debug is off and the image
   * was resized or rotated, it lies in `/tmp`, and it is never the original.
   */
  lemma CleanupRemovesOnlyTempCopy(image: Path, size: Size, maxSize: int, rotation: int, debug: bool,
                                   response: string, parse: string -> Result<Json, string>,
                                   isIsoDate: string -> bool)
    requires size.Positive()
    ensures var fx := ProcessImage(image, size, maxSize, rotation, debug, Some(response), parse, isIsoDate);
      && (fx.removed.Some? <==> !debug && (maxSize < Longest(size) || rotation != 0))
      && (!debug ==> fx.removed == fx.normalized.saved)
      && (fx.removed.Some? ==> fx.removed.value.dir == TempDir && fx.removed.value != image)
  {
  }

  /**
   * The record reaches the attribute exactly when the call succeeded and the
   * fenced block parses to a value of the record schema; that value is what
   * is stored.
   */
  lemma RecordStoredIffValid(image: Path, size: Size, maxSize: int, rotation: int, debug: bool,
                             reply: Option<string>, parse: string -> Result<Json, string>,
                             isIsoDate: string -> bool)
    requires size.Positive()
    ensures var fx := ProcessImage(image, size, maxSize, rotation, debug, reply, parse, isIsoDate);
      && (fx.attribute.Some? <==>
           && reply.Some?
           && ExtractBlock(reply.value).Some?
           && parse(ExtractBlock(reply.value).value).Success?
           && IsRecord(parse(ExtractBlock(reply.value).value).value, isIsoDate))
      && (fx.attribute.Some? ==> IsRecord(fx.attribute.value, isIsoDate))
      && (fx.attribute.Some? ==> fx.attribute.value == parse(ExtractBlock(reply.value).value).value)
  {
  }

  /**
   * As written, a failed remote call after a resize or rotation outside debug
   * mode leaves the temporary copy in `/tmp`: it was written and is never deleted.
   */
  lemma TempCopyLeaksOnCallFailure(image: Path, size: Size, maxSize: int, rotation: int,
                                   parse: string -> Result<Json, string>, isIsoDate: string -> bool)
    requires size.Positive()
    requires maxSize < Longest(size) || rotation != 0
    ensures var fx := ProcessImage(image, size, maxSize, rotation, false, None, parse, isIsoDate);
      && fx.normalized.saved == Some(TempPath(image))
      && fx.removed.None?
  {
  }

  /**
   * `process_image` with the cleanup moved to a `finally`, so that the
   * temporary copy is released on the failure path too.
   */
  function ProcessImageReleasing(image: Path, size: Size, maxSize: int, rotation: int, debug: bool,
                                 reply: Option<string>, parse: string -> Result<Json, string>,
                                 isIsoDate: string -> bool): (fx: Effects)
    requires size.Positive()
    ensures fx.normalized == Normalize(image, size, maxSize, rotation, debug)
    ensures reply.Some? ==> fx.responseFile == ResponseFile(image, debug)
    ensures fx.removed == (if debug then None else fx.normalized.saved)
    ensures fx.removed.Some? ==> fx.removed.value != image
    ensures fx.attribute.Some? ==> reply.Some? && IsRecord(fx.attribute.value, isIsoDate)
    ensures reply.None? ==> fx.responseFile.None? && fx.outcome.None? && fx.attribute.None?
    ensures reply.Some? ==> fx.outcome == Some(ExtractAndValidate(reply.value, parse, isIsoDate))
    ensures reply.Some? ==> fx.attribute == fx.outcome.value.Returned()
  {
    var n := Normalize(image, size, maxSize, rotation, debug);
    var removed := if ShouldRemove(image, n.result, debug) then Some(n.result) else None;
    match reply
    case None => Effects(n, None, None, None, removed)
    case Some(response) =>
      var e := ExtractAndValidate(response, parse, isIsoDate);
      Effects(n, ResponseFile(image, debug), Some(e), e.Returned(), removed)
  }

  /**
   * With the cleanup in `finally`, outside debug mode every copy written is
   * deleted, whether or not the call succeeds; in debug mode nothing is; the
   * original is never deleted; and a successful call behaves as before.
   */
  lemma ReleasingFreesEveryCopy(image: Path, size: Size, maxSize: int, rotation: int, debug: bool,
                                reply: Option<string>, parse: string -> Result<Json, string>,
                                isIsoDate: string -> bool)
    requires size.Positive()
    ensures var fx := ProcessImageReleasing(image, size, maxSize, rotation, debug, reply, parse, isIsoDate);
      && fx.removed == (if debug then None else fx.normalized.saved)
      && (fx.removed.Some? ==> fx.removed.value != image)
      && (reply.Some? ==> fx == ProcessImage(image, size, maxSize, rotation, debug, reply, parse, isIsoDate))
  {
  }
}
