# clerk: image normalisation and response extraction, modelled in Dafny

clerk is a set of scripts that send scanned images to a hosted vision-language
model and keep what it returns. `clerk.py` downscales an image to a maximum
side, applies a rotation stored in an extended attribute, and calls the
model. It then looks in the reply for a fenced `json` block, checks it against
a fixed record schema (identifier, date, correspondent, summary, optional
tags) and stores it in an extended attribute on the image. `qwen.py` is a
simpler variant: downscale only, and always keep the reply in a `_qwen.txt` file.

This project models the decision and text logic of both scripts:

- `paths.dfy` (`Paths`): a path as parent directory plus name. `stem` and `suffix`
  follow the CPython 3.12 pathlib rule. Also the ASCII lower-casing used on suffixes.
- `formats.dfy` (`Formats`): `get_image_format`.
- `scaling.dfy` (`Scaling`): `ratio = max_size / max(w, h)`, whether to resize,
  and the new size `int(dim * ratio)`. Shared by both scripts.
- `decimal.dfy` (`Decimal`): `str(int)`, used in the `_rotated{deg}` tag.
- `normalizer.dfy` (`Normalizer`): the planning part of clerk's
  `resize_rotate_and_save_image`: which steps run, where the copy is written
  and which path is returned. A step-by-step method is proved equal to a
  declarative function.
- `schema.dfy` (`Schema`, `SchemaExamples`): the JSON value, and
  `validate_json_structure` with its check order and messages.
- `extraction.dfy` (`Extraction`): the fenced-block search written as a plain
  string search and proved equal to the leftmost, lazy regular-expression
  match. Also the parse and validation gate of `extract_and_validate_json`.
- `responses.dfy` (`Responses`): the `{stem}_qwen.txt` sidecar name used by both scripts.
- `clerk.dfy` (`Clerk`): `save_response_to_file` and the effects of one
  `process_image` run (files written, attribute stored, file deleted).
- `qwen.dfy` (`Qwen`): qwen's `resize_and_save_image`; its `save_response_to_file`
  writes to `Responses.ResponsePath` unconditionally.

External collaborators are parameters:
- the image size stands for the opened image;
- the stored rotation is an `int`: `int(float(text))` of the attribute, or 0 when reading it raises `OSError` or `ValueError` (attribute missing, text not a number, `nan`);
- the model's reply is an `Option<string>` (none when the call raises);
- `json.loads` is a function `string -> Result<Json, string>`;
- `datetime.fromisoformat` succeeding is a predicate `string -> bool`.

The model follows the code as written:
- The code only matches a fence written exactly as ```` ```json ```` plus a
  newline, and a newline plus ```` ``` ````.
- The temporary copy is meant to be released on every exit path, but the code
  deletes it only after a successful remote call (see Findings).
- `get_image_format` (clerk.py:22, qwen.py:14) is defined but never called by
  either script. `img.save` lets the image library pick the written format from
  the file extension. Statements below about "the same format" mean what
  `get_image_format` would return.

## Model

| member | source | states |
|---|---|---|
| Formats.ImageFormat | clerk.py:22-32 | a suffix found in the six-entry table after lower-casing gives that entry (`.jpg`/`.jpeg` JPEG, `.png` PNG, `.gif` GIF, `.bmp` BMP, `.tiff` TIFF); a missing suffix or any other suffix gives JPEG; the result is always one of the five formats |
| Formats.FormatIgnoresCase | qwen.py:14-24 | two names equal up to ASCII case get the same format, in any directory: only the lower-cased suffix is looked up |
| Formats.UpperCaseExtensions | clerk.py:31-32 | `.JPG`, `.TIFF` and `.Png` map to JPEG, TIFF and PNG |
| Paths.Stem | clerk.py:63-68 | stem followed by suffix gives back the name, so the pieces the scripts reassemble are the whole name |
| Paths.Suffix | clerk.py:68 | the suffix is non-empty exactly when the last dot of the name is neither its first nor its last character; it is then that dot and everything after it, with no further dot; otherwise it is empty |
| Paths.InsertKeepsSuffix | clerk.py:63-68 | inserting a dot-free tag between stem and suffix keeps the suffix and extends the stem by the tag, for names not ending in a dot |
| Paths.TrailingDotLosesSuffix | clerk.py:63-68 | the counterexample for names ending in a dot: `scan.` becomes `scan._resized`, whose suffix is `._resized` |
| Scaling.TruncToInt | clerk.py:49 | `int()` truncates toward zero: for x >= 0 the result r has r <= x < r + 1, and symmetrically for negative x |
| Scaling.ResizeTarget | clerk.py:44-49 | a resize is planned exactly when `max_size < max(w, h)` (that is, `ratio < 1`); then, for `max_size >= 0`, each new side is `floor(dim * max_size / max(w, h))` |
| Scaling.ThinImageGetsZeroSide | clerk.py:49 | a 1 x 2000 image with `max_size` 1000 is planned at 0 x 1000: a side becomes 0 whenever `dim * max_size < max(w, h)` |
| Scaling.NeverUpscales | qwen.py:29-31 | after a resize both sides are at most the originals and the longest side is exactly `max_size`; without one the longest side was already at most `max_size` |
| Scaling.AspectPreserved | qwen.py:31 | the new size (w', h') keeps the aspect ratio up to truncation: `-h < w'*h - h'*w < w` |
| Decimal.IntToString | clerk.py:67 | `str(deg)` is non-empty, all digits except a leading '-', which appears exactly for negative degrees, and has no leading zero (neither at the start nor after the '-') except for `0` itself |
| Decimal.IntToStringRoundTrip | clerk.py:67 | parsing `str(deg)` gives `deg` back, so the debug name records the rotation exactly |
| Normalizer.Normalize | clerk.py:41-83 | the planned size is `ResizeTarget`'s (each side `int(dim * max_size / max(w, h))`); a resize runs iff the longest side exceeds `max_size`; a rotation runs iff the stored degrees are non-zero, counter-clockwise by their negation; the original path comes back and nothing is written iff neither runs; otherwise the path returned is the copy written, never the original: `{stem}{tags}{suffix}` beside the original in debug mode, `/tmp/{stem}_temp{suffix}` otherwise |
| Normalizer.ResizeRotateAndSave | clerk.py:41-83 | the step-by-step method (ratio, flags, name built with `+=`) returns exactly the declarative plan `Normalize` |
| Normalizer.TagHasNoDot | clerk.py:64-67 | the `_resized` / `_rotated{deg}` tag contains no dot |
| Normalizer.DebugCopyBesideOriginal | clerk.py:61-69 | for names not ending in a dot: in debug mode the copy is in the original's directory; its stem is the stem, then `_resized` iff resized, then `_rotated{deg}` iff rotated; it keeps the suffix, so `get_image_format` (never called by the script) would give the same format |
| Normalizer.TempCopyInTmp | clerk.py:76-80 | for names not ending in a dot: outside debug mode the copy is `/tmp/{stem}_temp{suffix}` and keeps the original's suffix, so `get_image_format` would give the same format |
| Schema.CheckKeys | clerk.py:100-104 | the key loop finds no failure iff every listed key is present with a string value |
| Schema.Validate | clerk.py:94-119 | the validator accepts exactly the values of the record schema (an object, four string keys, an ISO date, and tags absent or an array of strings); the message is "JSON structure is valid" iff it accepts |
| Schema.CheckKeysMessage | clerk.py:101-104 | a failure of the key loop is "Missing required key: k" or "Value for 'k' must be a string" for a listed key `k` that lacks a string: the key named is one that fails |
| Schema.FirstBadKeyReported | clerk.py:100-104 | the first key in order that is missing or not a string decides the message, presence being checked before type |
| Schema.NonObjectRejected | clerk.py:97-98 | any value that is not an object is rejected with "JSON must be a single object" |
| Schema.KeyFailureReported | clerk.py:95-104 | on an object, the first bad required key in the order identifier, date, correspondent, summary gives the validator's exact message |
| Schema.DateCheckedBeforeTags | clerk.py:106-110 | with the four keys in place, a non-ISO date gives "Invalid ISO8601 date format" whatever `tags` holds |
| Schema.TagsNotArrayRejected | clerk.py:113-115 | with the four keys and an ISO date in place, a `tags` value that is not an array gives "'tags' must be an array" |
| Schema.TagsNotStringsRejected | clerk.py:116-117 | with the four keys and an ISO date in place, a `tags` array holding any non-string gives "All items in 'tags' must be strings" |
| Schema.ExtraKeysIgnored | clerk.py:94-119 | adding or changing a key outside the required four and `tags` never changes the verdict |
| SchemaExamples.ArrayRejected | clerk.py:97-98 | an array is rejected with "JSON must be a single object" |
| SchemaExamples.MissingSummaryRejected | clerk.py:101-102 | a record without `summary` is rejected with "Missing required key: summary" |
| SchemaExamples.NumericSummaryRejected | clerk.py:103-104 | a numeric `summary` is rejected with "Value for 'summary' must be a string" |
| SchemaExamples.MixedTagsRejected | clerk.py:116-117 | tags `["a", 2]` are rejected with "All items in 'tags' must be strings" |
| SchemaExamples.InvoiceAccepted | clerk.py:119 | the INV-1 invoice with an ISO date is accepted |
| Extraction.FindFrom | clerk.py:123 | the first occurrence at or after a position, or none when there is none |
| Extraction.ExtractBlock | clerk.py:123-125 | no block iff no opening fence is later followed by a closing one; otherwise the block is the body of the leftmost, shortest match, as `re.search` with a lazy group reports it, and it never contains the closing fence |
| Extraction.FenceRoundTrip | clerk.py:123-125 | a block without the closing fence, wrapped in the fences at the head of a reply, is extracted unchanged whatever follows |
| Extraction.ExtractAndValidate | clerk.py:121-148 | no block gives the no-block outcome; a parse failure iff the block fails to parse, carrying the parser's error; a record is accepted iff the block parses to a value of the schema, and the accepted record is the parsed value; a rejection carries the validator's message, never the success message |
| Extraction.FencedRecordAccepted | clerk.py:123-141 | a schema-valid record fenced at the head of a reply is accepted as parsed |
| Responses.ResponsePath | clerk.py:87 | the reply sidecar (named the same way at qwen.py:49) is in the image's directory, has stem `{stem}_qwen` and suffix `.txt`, and is never the image itself |
| Clerk.ResponseFile | clerk.py:85-92 | a reply file exists iff debug mode; it is `ResponsePath(image)`, `{stem}_qwen.txt` beside the image, ends in `.txt` and is not the image |
| Clerk.ProcessImage | clerk.py:150-187 | the plan is `Normalize`'s and, after a successful call, the reply file is `ResponseFile`'s; when the remote call fails nothing after it happens (no reply file, no record, no deletion); after a successful call the outcome is `ExtractAndValidate`'s on the reply and the stored record is exactly the record it returns; a file is deleted iff debug is off and a copy was written, and it is that copy, never the original; a stored record satisfies the schema |
| Clerk.CleanupRemovesOnlyTempCopy | clerk.py:182-184 | after a successful call a file is deleted iff debug is off and a resize or rotation happened; it is the copy the normaliser wrote, lies in `/tmp`, and is never the original |
| Clerk.RecordStoredIffValid | clerk.py:126-141 | the record reaches the extended attribute iff the call succeeded and the block parses to a schema-valid value, and what is stored is that parsed value, which satisfies the schema |
| Clerk.TempCopyLeaksOnCallFailure | clerk.py:150-187 | as written, a failed remote call after a resize or rotation outside debug mode leaves `/tmp/{stem}_temp{suffix}` written and not deleted |
| Clerk.ProcessImageReleasing | clerk.py:182-187 | the plan is `Normalize`'s and, after a successful call, the reply file is `ResponseFile`'s; when the call fails there is no reply file, outcome or record; after a successful call the outcome is `ExtractAndValidate`'s and the stored record is the one it returns; with cleanup in `finally`, the file deleted is the copy written outside debug mode, on both paths, and nothing in debug mode; the original is never deleted |
| Clerk.ReleasingFreesEveryCopy | clerk.py:182-187 | with cleanup in `finally`, outside debug mode every copy written is deleted on both paths, nothing is deleted in debug mode, the original never is, and a successful call behaves as before |
| Qwen.ResizeAndSave | qwen.py:26-46 | the planned size is `ResizeTarget`'s (each side `int(dim * max_size / max(w, h))`); a copy `{stem}_resized{suffix}` is written iff the longest side exceeds `max_size`; it lies beside the original, is the path returned and is never the original; otherwise the original path comes back; no rotation is ever planned |
| Qwen.ResizedCopyBesideOriginal | qwen.py:35-37 | for names not ending in a dot: the copy is `{stem}_resized{suffix}`: it keeps the suffix, so `get_image_format` (never called by the script) would give the same format |
| Qwen.AgreesWithClerkUnrotatedDebug | qwen.py:26-46 | qwen's resize plan equals clerk's in debug mode with no stored rotation |
| Qwen.ResponseNeverOverwritesCopy | qwen.py:36-49 | the reply file qwen always writes is never the resized copy made from the same image |

## Left out

- Pixel work: opening the image, LANCZOS resampling, `rotate(expand=True)` and saving are image-library calls. Only the sizes and paths given to them are modelled. The canvas size after rotation is not modelled.
- Float arithmetic in `max_size / max(original_size)` and `dim * ratio`: the model divides exactly. With floats, `int(dim * ratio)` can come out one below the exact quotient. So `Scaling.NeverUpscales`'s "longest side is exactly `max_size`" is the exact-arithmetic value.
- A planned side becomes 0 whenever `dim * max_size < max(w, h)`, for a thin image even with a positive `max_size` (`Scaling.ThinImageGetsZeroSide`), and a `max_size` of 0 or less gives sides of 0 or below. The image library's `resize` rejects such sizes; in `process_image` that error is caught, so no copy is written and no remote call is made. The model does not model that failure: it plans the copy and the call. The original image's sides are required to be positive because a zero side would divide by zero in the source.
- Reading the rotation attribute (`getxattr` and `int(float(...))`) is left out: the rotation is an input.
- A stored rotation of `inf`, `-inf` or a value too large for a float such as `1e999`: `int(float(...))` raises `OverflowError`, which the handler at clerk.py:38 does not catch. The error reaches `process_image`'s catch-all handler, so the image is skipped: no copy, no remote call, no record. The model takes the rotation as an `int` and has no input for this case.
- Writing the record attribute (`setxattr` under `org.gunzel.clerk.transcribed#S`, `json.dumps`) is left out: the stored value is recorded as `Effects.attribute`.
- `json.loads` and `datetime.fromisoformat` are parameters, not models of those functions.
- The remote call (`Client`, `predict`, `handle_file`), the `HF_TOKEN` lookup and the timing are network and clock work. The reply is an input.
- `main`, argument parsing, the `is_file` check, printing, and the console echo of the record are orchestration and output.
- `process_image`'s catch-all handler is modelled only for a failing remote call. Exceptions from the image library, the file writes or `setxattr` are not modelled.
- Formats.FormatIgnoresCase: `.lower()` is modelled as ASCII folding. No non-ASCII character lowers to a single character of the six table entries, except U+212A KELVIN SIGN, which lowers to `k`. `k` does not occur in the table, so the lookup decides the same way.
- qwen's `process_image` and `main` are left out: they only sequence the modelled steps with the remote call and printing.
- Paths are (directory, name) pairs with `/` absent from names, and equality is equality of both parts. Path normalisation and symbolic links are outside the model.

## Findings

| source | as written | input that shows it | evidently intended | confidence | as-written member | corrected member |
|---|---|---|---|---|---|---|
| clerk.py:180-187 | `os.remove` runs inside the `try`, after the remote call, so an exception from the call skips it | debug off, an image larger than `max_size` (or with a stored rotation), remote call raises: `/tmp/{stem}_temp{suffix}` is written and never deleted | the temporary copy is released on every exit path, whether or not the remote call succeeds | medium, not executed | Clerk.TempCopyLeaksOnCallFailure | Clerk.ReleasingFreesEveryCopy |
