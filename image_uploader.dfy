/**
 * The shared image control (`ImageUploader`): the short name it shows for the
 * current URL, the file picker guard, the upload procedure around the upload
 * endpoint, and removal.
 */
module ImageUploader {
  import opened Wrappers
  import Text

  const Marker: string := "/watheta-dashboard/"
  /** Names longer than this are shortened. */
  const MaxShown: nat := 28
  /** How much of the name before the extension a shortened name keeps. */
  const NameKept: nat := 20
  const UploadFailed: string := "Upload failed"

  // ---------------------------------------------------------------- shortUrl

  /** The path after the first storage marker, or the whole path when there is none. */
  function Tail(pathname: string): string
  {
    var idx := Text.IndexOf(pathname, Marker);
    if idx >= 0 then pathname[idx + |Marker|..] else pathname
  }

  /** `tail.split('/').filter(Boolean).pop() || tail`. */
  function LastSegment(tail: string): string
  {
    var parts := Text.NonEmpty(Text.Split(tail, '/'));
    if parts == [] then tail else parts[|parts| - 1]
  }

  /** Keep a short name; otherwise keep 20 characters of the name, '...', and the extension. */
  function Shorten(last: string): string
  {
    if |last| > MaxShown then
      var dot := Text.LastIndexOf(last, '.');
      var name := if dot > -1 then last[..dot] else last;
      var ext := if dot > -1 then last[dot..] else "";
      (if |name| <= NameKept then name else name[..NameKept]) + "..." + ext
    else last
  }

  /**
   * `shortUrl`. The `URL` parser is not modelled: `pathname` is the parsed
   * URL's path, or `None` when the constructor throws.
   */
  function ShortUrl(value: string, pathname: Option<string>): (shown: string)
    ensures value == "" ==> shown == ""
    ensures value != "" && pathname.None? ==> shown == value
  {
    if value == "" then ""
    else if pathname.None? then value
    else Shorten(LastSegment(Tail(pathname.value)))
  }

  /** The tail starts right after the first marker; without a marker it is the whole path. */
  lemma TailAfterFirstMarker(pathname: string)
    ensures !Text.Contains(pathname, Marker) ==> Tail(pathname) == pathname
    ensures Text.Contains(pathname, Marker) ==>
      exists i ::
        && Text.OccursAt(pathname, Marker, i)
        && Tail(pathname) == pathname[i + |Marker|..]
        && (forall j :: 0 <= j < i ==> !Text.OccursAt(pathname, Marker, j))
  {
    var idx := Text.IndexOf(pathname, Marker);
    if idx >= 0 {
      assert Text.OccursAt(pathname, Marker, idx) && Tail(pathname) == pathname[idx + |Marker|..];
    }
  }

  /** The last segment is the last non-empty part between slashes, or the tail when it has none. */
  lemma LastSegmentIsLastPart(tail: string)
    ensures var parts := Text.NonEmpty(Text.Split(tail, '/'));
      && (parts == [] ==> LastSegment(tail) == tail)
      && (parts != [] ==> LastSegment(tail) == parts[|parts| - 1] && LastSegment(tail) != [] && '/' !in LastSegment(tail))
  {
    var parts := Text.NonEmpty(Text.Split(tail, '/'));
    Text.SplitPartsFree(tail, '/');
    if parts != [] {
      assert parts[|parts| - 1] in parts;
    }
  }

  /** A name of at most 28 characters is shown as it is. */
  lemma ShortNamesKept(last: string)
    requires |last| <= MaxShown
    ensures Shorten(last) == last
  {
  }

  /**
   * A long name with a dot keeps its extension exactly (from the last '.'),
   * after '...' and at most 20 characters of the name before it.
   */
  lemma LongNameKeepsExtension(last: string)
    requires |last| > MaxShown && '.' in last
    ensures var dot := Text.LastIndexOf(last, '.');
      var kept := if dot <= NameKept then dot else NameKept;
      && 0 <= dot < |last| && last[dot] == '.' && '.' !in last[dot + 1..]
      && Shorten(last) == last[..kept] + "..." + last[dot..]
  {
    var dot := Text.LastIndexOf(last, '.');
    assert dot > -1;
    var name := last[..dot];
    if dot > NameKept {
      assert name[..NameKept] == last[..NameKept];
    }
  }

  /** A long name without a dot keeps its first 20 characters and gains '...'. */
  lemma LongNameWithoutDot(last: string)
    requires |last| > MaxShown && '.' !in last
    ensures Shorten(last) == last[..NameKept] + "..."
    ensures |Shorten(last)| == NameKept + 3 < |last|
  {
  }

  /**
   * Shortening can lengthen: when the last dot is within the first 20
   * characters (as in "v1.2023-summer-vacation-photo"), all of the name is
   * kept and the result is three characters longer than the input; and a
   * long name with a dot gets longer exactly when its last dot comes before
   * index 23.
   */
  lemma ShortenCanLengthen(last: string)
    requires |last| > MaxShown && '.' in last
    ensures Text.LastIndexOf(last, '.') <= NameKept ==> |Shorten(last)| == |last| + 3
    ensures |Shorten(last)| > |last| <==> Text.LastIndexOf(last, '.') < NameKept + 3
  {
    LongNameKeepsExtension(last);
  }

  // ---------------------------------------------------------------- upload

  /**
   * How the request to the upload endpoint ended: `fetch` or `res.json()`
   * rejected with an error carrying `message`, or a JSON body arrived. A
   * missing `url` or `message` in the body is the empty string.
   */
  datatype UploadOutcome =
    | Rejected(message: string)
    | Answered(ok: bool, success: bool, url: string, message: string)

  /** The upload is accepted only when the response is ok, `success` is set and a url is present. */
  predicate Accepted(outcome: UploadOutcome)
  {
    outcome.Answered? && outcome.ok && outcome.success && outcome.url != ""
  }

  /** The message `handleFile` shows for a refused upload: the server's or the error's, else 'Upload failed'. */
  function FailureMessage(outcome: UploadOutcome): (m: string)
    ensures m != ""
    ensures outcome.message != "" ==> m == outcome.message
    ensures outcome.message == "" ==> m == UploadFailed
  {
    if outcome.message != "" then outcome.message else UploadFailed
  }

  /** The control's state and what it has told its parent. */
  class Uploader {
    const disabled: bool
    var isUploading: bool
    var error: string
    /** Arguments of `onChange`, oldest first. */
    var changes: seq<string>
    /** Arguments of `onUploadStateChange`, oldest first. */
    var uploadStates: seq<bool>
    /** How many times the hidden file input has been clicked. */
    var pickerOpened: nat

    constructor (disabled: bool)
      ensures this.disabled == disabled
      ensures !isUploading && error == "" && changes == [] && uploadStates == [] && pickerOpened == 0
    {
      this.disabled := disabled;
      isUploading := false;
      error := "";
      changes := [];
      uploadStates := [];
      pickerOpened := 0;
    }

    /** The upload button's `disabled` attribute, for the current `value`. */
    predicate PickBlocked(value: string)
      reads this
    {
      disabled || isUploading || value != ""
    }

    /** `handlePick`: open the file dialog unless the control is disabled, busy or already holds an image. */
    method HandlePick(value: string)
      modifies this
      ensures pickerOpened == old(pickerOpened) + (if old(PickBlocked(value)) then 0 else 1)
      ensures isUploading == old(isUploading) && error == old(error)
      ensures changes == old(changes) && uploadStates == old(uploadStates)
    {
      var isDisabled := disabled || isUploading || value != "";
      if !isDisabled {
        pickerOpened := pickerOpened + 1;
      }
    }

    /**
     * `handleFile`: without a chosen file nothing happens; otherwise clear the
     * error, announce the upload, hand an accepted url to the parent or record
     * the failure message, and always end with the upload finished.
     */
    method HandleFile(hasFile: bool, outcome: UploadOutcome)
      modifies this
      ensures !hasFile ==>
        isUploading == old(isUploading) && error == old(error)
        && changes == old(changes) && uploadStates == old(uploadStates)
      ensures hasFile ==> !isUploading && uploadStates == old(uploadStates) + [true, false]
      ensures hasFile && Accepted(outcome) ==> changes == old(changes) + [outcome.url] && error == ""
      ensures hasFile && !Accepted(outcome) ==> changes == old(changes) && error == FailureMessage(outcome)
      ensures pickerOpened == old(pickerOpened)
    {
      if !hasFile {
        return;
      }
      error := "";
      isUploading := true;
      uploadStates := uploadStates + [true];
      var thrown: Option<string> := None;
      match outcome {
        case Rejected(message) =>
          thrown := Some(message);
        case Answered(ok, success, url, message) =>
          if !ok || !success || url == "" {
            thrown := Some(if message != "" then message else UploadFailed);
          } else {
            changes := changes + [url];
          }
      }
      if thrown.Some? {
        error := if thrown.value != "" then thrown.value else UploadFailed;
      }
      isUploading := false;
      uploadStates := uploadStates + [false];
    }

    /** `handleRemove`: tell the parent the image is now ''. */
    method HandleRemove()
      modifies this
      ensures changes == old(changes) + [""]
      ensures isUploading == old(isUploading) && error == old(error)
      ensures uploadStates == old(uploadStates) && pickerOpened == old(pickerOpened)
    {
      changes := changes + [""];
    }
  }
}
