/**
 * The callback of `uploadSingleImage`: how an error raised by the upload
 * (a limit exceeded, the file filter's rejection, anything else) becomes the
 * `AppError` passed on to the error handler. The code is looked at first,
 * then the lower-cased message.
 */
module UploadErrors {
  import opened Wrappers
  import opened Text
  import opened Errors
  import opened Upload

  /** An error the upload reports: its `code` and its `message`, either of which may be absent. */
  datatype UploadFailure = UploadFailure(code: Option<string>, message: Option<string>)

  const SizeMessage: string := "File size too large. Max allowed is 5MB."
  const CountMessage: string := "Too many files uploaded or unexpected file field."
  const TypeMessage: string := "Only image files are allowed (jpeg, png, webp)."
  const FallbackMessage: string := "File upload failed."

  // ---------------------------------------------------------------- the message pattern

  /** `w` occurs in `s` at position `i`. */
  predicate OccursAt(s: string, w: string, i: nat)
  {
    i + |w| <= |s| && s[i..i + |w|] == w
  }

  predicate KeywordAt(s: string, j: nat)
  {
    OccursAt(s, "jpeg", j) || OccursAt(s, "png", j) || OccursAt(s, "webp", j) || OccursAt(s, "image", j)
  }

  /** A keyword starts at `j`, at or after `from`, with no line terminator in between. */
  ghost predicate KeywordReached(s: string, from: nat, j: nat)
  {
    from <= j && KeywordAt(s, j) && forall k :: from <= k < j ==> !IsLineTerminator(s[k])
  }

  /**
   * `/only.*(jpeg|png|webp|image)|only.*image/` searched in `s`: an `only`, then
   * a keyword at or after its end with no line terminator in between (`.` does
   * not match one). The second alternative adds nothing to the first.
   */
  ghost predicate OnlyPattern(s: string)
  {
    exists i: nat, j: nat :: OnlyAt(s, i, j)
  }

  /** An `only` at `i` and, after it, a keyword at `j` with no line terminator in between. */
  ghost predicate OnlyAt(s: string, i: nat, j: nat)
  {
    OccursAt(s, "only", i) && KeywordReached(s, i + 4, j)
  }

  /** A keyword starts at `j` or later, before any line terminator. */
  function KeywordBeforeBreak(s: string, j: nat): (b: bool)
    decreases |s| - j
  {
    j < |s| && (KeywordAt(s, j) || (!IsLineTerminator(s[j]) && KeywordBeforeBreak(s, j + 1)))
  }

  /** Some `only` at `i` or later is followed by a keyword before a line terminator. */
  function OnlyFrom(s: string, i: nat): bool
    decreases |s| - i
  {
    i < |s| && ((OccursAt(s, "only", i) && KeywordBeforeBreak(s, i + 4)) || OnlyFrom(s, i + 1))
  }

  lemma {:induction false} KeywordBeforeBreakSpec(s: string, j0: nat)
    ensures KeywordBeforeBreak(s, j0) <==> exists j: nat :: KeywordReached(s, j0, j)
    decreases |s| - j0
  {
    if j0 < |s| {
      KeywordBeforeBreakSpec(s, j0 + 1);
      if KeywordBeforeBreak(s, j0) {
        if KeywordAt(s, j0) {
          assert KeywordReached(s, j0, j0);
        } else {
          var j: nat :| KeywordReached(s, j0 + 1, j);
          assert KeywordReached(s, j0, j);
        }
      }
      if exists j: nat :: KeywordReached(s, j0, j) {
        var j: nat :| KeywordReached(s, j0, j);
        if j > j0 {
          assert !IsLineTerminator(s[j0]);
          assert KeywordReached(s, j0 + 1, j);
        }
      }
    } else {
      assert forall j: nat :: j0 <= j ==> !KeywordAt(s, j);
    }
  }

  lemma OnlyFromSpec(s: string, i0: nat)
    ensures OnlyFrom(s, i0) <==> exists i: nat, j: nat :: i0 <= i && OnlyAt(s, i, j)
  {
    if OnlyFrom(s, i0) {
      OnlyFromSound(s, i0);
    }
    if exists i: nat, j: nat :: i0 <= i && OnlyAt(s, i, j) {
      var i: nat, j: nat :| i0 <= i && OnlyAt(s, i, j);
      OnlyFromComplete(s, i0, i, j);
    }
  }

  /** What the search finds is an occurrence of the pattern. */
  lemma {:induction false} OnlyFromSound(s: string, i0: nat)
    requires OnlyFrom(s, i0)
    ensures exists i: nat, j: nat :: i0 <= i && OnlyAt(s, i, j)
    decreases |s| - i0
  {
    if OccursAt(s, "only", i0) && KeywordBeforeBreak(s, i0 + 4) {
      KeywordBeforeBreakSpec(s, i0 + 4);
      var j: nat :| KeywordReached(s, i0 + 4, j);
      assert OnlyAt(s, i0, j);
    } else {
      OnlyFromSound(s, i0 + 1);
    }
  }

  /** The search misses no occurrence at or after where it starts. */
  lemma {:induction false} OnlyFromComplete(s: string, i0: nat, i: nat, j: nat)
    requires i0 <= i && OnlyAt(s, i, j)
    ensures OnlyFrom(s, i0)
    decreases i - i0
  {
    if i == i0 {
      KeywordBeforeBreakSpec(s, i0 + 4);
      assert KeywordReached(s, i0 + 4, j);
    } else {
      OnlyFromComplete(s, i0 + 1, i, j);
    }
  }

  /** The left-to-right search decides the pattern. */
  lemma ImageTypeMessageIsPattern(s: string)
    ensures OnlyFrom(s, 0) <==> OnlyPattern(s)
  {
    OnlyFromSpec(s, 0);
  }

  // ---------------------------------------------------------------- the callback

  /** The upload callback: `None` passes on with no error; otherwise the `AppError` it passes on. */
  function ClassifyUpload(err: Option<UploadFailure>): (r: Option<Err>)
    ensures err.None? <==> r.None?
    ensures r.Some? ==> r.value.app.Some? && r.value.app.value.statusCode == 400 && r.value.app.value.isOperational
    ensures r.Some? ==> r.value.message in {SizeMessage, CountMessage, TypeMessage, FallbackMessage}
  {
    match err
    case None => None
    case Some(f) =>
      var message := Lower(f.message.GetOr(""));
      if f.code == Some("LIMIT_FILE_SIZE") then Some(NewAppError(SizeMessage, 400, None, None))
      else if f.code == Some("LIMIT_FILE_COUNT") || f.code == Some("LIMIT_UNEXPECTED_FILE") then Some(NewAppError(CountMessage, 400, None, None))
      else if message != "" && OnlyFrom(message, 0) then Some(NewAppError(TypeMessage, 400, None, None))
      else Some(NewAppError(FallbackMessage, 400, None, None))
  }

  /** A limit code decides the outcome whatever the message says. */
  lemma CodeBeforeMessage(code: string, m1: Option<string>, m2: Option<string>)
    requires code in {"LIMIT_FILE_SIZE", "LIMIT_FILE_COUNT", "LIMIT_UNEXPECTED_FILE"}
    ensures ClassifyUpload(Some(UploadFailure(Some(code), m1))) == ClassifyUpload(Some(UploadFailure(Some(code), m2)))
    ensures code == "LIMIT_FILE_SIZE" ==> ClassifyUpload(Some(UploadFailure(Some(code), m1))).value.message == SizeMessage
    ensures code != "LIMIT_FILE_SIZE" ==> ClassifyUpload(Some(UploadFailure(Some(code), m1))).value.message == CountMessage
  {
  }

  /** Without a limit code, a message matching the pattern in lower case is the image-type error, and only then. */
  lemma MessageClassified(code: Option<string>, message: string)
    requires code != Some("LIMIT_FILE_SIZE") && code != Some("LIMIT_FILE_COUNT") && code != Some("LIMIT_UNEXPECTED_FILE")
    ensures ClassifyUpload(Some(UploadFailure(code, Some(message)))).value.message == TypeMessage
      <==> OnlyPattern(Lower(message))
  {
    var lowered := Lower(message);
    ImageTypeMessageIsPattern(lowered);
    assert OnlyPattern(lowered) ==> lowered != "";
    var r := ClassifyUpload(Some(UploadFailure(code, Some(message))));
    assert r.value.message == if lowered != "" && OnlyFrom(lowered, 0) then TypeMessage else FallbackMessage;
    assert |TypeMessage| != |FallbackMessage|;
  }

  /** A message opening with `Only .jpeg` matches the pattern once lower-cased: `only` at 0 and `jpeg` at 6. */
  lemma OnlyJpegMatches(s: string)
    requires |s| >= 10
    requires s[0] == 'O' && s[1] == 'n' && s[2] == 'l' && s[3] == 'y' && s[4] == ' ' && s[5] == '.'
    requires s[6] == 'j' && s[7] == 'p' && s[8] == 'e' && s[9] == 'g'
    ensures OnlyPattern(Lower(s))
  {
    var m := Lower(s);
    assert m[0] == 'o' && m[1] == 'n' && m[2] == 'l' && m[3] == 'y';
    assert m[4] == ' ' && m[5] == '.';
    assert m[6] == 'j' && m[7] == 'p' && m[8] == 'e' && m[9] == 'g';
    assert m[0..4] == "only";
    assert m[6..10] == "jpeg";
    assert OccursAt(m, "only", 0);
    assert KeywordAt(m, 6);
    assert forall k :: 4 <= k < 6 ==> !IsLineTerminator(m[k]);
    assert OnlyAt(m, 0, 6);
  }

  /** Without a code, a message opening with `Only .jpeg` is the image-type error. */
  lemma OnlyJpegClassified(s: string)
    requires |s| >= 10
    requires s[0] == 'O' && s[1] == 'n' && s[2] == 'l' && s[3] == 'y' && s[4] == ' ' && s[5] == '.'
    requires s[6] == 'j' && s[7] == 'p' && s[8] == 'e' && s[9] == 'g'
    ensures ClassifyUpload(Some(UploadFailure(None, Some(s)))).value.message == TypeMessage
  {
    OnlyJpegMatches(s);
    MessageClassified(None, s);
  }

  /** The file filter's own rejection is reported as the image-type error. */
  lemma FilterRejectionIsTypeError(mimetype: string)
    requires FileFilter(mimetype).Reject?
    ensures ClassifyUpload(Some(UploadFailure(None, Some(FileFilter(mimetype).message)))).value.message == TypeMessage
  {
    var m := FilterMessage;
    assert m[0] == 'O' && m[1] == 'n' && m[2] == 'l' && m[3] == 'y' && m[4] == ' ' && m[5] == '.';
    assert m[6] == 'j' && m[7] == 'p' && m[8] == 'e' && m[9] == 'g';
    OnlyJpegClassified(m);
  }
}
