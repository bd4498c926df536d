/**
 * The form of `UploadScreen`: the selected image, the caption and the raw hashtag
 * text; the Upload button is enabled once an image is selected, and a click hands
 * the image, the caption and the tokenized hashtags to the caller and resets the form.
 */
module UploadScreen {
  import opened Wrappers
  import Hashtags

  /** The three `remember`ed values; the image is the picked content URI, as text. */
  datatype UploadForm = UploadForm(selectedImage: Option<string>, caption: string, hashtags: string)

  const EmptyForm: UploadForm := UploadForm(None, "", "")

  /** What the screen passes to `onSubmit`. */
  datatype Submission = Submission(imageUri: string, caption: string, hashtags: seq<string>)

  /** The picker's result (null when the user backs out), typing, and the Upload click. */
  datatype UploadAction =
    | Picked(uri: Option<string>)
    | EditCaption(caption: string)
    | EditHashtags(hashtags: string)
    | Upload

  /** The Upload button's `enabled`. */
  predicate UploadEnabled(f: UploadForm) {
    f.selectedImage.Some?
  }

  datatype UploadOutcome = UploadOutcome(form: UploadForm, submitted: Option<Submission>)

  /** One action on the form; a click on the disabled button does nothing. */
  function Step(f: UploadForm, a: UploadAction): (r: UploadOutcome)
    ensures r.submitted.Some? <==> a.Upload? && UploadEnabled(f)
    ensures r.submitted.Some? ==>
              && r.submitted.value.imageUri == f.selectedImage.value
              && r.submitted.value.caption == f.caption
              && r.submitted.value.hashtags == Hashtags.Tokenize(f.hashtags)
              && r.form == EmptyForm
    ensures a.Picked? ==> r.form == f.(selectedImage := a.uri)
  {
    match a
    case Picked(uri) => UploadOutcome(f.(selectedImage := uri), None)
    case EditCaption(s) => UploadOutcome(f.(caption := s), None)
    case EditHashtags(s) => UploadOutcome(f.(hashtags := s), None)
    case Upload =>
      if !UploadEnabled(f) then UploadOutcome(f, None)
      else
        var tags := Hashtags.Tokenize(f.hashtags);
        UploadOutcome(EmptyForm, Some(Submission(f.selectedImage.value, f.caption, tags)))
  }

  /**
   * The button is enabled exactly when a click submits, and only a picked image
   * (not a cancelled pick, caption or hashtag text) enables it.
   */
  lemma UploadEnabledIffSubmits(f: UploadForm, uri: Option<string>)
    ensures UploadEnabled(f) <==> Step(f, Upload).submitted.Some?
    ensures UploadEnabled(Step(f, Picked(uri)).form) <==> uri.Some?
    ensures forall c :: UploadEnabled(Step(f, EditCaption(c)).form) == UploadEnabled(f)
    ensures forall h :: UploadEnabled(Step(f, EditHashtags(h)).form) == UploadEnabled(f)
  {
  }

  /** Every submitted hashtag is a tag: non-blank, trimmed, free of commas and spaces. */
  lemma SubmittedTagsAreTags(f: UploadForm, a: UploadAction)
    ensures var r := Step(f, a);
            r.submitted.Some? ==> forall i :: 0 <= i < |r.submitted.value.hashtags| ==> Hashtags.IsTag(r.submitted.value.hashtags[i])
  {
  }

  /** A second click right after a submission submits nothing: the form was reset and the button disabled. */
  lemma NoDoubleSubmit(f: UploadForm)
    requires UploadEnabled(f)
    ensures var first := Step(f, Upload);
            first.submitted.Some? && !UploadEnabled(first.form) && Step(first.form, Upload).submitted.None?
  {
  }

  /** Backing out of the picker clears an earlier selection and disables Upload. */
  lemma CancelledPickDisables(f: UploadForm)
    ensures !UploadEnabled(Step(f, Picked(None)).form)
  {
  }
}
