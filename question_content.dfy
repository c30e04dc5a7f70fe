/**
 * The question-detail document and its dialog turns, as the Cloud Function and the admin
 * form see them. A string field that is absent, null or empty is "" here; every one of
 * those is falsy in JavaScript, which is all the logic ever asks of them.
 */
module QuestionContent {
  import opened Wrappers

  /** One dialog turn. `extra` holds the fields this logic never looks at; `{...dlg}`
      copies them along. */
  datatype Dialog = Dialog(
    id: string,
    originalText: string,
    dialogAudio: string,
    translation: string,
    translationAudio: string,
    extra: map<string, string>)

  /** The four text fields the admin form edits by name (`[field]: value`). */
  datatype DialogField = OriginalText | DialogAudio | Translation | TranslationAudio

  /** `{ ...dialog, [field]: value }`. */
  function WithField(d: Dialog, field: DialogField, value: string): (r: Dialog)
    ensures FieldValue(r, field) == value
    ensures forall f :: f != field ==> FieldValue(r, f) == FieldValue(d, f)
    ensures r.id == d.id && r.extra == d.extra
  {
    match field
    case OriginalText => d.(originalText := value)
    case DialogAudio => d.(dialogAudio := value)
    case Translation => d.(translation := value)
    case TranslationAudio => d.(translationAudio := value)
  }

  function FieldValue(d: Dialog, field: DialogField): string {
    match field
    case OriginalText => d.originalText
    case DialogAudio => d.dialogAudio
    case Translation => d.translation
    case TranslationAudio => d.translationAudio
  }

  /** A `questionDetails` document. `dialogs` is None when the stored value is not an
      array; `extra` holds every other top-level field (title, category, questionId, ...). */
  datatype QuestionDetail = QuestionDetail(
    introduction: string,
    introductionAudio: string,
    dialogs: Option<seq<Dialog>>,
    extra: map<string, string>)
}
