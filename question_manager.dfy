/**
 * The admin question form: submit validation, the question number, the save (question
 * record, then the detail upserted by question id), and the "generate audio" round trip
 * whose reply is merged into the local dialogs by id.
 */
module QuestionManager {
  import opened Wrappers
  import opened JsStrings
  import opened QuestionContent

  datatype FormData = FormData(
    questionTitle: string,
    category: string,
    introduction: string,
    introductionAudio: string,
    isJiJing: bool)

  /** The form as `resetForm` leaves it. */
  const EmptyForm := FormData("", "housing", "", "", false)

  const TitleRequired := "Question title is required"
  const IntroductionRequired := "Introduction is required"
  const GenerateFailed := "Failed to generate audio. Please try again."
  const SaveFailed := "Failed to save question. Please try again."

  // ---------------------------------------------------------------- validation and numbering

  /** The message that stops a submit before any store call; the title is checked first. */
  function ValidationError(form: FormData): (r: Option<string>)
    ensures r == Some(TitleRequired) <==> IsBlank(form.questionTitle)
    ensures r == Some(IntroductionRequired) <==> !IsBlank(form.questionTitle) && IsBlank(form.introduction)
    ensures r.None? <==> !IsBlank(form.questionTitle) && !IsBlank(form.introduction)
  {
    if IsBlank(form.questionTitle) then Some(TitleRequired)
    else if IsBlank(form.introduction) then Some(IntroductionRequired)
    else None
  }

  /** `id.slice(-4).padStart(4, '0')`. */
  function QuestionNumber(id: string): string {
    PadStart(SliceLast(id, 4), 4, '0')
  }

  /** The question number has four characters: the id's last four, or the whole id
      behind leading zeros when it is shorter. */
  lemma QuestionNumberShape(id: string)
    ensures |QuestionNumber(id)| == 4
    ensures |id| >= 4 ==> QuestionNumber(id) == id[|id| - 4..]
    ensures |id| < 4 ==> QuestionNumber(id)[4 - |id|..] == id
    ensures |id| < 4 ==> forall i :: 0 <= i < 4 - |id| ==> QuestionNumber(id)[i] == '0'
  {
    var tail := SliceLast(id, 4);
    if |id| >= 4 {
      assert id == id[..|id| - 4] + tail;
      assert tail == id[|id| - 4..];
    } else {
      assert tail == id[..0] + tail;
    }
  }

  // ---------------------------------------------------------------- generate audio

  /** One dialog as the generate request carries it: no audio fields. */
  datatype TtsDialog = TtsDialog(id: string, originalText: string, translation: string)

  /** The generate request; `docId` is absent while the question is being created. */
  datatype TtsPayload = TtsPayload(docId: Option<string>, introduction: string, dialogs: seq<TtsDialog>)

  function ToTtsDialog(d: Dialog): TtsDialog {
    TtsDialog(d.id, d.originalText, d.translation)
  }

  function Payload(questionId: string, form: FormData, dialogs: seq<Dialog>): (p: TtsPayload)
    ensures p.docId.None? <==> !Truthy(questionId)
    ensures p.docId.Some? ==> p.docId.value == questionId
    ensures p.introduction == form.introduction
    ensures |p.dialogs| == |dialogs|
    ensures forall i :: 0 <= i < |dialogs| ==>
              p.dialogs[i].id == dialogs[i].id && p.dialogs[i].originalText == dialogs[i].originalText
              && p.dialogs[i].translation == dialogs[i].translation
  {
    TtsPayload(if Truthy(questionId) then Some(questionId) else None,
               form.introduction,
               seq(|dialogs|, i requires 0 <= i < |dialogs| => ToTtsDialog(dialogs[i])))
  }

  /** One entry of the reply's `dialogs`; an absent audio field is "". */
  datatype GeneratedDialog = GeneratedDialog(id: string, dialogAudio: string, translationAudio: string)

  /** The reply's data; `dialogs` is None when it is not an array (or the data is null). */
  datatype TtsReply = TtsReply(introductionAudio: string, dialogs: Option<seq<GeneratedDialog>>)

  datatype GenerateResult = Replied(data: TtsReply) | GenerateThrew

  /** `a || b`. */
  function Or(a: string, b: string): string {
    if Truthy(a) then a else b
  }

  /** The index `findIndex` would return, or |gs| when no entry has that id. */
  function FirstIndexById(gs: seq<GeneratedDialog>, id: string): (k: nat)
    ensures k <= |gs|
    ensures k < |gs| ==> gs[k].id == id
    ensures forall j :: 0 <= j < k ==> gs[j].id != id
  {
    if gs == [] then 0
    else if gs[0].id == id then 0
    else 1 + FirstIndexById(gs[1..], id)
  }

  /** `gs.find(x => x.id === id)`. */
  function FindById(gs: seq<GeneratedDialog>, id: string): Option<GeneratedDialog> {
    var k := FirstIndexById(gs, id);
    if k < |gs| then Some(gs[k]) else None
  }

  /** The `map` callback of the reply merge. */
  function MergeDialog(d: Dialog, gs: seq<GeneratedDialog>): Dialog {
    match FindById(gs, d.id)
    case None => d
    case Some(g) => d.(dialogAudio := Or(g.dialogAudio, d.dialogAudio),
                       translationAudio := Or(g.translationAudio, d.translationAudio))
  }

  function MergeGenerated(ds: seq<Dialog>, gs: seq<GeneratedDialog>): seq<Dialog> {
    seq(|ds|, i requires 0 <= i < |ds| => MergeDialog(ds[i], gs))
  }

  /** The form after the reply: `introductionAudio` taken only when the reply's is set. */
  function FormAfterReply(form: FormData, data: TtsReply): FormData {
    if Truthy(data.introductionAudio) then form.(introductionAudio := data.introductionAudio) else form
  }

  function DialogsAfterReply(ds: seq<Dialog>, data: TtsReply): seq<Dialog> {
    match data.dialogs
    case None => ds
    case Some(gs) => MergeGenerated(ds, gs)
  }

  /** Merging keeps the count, the order, the ids, the texts and the other fields; a dialog
      no entry matches is unchanged; a changed audio field holds the non-empty value of the
      FIRST entry with that id. */
  lemma MergeGeneratedSpec(ds: seq<Dialog>, gs: seq<GeneratedDialog>, i: nat)
    requires i < |ds|
    ensures |MergeGenerated(ds, gs)| == |ds|
    ensures var r := MergeGenerated(ds, gs)[i];
            && r.id == ds[i].id && r.originalText == ds[i].originalText
            && r.translation == ds[i].translation && r.extra == ds[i].extra
    ensures (forall k :: 0 <= k < |gs| ==> gs[k].id != ds[i].id) ==> MergeGenerated(ds, gs)[i] == ds[i]
    ensures var r := MergeGenerated(ds, gs)[i];
            r.dialogAudio != ds[i].dialogAudio ==>
              exists k :: 0 <= k < |gs| && gs[k].id == ds[i].id && Truthy(gs[k].dialogAudio)
                          && r.dialogAudio == gs[k].dialogAudio && forall j :: 0 <= j < k ==> gs[j].id != ds[i].id
    ensures var r := MergeGenerated(ds, gs)[i];
            r.translationAudio != ds[i].translationAudio ==>
              exists k :: 0 <= k < |gs| && gs[k].id == ds[i].id && Truthy(gs[k].translationAudio)
                          && r.translationAudio == gs[k].translationAudio && forall j :: 0 <= j < k ==> gs[j].id != ds[i].id
    ensures var k, r := FirstIndexById(gs, ds[i].id), MergeGenerated(ds, gs)[i];
            && (k < |gs| && Truthy(gs[k].dialogAudio) ==> r.dialogAudio == gs[k].dialogAudio)
            && ((k == |gs| || !Truthy(gs[k].dialogAudio)) ==> r.dialogAudio == ds[i].dialogAudio)
    ensures var k, r := FirstIndexById(gs, ds[i].id), MergeGenerated(ds, gs)[i];
            && (k < |gs| && Truthy(gs[k].translationAudio) ==> r.translationAudio == gs[k].translationAudio)
            && ((k == |gs| || !Truthy(gs[k].translationAudio)) ==> r.translationAudio == ds[i].translationAudio)
  {
    var k := FirstIndexById(gs, ds[i].id);
    assert MergeGenerated(ds, gs)[i] == MergeDialog(ds[i], gs);
  }

  /** Applying the same reply twice is the same as applying it once. */
  lemma MergeGeneratedIdempotent(ds: seq<Dialog>, gs: seq<GeneratedDialog>)
    ensures MergeGenerated(MergeGenerated(ds, gs), gs) == MergeGenerated(ds, gs)
  {
    var once := MergeGenerated(ds, gs);
    forall i | 0 <= i < |ds| ensures MergeGenerated(once, gs)[i] == once[i] {
      assert once[i] == MergeDialog(ds[i], gs);
      assert once[i].id == ds[i].id;
    }
  }

  /** The reply changes only `introductionAudio` of the form, and only to a non-empty value. */
  lemma FormAfterReplySpec(form: FormData, data: TtsReply)
    ensures var r := FormAfterReply(form, data);
            && r.(introductionAudio := form.introductionAudio) == form
            && (r.introductionAudio != form.introductionAudio ==>
                  Truthy(data.introductionAudio) && r.introductionAudio == data.introductionAudio)
            && (Truthy(data.introductionAudio) ==> r.introductionAudio == data.introductionAudio)
  {
  }

  /** A reply never changes what the next generate request would send. */
  lemma PayloadStableUnderReply(questionId: string, form: FormData, ds: seq<Dialog>, data: TtsReply)
    ensures Payload(questionId, FormAfterReply(form, data), DialogsAfterReply(ds, data)) == Payload(questionId, form, ds)
  {
    var after := DialogsAfterReply(ds, data);
    if data.dialogs.Some? {
      forall i | 0 <= i < |ds| ensures ToTtsDialog(after[i]) == ToTtsDialog(ds[i]) {
        MergeGeneratedSpec(ds, data.dialogs.value, i);
      }
    }
    assert |after| == |ds|;
    var p1 := Payload(questionId, FormAfterReply(form, data), after);
    var p2 := Payload(questionId, form, ds);
    assert p1.dialogs == p2.dialogs;
  }

  // ---------------------------------------------------------------- save

  /** The basic question record (timestamps not modelled). */
  datatype QuestionRecord = QuestionRecord(questionTitle: string, category: string, isJiJing: bool)

  datatype DetailRecord = DetailRecord(
    questionId: string,
    questionNumber: string,
    title: string,
    category: string,
    introduction: string,
    introductionAudio: string,
    dialogs: seq<Dialog>)

  /** The store calls a save makes, in order. */
  datatype StoreCall =
    | UpdateQuestion(id: string, record: QuestionRecord)
    | AddQuestion(record: QuestionRecord)
    | GetDetail(questionId: string)
    | UpdateDetail(detailId: string, data: DetailRecord)
    | AddDetail(data: DetailRecord)

  /** What the store answers: the id `addQuestion` returns, whether the question write and
      the detail write succeed, and the detail document (its own id) found for a question id.
      The lookup swallows its errors, so a failed lookup reads as "none". */
  datatype Store = Store(
    newQuestionId: string,
    questionWriteOk: bool,
    existingDetail: string -> Option<string>,
    detailWriteOk: bool)

  function RecordOf(form: FormData): QuestionRecord {
    QuestionRecord(form.questionTitle, form.category, form.isJiJing)
  }

  function DetailFor(currentId: string, form: FormData, dialogs: seq<Dialog>): DetailRecord {
    DetailRecord(currentId, QuestionNumber(currentId), form.questionTitle, form.category,
                 form.introduction, form.introductionAudio, dialogs)
  }

  /** The question id the detail is saved under: the route's when editing, the new one otherwise. */
  function CurrentId(questionId: string, store: Store): string {
    if Truthy(questionId) then questionId else store.newQuestionId
  }

  /** The store calls of a save that passed validation, stopping at the first one that throws. */
  function SaveCalls(questionId: string, form: FormData, dialogs: seq<Dialog>, store: Store): seq<StoreCall> {
    var first := if Truthy(questionId) then UpdateQuestion(questionId, RecordOf(form)) else AddQuestion(RecordOf(form));
    if !store.questionWriteOk then [first]
    else
      var cur := CurrentId(questionId, store);
      var data := DetailFor(cur, form, dialogs);
      var write := match store.existingDetail(cur) case Some(detailId) => UpdateDetail(detailId, data) case None => AddDetail(data);
      [first, GetDetail(cur), write]
  }

  predicate SaveSucceeds(store: Store) {
    store.questionWriteOk && store.detailWriteOk
  }

  /** The save edits the question when there is a route id and creates one otherwise; the
      detail then goes to the existing detail document (by its own id) when the lookup finds
      one, and is added otherwise; it carries the form, the dialogs and the question number. */
  lemma SaveUpserts(questionId: string, form: FormData, dialogs: seq<Dialog>, store: Store)
    ensures var calls := SaveCalls(questionId, form, dialogs, store);
            && calls != []
            && (calls[0].UpdateQuestion? <==> Truthy(questionId))
            && (calls[0].UpdateQuestion? ==> calls[0].id == questionId)
            && calls[0].record == RecordOf(form)
    ensures var calls := SaveCalls(questionId, form, dialogs, store);
            store.questionWriteOk ==>
              var cur := CurrentId(questionId, store);
              && |calls| == 3 && calls[1] == GetDetail(cur)
              && (calls[2].UpdateDetail? <==> store.existingDetail(cur).Some?)
              && (calls[2].UpdateDetail? ==> calls[2].detailId == store.existingDetail(cur).value)
              && calls[2].data.questionId == cur
              && calls[2].data.questionNumber == QuestionNumber(cur)
              && |calls[2].data.questionNumber| == 4
              && calls[2].data.title == form.questionTitle
              && calls[2].data.category == form.category
              && calls[2].data.dialogs == dialogs
              && calls[2].data.introduction == form.introduction
              && calls[2].data.introductionAudio == form.introductionAudio
    ensures !store.questionWriteOk ==> |SaveCalls(questionId, form, dialogs, store)| == 1
  {
    QuestionNumberShape(CurrentId(questionId, store));
  }

  // ---------------------------------------------------------------- the form state

  class QuestionEditor {
    /** The route's `questionId`; "" when creating. */
    const questionId: string
    var formData: FormData
    var dialogs: seq<Dialog>
    var loading: bool
    var error: string
    var ttsGenerating: bool

    constructor(questionId: string)
      ensures this.questionId == questionId && formData == EmptyForm && dialogs == []
      ensures !loading && error == "" && !ttsGenerating
    {
      this.questionId := questionId;
      formData := EmptyForm;
      dialogs := [];
      loading := false;
      error := "";
      ttsGenerating := false;
    }

    method ResetForm()
      modifies this
      ensures formData == EmptyForm && dialogs == [] && error == ""
      ensures loading == old(loading) && ttsGenerating == old(ttsGenerating)
    {
      formData := EmptyForm;
      dialogs := [];
      error := "";
    }

    /** "Generate audio": sends the payload, then merges the reply; `result` is what the
        callable answers to that payload. */
    method HandleGenerateAudio(result: GenerateResult) returns (payload: TtsPayload)
      modifies this
      ensures payload == Payload(questionId, old(formData), old(dialogs))
      ensures !ttsGenerating && loading == old(loading)
      ensures result.GenerateThrew? ==> error == GenerateFailed && formData == old(formData) && dialogs == old(dialogs)
      ensures result.Replied? ==> error == ""
                                  && formData == FormAfterReply(old(formData), result.data)
                                  && dialogs == DialogsAfterReply(old(dialogs), result.data)
    {
      ttsGenerating := true;
      error := "";
      payload := Payload(questionId, formData, dialogs);
      match result {
        case GenerateThrew =>
          error := GenerateFailed;
        case Replied(data) =>
          if Truthy(data.introductionAudio) {
            formData := formData.(introductionAudio := data.introductionAudio);
          }
          if data.dialogs.Some? {
            dialogs := MergeGenerated(dialogs, data.dialogs.value);
          }
      }
      ttsGenerating := false;
    }

    /** Submit: validation, then the save against `store`; returns the store calls made and
        whether it navigated back to the portal. */
    method HandleSubmit(store: Store) returns (calls: seq<StoreCall>, navigated: bool)
      modifies this
      ensures formData == old(formData) && dialogs == old(dialogs) && ttsGenerating == old(ttsGenerating)
      ensures ValidationError(old(formData)).Some? ==>
                calls == [] && !navigated && error == ValidationError(old(formData)).value && loading == old(loading)
      ensures ValidationError(old(formData)).None? ==>
                && calls == SaveCalls(questionId, old(formData), old(dialogs), store)
                && navigated == SaveSucceeds(store)
                && !loading
                && error == (if navigated then "" else SaveFailed)
    {
      calls := [];
      navigated := false;
      var invalid := ValidationError(formData);
      if invalid.Some? {
        error := invalid.value;
        return;
      }
      loading := true;
      error := "";
      var currentId, first;
      if Truthy(questionId) {
        currentId := questionId;
        first := UpdateQuestion(currentId, RecordOf(formData));
      } else {
        first := AddQuestion(RecordOf(formData));
        currentId := store.newQuestionId;
      }
      if !store.questionWriteOk {
        calls := [first];
        error := SaveFailed;
        loading := false;
        return;
      }
      var data := DetailFor(currentId, formData, dialogs);
      var existing := store.existingDetail(currentId);
      var write := if existing.Some? then UpdateDetail(existing.value, data) else AddDetail(data);
      calls := [first, GetDetail(currentId), write];
      if !store.detailWriteOk {
        error := SaveFailed;
        loading := false;
        return;
      }
      navigated := true;
      loading := false;
    }
  }
}
