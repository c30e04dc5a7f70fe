/**
 * The `onQuestionDetailWrite` Cloud Function and its `synthesizeToStorage` helper: on every
 * write to `questionDetails/{docId}` it finds the text fields that have no audio yet, has
 * each one spoken by the speech API, stores the MP3 under `auto_audio/{docId}/...` and
 * merges the public URLs back into the document.
 *
 * The speech API, the upload stream and `makePublic` are outside the model: what each of
 * them does for one call is given by an oracle `world` keyed by the destination path.
 */
module TtsTrigger {
  import opened Wrappers
  import opened JsStrings
  import opened UriEncoding
  import opened QuestionContent

  const DefaultTtsModel := "gpt-4o-mini-tts"
  const DefaultTtsVoice := "alloy"
  const PublicHost := "https://storage.googleapis.com/"

  /** The OPENAI_TTS_MODEL and OPENAI_TTS_VOICE environment variables ("" when unset). */
  datatype Env = Env(ttsModel: string, ttsVoice: string)

  /** The body of the speech request. */
  datatype SpeechRequest = SpeechRequest(model: string, voice: string, input: string, format: string)

  /** The speech request sent for `text`: the configured model and voice, or the defaults. */
  function SpeechRequestFor(text: string, env: Env): SpeechRequest {
    SpeechRequest(
      if Truthy(env.ttsModel) then env.ttsModel else DefaultTtsModel,
      if Truthy(env.ttsVoice) then env.ttsVoice else DefaultTtsVoice,
      text,
      "mp3")
  }

  /** What the outside world does with one call: whether the speech API answers, whether
      the upload stream finishes, and whether `makePublic` succeeds. */
  datatype CallEffects = CallEffects(speechOk: bool, uploadOk: bool, makePublicOk: bool)

  /** The result of `synthesizeToStorage`: `null` for blank text, the two addresses of the
      stored object, or a thrown error. */
  datatype SynthOutcome = Skipped | Stored(gsUrl: string, publicUrl: string) | Threw

  function GsUrl(bucket: string, path: string): string {
    "gs://" + bucket + "/" + path
  }

  function PublicUrl(bucket: string, path: string): string {
    PublicHost + bucket + "/" + EncodeUriComponent(path)
  }

  /** A call that would throw: the text is not blank and the speech request or the upload
      fails. */
  predicate CallThrows(text: string, fx: CallEffects) {
    !IsBlank(text) && !(fx.speechOk && fx.uploadOk)
  }

  /** `synthesizeToStorage({text, path})` in the default bucket `bucket`. */
  function SynthesizeToStorage(text: string, path: string, bucket: string, fx: CallEffects): (r: SynthOutcome)
    ensures r.Skipped? <==> IsBlank(text)
    ensures r.Threw? <==> CallThrows(text, fx)
    ensures r.Stored? ==> r.gsUrl == GsUrl(bucket, path) && r.publicUrl == PublicUrl(bucket, path)
    ensures r.Stored? ==> Truthy(r.publicUrl)
  {
    if IsBlank(text) then Skipped
    else if !fx.speechOk || !fx.uploadOk then Threw
    else Stored(GsUrl(bucket, path), PublicUrl(bucket, path))
  }

  /** The audio fields the handler fills; dialog indices are 0-based. */
  datatype AudioSlot = IntroSlot | OriginalSlot(index: nat) | TranslationSlot(index: nat)

  /** The storage path of each audio field; the file names count dialogs from 1. */
  function AudioPath(docId: string, slot: AudioSlot): string {
    "auto_audio/" + docId + "/" + AudioFileName(slot)
  }

  /** The file name part of an audio path; dialog files are numbered from 1. */
  function AudioFileName(slot: AudioSlot): string {
    match slot
    case IntroSlot => "introduction.mp3"
    case OriginalSlot(i) => "dialog_" + NatToString(i + 1) + "_original.mp3"
    case TranslationSlot(i) => "dialog_" + NatToString(i + 1) + "_translation.mp3"
  }

  /** One call of `synthesizeToStorage` the handler makes. */
  datatype Task = Task(slot: AudioSlot, text: string, path: string)

  predicate NeedsIntroAudio(d: QuestionDetail) {
    Truthy(d.introduction) && !Truthy(d.introductionAudio)
  }

  predicate NeedsOriginalAudio(dlg: Dialog) {
    Truthy(dlg.originalText) && !Truthy(dlg.dialogAudio)
  }

  predicate NeedsTranslationAudio(dlg: Dialog) {
    Truthy(dlg.translation) && !Truthy(dlg.translationAudio)
  }

  function IntroTasks(docId: string, d: QuestionDetail): seq<Task> {
    if NeedsIntroAudio(d) then [Task(IntroSlot, d.introduction, AudioPath(docId, IntroSlot))] else []
  }

  /** The calls made for the dialog at index i, original text first. */
  function DialogTasksAt(docId: string, i: nat, dlg: Dialog): seq<Task> {
    (if NeedsOriginalAudio(dlg) then [Task(OriginalSlot(i), dlg.originalText, AudioPath(docId, OriginalSlot(i)))] else [])
    + (if NeedsTranslationAudio(dlg) then [Task(TranslationSlot(i), dlg.translation, AudioPath(docId, TranslationSlot(i)))] else [])
  }

  function DialogTasks(docId: string, ds: seq<Dialog>): seq<Task> {
    if ds == [] then []
    else DialogTasks(docId, ds[..|ds| - 1]) + DialogTasksAt(docId, |ds| - 1, ds[|ds| - 1])
  }

  /** The completion policy: every call of `synthesizeToStorage` the handler makes for the
      document `d` when none of them throws, in order. */
  function Tasks(docId: string, d: QuestionDetail): seq<Task> {
    IntroTasks(docId, d) + match d.dialogs case None => [] case Some(ds) => DialogTasks(docId, ds)
  }

  predicate Fails(t: Task, world: string -> CallEffects) {
    CallThrows(t.text, world(t.path))
  }

  ghost predicate NoneFail(ts: seq<Task>, world: string -> CallEffects) {
    forall k :: 0 <= k < |ts| ==> !Fails(ts[k], world)
  }

  /** The calls actually made: the tasks in order, up to and including the first that throws. */
  function Attempted(ts: seq<Task>, world: string -> CallEffects): seq<Task> {
    if ts == [] then []
    else if Fails(ts[0], world) then [ts[0]]
    else [ts[0]] + Attempted(ts[1..], world)
  }

  /** The requests that reach the speech API: one per attempted call with non-blank text. */
  function SpeechRequests(calls: seq<Task>, env: Env): seq<SpeechRequest> {
    if calls == [] then []
    else (if IsBlank(calls[0].text) then [] else [SpeechRequestFor(calls[0].text, env)])
         + SpeechRequests(calls[1..], env)
  }

  predicate OriginalThrows(docId: string, i: nat, dlg: Dialog, world: string -> CallEffects) {
    NeedsOriginalAudio(dlg) && CallThrows(dlg.originalText, world(AudioPath(docId, OriginalSlot(i))))
  }

  predicate TranslationThrows(docId: string, i: nat, dlg: Dialog, world: string -> CallEffects) {
    NeedsTranslationAudio(dlg) && CallThrows(dlg.translation, world(AudioPath(docId, TranslationSlot(i))))
  }

  /** `{ ...dlg }` with the audio slots that were empty filled from the calls' results;
      None when a call throws. */
  function RebuildDialog(docId: string, i: nat, dlg: Dialog, bucket: string, world: string -> CallEffects): (r: Option<Dialog>)
    ensures r.None? <==> OriginalThrows(docId, i, dlg, world) || TranslationThrows(docId, i, dlg, world)
  {
    var origPath := AudioPath(docId, OriginalSlot(i));
    var transPath := AudioPath(docId, TranslationSlot(i));
    var orig := if NeedsOriginalAudio(dlg) then SynthesizeToStorage(dlg.originalText, origPath, bucket, world(origPath)) else Skipped;
    var trans := if NeedsTranslationAudio(dlg) then SynthesizeToStorage(dlg.translation, transPath, bucket, world(transPath)) else Skipped;
    if orig.Threw? || trans.Threw? then None
    else Some(dlg.(
      dialogAudio := if orig.Stored? && Truthy(orig.publicUrl) then orig.publicUrl else dlg.dialogAudio,
      translationAudio := if trans.Stored? && Truthy(trans.publicUrl) then trans.publicUrl else dlg.translationAudio))
  }

  /** A rebuilt dialog keeps its id, its texts and its other fields; an audio field changes
      exactly when it was empty and its text is not blank, and then to the public URL of
      its own path. */
  lemma RebuildDialogSpec(docId: string, i: nat, dlg: Dialog, bucket: string, world: string -> CallEffects)
    requires RebuildDialog(docId, i, dlg, bucket, world).Some?
    ensures var r := RebuildDialog(docId, i, dlg, bucket, world).value;
            && r.id == dlg.id && r.originalText == dlg.originalText
            && r.translation == dlg.translation && r.extra == dlg.extra
    ensures var r := RebuildDialog(docId, i, dlg, bucket, world).value;
            && (r.dialogAudio != dlg.dialogAudio <==> NeedsOriginalAudio(dlg) && !IsBlank(dlg.originalText))
            && (r.dialogAudio != dlg.dialogAudio ==> r.dialogAudio == PublicUrl(bucket, AudioPath(docId, OriginalSlot(i))))
    ensures var r := RebuildDialog(docId, i, dlg, bucket, world).value;
            && (r.translationAudio != dlg.translationAudio <==> NeedsTranslationAudio(dlg) && !IsBlank(dlg.translation))
            && (r.translationAudio != dlg.translationAudio ==> r.translationAudio == PublicUrl(bucket, AudioPath(docId, TranslationSlot(i))))
  {
  }

  /** `Promise.all(after.dialogs.map(...))`: dialog i rebuilt at index i, or None when
      the rebuild of any dialog throws. */
  function RebuildDialogs(docId: string, ds: seq<Dialog>, bucket: string, world: string -> CallEffects): (r: Option<seq<Dialog>>)
    ensures r.Some? ==> |r.value| == |ds|
  {
    if forall i | 0 <= i < |ds| :: RebuildDialog(docId, i, ds[i], bucket, world).Some? then
      Some(seq(|ds|, i requires 0 <= i < |ds| => RebuildDialog(docId, i, ds[i], bucket, world).value))
    else None
  }

  /** The `updates` object: each field is present only when the handler set it. */
  datatype Updates = Updates(introductionAudio: Option<string>, dialogs: Option<seq<Dialog>>) {
    /** `Object.keys(updates).length === 0`. */
    predicate IsEmpty() {
      introductionAudio.None? && dialogs.None?
    }
  }

  /** How an invocation ends: the document was deleted, the handler rejected (nothing is
      written), or it ran to the end with these updates. */
  datatype Outcome = Ignored | Rejected | Finished(updates: Updates)

  /** The handler issues the merge write. */
  predicate WritesDocument(o: Outcome) {
    o.Finished? && !o.updates.IsEmpty()
  }

  /** `set(updates, { merge: true })`: the fields present in `u` replace the document's. */
  function Merge(d: QuestionDetail, u: Updates): QuestionDetail {
    d.(introductionAudio := u.introductionAudio.GetOr(d.introductionAudio),
       dialogs := if u.dialogs.Some? then u.dialogs else d.dialogs)
  }

  /** The handler for the document state `after` (None when it was deleted). */
  function Handle(after: Option<QuestionDetail>, docId: string, bucket: string, world: string -> CallEffects): Outcome {
    match after
    case None => Ignored
    case Some(d) =>
      var introPath := AudioPath(docId, IntroSlot);
      var intro := if NeedsIntroAudio(d) then SynthesizeToStorage(d.introduction, introPath, bucket, world(introPath)) else Skipped;
      if intro.Threw? then Rejected
      else
        var introUpdate := if intro.Stored? && Truthy(intro.publicUrl) then Some(intro.publicUrl) else None;
        match d.dialogs
        case None => Finished(Updates(introUpdate, None))
        case Some(ds) =>
          match RebuildDialogs(docId, ds, bucket, world)
          case None => Rejected
          case Some(nds) => Finished(Updates(introUpdate, Some(nds)))
  }

  lemma {:induction false} AttemptedAll(ts: seq<Task>, world: string -> CallEffects)
    requires NoneFail(ts, world)
    ensures Attempted(ts, world) == ts
  {
    if ts != [] {
      AttemptedAll(ts[1..], world);
    }
  }

  lemma {:induction false} AttemptedStops(ts: seq<Task>, k: nat, world: string -> CallEffects)
    requires k < |ts| && Fails(ts[k], world) && NoneFail(ts[..k], world)
    ensures Attempted(ts, world) == ts[..k + 1]
  {
    if k > 0 {
      var tl := ts[1..];
      assert !Fails(ts[..k][0], world);
      assert tl[k - 1] == ts[k];
      var pre := tl[..k - 1];
      assert NoneFail(pre, world) by {
        forall j | 0 <= j < k - 1 ensures !Fails(pre[j], world) {
          assert pre[j] == ts[..k][j + 1];
        }
      }
      AttemptedStops(tl, k - 1, world);
      assert [ts[0]] + tl[..k] == ts[..k + 1];
    }
  }

  lemma {:induction false} DialogTasksPrefix(docId: string, ds: seq<Dialog>, k: nat)
    requires k <= |ds|
    ensures DialogTasks(docId, ds[..k]) <= DialogTasks(docId, ds)
    decreases |ds| - k
  {
    if k < |ds| {
      DialogTasksPrefix(docId, ds, k + 1);
      assert ds[..k + 1][..k] == ds[..k];
    } else {
      assert ds[..k] == ds;
    }
  }

  lemma DialogTasksStep(docId: string, ds: seq<Dialog>, i: nat)
    requires i < |ds|
    ensures DialogTasks(docId, ds[..i + 1]) == DialogTasks(docId, ds[..i]) + DialogTasksAt(docId, i, ds[i])
  {
    assert ds[..i + 1][..i] == ds[..i];
  }

  lemma NoneFailCons(a: seq<Task>, world: string -> CallEffects)
    requires a != []
    ensures NoneFail(a, world) <==> !Fails(a[0], world) && NoneFail(a[1..], world)
  {
    if !Fails(a[0], world) && NoneFail(a[1..], world) {
      forall k | 0 < k < |a| ensures !Fails(a[k], world) {
        assert a[k] == a[1..][k - 1];
      }
    }
  }

  lemma NoneFailConcat(a: seq<Task>, b: seq<Task>, world: string -> CallEffects)
    ensures NoneFail(a + b, world) <==> NoneFail(a, world) && NoneFail(b, world)
  {
    if NoneFail(a + b, world) {
      forall k | 0 <= k < |b| ensures !Fails(b[k], world) {
        assert b[k] == (a + b)[|a| + k];
      }
      forall k | 0 <= k < |a| ensures !Fails(a[k], world) {
        assert a[k] == (a + b)[k];
      }
    }
  }

  lemma {:induction false} AttemptedAppend(a: seq<Task>, b: seq<Task>, world: string -> CallEffects)
    ensures Attempted(a + b, world) == if NoneFail(a, world) then a + Attempted(b, world) else Attempted(a, world)
  {
    if a == [] {
      assert a + b == b;
    } else {
      assert (a + b)[0] == a[0] && (a + b)[1..] == a[1..] + b;
      NoneFailCons(a, world);
      AttemptedAppend(a[1..], b, world);
    }
  }

  lemma DialogTasksAtFail(docId: string, i: nat, dlg: Dialog, world: string -> CallEffects)
    ensures NoneFail(DialogTasksAt(docId, i, dlg), world) <==>
            !OriginalThrows(docId, i, dlg, world) && !TranslationThrows(docId, i, dlg, world)
  {
    var ts := DialogTasksAt(docId, i, dlg);
    var o := Task(OriginalSlot(i), dlg.originalText, AudioPath(docId, OriginalSlot(i)));
    var t := Task(TranslationSlot(i), dlg.translation, AudioPath(docId, TranslationSlot(i)));
    if NeedsOriginalAudio(dlg) && NeedsTranslationAudio(dlg) {
      assert ts == [o, t];
      assert NoneFail(ts, world) <==> !Fails(ts[0], world) && !Fails(ts[1], world);
    } else if NeedsOriginalAudio(dlg) {
      assert ts == [o];
      assert NoneFail(ts, world) <==> !Fails(ts[0], world);
    } else if NeedsTranslationAudio(dlg) {
      assert ts == [t];
      assert NoneFail(ts, world) <==> !Fails(ts[0], world);
    } else {
      assert ts == [];
    }
  }

  lemma ConcatAssoc<T>(a: seq<T>, b: seq<T>, c: seq<T>)
    ensures (a + b) + c == a + (b + c)
  {
  }

  lemma PrefixSplit<T>(a: seq<T>, b: seq<T>)
    requires a <= b
    ensures b == a + b[|a|..]
  {
  }

  /** The tasks of the dialogs before index i, those of dialog i, then the rest. */
  lemma DialogTasksSplit(docId: string, ds: seq<Dialog>, i: nat) returns (later: seq<Task>)
    requires i < |ds|
    ensures DialogTasks(docId, ds) == DialogTasks(docId, ds[..i]) + (DialogTasksAt(docId, i, ds[i]) + later)
  {
    DialogTasksStep(docId, ds, i);
    DialogTasksPrefix(docId, ds, i + 1);
    var whole := DialogTasks(docId, ds);
    var upTo := DialogTasks(docId, ds[..i + 1]);
    later := whole[|upTo|..];
    PrefixSplit(upTo, whole);
    ConcatAssoc(DialogTasks(docId, ds[..i]), DialogTasksAt(docId, i, ds[i]), later);
  }

  /** The `map` callback for the dialog at index i: `updated` is the rebuilt dialog (None
      when a call throws) and `calls` the calls it made. */
  method RebuildDialogAt(docId: string, i: nat, dlg: Dialog, bucket: string, world: string -> CallEffects)
    returns (updated: Option<Dialog>, calls: seq<Task>)
    ensures updated == RebuildDialog(docId, i, dlg, bucket, world)
    ensures calls == Attempted(DialogTasksAt(docId, i, dlg), world)
  {
    ghost var all := DialogTasksAt(docId, i, dlg);
    var result := dlg;
    calls := [];
    if NeedsOriginalAudio(dlg) {
      var path := AudioPath(docId, OriginalSlot(i));
      calls := calls + [Task(OriginalSlot(i), dlg.originalText, path)];
      var audio := SynthesizeToStorage(dlg.originalText, path, bucket, world(path));
      if audio.Threw? {
        AttemptedStops(all, 0, world);
        return None, calls;
      }
      if audio.Stored? && Truthy(audio.publicUrl) {
        result := result.(dialogAudio := audio.publicUrl);
      }
    }
    if NeedsTranslationAudio(dlg) {
      var path := AudioPath(docId, TranslationSlot(i));
      calls := calls + [Task(TranslationSlot(i), dlg.translation, path)];
      var audio := SynthesizeToStorage(dlg.translation, path, bucket, world(path));
      if audio.Threw? {
        AttemptedStops(all, |calls| - 1, world);
        return None, calls;
      }
      if audio.Stored? && Truthy(audio.publicUrl) {
        result := result.(translationAudio := audio.publicUrl);
      }
    }
    AttemptedAll(all, world);
    updated := Some(result);
  }

  /** Rebuilding one more dialog: the list so far extended by it, or None. */
  lemma RebuildDialogsStep(docId: string, ds: seq<Dialog>, i: nat, bucket: string, world: string -> CallEffects)
    requires i < |ds|
    requires RebuildDialogs(docId, ds[..i], bucket, world).Some?
    requires RebuildDialog(docId, i, ds[i], bucket, world).Some?
    ensures RebuildDialogs(docId, ds[..i + 1], bucket, world) ==
            Some(RebuildDialogs(docId, ds[..i], bucket, world).value + [RebuildDialog(docId, i, ds[i], bucket, world).value])
  {
    var pre, post := ds[..i], ds[..i + 1];
    var last := RebuildDialog(docId, i, ds[i], bucket, world).value;
    var p := RebuildDialogs(docId, pre, bucket, world).value;
    forall k | 0 <= k < i + 1 ensures RebuildDialog(docId, k, post[k], bucket, world) == Some((p + [last])[k]) {
      assert post[k] == ds[k];
      if k < i {
        assert pre[k] == ds[k];
      }
    }
    assert RebuildDialogs(docId, post, bucket, world).value == p + [last];
  }

  /** The calls after dialog i: those of the dialogs before it followed by its own, and
      when one of its own throws, that is where the whole list of calls stops. */
  lemma DialogCallsStep(docId: string, ds: seq<Dialog>, i: nat, calls: seq<Task>, world: string -> CallEffects)
    requires i < |ds| && calls == DialogTasks(docId, ds[..i]) && NoneFail(calls, world)
    ensures var here := DialogTasksAt(docId, i, ds[i]);
            NoneFail(here, world) ==> calls + here == DialogTasks(docId, ds[..i + 1]) && NoneFail(calls + here, world)
    ensures var here := DialogTasksAt(docId, i, ds[i]);
            !NoneFail(here, world) ==> calls + Attempted(here, world) == Attempted(DialogTasks(docId, ds), world)
  {
    var here := DialogTasksAt(docId, i, ds[i]);
    DialogTasksStep(docId, ds, i);
    NoneFailConcat(calls, here, world);
    if !NoneFail(here, world) {
      var later := DialogTasksSplit(docId, ds, i);
      AttemptedAppend(calls, here + later, world);
      AttemptedAppend(here, later, world);
    }
  }

  lemma RebuildDialogNoneIffFail(docId: string, i: nat, dlg: Dialog, bucket: string, world: string -> CallEffects)
    ensures RebuildDialog(docId, i, dlg, bucket, world).None? <==> !NoneFail(DialogTasksAt(docId, i, dlg), world)
  {
    DialogTasksAtFail(docId, i, dlg, world);
  }

  /** `Promise.all(after.dialogs.map(...))`, the callbacks run in index order: the rebuilt
      dialogs (None when a call throws) and the calls made. */
  method RebuildAllDialogs(docId: string, ds: seq<Dialog>, bucket: string, world: string -> CallEffects)
    returns (rebuilt: Option<seq<Dialog>>, calls: seq<Task>)
    ensures rebuilt == RebuildDialogs(docId, ds, bucket, world)
    ensures calls == Attempted(DialogTasks(docId, ds), world)
  {
    var newDialogs: seq<Dialog> := [];
    calls := [];
    var i := 0;
    while i < |ds|
      invariant 0 <= i <= |ds|
      invariant RebuildDialogs(docId, ds[..i], bucket, world) == Some(newDialogs)
      invariant calls == DialogTasks(docId, ds[..i])
      invariant NoneFail(calls, world)
    {
      var updated, dialogCalls := RebuildDialogAt(docId, i, ds[i], bucket, world);
      DialogCallsStep(docId, ds, i, calls, world);
      RebuildDialogNoneIffFail(docId, i, ds[i], bucket, world);
      if updated.None? {
        calls := calls + dialogCalls;
        return None, calls;
      }
      AttemptedAll(DialogTasksAt(docId, i, ds[i]), world);
      RebuildDialogsStep(docId, ds, i, bucket, world);
      calls := calls + dialogCalls;
      newDialogs := newDialogs + [updated.value];
      i := i + 1;
    }
    assert ds[..i] == ds;
    AttemptedAll(calls, world);
    rebuilt := Some(newDialogs);
  }

  /** The handler as the Cloud Function runs it: `outcome` is how it ends and `calls` the
      `synthesizeToStorage` calls it made. */
  method OnQuestionDetailWrite(after: Option<QuestionDetail>, docId: string, bucket: string, world: string -> CallEffects)
    returns (outcome: Outcome, calls: seq<Task>)
    ensures outcome == Handle(after, docId, bucket, world)
    ensures calls == if after.None? then [] else Attempted(Tasks(docId, after.value), world)
    ensures after.None? ==> outcome == Ignored && calls == []
  {
    if after.None? {
      return Ignored, [];
    }
    var d := after.value;
    ghost var all := Tasks(docId, d);
    calls := [];
    var introUpdate: Option<string> := None;
    if NeedsIntroAudio(d) {
      var path := AudioPath(docId, IntroSlot);
      calls := calls + [Task(IntroSlot, d.introduction, path)];
      var audio := SynthesizeToStorage(d.introduction, path, bucket, world(path));
      if audio.Threw? {
        AttemptedStops(all, 0, world);
        return Rejected, calls;
      }
      if audio.Stored? && Truthy(audio.publicUrl) {
        introUpdate := Some(audio.publicUrl);
      }
    }
    assert calls == IntroTasks(docId, d) && NoneFail(calls, world);
    var dialogsUpdate: Option<seq<Dialog>> := None;
    if d.dialogs.Some? {
      var rebuilt, dialogCalls := RebuildAllDialogs(docId, d.dialogs.value, bucket, world);
      AttemptedAppend(calls, DialogTasks(docId, d.dialogs.value), world);
      calls := calls + dialogCalls;
      if rebuilt.None? {
        return Rejected, calls;
      }
      dialogsUpdate := rebuilt;
    } else {
      assert all == calls;
      AttemptedAll(all, world);
    }
    outcome := Finished(Updates(introUpdate, dialogsUpdate));
  }
}
