/**
 * What `onQuestionDetailWrite` promises: distinct storage paths, which fields are sent for
 * synthesis, a merge that never overwrites audio, all-or-nothing failure, and convergence
 * of the self-triggered re-run.
 */
module TtsTriggerProperties {
  import opened Wrappers
  import opened JsStrings
  import opened UriEncoding
  import opened QuestionContent
  import opened TtsTrigger

  /** A text field needs nothing more: it is blank, or its audio field is set. */
  predicate Voiced(text: string, audio: string) {
    IsBlank(text) || Truthy(audio)
  }

  predicate DialogVoiced(dlg: Dialog) {
    Voiced(dlg.originalText, dlg.dialogAudio) && Voiced(dlg.translation, dlg.translationAudio)
  }

  /** Every non-blank text field of the document already has audio. */
  predicate AllVoiced(d: QuestionDetail) {
    && Voiced(d.introduction, d.introductionAudio)
    && (d.dialogs.Some? ==> forall i :: 0 <= i < |d.dialogs.value| ==> DialogVoiced(d.dialogs.value[i]))
  }

  // ---------------------------------------------------------------- storage paths

  lemma DialogFileNamesDistinct(a: nat, b: nat, sa: string, sb: string)
    requires sa == "_original.mp3" || sa == "_translation.mp3"
    requires sb == "_original.mp3" || sb == "_translation.mp3"
    requires (a, sa) != (b, sb)
    ensures NatToString(a) + sa != NatToString(b) + sb
  {
    if NatToString(a) + sa == NatToString(b) + sb {
      DigitsThenSuffix(NatToString(a), sa, NatToString(b), sb);
      NatToStringInjective(a, b);
    }
  }

  lemma IntroFileNameDistinct(s: AudioSlot)
    requires !s.IntroSlot?
    ensures AudioFileName(s) != AudioFileName(IntroSlot)
  {
    assert AudioFileName(s)[0] == 'd';
  }

  lemma DialogFileNameParts(s: AudioSlot)
    requires !s.IntroSlot?
    ensures AudioFileName(s)[7..] == NatToString(s.index + 1) + (if s.OriginalSlot? then "_original.mp3" else "_translation.mp3")
  {
  }

  lemma AudioFileNamesDistinct(s1: AudioSlot, s2: AudioSlot)
    requires s1 != s2
    ensures AudioFileName(s1) != AudioFileName(s2)
  {
    if s1.IntroSlot? {
      IntroFileNameDistinct(s2);
    } else if s2.IntroSlot? {
      IntroFileNameDistinct(s1);
    } else {
      DialogFileNameParts(s1);
      DialogFileNameParts(s2);
      DialogFileNamesDistinct(s1.index + 1, s2.index + 1,
        if s1.OriginalSlot? then "_original.mp3" else "_translation.mp3",
        if s2.OriginalSlot? then "_original.mp3" else "_translation.mp3");
    }
  }

  /** Within one document every audio field has its own storage path. */
  lemma AudioPathsDistinct(docId: string, s1: AudioSlot, s2: AudioSlot)
    requires s1 != s2
    ensures AudioPath(docId, s1) != AudioPath(docId, s2)
  {
    var prefix := "auto_audio/" + docId + "/";
    AudioFileNamesDistinct(s1, s2);
    assert AudioPath(docId, s1)[|prefix|..] == AudioFileName(s1);
    assert AudioPath(docId, s2)[|prefix|..] == AudioFileName(s2);
  }

  /** The public URL is the bucket's address followed by one path segment that percent-
      decodes to the UTF-8 bytes of the object path. */
  lemma PublicUrlDecodes(bucket: string, path: string)
    ensures var base := PublicHost + bucket + "/";
            && base <= PublicUrl(bucket, path)
            && '/' !in PublicUrl(bucket, path)[|base|..]
            && PercentDecode(PublicUrl(bucket, path)[|base|..]) == Some(Utf8Encode(path))
  {
    var base := PublicHost + bucket + "/";
    assert PublicUrl(bucket, path)[|base|..] == EncodeUriComponent(path);
    DecodeEncode(path);
    EncodedCharsOnly(path);
  }

  /** A failing `makePublic` changes nothing: its error is swallowed. */
  lemma MakePublicFailureIgnored(text: string, path: string, bucket: string, fx: CallEffects)
    ensures SynthesizeToStorage(text, path, bucket, fx.(makePublicOk := false))
         == SynthesizeToStorage(text, path, bucket, fx.(makePublicOk := true))
  {
  }

  /** Model and voice fall back to the defaults when their variables are unset. */
  lemma SpeechRequestDefaults(text: string, env: Env)
    ensures SpeechRequestFor(text, env).model == if env.ttsModel == "" then "gpt-4o-mini-tts" else env.ttsModel
    ensures SpeechRequestFor(text, env).voice == if env.ttsVoice == "" then "alloy" else env.ttsVoice
    ensures SpeechRequestFor(text, env).input == text && SpeechRequestFor(text, env).format == "mp3"
  {
  }

  // ---------------------------------------------------------------- task lists

  /** Every call made for the dialogs is one of the calls for some dialog... */
  lemma {:induction false} DialogTaskIndex(docId: string, ds: seq<Dialog>, t: Task) returns (i: nat)
    requires t in DialogTasks(docId, ds)
    ensures i < |ds| && t in DialogTasksAt(docId, i, ds[i])
  {
    var n := |ds| - 1;
    var pre := ds[..n];
    if t in DialogTasksAt(docId, n, ds[n]) {
      i := n;
    } else {
      assert t in DialogTasks(docId, pre);
      i := DialogTaskIndex(docId, pre, t);
      assert pre[i] == ds[i];
    }
  }

  /** ...and every call for a dialog is among them. */
  lemma DialogTaskAtIn(docId: string, ds: seq<Dialog>, i: nat, t: Task)
    requires i < |ds| && t in DialogTasksAt(docId, i, ds[i])
    ensures t in DialogTasks(docId, ds)
  {
    var later := DialogTasksSplit(docId, ds, i);
    ConcatMember(t, DialogTasks(docId, ds[..i]), DialogTasksAt(docId, i, ds[i]), later);
  }

  lemma ConcatMember<T>(x: T, a: seq<T>, b: seq<T>, c: seq<T>)
    requires x in b
    ensures x in a + (b + c)
  {
  }

  lemma DialogTasksMembers(docId: string, ds: seq<Dialog>, t: Task)
    ensures t in DialogTasks(docId, ds) <==> exists i :: 0 <= i < |ds| && t in DialogTasksAt(docId, i, ds[i])
  {
    if t in DialogTasks(docId, ds) {
      var i := DialogTaskIndex(docId, ds, t);
    }
    if exists i :: 0 <= i < |ds| && t in DialogTasksAt(docId, i, ds[i]) {
      var i :| 0 <= i < |ds| && t in DialogTasksAt(docId, i, ds[i]);
      DialogTaskAtIn(docId, ds, i, t);
    }
  }

  lemma DialogTaskSlots(docId: string, i: nat, dlg: Dialog, t: Task)
    requires t in DialogTasksAt(docId, i, dlg)
    ensures t.slot == OriginalSlot(i) ==> t.text == dlg.originalText && NeedsOriginalAudio(dlg)
    ensures t.slot == TranslationSlot(i) ==> t.text == dlg.translation && NeedsTranslationAudio(dlg)
    ensures t.slot == OriginalSlot(i) || t.slot == TranslationSlot(i)
    ensures t.path == AudioPath(docId, t.slot)
  {
  }

  lemma DialogTasksAtFailMember(docId: string, i: nat, dlg: Dialog, world: string -> CallEffects)
    ensures (OriginalThrows(docId, i, dlg, world) || TranslationThrows(docId, i, dlg, world)) <==>
            exists t :: t in DialogTasksAt(docId, i, dlg) && Fails(t, world)
  {
    DialogTasksAtFail(docId, i, dlg, world);
  }

  lemma {:induction false} AttemptedPrefix(ts: seq<Task>, world: string -> CallEffects)
    ensures Attempted(ts, world) <= ts
    ensures ts != [] ==> Attempted(ts, world) != [] && Attempted(ts, world)[0] == ts[0]
  {
    if ts != [] && !Fails(ts[0], world) {
      AttemptedPrefix(ts[1..], world);
      assert ts == [ts[0]] + ts[1..];
    }
  }

  lemma {:induction false} NoSpeechForBlankCalls(calls: seq<Task>, env: Env)
    ensures SpeechRequests(calls, env) == [] <==> forall k :: 0 <= k < |calls| ==> IsBlank(calls[k].text)
  {
    if calls != [] {
      NoSpeechForBlankCalls(calls[1..], env);
      assert forall k :: 0 < k < |calls| ==> calls[k] == calls[1..][k - 1];
    }
  }

  // ---------------------------------------------------------------- introduction

  /** A call is made for the introduction exactly when it is set and its audio is not; the
      speech API hears of it only when it is not blank. */
  lemma IntroductionCall(docId: string, d: QuestionDetail, world: string -> CallEffects)
    ensures var calls := Attempted(Tasks(docId, d), world);
            (exists k :: 0 <= k < |calls| && calls[k].slot == IntroSlot) <==> NeedsIntroAudio(d)
    ensures var calls := Attempted(Tasks(docId, d), world);
            (exists k :: 0 <= k < |calls| && calls[k].slot == IntroSlot && !IsBlank(calls[k].text))
            <==> NeedsIntroAudio(d) && !IsBlank(d.introduction)
  {
    var ts := Tasks(docId, d);
    var calls := Attempted(ts, world);
    AttemptedPrefix(ts, world);
    var dts := match d.dialogs case None => [] case Some(ds) => DialogTasks(docId, ds);
    assert ts == IntroTasks(docId, d) + dts;
    forall k | 0 <= k < |calls| && calls[k].slot == IntroSlot
      ensures NeedsIntroAudio(d) && calls[k].text == d.introduction
    {
      var t := calls[k];
      assert t == ts[k];
      if !NeedsIntroAudio(d) {
        assert t in dts;
        var ds := d.dialogs.value;
        DialogTasksMembers(docId, ds, t);
        var i :| 0 <= i < |ds| && t in DialogTasksAt(docId, i, ds[i]);
        DialogTaskSlots(docId, i, ds[i], t);
        assert false;
      } else if k > 0 {
        assert t in dts;
        var ds := d.dialogs.value;
        DialogTasksMembers(docId, ds, t);
        var i :| 0 <= i < |ds| && t in DialogTasksAt(docId, i, ds[i]);
        DialogTaskSlots(docId, i, ds[i], t);
        assert false;
      }
    }
    if NeedsIntroAudio(d) {
      assert calls[0].slot == IntroSlot && calls[0].text == d.introduction;
    }
  }

  /** The `introductionAudio` update: present only when newly produced, and then it is the
      public URL of `auto_audio/{docId}/introduction.mp3`. */
  lemma IntroductionUpdate(docId: string, d: QuestionDetail, bucket: string, world: string -> CallEffects)
    requires Handle(Some(d), docId, bucket, world).Finished?
    ensures var u := Handle(Some(d), docId, bucket, world).updates;
            && (u.introductionAudio.Some? <==> NeedsIntroAudio(d) && !IsBlank(d.introduction))
            && (u.introductionAudio.Some? ==> u.introductionAudio.value == PublicUrl(bucket, AudioPath(docId, IntroSlot)))
  {
  }

  // ---------------------------------------------------------------- dialogs and merge

  /** The rebuilt `dialogs` keeps length, order, ids, texts and unknown fields; an audio
      field changes only from empty to the public URL of its own path, never otherwise. */
  lemma NonDestructiveDialogs(docId: string, d: QuestionDetail, bucket: string, world: string -> CallEffects)
    requires Handle(Some(d), docId, bucket, world).Finished?
    ensures var u := Handle(Some(d), docId, bucket, world).updates;
            u.dialogs.Some? <==> d.dialogs.Some?
    ensures var u := Handle(Some(d), docId, bucket, world).updates;
            u.dialogs.Some? ==>
              var ds, nds := d.dialogs.value, u.dialogs.value;
              && |nds| == |ds|
              && forall i :: 0 <= i < |ds| ==>
                   && nds[i].id == ds[i].id && nds[i].extra == ds[i].extra
                   && nds[i].originalText == ds[i].originalText && nds[i].translation == ds[i].translation
                   && (Truthy(ds[i].dialogAudio) ==> nds[i].dialogAudio == ds[i].dialogAudio)
                   && (Truthy(ds[i].translationAudio) ==> nds[i].translationAudio == ds[i].translationAudio)
                   && ((nds[i].dialogAudio != ds[i].dialogAudio) <==>
                         !Truthy(ds[i].dialogAudio) && !IsBlank(ds[i].originalText))
                   && ((nds[i].dialogAudio != ds[i].dialogAudio) ==>
                         nds[i].dialogAudio == PublicUrl(bucket, AudioPath(docId, OriginalSlot(i))))
                   && ((nds[i].translationAudio != ds[i].translationAudio) <==>
                         !Truthy(ds[i].translationAudio) && !IsBlank(ds[i].translation))
                   && ((nds[i].translationAudio != ds[i].translationAudio) ==>
                         nds[i].translationAudio == PublicUrl(bucket, AudioPath(docId, TranslationSlot(i))))
  {
    if d.dialogs.Some? {
      var ds := d.dialogs.value;
      var nds := RebuildDialogs(docId, ds, bucket, world).value;
      forall i | 0 <= i < |ds|
        ensures RebuildDialog(docId, i, ds[i], bucket, world) == Some(nds[i])
      {
        RebuildDialogSpec(docId, i, ds[i], bucket, world);
      }
    }
  }

  /** Whenever `dialogs` is an array the merge write is issued, even if nothing changed. */
  lemma WriteWheneverDialogsArray(docId: string, d: QuestionDetail, bucket: string, world: string -> CallEffects)
    requires Handle(Some(d), docId, bucket, world).Finished?
    ensures WritesDocument(Handle(Some(d), docId, bucket, world)) <==>
            d.dialogs.Some? || Handle(Some(d), docId, bucket, world).updates.introductionAudio.Some?
  {
  }

  // ---------------------------------------------------------------- failure

  lemma DialogsRejectIff(docId: string, ds: seq<Dialog>, bucket: string, world: string -> CallEffects)
    ensures RebuildDialogs(docId, ds, bucket, world).None? <==>
            exists t :: t in DialogTasks(docId, ds) && Fails(t, world)
  {
    if RebuildDialogs(docId, ds, bucket, world).None? {
      var i :| 0 <= i < |ds| && RebuildDialog(docId, i, ds[i], bucket, world).None?;
      DialogTasksAtFailMember(docId, i, ds[i], world);
      var t :| t in DialogTasksAt(docId, i, ds[i]) && Fails(t, world);
      DialogTasksMembers(docId, ds, t);
    } else {
      forall t | t in DialogTasks(docId, ds) ensures !Fails(t, world) {
        DialogTasksMembers(docId, ds, t);
        var i :| 0 <= i < |ds| && t in DialogTasksAt(docId, i, ds[i]);
        DialogTasksAtFailMember(docId, i, ds[i], world);
      }
    }
  }

  /** A thrown speech or upload error anywhere rejects the whole handler. */
  lemma FailureRejects(docId: string, d: QuestionDetail, bucket: string, world: string -> CallEffects)
    ensures Handle(Some(d), docId, bucket, world).Rejected? <==>
            exists t :: t in Tasks(docId, d) && Fails(t, world)
  {
    var ts := Tasks(docId, d);
    var its := IntroTasks(docId, d);
    var dts := match d.dialogs case None => [] case Some(ds) => DialogTasks(docId, ds);
    assert ts == its + dts;
    var introPath := AudioPath(docId, IntroSlot);
    var introFails := NeedsIntroAudio(d) && CallThrows(d.introduction, world(introPath));
    assert introFails <==> exists t :: t in its && Fails(t, world) by {
      if NeedsIntroAudio(d) {
        assert its[0] in its;
      }
    }
    if d.dialogs.Some? {
      DialogsRejectIff(docId, d.dialogs.value, bucket, world);
    }
    assert (exists t :: t in ts && Fails(t, world)) <==>
           (exists t :: t in its && Fails(t, world)) || (exists t :: t in dts && Fails(t, world));
  }

  /** A rejected run writes nothing, and the calls made stop at the one that threw. */
  lemma RejectedWritesNothing(docId: string, d: QuestionDetail, bucket: string, world: string -> CallEffects)
    requires Handle(Some(d), docId, bucket, world).Rejected?
    ensures !WritesDocument(Handle(Some(d), docId, bucket, world))
    ensures var calls := Attempted(Tasks(docId, d), world);
            calls != [] && Fails(calls[|calls| - 1], world)
  {
    var ts := Tasks(docId, d);
    FailureRejects(docId, d, bucket, world);
    var t :| t in ts && Fails(t, world);
    var k :| 0 <= k < |ts| && ts[k] == t;
    LastAttemptedFails(ts, k, world);
  }

  lemma {:induction false} LastAttemptedFails(ts: seq<Task>, k: nat, world: string -> CallEffects)
    requires k < |ts| && Fails(ts[k], world)
    ensures Attempted(ts, world) != [] && Fails(Attempted(ts, world)[|Attempted(ts, world)| - 1], world)
  {
    if !Fails(ts[0], world) {
      LastAttemptedFails(ts[1..], k - 1, world);
    }
  }

  // ---------------------------------------------------------------- fixed point and convergence

  lemma VoicedDialogUnchanged(docId: string, i: nat, dlg: Dialog, bucket: string, world: string -> CallEffects)
    requires DialogVoiced(dlg)
    ensures RebuildDialog(docId, i, dlg, bucket, world) == Some(dlg)
    ensures forall t :: t in DialogTasksAt(docId, i, dlg) ==> IsBlank(t.text)
  {
  }

  lemma BlankTasksWhenVoiced(docId: string, d: QuestionDetail)
    requires AllVoiced(d)
    ensures forall t :: t in Tasks(docId, d) ==> IsBlank(t.text)
  {
    var dts := match d.dialogs case None => [] case Some(ds) => DialogTasks(docId, ds);
    assert Tasks(docId, d) == IntroTasks(docId, d) + dts;
    if d.dialogs.Some? {
      var ds := d.dialogs.value;
      forall t | t in DialogTasks(docId, ds) ensures IsBlank(t.text) {
        DialogTasksMembers(docId, ds, t);
        var i :| 0 <= i < |ds| && t in DialogTasksAt(docId, i, ds[i]);
        DialogTaskSlots(docId, i, ds[i], t);
      }
    }
  }

  /** Fixed point: when every non-blank text already has audio, no request reaches the
      speech API and the merged document equals the input, whatever the world does. */
  lemma FixedPoint(docId: string, d: QuestionDetail, bucket: string, env: Env, world: string -> CallEffects)
    requires AllVoiced(d)
    ensures SpeechRequests(Attempted(Tasks(docId, d), world), env) == []
    ensures Handle(Some(d), docId, bucket, world).Finished?
    ensures Merge(d, Handle(Some(d), docId, bucket, world).updates) == d
  {
    var ts := Tasks(docId, d);
    BlankTasksWhenVoiced(docId, d);
    assert NoneFail(ts, world) by {
      forall k | 0 <= k < |ts| ensures !Fails(ts[k], world) {
        assert ts[k] in ts;
      }
    }
    AttemptedAll(ts, world);
    NoSpeechForBlankCalls(ts, env);
    if d.dialogs.Some? {
      var ds := d.dialogs.value;
      forall i | 0 <= i < |ds| ensures RebuildDialog(docId, i, ds[i], bucket, world) == Some(ds[i]) {
        VoicedDialogUnchanged(docId, i, ds[i], bucket, world);
      }
      var nds := RebuildDialogs(docId, ds, bucket, world).value;
      assert nds == ds;
    }
  }

  /** After a run that finished (every call returned), the merged document has audio for
      every non-blank text. */
  lemma FinishedRunVoicesAll(docId: string, d: QuestionDetail, bucket: string, world: string -> CallEffects)
    requires Handle(Some(d), docId, bucket, world).Finished?
    ensures AllVoiced(Merge(d, Handle(Some(d), docId, bucket, world).updates))
  {
    NonDestructiveDialogs(docId, d, bucket, world);
    IntroductionUpdate(docId, d, bucket, world);
    var m := Merge(d, Handle(Some(d), docId, bucket, world).updates);
    if m.dialogs.Some? {
      var ds, nds := d.dialogs.value, m.dialogs.value;
      forall i | 0 <= i < |nds| ensures DialogVoiced(nds[i]) {
        if !IsBlank(nds[i].originalText) && !Truthy(ds[i].dialogAudio) {
          assert nds[i].dialogAudio == PublicUrl(bucket, AudioPath(docId, OriginalSlot(i)));
        }
        if !IsBlank(nds[i].translation) && !Truthy(ds[i].translationAudio) {
          assert nds[i].translationAudio == PublicUrl(bucket, AudioPath(docId, TranslationSlot(i)));
        }
      }
    }
  }

  /** Convergence: the write of a finished run triggers the handler again, and that second
      run sends nothing to the speech API and writes back the document unchanged. */
  lemma Converges(docId: string, d: QuestionDetail, bucket: string, env: Env,
                  world: string -> CallEffects, world2: string -> CallEffects)
    requires Handle(Some(d), docId, bucket, world).Finished?
    ensures var d2 := Merge(d, Handle(Some(d), docId, bucket, world).updates);
            && SpeechRequests(Attempted(Tasks(docId, d2), world2), env) == []
            && Handle(Some(d2), docId, bucket, world2).Finished?
            && Merge(d2, Handle(Some(d2), docId, bucket, world2).updates) == d2
  {
    FinishedRunVoicesAll(docId, d, bucket, world);
    FixedPoint(docId, Merge(d, Handle(Some(d), docId, bucket, world).updates), bucket, env, world2);
  }
}
