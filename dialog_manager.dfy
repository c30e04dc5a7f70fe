/**
 * The dialog list editor of the admin form: append a blank dialog, set one field of the
 * dialogs with an id, drop the dialogs with an id, and the single expanded-dialog slot.
 */
module DialogManager {
  import opened Wrappers
  import opened JsStrings
  import opened QuestionContent

  /** `dialog_${Date.now()}`; the clock reading is a parameter. */
  function NewDialogId(now: nat): string {
    "dialog_" + NatToString(now)
  }

  function NewDialog(now: nat): Dialog {
    Dialog(NewDialogId(now), "", "", "", "", map[])
  }

  /** `[...dialogs, newDialog]`. */
  function Appended(ds: seq<Dialog>, now: nat): (r: seq<Dialog>)
    ensures |r| == |ds| + 1 && r[..|ds|] == ds
    ensures var n := r[|ds|];
            n.id == NewDialogId(now) && n.originalText == "" && n.dialogAudio == ""
            && n.translation == "" && n.translationAudio == "" && n.extra == map[]
  {
    ds + [NewDialog(now)]
  }

  /** `dialogs.map(d => d.id === id ? { ...d, [field]: value } : d)`. */
  function Updated(ds: seq<Dialog>, id: string, field: DialogField, value: string): seq<Dialog> {
    seq(|ds|, i requires 0 <= i < |ds| => if ds[i].id == id then WithField(ds[i], field, value) else ds[i])
  }

  /** `dialogs.filter(d => d.id !== id)`. */
  function Removed(ds: seq<Dialog>, id: string): (r: seq<Dialog>)
    ensures |r| <= |ds|
    ensures forall k :: 0 <= k < |r| ==> r[k].id != id
  {
    if ds == [] then []
    else Removed(ds[..|ds| - 1], id) + (if ds[|ds| - 1].id == id then [] else [ds[|ds| - 1]])
  }

  /** `expandedDialog === id ? null : id`. */
  function Toggled(expanded: Option<string>, id: string): Option<string> {
    if expanded == Some(id) then None else Some(id)
  }

  predicate HasId(ds: seq<Dialog>, id: string) {
    exists k :: 0 <= k < |ds| && ds[k].id == id
  }

  /** Only the named field of the dialogs with that id changes; length, order and every
      other dialog stay; an id no dialog has leaves the list equal. */
  lemma UpdatedSpec(ds: seq<Dialog>, id: string, field: DialogField, value: string)
    ensures var r := Updated(ds, id, field, value);
            && |r| == |ds|
            && (forall i :: 0 <= i < |ds| && ds[i].id != id ==> r[i] == ds[i])
            && (forall i :: 0 <= i < |ds| && ds[i].id == id ==>
                  && FieldValue(r[i], field) == value && r[i].id == id && r[i].extra == ds[i].extra
                  && forall f :: f != field ==> FieldValue(r[i], f) == FieldValue(ds[i], f))
    ensures !HasId(ds, id) ==> Updated(ds, id, field, value) == ds
  {
  }

  /** Removal keeps the relative order: it distributes over concatenation. */
  lemma {:induction false} RemovedConcat(a: seq<Dialog>, b: seq<Dialog>, id: string)
    ensures Removed(a + b, id) == Removed(a, id) + Removed(b, id)
  {
    if b != [] {
      var n := |b| - 1;
      RemovedConcat(a, b[..n], id);
      assert (a + b)[..|a + b| - 1] == a + b[..n];
    } else {
      assert a + b == a;
    }
  }

  /** Removal loses no dialog with another id, and adds none. */
  lemma {:induction false} RemovedKeepsOthers(ds: seq<Dialog>, id: string)
    ensures forall k :: 0 <= k < |ds| && ds[k].id != id ==> ds[k] in Removed(ds, id)
    ensures forall x :: x in Removed(ds, id) ==> x in ds
  {
    if ds != [] {
      var n := |ds| - 1;
      var pre := ds[..n];
      RemovedKeepsOthers(pre, id);
      var tail := if ds[n].id == id then [] else [ds[n]];
      assert Removed(ds, id) == Removed(pre, id) + tail;
      forall k | 0 <= k < n && ds[k].id != id ensures ds[k] in Removed(ds, id) {
        assert pre[k] == ds[k];
      }
    }
  }

  /** An id no dialog has leaves the list equal. */
  lemma {:induction false} RemovedAbsent(ds: seq<Dialog>, id: string)
    requires !HasId(ds, id)
    ensures Removed(ds, id) == ds
  {
    if ds != [] {
      var n := |ds| - 1;
      var pre := ds[..n];
      assert !HasId(pre, id) by {
        forall k | 0 <= k < n ensures pre[k].id != id {
          assert pre[k] == ds[k];
        }
      }
      RemovedAbsent(pre, id);
      assert ds == pre + [ds[n]];
    }
  }

  /** Removing a freshly added dialog, whose id was not already present, restores the list. */
  lemma RemoveAfterAppend(ds: seq<Dialog>, now: nat)
    requires !HasId(ds, NewDialogId(now))
    ensures Removed(Appended(ds, now), NewDialogId(now)) == ds
  {
    var r := Appended(ds, now);
    RemovedAbsent(ds, NewDialogId(now));
    assert r[..|r| - 1] == ds;
  }

  /** Toggling twice closes the slot unless it held that id. */
  lemma ToggledTwice(expanded: Option<string>, id: string)
    ensures Toggled(expanded, id) == (if expanded == Some(id) then None else Some(id))
    ensures Toggled(Toggled(expanded, id), id) == (if expanded == Some(id) then Some(id) else None)
  {
  }

  /** The editor: the list it hands back through `onDialogsChange` and `expandedDialog`. */
  class DialogList {
    var dialogs: seq<Dialog>
    var expandedDialog: Option<string>

    constructor(dialogs: seq<Dialog>)
      ensures this.dialogs == dialogs && expandedDialog == None
    {
      this.dialogs := dialogs;
      expandedDialog := None;
    }

    method AddNewDialog(now: nat)
      modifies this
      ensures dialogs == Appended(old(dialogs), now)
      ensures expandedDialog == Some(NewDialogId(now))
    {
      var newDialog := NewDialog(now);
      dialogs := dialogs + [newDialog];
      expandedDialog := Some(newDialog.id);
    }

    method UpdateDialog(id: string, field: DialogField, value: string)
      modifies this
      ensures dialogs == Updated(old(dialogs), id, field, value)
      ensures expandedDialog == old(expandedDialog)
    {
      dialogs := Updated(dialogs, id, field, value);
    }

    method RemoveDialog(id: string)
      modifies this
      ensures dialogs == Removed(old(dialogs), id)
      ensures expandedDialog == None
    {
      dialogs := Removed(dialogs, id);
      expandedDialog := None;
    }

    method ToggleExpanded(id: string)
      modifies this
      ensures expandedDialog == Toggled(old(expandedDialog), id)
      ensures dialogs == old(dialogs)
    {
      expandedDialog := if expandedDialog == Some(id) then None else Some(id);
    }

    /** An upload's URL goes into the named audio field through `updateDialog`. */
    method HandleAudioUpload(id: string, audioType: DialogField, url: string)
      modifies this
      ensures dialogs == Updated(old(dialogs), id, audioType, url)
      ensures expandedDialog == old(expandedDialog)
    {
      UpdateDialog(id, audioType, url);
    }
  }
}
