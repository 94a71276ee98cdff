/**
 * `FieldModel::getSessionFields` (lines 56-62 of
 * app/bundles/FormBundle/Model/FieldModel.php): the form builder keeps the
 * fields being edited, and the ids of the fields deleted, in the session
 * until the form is saved; the fields to show are the first minus the second.
 */
module FieldModel {
  import opened Wrappers
  import opened PhpArray

  /**
   * The session as the form builder uses it: under some keys an array of
   * fields keyed by field id, under others a list of field ids. `F` is a
   * field's (opaque) properties.
   */
  datatype Session<F> = Session(fieldMaps: map<string, Arr<F>>, idLists: map<string, seq<Key>>)

  /** Line 59: where the fields being edited of form `formId` are kept. */
  function ModifiedKey(formId: string): string
  {
    "mautic.form." + formId + ".fields.modified"
  }

  /** Line 60: where the ids of the deleted fields of form `formId` are kept. */
  function DeletedKey(formId: string): string
  {
    "mautic.form." + formId + ".fields.deleted"
  }

  /** Lines 59-60: `$session->get($key, array())`. */
  function Modified<F>(session: Session<F>, formId: string): Arr<F>
  {
    if ModifiedKey(formId) in session.fieldMaps then session.fieldMaps[ModifiedKey(formId)] else []
  }

  function Deleted<F>(session: Session<F>, formId: string): seq<Key>
  {
    if DeletedKey(formId) in session.idLists then session.idLists[DeletedKey(formId)] else []
  }

  /**
   * Line 61: the modified fields whose id is not among the deleted ids, in
   * their stored order and with their stored properties.
   */
  function GetSessionFields<F>(session: Session<F>, formId: string): (r: Arr<F>)
    ensures forall i :: 0 <= i < |r| ==> r[i] in Modified(session, formId)
    ensures forall k :: k in KeyList(r) <==> k in KeyList(Modified(session, formId)) && k !in Deleted(session, formId)
    ensures forall k :: Get(r, k) == if k in Deleted(session, formId) then None else Get(Modified(session, formId), k)
    ensures Subsequence(r, Modified(session, formId))
  {
    DiffKey(Modified(session, formId), Deleted(session, formId))
  }

  /** With no deleted ids stored for the form, every modified field is returned as stored. */
  lemma NothingDeletedKeepsAll<F>(session: Session<F>, formId: string)
    requires DeletedKey(formId) !in session.idLists
    ensures GetSessionFields(session, formId) == Modified(session, formId)
  {
    DiffKeyNothing(Modified(session, formId), []);
  }

  /** With no modified fields stored for the form, there is nothing to return. */
  lemma NothingModifiedNothingReturned<F>(session: Session<F>, formId: string)
    requires ModifiedKey(formId) !in session.fieldMaps
    ensures GetSessionFields(session, formId) == []
  {
  }

  /** Deleted ids that name no modified field change nothing. */
  lemma StrayDeletedIdsIgnored<F>(session: Session<F>, formId: string, stray: seq<Key>)
    requires forall k :: k in stray ==> k !in KeyList(Modified(session, formId))
    ensures var s' := session.(idLists := session.idLists[DeletedKey(formId) := Deleted(session, formId) + stray]);
      GetSessionFields(s', formId) == GetSessionFields(session, formId)
  {
    var s' := session.(idLists := session.idLists[DeletedKey(formId) := Deleted(session, formId) + stray]);
    assert Modified(s', formId) == Modified(session, formId);
    DiffKeyOnlyPresentKeys(Modified(session, formId), Deleted(session, formId) + stray, Deleted(session, formId));
  }

  /** Suffix of both session keys after the form id. */
  lemma {:induction false} KeysOfFormsDiffer(a: string, b: string, tail: string)
    requires "mautic.form." + a + tail == "mautic.form." + b + tail
    ensures a == b
  {
    var p := "mautic.form.";
    assert |a| == |b|;
    assert a == (p + a + tail)[|p|..|p| + |a|];
    assert b == (p + b + tail)[|p|..|p| + |b|];
  }

  /** Two forms never share a session entry, and a form's two entries are distinct. */
  lemma SessionKeysSeparate(a: string, b: string)
    ensures ModifiedKey(a) == ModifiedKey(b) ==> a == b
    ensures DeletedKey(a) == DeletedKey(b) ==> a == b
    ensures ModifiedKey(a) != DeletedKey(b)
  {
    if ModifiedKey(a) == ModifiedKey(b) { KeysOfFormsDiffer(a, b, ".fields.modified"); }
    if DeletedKey(a) == DeletedKey(b) { KeysOfFormsDiffer(a, b, ".fields.deleted"); }
    var m := ModifiedKey(a);
    var d := DeletedKey(b);
    if |m| == |d| {
      assert m[|m| - 3] == 'i';
      assert d[|d| - 3] == 't';
    }
  }
}
