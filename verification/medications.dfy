/**
 * The medication tracker: a session list of medications, added from a form
 * whose three fields must be non-empty, and removed by position.
 */
module Medications {
  import opened Replies

  datatype Medication = Medication(name: string, dosage: string, frequency: string)

  const AddedMessage := "Medication added successfully!"
  const MissingFieldMessage := "Please fill in all fields."
  const RemovedMessage := "Medication removed."
  const InvalidIndexMessage := "Invalid index. Cannot remove."

  /** Submitting the form: the entry is appended at the end exactly when all three fields are
      non-empty (the fields are not stripped); otherwise the list is unchanged. */
  function Add(meds: seq<Medication>, name: string, dosage: string, frequency: string)
    : (r: (seq<Medication>, Reply))
    ensures r.1.Success? <==> name != [] && dosage != [] && frequency != []
    ensures r.1.Success? ==> (&& |r.0| == |meds| + 1
                              && r.0[..|meds|] == meds
                              && r.0[|meds|] == Medication(name, dosage, frequency)
                              && r.1.message == AddedMessage)
    ensures r.1.Error? ==> r.0 == meds && r.1.message == MissingFieldMessage
  {
    if name != [] && dosage != [] && frequency != [] then
      (meds + [Medication(name, dosage, frequency)], Success(AddedMessage))
    else
      (meds, Error(MissingFieldMessage))
  }

  /** `medications.pop(index)`: an index inside the list deletes exactly that entry, the others
      keeping their order; an index past the end is rejected and changes nothing. */
  function Remove(meds: seq<Medication>, index: nat): (r: (seq<Medication>, Reply))
    ensures r.1.Success? <==> index < |meds|
    ensures r.1.Success? ==> (&& |r.0| == |meds| - 1
                              && (forall j :: 0 <= j < index ==> r.0[j] == meds[j])
                              && (forall j :: index <= j < |r.0| ==> r.0[j] == meds[j + 1])
                              && multiset(r.0) + multiset{meds[index]} == multiset(meds)
                              && r.1.message == RemovedMessage)
    ensures r.1.Error? ==> r.0 == meds && r.1.message == InvalidIndexMessage
  {
    if index < |meds| then
      assert meds == meds[..index] + [meds[index]] + meds[index + 1..];
      (meds[..index] + meds[index + 1..], Success(RemovedMessage))
    else
      (meds, Error(InvalidIndexMessage))
  }

  /** Removing the entry just added, at the old length, restores the list. */
  lemma RemoveUndoesAdd(meds: seq<Medication>, name: string, dosage: string, frequency: string)
    requires name != [] && dosage != [] && frequency != []
    ensures Remove(Add(meds, name, dosage, frequency).0, |meds|) == (meds, Success(RemovedMessage))
  {
    var added := Add(meds, name, dosage, frequency).0;
    assert added == meds + [Medication(name, dosage, frequency)];
    assert added[..|meds|] == meds;
    assert added[|meds| + 1..] == [];
    assert added[..|meds|] + added[|meds| + 1..] == meds;
  }

  /** Unlike the journal and the appointments, a medication whose name is only spaces is accepted. */
  lemma BlankNameAccepted(meds: seq<Medication>)
    ensures Add(meds, " ", "100mg", "daily").1.Success?
  {
  }

  /** Adding Aspirin 100mg daily appends exactly one entry at the end; removing at the length of
      the list afterwards is rejected. */
  lemma AspirinScenario(meds: seq<Medication>)
    ensures var (after, reply) := Add(meds, "Aspirin", "100mg", "daily");
      && reply.Success?
      && after == meds + [Medication("Aspirin", "100mg", "daily")]
      && Remove(after, |after|) == (after, Error(InvalidIndexMessage))
  {
    var after := Add(meds, "Aspirin", "100mg", "daily").0;
    assert after == after[..|meds|] + [after[|meds|]];
  }
}
