/**
 * The symptom checker's rule table: which advice lines a selection of
 * symptoms produces, and in which order.
 */
module Symptoms {

  const WeightLoss := "Unintentional Weight Loss"
  const Pain := "Persistent Pain"
  const Fever := "Fever"
  const Swallowing := "Difficulty Swallowing"

  const UrgentLine := "- You have selected symptoms that may warrant a more urgent evaluation.\n"
  const FeverLine := "- Persistent or recurring fever should be discussed with a doctor.\n"
  const SwallowingLine := "- Difficulty swallowing can be related to certain esophageal or throat issues.\n"
  const GenericLine := "- Your selected symptoms are relatively common, but you should still consult a medical professional if they persist or worsen."

  /** Where each advice line may stand in the suggestion; lines appear in increasing rank. */
  function Rank(line: string): int
  {
    if line == UrgentLine then 0
    else if line == FeverLine then 1
    else if line == SwallowingLine then 2
    else if line == GenericLine then 3
    else 4
  }

  predicate Urgent(selected: seq<string>)
  {
    WeightLoss in selected || Pain in selected
  }

  /** The advice lines for a selection: the urgent line iff weight loss or pain is selected, the
      fever line iff fever is, the swallowing line iff difficulty swallowing is, in that order; the
      generic line exactly when none of those applies. No line repeats. */
  function Lines(selected: seq<string>): (lines: seq<string>)
    ensures |lines| >= 1
    ensures UrgentLine in lines <==> Urgent(selected)
    ensures FeverLine in lines <==> Fever in selected
    ensures SwallowingLine in lines <==> Swallowing in selected
    ensures GenericLine in lines <==> !Urgent(selected) && Fever !in selected && Swallowing !in selected
    ensures forall i, j :: 0 <= i < j < |lines| ==> Rank(lines[i]) < Rank(lines[j])
    ensures forall i :: 0 <= i < |lines| ==> Rank(lines[i]) < 4
  {
    var triggered :=
      (if Urgent(selected) then [UrgentLine] else [])
      + (if Fever in selected then [FeverLine] else [])
      + (if Swallowing in selected then [SwallowingLine] else []);
    if triggered == [] then [GenericLine] else triggered
  }

  /** Concatenation of the advice lines into the text shown. */
  function Concat(lines: seq<string>): string
  {
    if lines == [] then [] else lines[0] + Concat(lines[1..])
  }

  datatype CheckOutcome = PleaseSelect | Suggestion(text: string)

  /** Pressing "Check": an empty selection only warns; otherwise the suggestion is the advice lines
      in order, and it is never empty. */
  function Check(selected: seq<string>): (r: CheckOutcome)
    ensures r.PleaseSelect? <==> selected == []
    ensures r.Suggestion? ==> r.text != [] && r.text == Concat(Lines(selected))
  {
    if selected == [] then PleaseSelect
    else
      var lines := Lines(selected);
      assert Concat(lines) == lines[0] + Concat(lines[1..]);
      Suggestion(Concat(lines))
  }

  /** The generic message is the whole suggestion exactly when no rule fires. */
  lemma GenericOnlyWhenNothingTriggers(selected: seq<string>)
    requires selected != []
    ensures Check(selected) == Suggestion(GenericLine)
            <==> !Urgent(selected) && Fever !in selected && Swallowing !in selected
  {
    var lines := Lines(selected);
    if !Urgent(selected) && Fever !in selected && Swallowing !in selected {
      assert lines == [GenericLine];
      assert Concat(lines) == GenericLine + Concat([]);
    } else {
      assert lines[0] != GenericLine;
      assert |lines[0]| < |GenericLine| by {
        assert lines[0] in {UrgentLine, FeverLine, SwallowingLine};
      }
      assert Concat(lines) == lines[0] + Concat(lines[1..]);
      assert Concat(lines)[..|lines[0]|] == lines[0];
    }
  }

  /** Selecting both weight loss and pain still gives the urgent line once. */
  lemma UrgentLineOnce(selected: seq<string>)
    requires WeightLoss in selected && Pain in selected
    ensures multiset(Lines(selected))[UrgentLine] == 1
  {
    var lines := Lines(selected);
    assert lines[0] == UrgentLine;
    forall i | 1 <= i < |lines|
      ensures lines[i] != UrgentLine
    {
      assert Rank(lines[0]) < Rank(lines[i]);
    }
    assert lines == [lines[0]] + lines[1..];
    assert UrgentLine !in lines[1..];
  }
}
