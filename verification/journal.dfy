/**
 * The personal journal: entries are appended when their text has something
 * besides whitespace, and are shown newest date first.
 */
module Journal {
  import opened Replies
  import Text
  import StableSort

  /** `date` is the day's ordinal number (Python's `date.toordinal()`). The text is kept as typed,
      unstripped. */
  datatype JournalEntry = JournalEntry(date: int, text: string)

  const SavedMessage := "Journal entry saved!"
  const EmptyEntryMessage := "Please write something in the journal entry."

  /** Saving an entry: appended at the end exactly when the text is not all whitespace. */
  function Add(entries: seq<JournalEntry>, date: int, text: string): (r: (seq<JournalEntry>, Reply))
    ensures r.1.Success? <==> !Text.AllSpace(text)
    ensures r.1.Success? ==> r.0 == entries + [JournalEntry(date, text)] && r.1.message == SavedMessage
    ensures r.1.Error? ==> r.0 == entries && r.1.message == EmptyEntryMessage
  {
    if Text.Strip(text) != [] then
      (entries + [JournalEntry(date, text)], Success(SavedMessage))
    else
      (entries, Error(EmptyEntryMessage))
  }

  /** Sort key for `sorted(..., key=date, reverse=True)`: a reversed sort that keeps equal keys in
      their original order is a stable ascending sort on the negated date. */
  function NewestFirst(e: JournalEntry): int
  {
    -e.date
  }

  /** The entries of one day, in the order they were saved. */
  function OfDay(entries: seq<JournalEntry>, date: int): seq<JournalEntry>
  {
    StableSort.WithKey(entries, NewestFirst, -date)
  }

  /** The displayed journal: the same entries, latest date first, and the entries of one day in
      the order they were saved. */
  function Display(entries: seq<JournalEntry>): (shown: seq<JournalEntry>)
    ensures multiset(shown) == multiset(entries)
    ensures forall i, j :: 0 <= i < j < |shown| ==> shown[i].date >= shown[j].date
    ensures forall d :: OfDay(shown, d) == OfDay(entries, d)
  {
    StableSort.SortStable(entries, NewestFirst);
    var shown := StableSort.Sort(entries, NewestFirst);
    assert forall i, j :: 0 <= i < j < |shown| ==> NewestFirst(shown[i]) <= NewestFirst(shown[j]);
    shown
  }

  /** Any arrangement with those three properties is the displayed one. */
  lemma DisplayUnique(entries: seq<JournalEntry>, shown: seq<JournalEntry>)
    requires forall i, j :: 0 <= i < j < |shown| ==> shown[i].date >= shown[j].date
    requires forall d :: OfDay(shown, d) == OfDay(entries, d)
    ensures shown == Display(entries)
  {
    forall k
      ensures StableSort.WithKey(shown, NewestFirst, k) == StableSort.WithKey(entries, NewestFirst, k)
    {
      assert OfDay(shown, -k) == OfDay(entries, -k);
    }
    StableSort.StableSortIsSort(shown, entries, NewestFirst);
  }

  /** Entries saved for 2024-01-01 and then for 2024-03-01 are shown March first. */
  lemma TwoDatesScenario(a: string, b: string)
    ensures Display([JournalEntry(738886, a), JournalEntry(738946, b)])
            == [JournalEntry(738946, b), JournalEntry(738886, a)]
  {
    var entries := [JournalEntry(738886, a), JournalEntry(738946, b)];
    var shown := Display(entries);
    assert |shown| == 2;
    assert JournalEntry(738886, a) in multiset(shown) && JournalEntry(738946, b) in multiset(shown);
    assert shown[0].date >= shown[1].date;
  }
}
