/**
 * The clinical-trials page: the registry query string built from the form,
 * and the fields read from every study of the registry's answer.
 */
module Trials {
  import opened Wrappers
  import Text
  import Documents

  const AllPhases := "All"

  const DefaultTitle := "No Title"
  const DefaultStatus := "Status Unknown"
  const DefaultPhase := "N/A"
  const UnknownLocation := "Unknown"
  const TrialPrefix := "https://clinicaltrials.gov/ct2/show/"
  const NoLink := "#"

  /** The clause pair every query starts with. */
  function BaseQuery(condition: string, location: string): string
  {
    condition + "[Condition] AND " + location + "[Location]"
  }

  /** The registry's search expression: condition and location clauses, and a phase clause unless
      the phase is "All". */
  function BuildQuery(condition: string, location: string, phase: string): (q: string)
    ensures |q| >= |BaseQuery(condition, location)|
    ensures q[..|BaseQuery(condition, location)|] == BaseQuery(condition, location)
    ensures phase == AllPhases <==> |q| == |BaseQuery(condition, location)|
    ensures phase != AllPhases ==> q[|BaseQuery(condition, location)|..] == " AND " + phase + "[Phase]"
  {
    var q := BaseQuery(condition, location);
    if phase != AllPhases then q + " AND " + phase + "[Phase]" else q
  }

  /** For a fixed condition and location, different phases give different queries, so the query
      always tells which phase was selected. */
  lemma BuildQueryPhaseInjective(condition: string, location: string, p1: string, p2: string)
    ensures BuildQuery(condition, location, p1) == BuildQuery(condition, location, p2) ==> p1 == p2
  {
    var n := |BaseQuery(condition, location)|;
    var q1 := BuildQuery(condition, location, p1);
    var q2 := BuildQuery(condition, location, p2);
    if q1 == q2 && p1 != AllPhases && p2 != AllPhases {
      var t1 := " AND " + p1 + "[Phase]";
      var t2 := " AND " + p2 + "[Phase]";
      assert t1 == q1[n..] == t2;
      assert p1 == t1[5..|t1| - 7];
      assert p2 == t2[5..|t2| - 7];
    }
  }

  /** One entry of `location_countries`: normally a record with an optional `location` field; a
      bare text entry makes `loc.get` raise, which the page catches. */
  datatype Country = CountryRecord(location: Option<string>) | CountryText(text: string)

  /** The study fields the page reads; `nctId` is `id_info.nct_id`. */
  datatype Study = Study(
    title: Option<string>,
    status: Option<string>,
    phase: Option<string>,
    countries: Option<Documents.OneOrMany<Country>>,
    nctId: Option<string>)

  datatype TrialSummary = TrialSummary(title: string, status: string, phase: string, locations: string, link: string)

  datatype TrialsOutcome = NoTrials | Trials(summaries: seq<TrialSummary>)

  /** Each country's name, "Unknown" where it has none. */
  function CountryNames(cs: seq<Country>): seq<string>
    requires forall k :: 0 <= k < |cs| ==> cs[k].CountryRecord?
  {
    seq(|cs|, k requires 0 <= k < |cs| => cs[k].location.GetOr(UnknownLocation))
  }

  /** The locations line: the country names joined by ", "; "Unknown" when there are no countries
      or when an entry is not a record. */
  function Locations(countries: Option<Documents.OneOrMany<Country>>): (line: string)
    ensures Documents.AsList(countries) == [] ==> line == UnknownLocation
    ensures (exists k :: 0 <= k < |Documents.AsList(countries)| && Documents.AsList(countries)[k].CountryText?)
            ==> line == UnknownLocation
    ensures (forall k :: 0 <= k < |Documents.AsList(countries)| ==> Documents.AsList(countries)[k].CountryRecord?)
            && Documents.AsList(countries) != []
            ==> line == Text.Join(", ", CountryNames(Documents.AsList(countries)))
  {
    var cs := Documents.AsList(countries);
    if cs == [] then UnknownLocation
    else if exists k :: 0 <= k < |cs| && cs[k].CountryText? then UnknownLocation
    else Text.Join(", ", CountryNames(cs))
  }

  /** Reads the country names back from a locations line: the pieces between the commas, each
      after the first without the space that follows its comma. */
  function LocationNames(line: string): seq<string>
  {
    NamesOfPieces(Text.Split(line, ','))
  }

  /** The first piece as it is, the others without their first character. */
  function NamesOfPieces(pieces: seq<string>): seq<string>
    requires pieces != []
  {
    [pieces[0]] + seq(|pieces| - 1, k requires 0 <= k < |pieces| - 1 =>
                        if pieces[k + 1] == [] then [] else pieces[k + 1][1..])
  }

  /** However the parser shaped them, the locations line of country records whose names have no
      comma gives back exactly the names, in order. */
  lemma LocationsRoundTrip(cs: seq<Country>)
    requires cs != []
    requires forall k :: 0 <= k < |cs| ==> cs[k].CountryRecord?
    requires forall k :: 0 <= k < |cs| ==> ',' !in cs[k].location.GetOr(UnknownLocation)
    ensures LocationNames(Locations(Documents.Shape(cs))) == CountryNames(cs)
  {
    Documents.AsListOfShape(cs);
    assert !exists k :: 0 <= k < |cs| && cs[k].CountryText?;
    LocationNamesOfJoin(CountryNames(cs));
  }

  /** Names without commas joined by ", " are read back by `LocationNames`. */
  lemma LocationNamesOfJoin(names: seq<string>)
    requires names != []
    requires forall k :: 0 <= k < |names| ==> ',' !in names[k]
    ensures LocationNames(Text.Join(", ", names)) == names
  {
    assert ", " == [','] + " ";
    Text.SplitJoinLongSeparator(',', " ", names);
    NamesOfSpacedPieces(names);
  }

  lemma NamesOfSpacedPieces(names: seq<string>)
    requires names != []
    ensures NamesOfPieces([names[0]] + Text.PrefixEach(" ", names[1..])) == names
  {
    var pieces := [names[0]] + Text.PrefixEach(" ", names[1..]);
    var r := NamesOfPieces(pieces);
    forall k | 0 <= k < |names|
      ensures r[k] == names[k]
    {
      if k > 0 {
        assert pieces[k] == " " + names[k];
      }
    }
  }

  /** A single country record is shown by its own name. */
  lemma LocationsOfOneCountry(name: Option<string>)
    ensures Locations(Some(Documents.Single(CountryRecord(name)))) == name.GetOr(UnknownLocation)
  {
  }

  /** The registry page of a trial, or "#" when the study has no identifier. */
  function TrialLink(nctId: string): (link: string)
    ensures nctId == [] <==> link == NoLink
    ensures nctId != [] ==> (&& |link| == |TrialPrefix| + |nctId|
                             && link[..|TrialPrefix|] == TrialPrefix
                             && link[|TrialPrefix|..] == nctId)
  {
    if nctId != [] then TrialPrefix + nctId else NoLink
  }

  /** Reads the identifier back out of a trial link. */
  function LinkNctId(link: string): string
  {
    if link == NoLink || |link| < |TrialPrefix| then [] else link[|TrialPrefix|..]
  }

  /** The link is determined by the identifier and determines it in turn. */
  lemma TrialLinkRoundTrip(nctId: string)
    ensures LinkNctId(TrialLink(nctId)) == nctId
  {
  }

  /** Per-study fields with their defaults. */
  function Summarize(s: Study): (t: TrialSummary)
    ensures s.title.None? ==> t.title == DefaultTitle
    ensures s.title.Some? ==> t.title == s.title.value
    ensures s.status.None? ==> t.status == DefaultStatus
    ensures s.status.Some? ==> t.status == s.status.value
    ensures s.phase.None? ==> t.phase == DefaultPhase
    ensures s.phase.Some? ==> t.phase == s.phase.value
    ensures t.locations == Locations(s.countries)
    ensures LinkNctId(t.link) == s.nctId.GetOr("")
    ensures t.link == NoLink <==> s.nctId.GetOr("") == []
  {
    TrialLinkRoundTrip(s.nctId.GetOr(""));
    TrialSummary(s.title.GetOr(DefaultTitle), s.status.GetOr(DefaultStatus), s.phase.GetOr(DefaultPhase),
                 Locations(s.countries), TrialLink(s.nctId.GetOr("")))
  }

  /** The page after the registry answered: the studies, a single one coerced to a list; none is
      "no trials found". */
  function FindTrials(studies: Option<Documents.OneOrMany<Study>>): (r: TrialsOutcome)
    ensures r.NoTrials? <==> Documents.AsList(studies) == []
    ensures r.Trials? ==> |r.summaries| == |Documents.AsList(studies)|
    ensures r.Trials? ==> forall k :: 0 <= k < |r.summaries| ==> r.summaries[k] == Summarize(Documents.AsList(studies)[k])
  {
    var list := Documents.AsList(studies);
    if list == [] then NoTrials
    else Trials(seq(|list|, k requires 0 <= k < |list| => Summarize(list[k])))
  }

  /** However the parser shaped the studies, each study yields one summary, in document order. */
  lemma EveryStudyListed(studies: seq<Study>)
    requires studies != []
    ensures FindTrials(Documents.Shape(studies)).Trials?
    ensures |FindTrials(Documents.Shape(studies)).summaries| == |studies|
  {
    Documents.AsListOfShape(studies);
  }
}
