# Cancer support app: the page logic, in Dafny

The application is a single Streamlit script (`app.py`). Most of it renders
pages and calls web services. Inside its page handlers sits a small amount
of deterministic decision logic. This project states that logic as pure
functions over explicit inputs and an explicit session record, and proves
what the pages promise about it.

- **Hospital locator.** Only the first geocoding candidate is used. Map
  elements become hospital records, each coordinate taken from the element
  or else from its `center`. Elements without both coordinates are dropped,
  and the name defaults to "Unnamed Hospital". A coordinate of 0 counts as
  missing, as in Python (`Hospitals`).
- **Research and trials.** A single parsed record is coerced into a
  one-element list (`Documents`). Articles and studies are read with their
  field defaults. The PubMed and ClinicalTrials.gov links are built from the
  identifiers. The registry query string is built from the form inputs
  (`Research`, `Trials`).
- **Symptom checker.** The rule table (`Symptoms`).
- **Session scratch lists.**
  - Medications are added with a check for non-empty fields and removed by
    position.
  - Journal entries and appointments are added with a whitespace check and
    shown in stable date order (`Medications`, `Journal`, `Appointments`,
    `StableSort`).
  - `Session` holds these lists together with the current page and applies
    one user action at a time.
- **Routing.**
  - The navbar links carry the page name in the query string.
  - Reading the name back selects `current_page`.
  - `render_page` dispatches a name to its handler (`Routing`).
  - `QueryString` models Python's `urllib.parse.parse_qs(query,
    keep_blank_values=True)`, the parser that reads query parameters.
  - `Text` models the Python string operations used: `strip`, `replace`,
    `join` and `split`.

Web service responses are inputs that have already been parsed. Dates are
day ordinals (`date.toordinal()`). Times of day are microseconds after
midnight. Map coordinates are integer microdegrees.

Two behaviours of the code are easy to miss:
- Medication fields are checked for being non-empty only. They are not
  stripped, so a name made only of spaces is accepted
  (`Medications.BlankNameAccepted`). Journal text and appointment titles
  are stripped before the check.
- Python's `sorted(..., reverse=True)` keeps entries with equal dates in
  insertion order. The journal display is therefore a stable sort on the
  negated date.

## Model

| member | source | states |
|---|---|---|
| Hospitals.ToHospital | app.py:367-376 | a kept element's record has non-zero coordinates; its name is the `name` tag, or "Unnamed Hospital" when the tag is missing |
| Hospitals.Hospitals | app.py:365-376 | the output is never longer than the input, all records have truthy coordinates, and it is empty exactly when no element is kept |
| Hospitals.HospitalsOfOne | app.py:366-376 | a single element yields its record when both coordinates are truthy, and nothing otherwise |
| Hospitals.HospitalsAppend | app.py:365-376 | filtering distributes over concatenation, so provider order is kept |
| Hospitals.KeptExactly | app.py:369-371 | an element is kept iff each coordinate is truthy on the element or on its center; the element's own value wins over the center's |
| Hospitals.CenterFallback | app.py:369-371 | an element with only center coordinates is kept with them; one with neither its own coordinates nor a center is dropped |
| Hospitals.CollectHospitals | app.py:365-376 | the append loop computes exactly the filtered list |
| Hospitals.Geocode | app.py:316-322 | an empty candidate list means "location not found"; only the first candidate is read, and it needs non-empty lat and lon |
| Hospitals.Locate | app.py:316-403 | the outcomes are not located, no hospitals, or the origin with the non-empty filtered list |
| Hospitals.UnknownLocationIgnoresElements | app.py:316-403 | with no geocoding candidate the outcome does not depend on the map provider's answer |
| Hospitals.NewYorkScenario | app.py:316-376 | one geocoded candidate and one named element with a point give exactly that hospital |
| Documents.AsList | app.py:478-481 | a missing key gives the empty list, a single record a one-element list, and a list passes through unchanged |
| Documents.AsListOfShape | app.py:605-608 | coercion undoes the parser's dict-or-list shaping: N records give a list of length N in document order |
| Research.FetchIdsRoundTrip | app.py:469 | the comma-joined batch parameter splits back into exactly the searched identifiers, in order |
| Research.PubMedLinkRoundTrip | app.py:486-487 | the article link gives back the PMID it was built from |
| Research.PubMedLinkInjective | app.py:486-487 | different PMIDs give different links |
| Research.Summarize | app.py:485-487 | the title defaults to "No Title"; the link is the PubMed prefix, the PMID ("" when it is missing) and "/", and gives that PMID back |
| Research.LatestResearch | app.py:464-492 | no identifiers means no articles; otherwise there is one summary per article, and a single article is summarized alone |
| Research.EveryFetchedArticleListed | app.py:478-488 | whatever shape the parser gives the articles, every article is summarized in order |
| Trials.BuildQuery | app.py:573-575 | the query starts with the condition and location clauses; a phase clause follows exactly when the phase is not "All" |
| Trials.BuildQueryPhaseInjective | app.py:573-575 | for a fixed condition and location, the query determines the selected phase |
| Trials.Locations | app.py:616-627 | "Unknown" when there are no countries or an entry is not a record; otherwise the names joined by ", " |
| Trials.LocationsRoundTrip | app.py:616-627 | for any parser shape of a non-empty list of country records whose names have no ',', splitting the locations line at the commas and dropping the space after each gives back every name, in order |
| Trials.LocationsOfOneCountry | app.py:616-623 | a single country record is shown by its own name |
| Trials.TrialLink | app.py:630-631 | the link is "#" exactly when the NCT id is empty; otherwise it is the registry prefix followed by the id |
| Trials.TrialLinkRoundTrip | app.py:630-631 | the trial link gives back the NCT id it was built from |
| Trials.Summarize | app.py:613-631 | title, status and phase default to "No Title", "Status Unknown" and "N/A"; the link encodes the id |
| Trials.FindTrials | app.py:605-639 | no studies means "no trials"; otherwise one summary per study, in order |
| Trials.EveryStudyListed | app.py:605-612 | whatever shape the parser gives N studies, N summaries result |
| Symptoms.Lines | app.py:778-787 | each advice line appears iff its trigger is selected, in the fixed order and at most once; the generic line appears iff nothing triggers |
| Symptoms.Check | app.py:771-790 | an empty selection only warns; otherwise the suggestion is the advice lines and is never empty |
| Symptoms.GenericOnlyWhenNothingTriggers | app.py:778-787 | the generic message is the whole suggestion exactly when no rule fires |
| Symptoms.UrgentLineOnce | app.py:779-780 | selecting both weight loss and pain gives the urgent line exactly once |
| Text.Strip | app.py:854 | strip gives a slice with no whitespace at either end, only whitespace cut off; it is empty iff the text is all whitespace |
| Text.SplitJoin | app.py:469 | splitting a join at a separator that no part contains gives back the parts |
| Medications.Add | app.py:811-820 | the entry is appended at the end (length +1, prefix unchanged) iff all three fields are non-empty; otherwise the list is unchanged |
| Medications.Remove | app.py:830-835 | an index below the length deletes exactly that entry and keeps the rest in order; a larger index is an error that changes nothing |
| Medications.RemoveUndoesAdd | app.py:811-835 | removing at the old length undoes an accepted add |
| Medications.BlankNameAccepted | app.py:812 | a medication name of only spaces passes validation |
| Medications.AspirinScenario | app.py:811-835 | adding Aspirin 100mg daily appends one entry; removing at the new length is rejected |
| Journal.Add | app.py:853-861 | the entry is appended, unstripped, iff its text is not all whitespace; otherwise the journal is unchanged |
| Journal.Display | app.py:863-865 | the display is a permutation of the entries, newest date first, with each day's entries in save order |
| Journal.DisplayUnique | app.py:865 | any arrangement with those properties is the display, so it is what Python's stable sort gives |
| Journal.TwoDatesScenario | app.py:865 | entries for 2024-01-01 and then 2024-03-01 are shown March first |
| Appointments.Add | app.py:887-896 | the appointment is appended iff its title is not all whitespace; otherwise the list is unchanged |
| Appointments.WhenIsLexicographic | app.py:900 | the numeric key orders appointments exactly as the (date, time) tuple does |
| Appointments.Display | app.py:898-900 | the display is a permutation in (date, time) order, with appointments at the same moment in insertion order |
| Appointments.DisplayUnique | app.py:900 | any arrangement with those properties is the display |
| StableSort.Sort | app.py:900 | the sort result is a permutation ordered by key |
| StableSort.SortStable | app.py:865 | the sort keeps the elements of each key in input order |
| StableSort.StablySortedUnique | app.py:900 | two key-ordered sequences that agree on every key's elements are equal |
| StableSort.StableSortIsSort | app.py:865 | every stable sort of a list equals `Sort` |
| QueryString.FirstValue | app.py:221-223 | a query whose first field is `page=v` reads back `v` decoded as the first `page` value |
| Routing.RenderPage | app.py:947-975 | each page name goes to its own handler, and every other name goes to Home |
| Routing.RenderPageDistinguishesPages | app.py:947-975 | distinct pages have distinct handlers |
| Routing.Navigate | app.py:220-227 | no `page` parameter sets Home; otherwise the result is the current page or a page in the list |
| Routing.NavigateReads | app.py:221-225 | a first `page` value without '+' selects itself when it is a listed page and leaves the current page otherwise |
| Routing.AsWrittenLinkRoundTrip | app.py:213-223 | the '+' decoding undoes the navbar's ' '→'+' encoding for names without '+' |
| Routing.AsWrittenValue | app.py:213-222 | the as-written link of a name with no '&', '+' or '%' reads back exactly that name as its only `page` value |
| Routing.AsWrittenLinkNavigates | app.py:213-225 | a name with no '&', '+' or '%' is reached by its as-written link |
| Routing.AsWrittenValueUpToAmpersand | app.py:213-222 | the first `page` value read back from the as-written link of `a & b` is `a` |
| Routing.AsWrittenReadsUpToAmpersand | app.py:213-225 | the as-written link of a name containing '&' reads back only the text before the '&' |
| Routing.AsWrittenEmotionalSupportUnreachable | app.py:198-225 | the as-written link of "Emotional & Social Support" leaves the current page unchanged |
| Routing.AsWrittenInteractiveToolsUnreachable | app.py:199-225 | the as-written link of "Interactive Tools & Extras" leaves the current page unchanged |
| Routing.FormDecodeEncode | app.py:213-223 | form decoding undoes form encoding for every text |
| Routing.LinkValue | app.py:213-222 | a form-encoded link reads back exactly the name as its only `page` value, for every name |
| Routing.LinkNavigates | app.py:213-225 | a form-encoded link selects the page it names, whatever characters the name has apart from '+' |
| Routing.AsWrittenNavbarNavigates | app.py:191-227 | of the navbar's links as the page builds them, each leads to its own page except those of "Emotional & Social Support" and "Interactive Tools & Extras", which leave the current page unchanged |
| Routing.EveryEncodedLinkNavigates | app.py:191-227 | with the names form-encoded (the correction of the finding below), every navbar link leads to its own page from any current page |
| Session.Apply | app.py:802-900 | each action changes only its own part of the state; a form action's list grows by one exactly on success |
| Session.CurrentPageStaysAPage | app.py:187-227 | every action keeps the current page in the page list |
| Session.InitialOnAPage | app.py:187-188 | a fresh session starts on a listed page |

## Findings

| source | as written | input that shows it | evidently intended | confidence | as-written member | corrected member |
|---|---|---|---|---|---|---|
| app.py:213 | the navbar link is `?page=` plus the name with ' ' replaced by '+', and '&' is not escaped | "Emotional & Social Support" gives the query `page=Emotional+&+Social+Support`, which the query parser reads back as "Emotional ". That name is not a page, so `current_page` does not change. "Interactive Tools & Extras" fails the same way | every navbar link selects its own page, for example by form-encoding the name | not executed; medium (assumes the app reads query parameters with `parse_qs`) | Routing.AsWrittenEmotionalSupportUnreachable | Routing.LinkNavigates |

`Routing.AsWrittenHrefs` are the navbar hrefs as the page builds them;
`Routing.EncodedHrefs` are the corrected, form-encoded ones.

## Left out

- HTTP calls are not modelled. This covers the timeouts, `raise_for_status`
  and the exception classification (app.py:300-314, 344-363, 589-600), and
  the research page's unguarded requests (app.py:461, 473). They are network
  I/O; their parsed answers are inputs to the model.
- Parsing XML and JSON is not modelled. Neither are the blanket
  `except Exception` paths (app.py:489-490, 640-641) that such failures
  reach. This includes a present but empty `location_countries` element and
  a `location` that parses to `None`.
- `float()` on the geocoded coordinates (app.py:325-329) and the Overpass
  query text (app.py:332-341) are not modelled. Both involve floating-point
  conversion and formatting. `Hospitals.Origin` keeps the coordinates as
  text.
- The element's tag map is reduced to its `name` entry, the only tag the
  page reads.
- Folium maps, pandas tables, CSS, the HTML markup of the navbar, and the
  static and informational pages are not modelled. They are rendering only.
- The question-answering model and its loading (app.py:20-28, 924-939) are
  not modelled. The model is opaque.
- The financial calculator (app.py:549-553) is not modelled. It is a fixed
  placeholder with no rule to state.
- The persistence of `st.session_state` is not modelled. The state is the
  explicit `Session.State` passed in and returned.
- Widget-side limits are not modelled: the minimum of 0 on the removal
  index becomes a `nat`, and the multiselect's restriction to the listed
  symptoms is not required.
- QueryString.FormDecode: decodes a `%HH` escape as the character with code
  HH (Latin-1). It does not combine escapes of bytes at or above 0x80 into
  UTF-8 characters. Page names are ASCII.
- Routing.Navigate: states only that the result is Home, the current page
  or a listed page. What it selects for a given link is stated by
  `Routing.LinkNavigates`, `Routing.AsWrittenLinkNavigates` and the two
  counterexample lemmas.
- Routing.EveryEncodedLinkNavigates: is about the corrected navbar, whose
  names are form-encoded, not the one app.py:213 builds. The navbar as
  written is stated by `Routing.AsWrittenNavbarNavigates`.
