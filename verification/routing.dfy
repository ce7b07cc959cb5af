/**
 * Page navigation: the navbar's links, reading the selected page back from
 * the query string into `current_page`, and dispatching a page name to its
 * handler.
 */
module Routing {
  import Text
  import QueryString

  const Home := "Home"

  const Pages: seq<string> := [
    "Home",
    "Locate Hospitals",
    "Accommodation Resources",
    "Latest Research",
    "Financial Support",
    "Clinical Trials",
    "Emotional & Social Support",
    "Interactive Tools & Extras",
    "Symptom Checker",
    "Medication Tracker",
    "Personal Journal",
    "Appointment Scheduler",
    "AI Chatbot (Beta)"
  ]

  /** The page handlers, one per entry of `Pages`. */
  datatype Handler =
    | HomePage | LocateHospitals | AccommodationResources | LatestResearch | FinancialSupport
    | ClinicalTrials | EmotionalSocialSupport | InteractiveToolsExtras | SymptomChecker
    | MedicationTracker | PersonalJournal | AppointmentScheduler | AiChatbot

  const Handlers: seq<Handler> := [
    HomePage, LocateHospitals, AccommodationResources, LatestResearch, FinancialSupport,
    ClinicalTrials, EmotionalSocialSupport, InteractiveToolsExtras, SymptomChecker,
    MedicationTracker, PersonalJournal, AppointmentScheduler, AiChatbot
  ]

  /** The chain of comparisons in `render_page`. */
  function RenderPage(name: string): (h: Handler)
    ensures forall i :: 0 <= i < |Pages| && Pages[i] == name ==> h == Handlers[i]
    ensures name !in Pages ==> h == HomePage
  {
    if name == "Home" then HomePage
    else if name == "Locate Hospitals" then LocateHospitals
    else if name == "Accommodation Resources" then AccommodationResources
    else if name == "Latest Research" then LatestResearch
    else if name == "Financial Support" then FinancialSupport
    else if name == "Clinical Trials" then ClinicalTrials
    else if name == "Emotional & Social Support" then EmotionalSocialSupport
    else if name == "Interactive Tools & Extras" then InteractiveToolsExtras
    else if name == "Symptom Checker" then SymptomChecker
    else if name == "Medication Tracker" then MedicationTracker
    else if name == "Personal Journal" then PersonalJournal
    else if name == "Appointment Scheduler" then AppointmentScheduler
    else if name == "AI Chatbot (Beta)" then AiChatbot
    else HomePage
  }

  /** Every page has its own handler: distinct pages render differently. */
  lemma RenderPageDistinguishesPages(i: nat, j: nat)
    requires i < |Pages| && j < |Pages| && i != j
    ensures RenderPage(Pages[i]) != RenderPage(Pages[j])
  {
    HandlersIndexed();
    assert RenderPage(Pages[i]) == Handlers[i];
    assert RenderPage(Pages[j]) == Handlers[j];
  }

  /** The position of a handler in `Handlers`. */
  function HandlerIndex(h: Handler): nat
  {
    match h
    case HomePage => 0
    case LocateHospitals => 1
    case AccommodationResources => 2
    case LatestResearch => 3
    case FinancialSupport => 4
    case ClinicalTrials => 5
    case EmotionalSocialSupport => 6
    case InteractiveToolsExtras => 7
    case SymptomChecker => 8
    case MedicationTracker => 9
    case PersonalJournal => 10
    case AppointmentScheduler => 11
    case AiChatbot => 12
  }

  /** No handler appears twice in `Handlers`. */
  lemma HandlersIndexed()
    ensures forall i :: 0 <= i < |Handlers| ==> HandlerIndex(Handlers[i]) == i
  {
  }

  /** The `page` value of the query as the app reads it (`query_params['page'][0]` with '+'
      replaced by a space) and the page it selects: no `page` parameter means Home, a name outside
      `Pages` leaves the current page. */
  function Navigate(current: string, query: string): (next: string)
    ensures QueryString.Values(query, "page") == [] ==> next == Home
    ensures QueryString.Values(query, "page") != [] ==> next == current || next in Pages
  {
    var values := QueryString.Values(query, "page");
    if values == [] then Home
    else
      var selected := Text.Replace(values[0], '+', ' ');
      if selected in Pages then selected else current
  }

  /** The link query of a navbar entry as the page builds it: spaces become '+', nothing else is
      escaped. */
  function AsWrittenQuery(page: string): string
  {
    "page=" + Text.Replace(page, ' ', '+')
  }

  lemma AsWrittenLinkRoundTrip(page: string)
    requires '+' !in page
    ensures Text.Replace(Text.Replace(page, ' ', '+'), '+', ' ') == page
  {
    Text.ReplaceRoundTrip(page, ' ', '+');
  }

  /** A `page` value without '+' selects itself when it names a page and leaves the current page
      otherwise. */
  lemma NavigateReads(current: string, query: string, v: string)
    requires QueryString.Values(query, "page") != [] && QueryString.Values(query, "page")[0] == v
    requires '+' !in v
    ensures Navigate(current, query) == if v in Pages then v else current
  {
    NoPlusUnchanged(v);
  }

  /** Replacing '+' changes nothing in a text without '+'. */
  lemma NoPlusUnchanged(s: string)
    requires '+' !in s
    ensures Text.Replace(s, '+', ' ') == s
  {
  }

  /** A name with spaces written as '+' decodes back to the name. */
  lemma {:induction false} FormDecodeSpaces(s: string)
    requires '+' !in s && '%' !in s
    ensures QueryString.FormDecode(Text.Replace(s, ' ', '+')) == s
  {
    if s != [] {
      var v := Text.Replace(s, ' ', '+');
      assert v[1..] == Text.Replace(s[1..], ' ', '+');
      FormDecodeSpaces(s[1..]);
      assert s == [s[0]] + s[1..];
    }
  }

  /** The `page` values of the as-written link of a name with no '&': just the name. */
  lemma AsWrittenValue(page: string)
    requires '&' !in page && '+' !in page && '%' !in page
    ensures QueryString.Values(AsWrittenQuery(page), "page") == [page]
  {
    var v := Text.Replace(page, ' ', '+');
    assert '&' !in v;
    AsWrittenQueryField(page);
    QueryString.FormDecodePlain("page");
    QueryString.FirstValue("page", v, "");
    FormDecodeSpaces(page);
  }

  /** The as-written link is the single field `page=` followed by the '+'-spaced name. */
  lemma AsWrittenQueryField(page: string)
    ensures AsWrittenQuery(page) == "page" + "=" + Text.Replace(page, ' ', '+')
  {
  }

  /** Where the name has no '&', '+' or '%', the as-written link selects its page. */
  lemma AsWrittenLinkNavigates(current: string, page: string)
    requires '&' !in page && '+' !in page && '%' !in page
    ensures Navigate(current, AsWrittenQuery(page)) == if page in Pages then page else current
  {
    AsWrittenValue(page);
    NavigateReads(current, AsWrittenQuery(page), page);
  }

  /** The as-written link of a name with an '&' is a `page` field ending at that '&'. */
  lemma AsWrittenQuerySplits(a: string, b: string)
    ensures AsWrittenQuery(a + "&" + b)
         == "page" + "=" + Text.Replace(a, ' ', '+') + "&" + Text.Replace(b, ' ', '+')
  {
    Text.ReplaceConcat(a + "&", b, ' ', '+');
    Text.ReplaceConcat(a, "&", ' ', '+');
    assert Text.Replace("&", ' ', '+') == "&";
  }

  /** The first `page` value of the as-written link of a name with an '&': the text before it. */
  lemma AsWrittenValueUpToAmpersand(a: string, b: string)
    requires '&' !in a && '+' !in a && '%' !in a
    ensures QueryString.Values(AsWrittenQuery(a + "&" + b), "page") != []
    ensures QueryString.Values(AsWrittenQuery(a + "&" + b), "page")[0] == a
  {
    var va := Text.Replace(a, ' ', '+');
    assert '&' !in va;
    AsWrittenQuerySplits(a, b);
    QueryString.FormDecodePlain("page");
    QueryString.FirstValue("page", va, Text.Replace(b, ' ', '+'));
    FormDecodeSpaces(a);
  }

  /** The as-written link of a name with an '&' reads back only the part before the '&'. */
  lemma AsWrittenReadsUpToAmpersand(current: string, a: string, b: string)
    requires '&' !in a && '+' !in a && '%' !in a
    ensures Navigate(current, AsWrittenQuery(a + "&" + b)) == if a in Pages then a else current
  {
    AsWrittenValueUpToAmpersand(a, b);
    NavigateReads(current, AsWrittenQuery(a + "&" + b), a);
  }

  predicate EndsInSpace(s: string)
  {
    s != [] && s[|s| - 1] == ' '
  }

  /** No page name ends in a space, so a name cut off just before an ' &' is never a page. */
  lemma NoPageEndsInSpace(name: string)
    requires EndsInSpace(name)
    ensures name !in Pages
  {
    PagesNotEndingInSpace0To7();
    PagesNotEndingInSpace7To13();
  }

  lemma PagesNotEndingInSpace0To7()
    ensures forall i :: 0 <= i < 7 ==> !EndsInSpace(Pages[i])
  {
  }

  lemma PagesNotEndingInSpace7To13()
    ensures forall i :: 7 <= i < 13 ==> !EndsInSpace(Pages[i])
  {
  }

  /** The '&' in "Emotional & Social Support" ends the `page` field early: the query reads back
      as "Emotional ", which is no page, so following that link leaves the current page. */
  lemma AsWrittenEmotionalSupportUnreachable(current: string)
    ensures Pages[6] == "Emotional & Social Support"
    ensures Navigate(current, AsWrittenQuery(Pages[6])) == current
  {
    assert Pages[6] == "Emotional " + "&" + " Social Support";
    AsWrittenReadsUpToAmpersand(current, "Emotional ", " Social Support");
    NoPageEndsInSpace("Emotional ");
  }

  /** The same for "Interactive Tools & Extras", which reads back as "Interactive Tools ". */
  lemma AsWrittenInteractiveToolsUnreachable(current: string)
    ensures Pages[7] == "Interactive Tools & Extras"
    ensures Navigate(current, AsWrittenQuery(Pages[7])) == current
  {
    assert Pages[7] == "Interactive Tools " + "&" + " Extras";
    AsWrittenReadsUpToAmpersand(current, "Interactive Tools ", " Extras");
    NoPageEndsInSpace("Interactive Tools ");
  }

  /** Characters that separate or escape parts of a query string. */
  predicate Reserved(c: char)
  {
    c == '&' || c == '+' || c == '%' || c == '=' || c == '#'
  }

  /** Form encoding of one character: a space is '+', a reserved character is '%HH'. */
  function EncodeChar(c: char): (e: string)
    ensures '&' !in e
  {
    if c == ' ' then "+"
    else if Reserved(c) then ['%', QueryString.HexDigit(c as int / 16), QueryString.HexDigit(c as int % 16)]
    else [c]
  }

  /** Form encoding of a page name. */
  function FormEncode(s: string): (e: string)
    ensures '&' !in e
  {
    if s == [] then [] else EncodeChar(s[0]) + FormEncode(s[1..])
  }

  lemma DecodeEncodedChar(c: char, rest: string)
    ensures QueryString.FormDecode(EncodeChar(c) + rest) == [c] + QueryString.FormDecode(rest)
  {
    var s := EncodeChar(c) + rest;
    if c == ' ' {
      assert s[1..] == rest;
    } else if Reserved(c) {
      QueryString.HexValueOfDigit(c as int / 16);
      QueryString.HexValueOfDigit(c as int % 16);
      assert s[3..] == rest;
    } else {
      assert s[1..] == rest;
    }
  }

  /** Decoding undoes encoding, for every text. */
  lemma {:induction false} FormDecodeEncode(s: string)
    ensures QueryString.FormDecode(FormEncode(s)) == s
  {
    if s != [] {
      DecodeEncodedChar(s[0], FormEncode(s[1..]));
      FormDecodeEncode(s[1..]);
    }
  }

  /** The link query of a navbar entry with its name form-encoded. */
  function LinkQuery(page: string): string
  {
    "page=" + FormEncode(page)
  }

  /** The `page` values of a form-encoded link: just the name. */
  lemma LinkValue(page: string)
    ensures QueryString.Values(LinkQuery(page), "page") == [page]
  {
    QueryString.FormDecodePlain("page");
    QueryString.FirstValue("page", FormEncode(page), "");
    FormDecodeEncode(page);
    assert LinkQuery(page) == "page" + "=" + FormEncode(page);
  }

  /** Following a form-encoded link selects the page it names, whatever characters the name has
      (apart from '+', which the app turns into a space after decoding). */
  lemma LinkNavigates(current: string, page: string)
    requires '+' !in page
    ensures Navigate(current, LinkQuery(page)) == if page in Pages then page else current
  {
    LinkValue(page);
    NavigateReads(current, LinkQuery(page), page);
  }

  /** No page name contains '+'. */
  lemma PagesHaveNoPlus()
    ensures forall i :: 0 <= i < |Pages| ==> '+' !in Pages[i]
  {
    FirstPagesHaveNoPlus();
    LastPagesHaveNoPlus();
  }

  lemma FirstPagesHaveNoPlus()
    ensures forall i :: 0 <= i < 7 ==> '+' !in Pages[i]
  {
  }

  lemma LastPagesHaveNoPlus()
    ensures forall i :: 7 <= i < |Pages| ==> '+' !in Pages[i]
  {
  }

  /** The navbar's hrefs with the names form-encoded, one per page, in `Pages` order. */
  function EncodedHrefs(): seq<string>
  {
    seq(|Pages|, i requires 0 <= i < |Pages| => "?" + LinkQuery(Pages[i]))
  }

  /** With form-encoded hrefs, every navbar link leads to its own page, from any current page. */
  lemma EveryEncodedLinkNavigates(current: string, i: nat)
    requires i < |Pages|
    ensures Navigate(current, EncodedHrefs()[i][1..]) == Pages[i]
  {
    var href := EncodedHrefs()[i];
    assert href[1..] == LinkQuery(Pages[i]);
    PagesHaveNoPlus();
    LinkNavigates(current, Pages[i]);
  }

  /** The navbar's hrefs as the page builds them, one per page, in `Pages` order. */
  function AsWrittenHrefs(): seq<string>
  {
    seq(|Pages|, i requires 0 <= i < |Pages| => "?" + AsWrittenQuery(Pages[i]))
  }

  /** Names that the as-written link carries through unchanged: no '&', '+' or '%'. */
  predicate PlainName(page: string)
  {
    '&' !in page && '+' !in page && '%' !in page
  }

  /** The names other than the two with an '&' are plain, checked a few at a time. */
  lemma PagesPlain(i: nat)
    requires i < |Pages| && i != 6 && i != 7
    ensures PlainName(Pages[i])
  {
    if i < 3 {
      PagesPlain0To3();
    } else if i < 6 {
      PagesPlain3To6();
    } else if i < 11 {
      PagesPlain8To11();
    } else {
      PagesPlain11To13();
    }
  }

  lemma PagesPlain0To3()
    ensures forall i :: 0 <= i < 3 ==> PlainName(Pages[i])
  {
  }

  lemma PagesPlain3To6()
    ensures forall i :: 3 <= i < 6 ==> PlainName(Pages[i])
  {
  }

  lemma PagesPlain8To11()
    ensures forall i :: 8 <= i < 11 ==> PlainName(Pages[i])
  {
  }

  lemma PagesPlain11To13()
    ensures forall i :: 11 <= i < 13 ==> PlainName(Pages[i])
  {
  }

  /** The navbar as written: every link leads to its own page except the two whose names contain
      an '&', which leave the current page unchanged. */
  lemma AsWrittenNavbarNavigates(current: string, i: nat)
    requires i < |Pages|
    ensures Navigate(current, AsWrittenHrefs()[i][1..]) == if i == 6 || i == 7 then current else Pages[i]
  {
    var href := AsWrittenHrefs()[i];
    assert href[1..] == AsWrittenQuery(Pages[i]);
    if i == 6 {
      AsWrittenEmotionalSupportUnreachable(current);
    } else if i == 7 {
      AsWrittenInteractiveToolsUnreachable(current);
    } else {
      PagesPlain(i);
      AsWrittenLinkNavigates(current, Pages[i]);
    }
  }
}
