/**
 * The latest-research page: the literature search returns a list of article
 * identifiers, which are fetched in one batch; each fetched article becomes a
 * title and a link derived from its identifier.
 */
module Research {
  import opened Wrappers
  import Text
  import Documents

  const DefaultTitle := "No Title"
  const PubMedPrefix := "https://pubmed.ncbi.nlm.nih.gov/"

  /** One fetched article, reduced to the two fields the page reads: `ArticleTitle` and the text
      of `PMID`. */
  datatype Article = Article(title: Option<string>, pmid: Option<string>)

  datatype ArticleSummary = ArticleSummary(title: string, link: string)

  datatype ResearchOutcome = NoArticles | Articles(summaries: seq<ArticleSummary>)

  /** The `id` parameter of the batch fetch: the identifiers joined by commas. */
  function FetchIds(ids: seq<string>): string
  {
    Text.Join(",", ids)
  }

  /** PubMed identifiers contain no comma, so the batch parameter names exactly the searched
      identifiers, in search order. */
  lemma FetchIdsRoundTrip(ids: seq<string>)
    requires |ids| > 0
    requires forall k :: 0 <= k < |ids| ==> ',' !in ids[k]
    ensures Text.Split(FetchIds(ids), ',') == ids
  {
    Text.SplitJoin(ids, ',');
  }

  /** The article page of an identifier. */
  function PubMedLink(pmid: string): (link: string)
    ensures |link| == |PubMedPrefix| + |pmid| + 1
    ensures link[..|PubMedPrefix|] == PubMedPrefix && link[|link| - 1] == '/'
  {
    PubMedPrefix + pmid + "/"
  }

  /** Reads the identifier back out of an article link. */
  function LinkPmid(link: string): (pmid: string)
    requires |link| > |PubMedPrefix|
  {
    link[|PubMedPrefix|..|link| - 1]
  }

  /** The link is determined by the identifier and determines it in turn. */
  lemma PubMedLinkRoundTrip(pmid: string)
    ensures LinkPmid(PubMedLink(pmid)) == pmid
  {
    assert (PubMedPrefix + pmid + "/")[|PubMedPrefix|..|PubMedPrefix| + |pmid|] == pmid;
  }

  lemma PubMedLinkInjective(a: string, b: string)
    ensures PubMedLink(a) == PubMedLink(b) ==> a == b
  {
    PubMedLinkRoundTrip(a);
    PubMedLinkRoundTrip(b);
  }

  /** Title with its default and the link built from the identifier (missing: the empty string). */
  function Summarize(a: Article): (s: ArticleSummary)
    ensures a.title.None? ==> s.title == DefaultTitle
    ensures a.title.Some? ==> s.title == a.title.value
    ensures |s.link| > |PubMedPrefix| && LinkPmid(s.link) == a.pmid.GetOr("")
  {
    var pmid := a.pmid.GetOr("");
    PubMedLinkRoundTrip(pmid);
    ArticleSummary(a.title.GetOr(DefaultTitle), PubMedLink(pmid))
  }

  /** One summary per fetched article, in the order of the fetched document. */
  function Summaries(articles: seq<Article>): seq<ArticleSummary>
  {
    seq(|articles|, k requires 0 <= k < |articles| => Summarize(articles[k]))
  }

  /** The page: no identifiers means no articles; otherwise every article of the fetched document,
      a single article coerced to a one-element list. */
  function LatestResearch(ids: seq<string>, fetched: Option<Documents.OneOrMany<Article>>): (r: ResearchOutcome)
    ensures r.NoArticles? <==> ids == []
    ensures r.Articles? ==> |r.summaries| == |Documents.AsList(fetched)|
    ensures r.Articles? && fetched.Some? && fetched.value.Single?
            ==> r.summaries == [Summarize(fetched.value.item)]
  {
    if ids == [] then NoArticles
    else Articles(Summaries(Documents.AsList(fetched)))
  }

  /** Whatever way the parser shaped the fetched articles, every one of them is summarized, in
      document order. */
  lemma EveryFetchedArticleListed(ids: seq<string>, articles: seq<Article>)
    requires ids != []
    ensures LatestResearch(ids, Documents.Shape(articles)) == Articles(Summaries(articles))
  {
    Documents.AsListOfShape(articles);
  }
}
