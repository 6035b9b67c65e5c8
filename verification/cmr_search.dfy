/** Page enumeration for a granule search (`get_cmr_pages_urls`), from the
    moment the preliminary search response has arrived. The search service
    itself is a function from request to response supplied by the caller. */
module CmrSearch {
  import opened Outcomes
  import opened Numbers
  import opened Text

  /** The search API endpoint. */
  const CmrOps: string := "https://cmr.earthdata.nasa.gov/search"

  /** The `collections` argument: Python accepts a single identifier string
      where a sequence of identifiers is expected. */
  datatype Collections = OneId(id: string) | IdList(ids: seq<string>)

  /** The concept identifiers sent as the repeated `concept_id` parameter:
      a lone string is wrapped in a one-element list. */
  function ConceptIds(c: Collections): seq<string>
  {
    match c
    case OneId(id) => [id]
    case IdList(ids) => ids
  }

  /** The preliminary search request: endpoint, `concept_id` list, the
      `temporal` range text, `page_size`, and the `Accept` header. */
  datatype SearchRequest = SearchRequest(
    url: string,
    conceptIds: seq<string>,
    temporal: string,
    pageSize: int,
    accept: string)

  /** What the page enumeration reads from the search response: the status
      code, the resolved request URL (query string included), and the
      `CMR-Hits` header as a number. */
  datatype SearchResponse = SearchResponse(status: int, url: string, hits: nat)

  /** Why no page list came back: a status other than 200 (Python returns
      `None`), or a zero page size (Python raises `ZeroDivisionError`). */
  datatype PagesError = StatusNot200(status: int) | ZeroPageSize

  function BuildRequest(baseUrl: string, collections: Collections, temporal: string, pageSize: int): SearchRequest
  {
    SearchRequest(baseUrl, ConceptIds(collections), temporal, pageSize, "application/json")
  }

  /** The URL of page `x`: the page parameter appended to the resolved URL,
      then every `granules?` rewritten to `granules.json?`. */
  function PageUrl(resolved: string, x: nat): string
  {
    ReplaceAll(resolved + "&page_num=" + Decimal(x), "granules?", "granules.json?")
  }

  /** Number of pages, `math.ceil(hits / page_size)` fed to `range(1, n + 1)`:
      a negative page size gives a quotient of at most zero, so no pages. */
  function PageCount(hits: nat, pageSize: int): nat
    requires pageSize != 0
  {
    if pageSize > 0 then CeilDiv(hits, pageSize) else 0
  }

  /** The page list built from a search response. */
  function PageUrls(response: SearchResponse, pageSize: int): Result<seq<string>, PagesError>
  {
    if response.status != 200 then Err(StatusNot200(response.status))
    else if pageSize == 0 then Err(ZeroPageSize)
    else
      var n := PageCount(response.hits, pageSize);
      Ok(seq(n, i requires 0 <= i < n => PageUrl(response.url, i + 1)))
  }

  /** `get_cmr_pages_urls`: send the search request to `server` and turn its
      response into the list of page URLs. */
  function GetCmrPagesUrls(
    server: SearchRequest -> SearchResponse,
    baseUrl: string,
    collections: Collections,
    temporal: string,
    pageSize: int): Result<seq<string>, PagesError>
  {
    PageUrls(server(BuildRequest(baseUrl, collections, temporal, pageSize)), pageSize)
  }

  /** A single identifier is treated exactly like a one-element list holding
      it, whatever the server answers. */
  lemma SingleIdLikeList(
    server: SearchRequest -> SearchResponse, baseUrl: string, id: string, temporal: string, pageSize: int)
    ensures BuildRequest(baseUrl, OneId(id), temporal, pageSize).conceptIds == [id]
    ensures GetCmrPagesUrls(server, baseUrl, OneId(id), temporal, pageSize)
         == GetCmrPagesUrls(server, baseUrl, IdList([id]), temporal, pageSize)
  {
  }

  /** A status other than 200 yields no page list; a 200 yields one unless
      the page size is zero. */
  lemma PageUrlsFailsExactly(response: SearchResponse, pageSize: int)
    ensures PageUrls(response, pageSize).Err? <==> response.status != 200 || pageSize == 0
    ensures response.status != 200 ==> PageUrls(response, pageSize) == Err(StatusNot200(response.status))
  {
  }

  /** The page suffix holds no `?`, so the rewrite cannot reach it: a page
      URL is the rewritten resolved URL followed by `&page_num=<x>`. */
  lemma PageUrlShape(resolved: string, x: nat)
    ensures PageUrl(resolved, x)
         == ReplaceAll(resolved, "granules?", "granules.json?") + "&page_num=" + Decimal(x)
    ensures EndsWith(PageUrl(resolved, x), "&page_num=" + Decimal(x))
  {
    var suffix := "&page_num=" + Decimal(x);
    assert '?' !in suffix by {
      var d := Decimal(x);
      assert forall i :: 0 <= i < |d| ==> IsDigit(d[i]);
      assert forall i :: 0 <= i < |suffix| ==> suffix[i] != '?' by {
        forall i | 0 <= i < |suffix|
          ensures suffix[i] != '?'
        {
          if i >= 10 {
            assert suffix[i] == d[i - 10];
          }
        }
      }
    }
    assert resolved + "&page_num=" + Decimal(x) == resolved + suffix;
    ReplaceAllKeepsTail(resolved, suffix, "granules?", "granules.json?");
    var p := ReplaceAll(resolved, "granules?", "granules.json?");
    assert p + "&page_num=" + Decimal(x) == p + suffix;
  }

  /** Different page numbers give different page URLs. */
  lemma PageUrlInjective(resolved: string, x: nat, y: nat)
    requires PageUrl(resolved, x) == PageUrl(resolved, y)
    ensures x == y
  {
    PageUrlShape(resolved, x);
    PageUrlShape(resolved, y);
    var p := ReplaceAll(resolved, "granules?", "granules.json?") + "&page_num=";
    assert PageUrl(resolved, x) == p + Decimal(x);
    assert PageUrl(resolved, y) == p + Decimal(y);
    assert Decimal(x) == PageUrl(resolved, x)[|p|..];
    assert Decimal(y) == PageUrl(resolved, y)[|p|..];
    DecimalInjective(x, y);
  }

  /** On success with a positive page size there are exactly
      `ceil(hits / page_size)` pages, enough and no more to hold every hit;
      page `i` (0-based) carries page number `i + 1`, ends with that number,
      and no two pages share a URL. */
  lemma PageUrlsEnumeratePages(response: SearchResponse, pageSize: int)
    requires response.status == 200 && pageSize > 0
    ensures PageUrls(response, pageSize).Ok?
    ensures var urls := PageUrls(response, pageSize).value;
      && |urls| * pageSize >= response.hits
      && (|urls| == 0 || (|urls| - 1) * pageSize < response.hits)
      && (forall i :: 0 <= i < |urls| ==> EndsWith(urls[i], "&page_num=" + Decimal(i + 1)))
      && (forall i, j :: 0 <= i < |urls| && 0 <= j < |urls| && urls[i] == urls[j] ==> i == j)
  {
    var urls := PageUrls(response, pageSize).value;
    CeilDivIsLeastCover(response.hits, pageSize);
    forall i | 0 <= i < |urls|
      ensures EndsWith(urls[i], "&page_num=" + Decimal(i + 1))
    {
      PageUrlShape(response.url, i + 1);
    }
    forall i, j | 0 <= i < |urls| && 0 <= j < |urls| && urls[i] == urls[j]
      ensures i == j
    {
      PageUrlInjective(response.url, i + 1, j + 1);
    }
  }

  /** A negative page size asks for pages of no positive size: the list is
      empty. */
  lemma NegativePageSizeNoPages(response: SearchResponse, pageSize: int)
    requires response.status == 200 && pageSize < 0
    ensures PageUrls(response, pageSize) == Ok([])
  {
    assert |PageUrls(response, pageSize).value| == 0;
  }
}
