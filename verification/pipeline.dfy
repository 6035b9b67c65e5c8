/** The orchestration in `main` of the bulk query script: discover page URLs,
    extract granule links from every page, check for stored credentials, and
    download at most the first five links. The search service, the page
    service and the file service are functions supplied by the caller; the
    credential lookup is a yes/no answer. */
module Pipeline {
  import opened Outcomes
  import opened Numbers
  import opened CmrSearch
  import opened GranuleLinks
  import opened Download

  /** The constants `main` runs with. */
  const GranulesUrl: string := CmrOps + "/granules"
  const MainCollections: Collections := IdList(["C1373412034-LPDAAC_ECS"])
  /** The `temporal` text for 2021-10-17 00:00:00 to 2021-10-19 00:00:00. */
  const MainTemporal: string := "2021-10-17T00:00:00Z,2021-10-19T00:00:00Z"
  const MainPageSize: int := 10
  /** `results[:5]`: "avoid downloading too many files". */
  const MaxDownloads: nat := 5

  /** How link discovery can end in an exception: `get_tasks` iterates the
      `None` returned for a non-200 search (`TypeError`), or the page count
      divided by a zero page size (`ZeroDivisionError`). */
  datatype Crash = NoPageList(status: int) | DivisionByZero

  /** `get_urls`: one page request per page URL, responses taken in
      submission order, links extracted from each. */
  function GetUrls(
    search: SearchRequest -> SearchResponse,
    pageServer: string -> Feed,
    baseUrl: string,
    collections: Collections,
    temporal: string,
    pageSize: int): Result<seq<string>, Crash>
  {
    match GetCmrPagesUrls(search, baseUrl, collections, temporal, pageSize)
    case Err(StatusNot200(status)) => Err(NoPageList(status))
    case Err(ZeroPageSize) => Err(DivisionByZero)
    case Ok(urls) => Ok(ExtractLinks(seq(|urls|, i requires 0 <= i < |urls| => pageServer(urls[i]))))
  }

  /** `results[:n]`. */
  function Take(links: seq<string>, n: nat): seq<string>
  {
    links[..Min(n, |links|)]
  }

  /** How a run of `main` ends. */
  datatype RunOutcome =
    | Crashed(crash: Crash)
    | NotAuthenticated(discovered: nat)
    | Downloaded(files: seq<DownloadOutcome>)

  /** `main`: discovery first, then the credential check, then one download
      per link of `results[:5]`, each answered by `fileServer`. */
  function Run(
    search: SearchRequest -> SearchResponse,
    pageServer: string -> Feed,
    hasUrsCredentials: bool,
    fileServer: string -> DownloadResponse): RunOutcome
  {
    match GetUrls(search, pageServer, GranulesUrl, MainCollections, MainTemporal, MainPageSize)
    case Err(crash) => Crashed(crash)
    case Ok(results) =>
      if !hasUrsCredentials then NotAuthenticated(|results|)
      else
        var batch := Take(results, MaxDownloads);
        Downloaded(seq(|batch|, i requires 0 <= i < |batch| => DownloadFile(batch[i], fileServer(batch[i]))))
  }

  /** The only crash `main` can meet is a failed search: its page size is
      ten. A failed search crashes the run whatever the credentials. */
  lemma RunCrashesOnFailedSearch(
    search: SearchRequest -> SearchResponse,
    pageServer: string -> Feed,
    hasUrsCredentials: bool,
    fileServer: string -> DownloadResponse)
    ensures var status := search(BuildRequest(GranulesUrl, MainCollections, MainTemporal, MainPageSize)).status;
      (Run(search, pageServer, hasUrsCredentials, fileServer).Crashed? <==> status != 200)
  {
  }

  /** Download gating. Without credentials nothing is downloaded, after the
      links have been discovered. With them, a successful discovery always
      leads to downloads: file `i` of the first `min(5, n)` discovered links
      is the download of link `i`, each on its own, so one file's failed
      status leaves the others as they are. A run downloads only with
      credentials and a successful discovery. */
  lemma RunDownloadsFirstFive(
    search: SearchRequest -> SearchResponse,
    pageServer: string -> Feed,
    hasUrsCredentials: bool,
    fileServer: string -> DownloadResponse)
    ensures var outcome := Run(search, pageServer, hasUrsCredentials, fileServer);
      var found := GetUrls(search, pageServer, GranulesUrl, MainCollections, MainTemporal, MainPageSize);
      && (found.Ok? && !hasUrsCredentials ==> outcome == NotAuthenticated(|found.value|))
      && (outcome.Downloaded? <==> found.Ok? && hasUrsCredentials)
      && (found.Ok? && hasUrsCredentials ==>
            && |outcome.files| == Min(MaxDownloads, |found.value|) <= MaxDownloads
            && forall i :: 0 <= i < |outcome.files| ==>
                 outcome.files[i] == DownloadFile(found.value[i], fileServer(found.value[i])))
  {
  }

  /** Every link `main` downloads ends in `.h5`, so its target always names a
      file: no download of a run fails to open its target. */
  lemma RunOpensEveryTarget(
    search: SearchRequest -> SearchResponse,
    pageServer: string -> Feed,
    hasUrsCredentials: bool,
    fileServer: string -> DownloadResponse)
    ensures var outcome := Run(search, pageServer, hasUrsCredentials, fileServer);
      outcome.Downloaded? ==> forall i :: 0 <= i < |outcome.files| ==> !outcome.files[i].OpenFailed?
  {
    var outcome := Run(search, pageServer, hasUrsCredentials, fileServer);
    var found := GetUrls(search, pageServer, GranulesUrl, MainCollections, MainTemporal, MainPageSize);
    if outcome.Downloaded? {
      GetUrlsLinksWanted(search, pageServer, GranulesUrl, MainCollections, MainTemporal, MainPageSize);
      forall i | 0 <= i < |outcome.files|
        ensures !outcome.files[i].OpenFailed?
      {
        H5FileName(found.value[i]);
      }
    }
  }

  /** Every link `get_urls` returns is an `.h5` link containing `https`;
      they are the wanted hrefs of the page responses, in page order. */
  lemma GetUrlsLinksWanted(
    search: SearchRequest -> SearchResponse,
    pageServer: string -> Feed,
    baseUrl: string,
    collections: Collections,
    temporal: string,
    pageSize: int)
    ensures var found := GetUrls(search, pageServer, baseUrl, collections, temporal, pageSize);
      var urls := GetCmrPagesUrls(search, baseUrl, collections, temporal, pageSize);
      && (found.Ok? <==> urls.Ok?)
      && (found.Ok? ==>
            && (forall i :: 0 <= i < |found.value| ==> IsWanted(found.value[i]))
            && found.value == Wanted(AllHrefs(seq(|urls.value|, i requires 0 <= i < |urls.value| => pageServer(urls.value[i])))))
  {
    var urls := GetCmrPagesUrls(search, baseUrl, collections, temporal, pageSize);
    if urls.Ok? {
      ExtractLinksIsFilter(seq(|urls.value|, i requires 0 <= i < |urls.value| => pageServer(urls.value[i])));
    }
  }
}
