/** Link extraction from parsed search pages (the comprehension in
    `get_urls`): keep every `href` that contains `https` and ends with `.h5`,
    in response, entry and link order, without removing duplicates. */
module GranuleLinks {
  import opened Text

  /** The parts of a decoded page the client reads:
      `feed.entry[].links[].href`. */
  datatype Link = Link(href: string)
  datatype Entry = Entry(links: seq<Link>)
  datatype Feed = Feed(entries: seq<Entry>)

  /** The link filter. `https` is a substring test, not a scheme test: it
      also passes a plain-`http` URL whose path mentions `https`. */
  predicate IsWanted(href: string)
  {
    Contains(href, "https") && EndsWith(href, ".h5")
  }

  /** Inner loop of the comprehension: the wanted hrefs of one entry. */
  function LinkHrefs(links: seq<Link>): (hrefs: seq<string>)
    ensures forall i :: 0 <= i < |hrefs| ==> IsWanted(hrefs[i])
    decreases |links|
  {
    if links == [] then []
    else (if IsWanted(links[0].href) then [links[0].href] else []) + LinkHrefs(links[1..])
  }

  /** Middle loop: the wanted hrefs of each entry of one page, in entry order. */
  function EntryHrefs(entries: seq<Entry>): (hrefs: seq<string>)
    ensures forall i :: 0 <= i < |hrefs| ==> IsWanted(hrefs[i])
    decreases |entries|
  {
    if entries == [] then [] else LinkHrefs(entries[0].links) + EntryHrefs(entries[1..])
  }

  /** `get_urls`: `result.extend(...)` once per page response, in the order
      the responses were submitted. */
  function ExtractLinks(pages: seq<Feed>): (links: seq<string>)
    ensures forall i :: 0 <= i < |links| ==> IsWanted(links[i])
    decreases |pages|
  {
    if pages == [] then [] else EntryHrefs(pages[0].entries) + ExtractLinks(pages[1..])
  }

  // Reference definition: flatten every href, then filter.

  function AllLinkHrefs(links: seq<Link>): seq<string>
    decreases |links|
  {
    if links == [] then [] else [links[0].href] + AllLinkHrefs(links[1..])
  }

  function AllEntryHrefs(entries: seq<Entry>): seq<string>
    decreases |entries|
  {
    if entries == [] then [] else AllLinkHrefs(entries[0].links) + AllEntryHrefs(entries[1..])
  }

  /** Every href of every page, in page, entry and link order. */
  function AllHrefs(pages: seq<Feed>): seq<string>
    decreases |pages|
  {
    if pages == [] then [] else AllEntryHrefs(pages[0].entries) + AllHrefs(pages[1..])
  }

  /** Order-preserving filter of a sequence of hrefs. */
  function Wanted(hrefs: seq<string>): seq<string>
    decreases |hrefs|
  {
    if hrefs == [] then []
    else (if IsWanted(hrefs[0]) then [hrefs[0]] else []) + Wanted(hrefs[1..])
  }

  lemma {:induction false} WantedAppend(a: seq<string>, b: seq<string>)
    ensures Wanted(a + b) == Wanted(a) + Wanted(b)
    decreases |a|
  {
    if a != [] {
      assert (a + b)[1..] == a[1..] + b;
      WantedAppend(a[1..], b);
    } else {
      assert a + b == b;
    }
  }

  lemma {:induction false} LinkHrefsIsFilter(links: seq<Link>)
    ensures LinkHrefs(links) == Wanted(AllLinkHrefs(links))
    decreases |links|
  {
    if links != [] {
      LinkHrefsIsFilter(links[1..]);
      WantedAppend([links[0].href], AllLinkHrefs(links[1..]));
    }
  }

  lemma {:induction false} EntryHrefsIsFilter(entries: seq<Entry>)
    ensures EntryHrefs(entries) == Wanted(AllEntryHrefs(entries))
    decreases |entries|
  {
    if entries != [] {
      LinkHrefsIsFilter(entries[0].links);
      EntryHrefsIsFilter(entries[1..]);
      WantedAppend(AllLinkHrefs(entries[0].links), AllEntryHrefs(entries[1..]));
    }
  }

  /** The nested comprehension is the filter of the flattened hrefs: same
      elements, same order, same multiplicities. */
  lemma {:induction false} ExtractLinksIsFilter(pages: seq<Feed>)
    ensures ExtractLinks(pages) == Wanted(AllHrefs(pages))
    decreases |pages|
  {
    if pages != [] {
      EntryHrefsIsFilter(pages[0].entries);
      ExtractLinksIsFilter(pages[1..]);
      WantedAppend(AllEntryHrefs(pages[0].entries), AllHrefs(pages[1..]));
    }
  }

  /** The filter keeps a wanted href as often as it occurs and drops every
      other one: no deduplication, nothing invented. */
  lemma {:induction false} WantedCounts(hrefs: seq<string>, h: string)
    ensures multiset(Wanted(hrefs))[h] == if IsWanted(h) then multiset(hrefs)[h] else 0
    decreases |hrefs|
  {
    if hrefs != [] {
      WantedCounts(hrefs[1..], h);
      assert hrefs == [hrefs[0]] + hrefs[1..];
      assert multiset(hrefs) == multiset([hrefs[0]]) + multiset(hrefs[1..]);
      var head := if IsWanted(hrefs[0]) then [hrefs[0]] else [];
      assert multiset(Wanted(hrefs)) == multiset(head) + multiset(Wanted(hrefs[1..]));
    }
  }

  /** An href is extracted as many times as it appears across all pages when
      it is wanted, and never otherwise. */
  lemma ExtractLinksCounts(pages: seq<Feed>, h: string)
    ensures multiset(ExtractLinks(pages))[h] == if IsWanted(h) then multiset(AllHrefs(pages))[h] else 0
  {
    ExtractLinksIsFilter(pages);
    WantedCounts(AllHrefs(pages), h);
  }

  /** Responses contribute in submission order: extraction over two batches
      of pages is the concatenation of the two extractions. */
  lemma {:induction false} ExtractLinksAppend(p: seq<Feed>, q: seq<Feed>)
    ensures ExtractLinks(p + q) == ExtractLinks(p) + ExtractLinks(q)
    decreases |p|
  {
    if p == [] {
      assert p + q == q;
    } else {
      assert (p + q)[1..] == p[1..] + q;
      ExtractLinksAppend(p[1..], q);
    }
  }

  lemma {:induction false} NoWantedLinkContributesNothing(links: seq<Link>)
    requires forall i :: 0 <= i < |links| ==> !IsWanted(links[i].href)
    ensures LinkHrefs(links) == []
    decreases |links|
  {
    if links != [] {
      NoWantedLinkContributesNothing(links[1..]);
    }
  }

  /** An entry none of whose links is wanted adds nothing, wherever it sits
      among the entries of a page. */
  lemma {:induction false} UnwantedEntryAddsNothing(before: seq<Entry>, e: Entry, after: seq<Entry>)
    requires forall i :: 0 <= i < |e.links| ==> !IsWanted(e.links[i].href)
    ensures EntryHrefs(before + [e] + after) == EntryHrefs(before + after)
    decreases |before|
  {
    if before == [] {
      assert before + [e] + after == [e] + after;
      assert ([e] + after)[1..] == after;
      NoWantedLinkContributesNothing(e.links);
      assert before + after == after;
    } else {
      assert (before + [e] + after)[1..] == before[1..] + [e] + after;
      assert (before + after)[1..] == before[1..] + after;
      UnwantedEntryAddsNothing(before[1..], e, after);
    }
  }

  /** Pages whose entries hold no wanted link give an empty result, not an
      error. */
  lemma NothingWantedGivesEmpty(pages: seq<Feed>)
    requires forall i :: 0 <= i < |AllHrefs(pages)| ==> !IsWanted(AllHrefs(pages)[i])
    ensures ExtractLinks(pages) == []
  {
    ExtractLinksIsFilter(pages);
    WantedNone(AllHrefs(pages));
  }

  lemma {:induction false} WantedNone(hrefs: seq<string>)
    requires forall i :: 0 <= i < |hrefs| ==> !IsWanted(hrefs[i])
    ensures Wanted(hrefs) == []
    decreases |hrefs|
  {
    if hrefs != [] {
      WantedNone(hrefs[1..]);
    }
  }

  /** The substring quirk: a plain-`http` link whose path mentions `https`
      is kept, though it does not start with `https`. */
  lemma HttpsIsSubstringTest()
    ensures IsWanted("http://mirror.example/https/granule.h5")
    ensures !StartsWith("http://mirror.example/https/granule.h5", "https")
  {
    var u := "http://mirror.example/https/granule.h5";
    assert OccursAt(u, "https", 22);
    assert u[4] == ':';
  }
}
