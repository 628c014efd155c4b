/** `processFile` of the upload component: keeps the link annotations of every page,
    tagged with their 1-based page number, concatenates the pages in order and
    de-duplicates by URL, keeping each URL's first occurrence.  The parsed document is
    an input: one list of annotation `url` fields per page, or None when pdf.js fails. */
module FileUpload {
  import opened Wrappers
  import opened Links

  /** `annotation.url` is truthy: present and not the empty string. */
  predicate HasUrl(annotation: Option<string>)
    // the falsy values a url field can take are a missing field and the empty string
    ensures HasUrl(annotation) <==> annotation != None && annotation != Some("")
  {
    annotation.Some? && annotation.value != ""
  }

  /** `annotations.filter(a => a.url).map(a => ({ url: a.url, page }))`. */
  function PageLinks(annotations: seq<Option<string>>, page: int): (r: seq<LinkRecord>)
    ensures |r| <= |annotations|
    // only annotations with a truthy url are kept, each tagged with the page
    ensures forall l :: l in r ==> l.page == page && l.status.None? && l.url != "" && Some(l.url) in annotations
    // and every such annotation is kept
    ensures forall j :: 0 <= j < |annotations| && HasUrl(annotations[j]) ==>
              LinkRecord(annotations[j].value, page, None) in r
  {
    if annotations == [] then []
    else
      var n := |annotations| - 1;
      var earlier := PageLinks(annotations[..n], page);
      assert forall j :: 0 <= j < n ==> annotations[..n][j] == annotations[j];
      earlier + (if HasUrl(annotations[n]) then [LinkRecord(annotations[n].value, page, None)] else [])
  }

  /** The filter keeps annotation order: filtering two runs of annotations is filtering
      each and concatenating. */
  lemma {:induction false} PageLinksAppend(a: seq<Option<string>>, b: seq<Option<string>>, page: int)
    ensures PageLinks(a + b, page) == PageLinks(a, page) + PageLinks(b, page)
    decreases |b|
  {
    if b == [] {
      assert a + b == a;
    } else {
      var n := |b| - 1;
      assert (a + b)[..|a + b| - 1] == a + b[..n];
      PageLinksAppend(a, b[..n], page);
    }
  }

  /** The accumulated `links` after the page loop has read `pages` (page i + 1 is pages[i]). */
  function AllLinks(pages: seq<seq<Option<string>>>): (r: seq<LinkRecord>)
    // every link comes from a truthy annotation of the 1-based page it names
    ensures forall l :: l in r ==>
              1 <= l.page <= |pages| && l.status.None? && l.url != "" && Some(l.url) in pages[l.page - 1]
    // links are ordered by page
    ensures forall i, j :: 0 <= i < j < |r| ==> r[i].page <= r[j].page
  {
    if pages == [] then []
    else
      var n := |pages| - 1;
      var earlier := AllLinks(pages[..n]);
      var last := PageLinks(pages[n], n + 1);
      assert forall p :: 0 <= p < n ==> pages[..n][p] == pages[p];
      earlier + last
  }

  /** Every truthy annotation of every page is among the collected links, with its page. */
  lemma {:induction false} AllLinksComplete(pages: seq<seq<Option<string>>>, p: nat, j: nat)
    requires p < |pages| && j < |pages[p]| && HasUrl(pages[p][j])
    ensures LinkRecord(pages[p][j].value, p + 1, None) in AllLinks(pages)
    decreases |pages|
  {
    var n := |pages| - 1;
    if p < n {
      AllLinksComplete(pages[..n], p, j);
    }
  }

  /** Reading one more page appends that page's links, in annotation order. */
  lemma AllLinksAppendPage(pages: seq<seq<Option<string>>>, annotations: seq<Option<string>>)
    ensures AllLinks(pages + [annotations]) == AllLinks(pages) + PageLinks(annotations, |pages| + 1)
  {
    assert (pages + [annotations])[..|pages|] == pages;
  }

  /** The page loop of `processFile`. */
  method CollectLinks(pages: seq<seq<Option<string>>>) returns (links: seq<LinkRecord>)
    ensures links == AllLinks(pages)
  {
    links := [];
    for i := 1 to |pages| + 1
      invariant links == AllLinks(pages[..i - 1])
    {
      var pageLinks := PageLinks(pages[i - 1], i);
      assert pages[..i] == pages[..i - 1] + [pages[i - 1]];
      AllLinksAppendPage(pages[..i - 1], pages[i - 1]);
      links := links + pageLinks;
    }
    assert pages[..|pages|] == pages;
  }

  /** The position of the first occurrence of `x`. */
  function FirstPos<T(==)>(s: seq<T>, x: T): (k: nat)
    requires x in s
    ensures k < |s| && s[k] == x
    ensures forall j :: 0 <= j < k ==> s[j] != x
  {
    if s[0] == x then 0 else 1 + FirstPos(s[1..], x)
  }

  /** The first occurrence in a prefix is the first occurrence in the whole. */
  lemma FirstPosPrefix<T>(s: seq<T>, n: nat, x: T)
    requires n <= |s| && x in s[..n]
    ensures FirstPos(s, x) == FirstPos(s[..n], x)
  {
    var k := FirstPos(s[..n], x);
    var f := FirstPos(s, x);
    assert s[k] == x;
    assert f <= k;
    assert s[..n][f] == x;
  }

  /** `new Set(urls)` iterated: each URL once, in insertion order. */
  function UniqueUrls(urls: seq<string>): (r: seq<string>)
    ensures |r| <= |urls|
    // the URLs are pairwise distinct
    ensures forall i, j :: 0 <= i < j < |r| ==> r[i] != r[j]
    // and exactly those of the input
    ensures forall u :: u in r <==> u in urls
  {
    if urls == [] then []
    else
      var n := |urls| - 1;
      var earlier := UniqueUrls(urls[..n]);
      assert urls == urls[..n] + [urls[n]];
      if urls[n] in earlier then earlier else earlier + [urls[n]]
  }

  /** The Set keeps URLs in the order of their first occurrence. */
  lemma {:induction false} UniqueUrlsOrder(urls: seq<string>)
    ensures forall i, j :: 0 <= i < j < |UniqueUrls(urls)| ==>
              FirstPos(urls, UniqueUrls(urls)[i]) < FirstPos(urls, UniqueUrls(urls)[j])
    decreases |urls|
  {
    if urls != [] {
      var n := |urls| - 1;
      var prefix := urls[..n];
      var earlier := UniqueUrls(prefix);
      UniqueUrlsOrder(prefix);
      assert urls == prefix + [urls[n]];
      forall u | u in earlier ensures FirstPos(urls, u) == FirstPos(prefix, u) && FirstPos(urls, u) < n {
        FirstPosPrefix(urls, n, u);
      }
      if urls[n] !in earlier {
        assert FirstPos(urls, urls[n]) == n;
      }
      var r := UniqueUrls(urls);
      forall i, j | 0 <= i < j < |r| ensures FirstPos(urls, r[i]) < FirstPos(urls, r[j]) {
        assert r[i] in earlier;
        if j < |earlier| {
          assert r[j] in earlier;
        }
      }
    }
  }

  /** `Array.from(new Set(links.map(l => l.url))).map(url => links.find(l => l.url === url))`. */
  function Dedup(links: seq<LinkRecord>): (r: seq<LinkRecord>)
    ensures |r| <= |links|
    // the URLs are pairwise distinct
    ensures forall i, j :: 0 <= i < j < |r| ==> r[i].url != r[j].url
    // the set of URLs is unchanged
    ensures forall u :: u in Urls(r) <==> u in Urls(links)
    // each entry is the first record carrying its URL
    ensures forall i :: 0 <= i < |r| ==> r[i].url in Urls(links) && r[i] == links[FirstPos(Urls(links), r[i].url)]
  {
    var urls := Urls(links);
    var unique := UniqueUrls(urls);
    var r := seq(|unique|, i requires 0 <= i < |unique| => links[FirstPos(urls, unique[i])]);
    PickedUrls(links, unique, r);
    r
  }

  /** Picking, for every URL of `unique`, the first record with that URL gives records whose
      URLs are `unique`, in order. */
  lemma PickedUrls(links: seq<LinkRecord>, unique: seq<string>, r: seq<LinkRecord>)
    requires forall u :: u in unique ==> u in Urls(links)
    requires r == seq(|unique|, i requires 0 <= i < |unique| => links[FirstPos(Urls(links), unique[i])])
    ensures forall i :: 0 <= i < |r| ==> r[i].url == unique[i]
    ensures forall u :: u in Urls(r) <==> u in unique
  {
    forall i | 0 <= i < |r| ensures r[i].url == unique[i] {
      assert Urls(links)[FirstPos(Urls(links), unique[i])] == unique[i];
    }
    forall u ensures u in Urls(r) <==> u in unique {
      if u in Urls(r) {
        var i :| 0 <= i < |r| && Urls(r)[i] == u;
        assert unique[i] == u;
      }
      if u in unique {
        var i :| 0 <= i < |unique| && unique[i] == u;
        assert Urls(r)[i] == u;
      }
    }
  }

  /** Output order is the order of first occurrence. */
  lemma DedupOrder(links: seq<LinkRecord>)
    ensures forall i, j :: 0 <= i < j < |Dedup(links)| ==>
              FirstPos(Urls(links), Dedup(links)[i].url) < FirstPos(Urls(links), Dedup(links)[j].url)
  {
    var urls := Urls(links);
    UniqueUrlsOrder(urls);
    var r := Dedup(links);
    assert forall i :: 0 <= i < |r| ==> r[i].url == UniqueUrls(urls)[i];
  }

  /** On the collected links, each kept entry carries the earliest page its URL is on. */
  lemma DedupEarliestPage(pages: seq<seq<Option<string>>>)
    ensures var links := AllLinks(pages);
      forall i, j :: 0 <= i < |Dedup(links)| && 0 <= j < |links| && links[j].url == Dedup(links)[i].url ==>
        Dedup(links)[i].page <= links[j].page
  {
    var links := AllLinks(pages);
    var r := Dedup(links);
    forall i, j | 0 <= i < |r| && 0 <= j < |links| && links[j].url == r[i].url
      ensures r[i].page <= links[j].page
    {
      EarliestPageAt(links, r, i, j);
    }
  }

  lemma EarliestPageAt(links: seq<LinkRecord>, r: seq<LinkRecord>, i: nat, j: nat)
    requires forall a, b :: 0 <= a < b < |links| ==> links[a].page <= links[b].page
    requires r == Dedup(links)
    requires i < |r| && j < |links| && links[j].url == r[i].url
    ensures r[i].page <= links[j].page
  {
    var urls := Urls(links);
    var f := FirstPos(urls, r[i].url);
    assert r[i] == links[f];
    assert urls[j] == r[i].url;
    assert f <= j;
  }

  /** How `processFile` ends: the de-duplicated links handed to the dispatcher, or the
      error shown when pdf.js could not load the document or one of its pages. */
  datatype Extraction = Extracted(links: seq<LinkRecord>) | ParseFailed(message: string)

  const ParseErrorMessage := "Failed to parse PDF. Please try another file."

  /** `processFile(file)` with the document already parsed into per-page annotations. */
  method ProcessFile(document: Option<seq<seq<Option<string>>>>) returns (r: Extraction)
    ensures document.None? ==> r == ParseFailed(ParseErrorMessage)
    ensures document.Some? ==> r == Extracted(Dedup(AllLinks(document.value)))
  {
    match document
    case None =>
      r := ParseFailed(ParseErrorMessage);
    case Some(pages) =>
      var links := CollectLinks(pages);
      r := Extracted(Dedup(links));
  }
}
