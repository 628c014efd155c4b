/** The link record shared by the extractor, the dispatcher and the results table. */
module Links {
  import opened Wrappers

  /** `{ url, page, status }`: `page` is the 1-based page the link was found on;
      `status` is unset (None) until a reply of the check-links endpoint has been merged in. */
  datatype LinkRecord = LinkRecord(url: string, page: int, status: Option<int>)

  /** `links.map(l => l.url)`. */
  function Urls(links: seq<LinkRecord>): (r: seq<string>)
    // one url per record, in record order
    ensures |r| == |links|
    ensures forall i :: 0 <= i < |links| ==> r[i] == links[i].url
  {
    seq(|links|, i requires 0 <= i < |links| => links[i].url)
  }

  /** The urls are exactly the records' urls, as a set. */
  lemma UrlsMembers(links: seq<LinkRecord>)
    ensures (set u | u in Urls(links)) == (set l | l in links :: l.url)
  {
    var r := Urls(links);
    forall l | l in links
      ensures l.url in r
    {
      var i :| 0 <= i < |links| && links[i] == l;
      assert r[i] == l.url;
    }
  }
}
