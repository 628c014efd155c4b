/** The `Home` page's `handleLinksExtracted`: splits the extracted records into chunks
    of ten, posts each chunk's URLs to the check-links endpoint in turn, merges every successful
    reply into the working list by URL, publishes the list after each merge, and skips
    a chunk whose request failed. */
module Home {
  import opened Wrappers
  import opened Links
  import opened CheckLinks

  const ChunkSize: nat := 10

  function Min(a: int, b: int): int { if a <= b then a else b }

  /** The chunks laid end to end. */
  function Flatten<T>(chunks: seq<seq<T>>): seq<T>
  {
    if chunks == [] then [] else chunks[0] + Flatten(chunks[1..])
  }

  /** `extractedLinks.slice(i, i + 10)` for i = 0, 10, 20, ... while i < length. */
  function Chunked<T>(s: seq<T>): (r: seq<seq<T>>)
    // there is a chunk exactly when there is a record, and every chunk holds 1 to 10
    ensures |r| == 0 <==> |s| == 0
    ensures forall i :: 0 <= i < |r| ==> 0 < |r[i]| <= ChunkSize
    decreases |s|
  {
    if |s| == 0 then []
    else if |s| <= ChunkSize then [s]
    else [s[..ChunkSize]] + Chunked(s[ChunkSize..])
  }

  /** Concatenating the chunks gives back the input exactly. */
  lemma {:induction false} ChunkedFlatten<T>(s: seq<T>)
    ensures Flatten(Chunked(s)) == s
    decreases |s|
  {
    if |s| > ChunkSize {
      ChunkedFlatten(s[ChunkSize..]);
      assert [s[..ChunkSize]] + Chunked(s[ChunkSize..]) == Chunked(s);
      assert s[..ChunkSize] + s[ChunkSize..] == s;
    } else if |s| > 0 {
      assert Flatten([s]) == s + Flatten([]);
    }
  }

  /** ceil(n / 10) chunks, each of 1..10 elements, all but the last of exactly 10. */
  lemma {:induction false} ChunkedSizes<T>(s: seq<T>)
    ensures |Chunked(s)| == (|s| + ChunkSize - 1) / ChunkSize
    ensures forall k :: 0 <= k < |Chunked(s)| ==> 0 < |Chunked(s)[k]| <= ChunkSize
    ensures forall k :: 0 <= k < |Chunked(s)| - 1 ==> |Chunked(s)[k]| == ChunkSize
    decreases |s|
  {
    if |s| > ChunkSize {
      var rest := s[ChunkSize..];
      ChunkedSizes(rest);
      assert Chunked(s) == [s[..ChunkSize]] + Chunked(rest);
      assert forall k :: 1 <= k < |Chunked(s)| ==> Chunked(s)[k] == Chunked(rest)[k - 1];
    }
  }

  /** Chunk k is the slice that starts at 10 * k. */
  lemma {:induction false} ChunkAt<T>(s: seq<T>, k: nat)
    requires k < |Chunked(s)|
    ensures k * ChunkSize < |s|
    ensures Chunked(s)[k] == s[k * ChunkSize .. Min(k * ChunkSize + ChunkSize, |s|)]
    decreases |s|
  {
    if k > 0 {
      var rest := s[ChunkSize..];
      assert Chunked(s) == [s[..ChunkSize]] + Chunked(rest);
      assert Chunked(s)[k] == Chunked(rest)[k - 1];
      ChunkAt(rest, k - 1);
      var a := (k - 1) * ChunkSize;
      assert a + ChunkSize == k * ChunkSize;
      assert rest[a .. Min(a + ChunkSize, |rest|)] == s[k * ChunkSize .. Min(k * ChunkSize + ChunkSize, |s|)];
    } else if |s| <= ChunkSize {
      assert Chunked(s) == [s];
    } else {
      assert Chunked(s)[0] == s[..ChunkSize];
    }
  }

  /** Element j of the input is element j % 10 of chunk j / 10. */
  lemma ChunkOf<T>(s: seq<T>, j: nat)
    requires j < |s|
    ensures j / ChunkSize < |Chunked(s)|
    ensures j % ChunkSize < |Chunked(s)[j / ChunkSize]|
    ensures Chunked(s)[j / ChunkSize][j % ChunkSize] == s[j]
  {
    var k := j / ChunkSize;
    assert k * ChunkSize + j % ChunkSize == j;
    ChunkedSizes(s);
    assert k < (|s| + ChunkSize - 1) / ChunkSize;
    ChunkAt(s, k);
  }

  /** The chunk builder loop of `handleLinksExtracted`. */
  method MakeChunks<T>(s: seq<T>) returns (chunks: seq<seq<T>>)
    ensures chunks == Chunked(s)
  {
    chunks := [];
    var i := 0;
    while i < |s|
      invariant 0 <= i
      invariant chunks + Chunked(s[Min(i, |s|)..]) == Chunked(s)
    {
      var hi := Min(i + ChunkSize, |s|);
      assert Min(i, |s|) == i;
      assert Chunked(s[i..]) == [s[i..hi]] + Chunked(s[hi..]) by {
        if |s[i..]| > ChunkSize {
          assert s[i..][..ChunkSize] == s[i..hi];
          assert s[i..][ChunkSize..] == s[hi..];
        } else {
          assert hi == |s| && s[i..hi] == s[i..];
          assert s[hi..] == [];
        }
      }
      assert (chunks + [s[i..hi]]) + Chunked(s[hi..]) == chunks + ([s[i..hi]] + Chunked(s[hi..]));
      chunks := chunks + [s[i..hi]];
      i := i + ChunkSize;
      assert Min(i, |s|) == hi;
    }
    assert s[Min(i, |s|)..] == [];
    assert chunks + [] == chunks;
  }

  /** `data.results.find(r => r.url === url)`: the first result for `url`, if any. */
  function FindResult(results: seq<CheckResult>, url: string): (r: Option<CheckResult>)
    ensures r.None? <==> forall k :: 0 <= k < |results| ==> results[k].url != url
    ensures r.Some? ==> r.value in results && r.value.url == url
    ensures forall k :: IsFirstMatch(results, url, k) ==> r == Some(results[k])
  {
    if results == [] then None
    else if results[0].url == url then Some(results[0])
    else
      var r := FindResult(results[1..], url);
      assert forall k :: IsFirstMatch(results, url, k) ==> IsFirstMatch(results[1..], url, k - 1);
      r
  }

  /** Result k is the first one whose URL is `url`. */
  predicate IsFirstMatch(results: seq<CheckResult>, url: string, k: int)
  {
    0 <= k < |results| && results[k].url == url && forall j :: 0 <= j < k ==> results[j].url != url
  }

  /** One record after a merge: the status of its first matching result, else unchanged. */
  function MergeOne(link: LinkRecord, results: seq<CheckResult>): (r: LinkRecord)
    // url and page are kept; the first matching result gives the status
    ensures r.url == link.url && r.page == link.page
    ensures forall k :: IsFirstMatch(results, link.url, k) ==> r.status == Some(results[k].status)
    // without a match the record is unchanged
    ensures (forall k :: 0 <= k < |results| ==> results[k].url != link.url) ==> r == link
  {
    match FindResult(results, link.url)
    case Some(result) => link.(status := Some(result.status))
    case None => link
  }

  /** `updatedLinks.map(link => ...)` with one chunk's results. */
  function Merge(links: seq<LinkRecord>, results: seq<CheckResult>): (r: seq<LinkRecord>)
    // the list keeps its length, and every record its url and page
    ensures |r| == |links|
    ensures forall i :: 0 <= i < |links| ==> r[i].url == links[i].url && r[i].page == links[i].page
    // a record with a matching result takes the status of the first match
    ensures forall i, k :: 0 <= i < |links| && IsFirstMatch(results, links[i].url, k) ==>
              r[i].status == Some(results[k].status)
    // a record without a match is left unchanged
    ensures forall i :: 0 <= i < |links| && (forall k :: 0 <= k < |results| ==> results[k].url != links[i].url) ==>
              r[i] == links[i]
  {
    seq(|links|, i requires 0 <= i < |links| => MergeOne(links[i], results))
  }

  /** Merging the same results twice is merging them once. */
  lemma MergeIdempotent(links: seq<LinkRecord>, results: seq<CheckResult>)
    ensures Merge(Merge(links, results), results) == Merge(links, results)
  {
    var once := Merge(links, results);
    var twice := Merge(once, results);
    assert forall i :: 0 <= i < |links| ==> twice[i] == once[i];
  }

  /** The working list after the chunk loop has handled `replies` (None: a non-ok
      response or a thrown error, Some: the reply's `results`). */
  function Applied(links: seq<LinkRecord>, replies: seq<Option<seq<CheckResult>>>): (r: seq<LinkRecord>)
    // the loop only ever rewrites statuses: length, urls and pages stay as extracted
    ensures |r| == |links|
    ensures forall i :: 0 <= i < |links| ==> r[i].url == links[i].url && r[i].page == links[i].page
  {
    if replies == [] then links
    else
      var earlier := Applied(links, replies[..|replies| - 1]);
      match replies[|replies| - 1]
      case None => earlier
      case Some(results) => Merge(earlier, results)
  }

  /** The status the latest successful reply mentioning `url` gave it (its first match there). */
  function Latest(replies: seq<Option<seq<CheckResult>>>, url: string): Option<int>
  {
    if replies == [] then None
    else
      var earlier := Latest(replies[..|replies| - 1], url);
      match replies[|replies| - 1]
      case None => earlier
      case Some(results) =>
        match FindResult(results, url)
        case Some(result) => Some(result.status)
        case None => earlier
  }

  /** The record with `status` overwritten when a reply gave one. */
  function WithLatest(link: LinkRecord, latest: Option<int>): LinkRecord
  {
    match latest
    case Some(s) => link.(status := Some(s))
    case None => link
  }

  /** After the loop, each record carries the status of the last successful reply that
      mentioned its URL, and is otherwise exactly as extracted. */
  lemma {:induction false} AppliedIsLatest(links: seq<LinkRecord>, replies: seq<Option<seq<CheckResult>>>)
    ensures |Applied(links, replies)| == |links|
    ensures forall i :: 0 <= i < |links| ==>
              Applied(links, replies)[i] == WithLatest(links[i], Latest(replies, links[i].url))
  {
    if replies != [] {
      var prefix := replies[..|replies| - 1];
      AppliedIsLatest(links, prefix);
      var earlier := Applied(links, prefix);
      match replies[|replies| - 1]
      case None =>
      case Some(results) =>
        assert forall i :: 0 <= i < |links| ==>
          Applied(links, replies)[i] == WithLatest(links[i], Latest(replies, links[i].url));
    }
  }

  /** Running the loop again over its own output with the same replies changes nothing. */
  lemma AppliedIdempotent(links: seq<LinkRecord>, replies: seq<Option<seq<CheckResult>>>)
    ensures Applied(Applied(links, replies), replies) == Applied(links, replies)
  {
    var once := Applied(links, replies);
    AppliedIsLatest(links, replies);
    AppliedIsLatest(once, replies);
  }

  /** A record whose status is set stays set through every later chunk. */
  lemma StatusStaysSet(links: seq<LinkRecord>, replies: seq<Option<seq<CheckResult>>>, k: nat, i: nat)
    requires k <= |replies| && i < |links|
    requires Applied(links, replies[..k])[i].status.Some?
    ensures Applied(links, replies)[i].status.Some?
  {
    AppliedIsLatest(links, replies[..k]);
    AppliedIsLatest(links, replies);
    if Latest(replies[..k], links[i].url).Some? {
      LatestPersists(replies, k, links[i].url);
    }
  }

  /** Once some reply gave a URL a status, later replies can only replace it. */
  lemma {:induction false} LatestPersists(replies: seq<Option<seq<CheckResult>>>, k: nat, url: string)
    requires k <= |replies|
    requires Latest(replies[..k], url).Some?
    ensures Latest(replies, url).Some?
    decreases |replies|
  {
    if k < |replies| {
      var prefix := replies[..|replies| - 1];
      assert prefix[..k] == replies[..k];
      LatestPersists(prefix, k, url);
    } else {
      assert replies[..k] == replies;
    }
  }

  /** A failed chunk leaves the working list exactly as it was. */
  lemma FailedChunkSkipped(links: seq<LinkRecord>, replies: seq<Option<seq<CheckResult>>>, k: nat)
    requires k < |replies| && replies[k].None?
    ensures Applied(links, replies[..k + 1]) == Applied(links, replies[..k])
  {
    assert replies[..k + 1][..k] == replies[..k];
  }

  /** What `handleLinksExtracted` makes observable, in order. */
  datatype Event =
    | Publish(snapshot: seq<LinkRecord>)  // setLinks(...)
    | Checking(on: bool)                  // setIsChecking(...)
    | Request(urls: seq<string>)          // the POST of one chunk's URLs

  /** The events of the chunk loop: each chunk's POST, then a publish of the merged list
      when its reply succeeded. */
  function LoopEvents(links: seq<LinkRecord>, chunks: seq<seq<LinkRecord>>,
                      replies: seq<Option<seq<CheckResult>>>): (r: seq<Event>)
    requires |chunks| == |replies|
    // one POST per chunk and one publish per successful reply
    ensures |r| == |chunks| + Successes(replies)
  {
    if chunks == [] then []
    else
      var n := |chunks| - 1;
      LoopEvents(links, chunks[..n], replies[..n]) + [Request(Urls(chunks[n]))]
        + (if replies[n].Some? then [Publish(Applied(links, replies))] else [])
  }

  /** One more iteration of the chunk loop. */
  lemma LoopStep(links: seq<LinkRecord>, chunks: seq<seq<LinkRecord>>,
                 replies: seq<Option<seq<CheckResult>>>, k: nat)
    requires |chunks| == |replies| && k < |chunks|
    ensures Applied(links, replies[..k + 1]) ==
      (match replies[k] case Some(results) => Merge(Applied(links, replies[..k]), results)
                        case None => Applied(links, replies[..k]))
    ensures LoopEvents(links, chunks[..k + 1], replies[..k + 1]) ==
      LoopEvents(links, chunks[..k], replies[..k]) + [Request(Urls(chunks[k]))]
        + (if replies[k].Some? then [Publish(Applied(links, replies[..k + 1]))] else [])
  {
    assert replies[..k + 1][..k] == replies[..k];
    assert chunks[..k + 1][..k] == chunks[..k];
  }

  /** One turn of the chunk loop keeps the loop's invariant: the working list is the
      merge of the replies so far, and the history holds the events of the chunks so far. */
  lemma ChunkTurn(links: seq<LinkRecord>, chunks: seq<seq<LinkRecord>>,
                  replies: seq<Option<seq<CheckResult>>>, k: nat,
                  h0: seq<Event>, updated: seq<LinkRecord>, merged: seq<LinkRecord>,
                  before: seq<Event>, after: seq<Event>)
    requires |chunks| == |replies| && k < |chunks|
    requires updated == Applied(links, replies[..k])
    requires before == h0 + LoopEvents(links, chunks[..k], replies[..k])
    requires merged == (match replies[k] case Some(results) => Merge(updated, results) case None => updated)
    requires after == before + [Request(Urls(chunks[k]))] + (if replies[k].Some? then [Publish(merged)] else [])
    ensures merged == Applied(links, replies[..k + 1])
    ensures after == h0 + LoopEvents(links, chunks[..k + 1], replies[..k + 1])
  {
    LoopStep(links, chunks, replies, k);
    var pub := if replies[k].Some? then [Publish(merged)] else [];
    TurnShape(h0, LoopEvents(links, chunks[..k], replies[..k]), LoopEvents(links, chunks[..k + 1], replies[..k + 1]),
              Request(Urls(chunks[k])), pub, before, after);
  }

  /** A history that held `done` and grows by one turn's events holds `next`. */
  lemma TurnShape(h0: seq<Event>, done: seq<Event>, next: seq<Event>, request: Event, pub: seq<Event>,
                  before: seq<Event>, after: seq<Event>)
    requires next == done + [request] + pub
    requires before == h0 + done
    requires after == before + [request] + pub
    ensures after == h0 + next
  {
    assert after == h0 + (done + [request] + pub);
  }

  /** Everything `handleLinksExtracted` does, from the first setLinks to the last setIsChecking. */
  function DispatchEvents(extracted: seq<LinkRecord>, replies: seq<Option<seq<CheckResult>>>): (r: seq<Event>)
    requires |replies| == |Chunked(extracted)|
    // a POST per chunk, a publish per success, plus the first publish and the two flag updates
    ensures |r| == |replies| + Successes(replies) + 3
  {
    [Publish(extracted), Checking(true)] + LoopEvents(extracted, Chunked(extracted), replies) + [Checking(false)]
  }

  /** The history of a whole dispatch, put together from its three phases. */
  lemma DispatchHistory(h0: seq<Event>, started: seq<Event>, looped: seq<Event>, finished: seq<Event>,
                        extracted: seq<LinkRecord>, replies: seq<Option<seq<CheckResult>>>)
    requires |replies| == |Chunked(extracted)|
    requires started == h0 + [Publish(extracted)] + [Checking(true)]
    requires looped == started + LoopEvents(extracted, Chunked(extracted), replies)
    requires finished == looped + [Checking(false)]
    ensures finished == h0 + DispatchEvents(extracted, replies)
  {
    PhasesShape(h0, LoopEvents(extracted, Chunked(extracted), replies),
                Publish(extracted), Checking(true), Checking(false), started, looped, finished);
  }

  /** Three phases of appends to a history, read as one append. */
  lemma PhasesShape(h0: seq<Event>, loop: seq<Event>, first: Event, second: Event, last: Event,
                    started: seq<Event>, looped: seq<Event>, finished: seq<Event>)
    requires started == h0 + [first] + [second]
    requires looped == started + loop
    requires finished == looped + [last]
    ensures finished == h0 + ([first, second] + loop + [last])
  {
    assert [first] + [second] == [first, second];
  }

  /** How many replies succeeded. */
  function Successes(replies: seq<Option<seq<CheckResult>>>): nat
  {
    if replies == [] then 0
    else Successes(replies[..|replies| - 1]) + (if replies[|replies| - 1].Some? then 1 else 0)
  }

  /** The snapshots published, in order. */
  function Published(events: seq<Event>): seq<seq<LinkRecord>>
  {
    if events == [] then []
    else Published(events[..|events| - 1])
           + (if events[|events| - 1].Publish? then [events[|events| - 1].snapshot] else [])
  }

  /** The URL lists posted, in order. */
  function Requested(events: seq<Event>): seq<seq<string>>
  {
    if events == [] then []
    else Requested(events[..|events| - 1])
           + (if events[|events| - 1].Request? then [events[|events| - 1].urls] else [])
  }

  /** `chunk.map(l => l.url)` for every chunk, in order. */
  function ChunkUrls(chunks: seq<seq<LinkRecord>>): (r: seq<seq<string>>)
    ensures |r| == |chunks|
  {
    if chunks == [] then [] else ChunkUrls(chunks[..|chunks| - 1]) + [Urls(chunks[|chunks| - 1])]
  }

  lemma {:induction false} PublishedAppend(a: seq<Event>, b: seq<Event>)
    ensures Published(a + b) == Published(a) + Published(b)
    ensures Requested(a + b) == Requested(a) + Requested(b)
    decreases |b|
  {
    if b != [] {
      var n := |b| - 1;
      assert (a + b)[..|a + b| - 1] == a + b[..n];
      PublishedAppend(a, b[..n]);
    } else {
      assert a + b == a;
    }
  }

  lemma PublishedOne(e: Event)
    ensures Published([e]) == (if e.Publish? then [e.snapshot] else [])
    ensures Requested([e]) == (if e.Request? then [e.urls] else [])
  {
    assert [e][..0] == [];
  }

  /** The events of the last iteration of the chunk loop. */
  lemma {:induction false} LoopEventsLast(links: seq<LinkRecord>, chunks: seq<seq<LinkRecord>>,
                                          replies: seq<Option<seq<CheckResult>>>)
    requires |chunks| == |replies| && chunks != []
    ensures var n := |chunks| - 1;
      && Published(LoopEvents(links, chunks, replies)) ==
           Published(LoopEvents(links, chunks[..n], replies[..n]))
             + (if replies[n].Some? then [Applied(links, replies)] else [])
      && Requested(LoopEvents(links, chunks, replies)) ==
           Requested(LoopEvents(links, chunks[..n], replies[..n])) + [Urls(chunks[n])]
  {
    var n := |chunks| - 1;
    var snapshot := Applied(links, replies);
    var pub := if replies[n].Some? then [Publish(snapshot)] else [];
    var earlier := LoopEvents(links, chunks[..n], replies[..n]);
    assert LoopEvents(links, chunks, replies) == earlier + [Request(Urls(chunks[n]))] + pub;
    StepEvents(earlier, Urls(chunks[n]), pub, snapshot);
  }

  /** Appending a POST and at most one publish to an event sequence. */
  lemma StepEvents(events: seq<Event>, urls: seq<string>, pub: seq<Event>, snapshot: seq<LinkRecord>)
    requires pub == [] || pub == [Publish(snapshot)]
    ensures Published(events + [Request(urls)] + pub) == Published(events) + (if pub == [] then [] else [snapshot])
    ensures Requested(events + [Request(urls)] + pub) == Requested(events) + [urls]
  {
    PublishedAppend(events + [Request(urls)], pub);
    PublishedAppend(events, [Request(urls)]);
    PublishedOne(Request(urls));
    PublishedOne(Publish(snapshot));
  }

  /** The loop publishes once per successful chunk. */
  lemma {:induction false} LoopPublishes(links: seq<LinkRecord>, chunks: seq<seq<LinkRecord>>,
                                         replies: seq<Option<seq<CheckResult>>>)
    requires |chunks| == |replies|
    ensures |Published(LoopEvents(links, chunks, replies))| == Successes(replies)
  {
    if chunks != [] {
      var n := |chunks| - 1;
      LoopPublishes(links, chunks[..n], replies[..n]);
      LoopEventsLast(links, chunks, replies);
    }
  }

  /** The last snapshot the loop publishes is its final list; when it publishes none, the
      list never changed. */
  lemma {:induction false} LoopLastSnapshot(links: seq<LinkRecord>, chunks: seq<seq<LinkRecord>>,
                                            replies: seq<Option<seq<CheckResult>>>)
    requires |chunks| == |replies|
    ensures var p := Published(LoopEvents(links, chunks, replies));
      && (p == [] ==> Applied(links, replies) == links)
      && (p != [] ==> p[|p| - 1] == Applied(links, replies))
  {
    if chunks != [] {
      var n := |chunks| - 1;
      LoopLastSnapshot(links, chunks[..n], replies[..n]);
      LoopEventsLast(links, chunks, replies);
    }
  }

  /** The loop posts every chunk's URLs, in order, failed chunks included. */
  lemma {:induction false} LoopRequests(links: seq<LinkRecord>, chunks: seq<seq<LinkRecord>>,
                                        replies: seq<Option<seq<CheckResult>>>)
    requires |chunks| == |replies|
    ensures Requested(LoopEvents(links, chunks, replies)) == ChunkUrls(chunks)
  {
    if chunks != [] {
      var n := |chunks| - 1;
      LoopRequests(links, chunks[..n], replies[..n]);
      LoopEventsLast(links, chunks, replies);
    }
  }

  /** The loop never touches the checking flag. */
  lemma {:induction false} LoopLeavesFlag(links: seq<LinkRecord>, chunks: seq<seq<LinkRecord>>,
                                          replies: seq<Option<seq<CheckResult>>>)
    requires |chunks| == |replies|
    ensures forall e :: e in LoopEvents(links, chunks, replies) ==> !e.Checking?
  {
    if chunks != [] {
      var n := |chunks| - 1;
      LoopLeavesFlag(links, chunks[..n], replies[..n]);
    }
  }

  /** The flag goes up after the first publish and before the first POST, and comes down
      only after the last chunk has been handled. */
  lemma DispatchFlag(extracted: seq<LinkRecord>, replies: seq<Option<seq<CheckResult>>>)
    requires |replies| == |Chunked(extracted)|
    ensures var ev := DispatchEvents(extracted, replies);
      && ev[0] == Publish(extracted) && ev[1] == Checking(true) && ev[|ev| - 1] == Checking(false)
      && (forall k :: 1 < k < |ev| - 1 ==> !ev[k].Checking?)
  {
    var loop := LoopEvents(extracted, Chunked(extracted), replies);
    LoopLeavesFlag(extracted, Chunked(extracted), replies);
    var ev := DispatchEvents(extracted, replies);
    forall k | 1 < k < |ev| - 1 ensures !ev[k].Checking? {
      assert ev[k] == loop[k - 2];
      assert loop[k - 2] in loop;
    }
  }

  /** Published and posted items of the whole dispatch: the extracted list, then the loop's. */
  lemma DispatchEventsSplit(extracted: seq<LinkRecord>, replies: seq<Option<seq<CheckResult>>>)
    requires |replies| == |Chunked(extracted)|
    ensures var loop := LoopEvents(extracted, Chunked(extracted), replies);
      && Published(DispatchEvents(extracted, replies)) == [extracted] + Published(loop)
      && Requested(DispatchEvents(extracted, replies)) == Requested(loop)
  {
    var loop := LoopEvents(extracted, Chunked(extracted), replies);
    var head := [Publish(extracted)] + [Checking(true)];
    var ev := DispatchEvents(extracted, replies);
    assert ev == (head + loop) + [Checking(false)];
    PublishedAppend(head + loop, [Checking(false)]);
    PublishedAppend(head, loop);
    HeadEvents(extracted);
    PublishedOne(Checking(false));
    calc {
      Published(ev);
      Published(head + loop) + Published([Checking(false)]);
      Published(head) + Published(loop);
      [extracted] + Published(loop);
    }
    calc {
      Requested(ev);
      Requested(head + loop) + Requested([Checking(false)]);
      Requested(head) + Requested(loop);
      Requested(loop);
    }
  }

  /** The two events before the loop publish the extracted list and post nothing. */
  lemma HeadEvents(extracted: seq<LinkRecord>)
    ensures Published([Publish(extracted)] + [Checking(true)]) == [extracted]
    ensures Requested([Publish(extracted)] + [Checking(true)]) == []
  {
    PublishedAppend([Publish(extracted)], [Checking(true)]);
    PublishedOne(Publish(extracted));
    PublishedOne(Checking(true));
  }

  /** One POST per chunk of ten, in order, failed chunks included. */
  lemma DispatchRequests(extracted: seq<LinkRecord>, replies: seq<Option<seq<CheckResult>>>)
    requires |replies| == |Chunked(extracted)|
    ensures Requested(DispatchEvents(extracted, replies)) == ChunkUrls(Chunked(extracted))
  {
    LoopRequests(extracted, Chunked(extracted), replies);
    DispatchEventsSplit(extracted, replies);
  }

  /** One publish of the extracted list, then one per successful chunk; the last snapshot
      published is the final list. */
  lemma DispatchPublishes(extracted: seq<LinkRecord>, replies: seq<Option<seq<CheckResult>>>)
    requires |replies| == |Chunked(extracted)|
    ensures |Published(DispatchEvents(extracted, replies))| == 1 + Successes(replies)
    ensures var p := Published(DispatchEvents(extracted, replies)); p[|p| - 1] == Applied(extracted, replies)
  {
    LoopPublishes(extracted, Chunked(extracted), replies);
    LoopLastSnapshot(extracted, Chunked(extracted), replies);
    DispatchEventsSplit(extracted, replies);
  }

  /** URLs pairwise distinct (the extractor de-duplicates them). */
  predicate DistinctUrls(links: seq<LinkRecord>)
  {
    forall i, j :: 0 <= i < j < |links| ==> links[i].url != links[j].url
  }

  /** Reply k answers chunk k's URLs, as the check-links endpoint promises, whenever it succeeded. */
  predicate RepliesAnswerChunks(extracted: seq<LinkRecord>, replies: seq<Option<seq<CheckResult>>>)
    requires |replies| == |Chunked(extracted)|
  {
    forall k :: 0 <= k < |replies| && replies[k].Some? ==>
      ResultUrls(replies[k].value) == Urls(Chunked(extracted)[k])
  }

  /** Replies that the check-links endpoint produced from each chunk's URLs answer their own chunk. */
  lemma EndpointAnswersChunks(extracted: seq<LinkRecord>, replies: seq<Option<seq<CheckResult>>>,
                              nets: seq<(nat, Method) -> Probe>)
    requires |replies| == |Chunked(extracted)| == |nets|
    requires forall k :: 0 <= k < |replies| && replies[k].Some? ==>
               replies[k].value == Post(Value(List(Urls(Chunked(extracted)[k]))), nets[k]).response.results
    ensures RepliesAnswerChunks(extracted, replies)
  {
    forall k | 0 <= k < |replies| && replies[k].Some?
      ensures ResultUrls(replies[k].value) == Urls(Chunked(extracted)[k])
    {
      ResultsMatchRequest(Urls(Chunked(extracted)[k]), nets[k]);
    }
  }

  /** If only reply k can mention `url`, the latest status for `url` is reply k's, if it succeeded. */
  lemma {:induction false} LatestFromOnlyReply(replies: seq<Option<seq<CheckResult>>>, url: string, k: nat)
    requires k < |replies|
    requires forall m :: 0 <= m < |replies| && m != k && replies[m].Some? ==> FindResult(replies[m].value, url).None?
    ensures Latest(replies, url) ==
      (if replies[k].Some? && FindResult(replies[k].value, url).Some?
       then Some(FindResult(replies[k].value, url).value.status) else None)
    decreases |replies|
  {
    var n := |replies| - 1;
    var prefix := replies[..n];
    if k < n {
      LatestFromOnlyReply(prefix, url, k);
    } else {
      LatestAbsent(prefix, url);
    }
  }

  /** No successful reply mentions `url`: it has no latest status. */
  lemma {:induction false} LatestAbsent(replies: seq<Option<seq<CheckResult>>>, url: string)
    requires forall m :: 0 <= m < |replies| && replies[m].Some? ==> FindResult(replies[m].value, url).None?
    ensures Latest(replies, url).None?
    decreases |replies|
  {
    if replies != [] {
      LatestAbsent(replies[..|replies| - 1], url);
    }
  }

  /** End to end, with de-duplicated URLs and replies that answer their own chunk: record j
      ends with the status its chunk's reply gave it when that reply succeeded, and keeps
      its extracted status when its chunk failed, whatever happened to the other chunks. */
  lemma DispatchOutcome(extracted: seq<LinkRecord>, replies: seq<Option<seq<CheckResult>>>, j: nat)
    requires |replies| == |Chunked(extracted)|
    requires DistinctUrls(extracted)
    requires RepliesAnswerChunks(extracted, replies)
    requires j < |extracted|
    ensures j / ChunkSize < |replies|
    ensures replies[j / ChunkSize].Some? ==> j % ChunkSize < |replies[j / ChunkSize].value|
    ensures var k := j / ChunkSize;
      Applied(extracted, replies)[j] ==
        if replies[k].Some? then extracted[j].(status := Some(replies[k].value[j % ChunkSize].status))
        else extracted[j]
  {
    var url := extracted[j].url;
    var k := j / ChunkSize;
    ChunkOf(extracted, j);
    forall m | 0 <= m < |replies| && m != k && replies[m].Some?
      ensures FindResult(replies[m].value, url).None?
    {
      OtherChunkOmits(extracted, replies, j, m);
    }
    LatestFromOnlyReply(replies, url, k);
    AppliedIsLatest(extracted, replies);
    if replies[k].Some? {
      OwnChunkAnswers(extracted, replies, j);
    }
  }

  /** A reply to another chunk never mentions record j's URL (URLs are distinct). */
  lemma OtherChunkOmits(extracted: seq<LinkRecord>, replies: seq<Option<seq<CheckResult>>>, j: nat, m: nat)
    requires |replies| == |Chunked(extracted)|
    requires DistinctUrls(extracted)
    requires RepliesAnswerChunks(extracted, replies)
    requires j < |extracted| && m < |replies| && m != j / ChunkSize && replies[m].Some?
    ensures FindResult(replies[m].value, extracted[j].url).None?
  {
    var k := j / ChunkSize;
    ChunkAt(extracted, m);
    var rs := replies[m].value;
    forall p | 0 <= p < |rs| ensures rs[p].url != extracted[j].url {
      assert ResultUrls(rs)[p] == rs[p].url;
      assert Urls(Chunked(extracted)[m])[p] == extracted[m * ChunkSize + p].url;
      assert m * ChunkSize + p != j by {
        if m < k { assert m * ChunkSize + p < (m + 1) * ChunkSize <= k * ChunkSize; }
        else { assert k * ChunkSize + ChunkSize <= m * ChunkSize; }
      }
    }
  }

  /** The reply to record j's own chunk answers it at position j % 10, first. */
  lemma OwnChunkAnswers(extracted: seq<LinkRecord>, replies: seq<Option<seq<CheckResult>>>, j: nat)
    requires |replies| == |Chunked(extracted)|
    requires DistinctUrls(extracted)
    requires RepliesAnswerChunks(extracted, replies)
    requires j < |extracted|
    requires j / ChunkSize < |replies| && replies[j / ChunkSize].Some?
    ensures j % ChunkSize < |replies[j / ChunkSize].value|
    ensures IsFirstMatch(replies[j / ChunkSize].value, extracted[j].url, j % ChunkSize)
  {
    var k := j / ChunkSize;
    var p := j % ChunkSize;
    var rs := replies[k].value;
    ChunkOf(extracted, j);
    ChunkAt(extracted, k);
    assert ResultUrls(rs)[p] == rs[p].url;
    forall q | 0 <= q < p ensures rs[q].url != extracted[j].url {
      assert ResultUrls(rs)[q] == rs[q].url;
      assert Urls(Chunked(extracted)[k])[q] == extracted[k * ChunkSize + q].url;
    }
  }

  /** The page's state: the list shown and the "checking" flag; `history` records every
      state update and every POST, in order. */
  class HomePage {
    var links: seq<LinkRecord>
    var isChecking: bool
    ghost var history: seq<Event>

    constructor ()
      ensures links == [] && !isChecking && history == []
    {
      links := [];
      isChecking := false;
      history := [];
    }

    method SetLinks(snapshot: seq<LinkRecord>)
      modifies this
      ensures links == snapshot && isChecking == old(isChecking)
      ensures history == old(history) + [Publish(snapshot)]
    {
      links := snapshot;
      history := history + [Publish(snapshot)];
    }

    method SetIsChecking(on: bool)
      modifies this
      ensures isChecking == on && links == old(links)
      ensures history == old(history) + [Checking(on)]
    {
      isChecking := on;
      history := history + [Checking(on)];
    }

    /** One turn of the chunk loop: POST the chunk's URLs; on a successful reply, merge it
        into the working list and publish that; on a failed one, change nothing. */
    method HandleChunk(chunk: seq<LinkRecord>, reply: Option<seq<CheckResult>>, updatedLinks: seq<LinkRecord>)
      returns (merged: seq<LinkRecord>)
      modifies this
      ensures merged == (match reply case Some(results) => Merge(updatedLinks, results) case None => updatedLinks)
      ensures history == old(history) + [Request(Urls(chunk))] + (if reply.Some? then [Publish(merged)] else [])
      ensures links == (if reply.Some? then merged else old(links))
      ensures isChecking == old(isChecking)
    {
      history := history + [Request(Urls(chunk))];
      merged := updatedLinks;
      match reply
      case Some(results) =>
        merged := Merge(updatedLinks, results);
        SetLinks(merged);
      case None =>
    }

    /** The `for (const chunk of chunks)` loop of `handleLinksExtracted`, starting from
        the extracted list as both the working list and the list shown. */
    method RunChunks(extracted: seq<LinkRecord>, chunks: seq<seq<LinkRecord>>,
                     replies: seq<Option<seq<CheckResult>>>)
      requires |chunks| == |replies|
      requires links == extracted
      modifies this
      ensures history == old(history) + LoopEvents(extracted, chunks, replies)
      ensures links == Applied(extracted, replies)
      ensures isChecking == old(isChecking)
    {
      var updatedLinks := extracted;
      for k := 0 to |chunks|
        invariant updatedLinks == Applied(extracted, replies[..k])
        invariant links == updatedLinks && isChecking == old(isChecking)
        invariant history == old(history) + LoopEvents(extracted, chunks[..k], replies[..k])
      {
        ghost var before := history;
        var merged := HandleChunk(chunks[k], replies[k], updatedLinks);
        ChunkTurn(extracted, chunks, replies, k, old(history), updatedLinks, merged, before, history);
        updatedLinks := merged;
      }
      assert chunks[..|chunks|] == chunks;
      assert replies[..|replies|] == replies;
    }

    /** `handleLinksExtracted(extractedLinks)`; `replies[k]` is what the POST of chunk k
        brought back. */
    method HandleLinksExtracted(extracted: seq<LinkRecord>, replies: seq<Option<seq<CheckResult>>>)
      requires |replies| == |Chunked(extracted)|
      modifies this
      ensures history == old(history) + DispatchEvents(extracted, replies)
      ensures links == Applied(extracted, replies)
      ensures !isChecking
    {
      SetLinks(extracted);
      SetIsChecking(true);
      var chunks := MakeChunks(extracted);
      ghost var started := history;
      RunChunks(extracted, chunks, replies);
      ghost var looped := history;
      SetIsChecking(false);
      DispatchHistory(old(history), started, looped, history, extracted, replies);
    }
  }
}
