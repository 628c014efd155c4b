# PDF link checker: verified model of the link-checking core

The application takes a PDF and collects its hyperlink annotations. It then checks every
link's reachability and shows a table of results. This project models the four pieces of
logic behind that, one Dafny module per source file:

- `CheckLinks` (`check_links.dfy`) is the `POST /api/check-links` handler. It validates the
  body. For each URL it sends a HEAD probe, and one GET when HEAD answers 405. A thrown
  probe (a network error, or the 5000 ms abort) is status 0. It answers one `{url, status}`
  per URL, in input order. The network is an oracle `net(i, m)`: the outcome of the probe
  with method `m` for the i-th URL.
- `Home` (`home.dfy`) is the page's `handleLinksExtracted`. It splits the records into
  chunks of 10 and posts each chunk in turn. It merges every successful reply into the
  working list by URL and publishes the list after each merge. A failed chunk is skipped.
  The class `Home.HomePage` holds the page state (`links`, `isChecking`). Its ghost
  `history` records each state update and each POST, in order. The reply to each chunk's
  POST is an input.
- `FileUpload` (`file_upload.dfy`) is the page loop and de-duplication of `processFile`.
  The parsed document is an input: one list of annotation `url` fields per page.
- `ResultsTable` (`results_table.dfy`) is the status classification and the rendering of
  rows.
- `Links` holds the shared `LinkRecord`, and `Wrappers` holds `Option`.

Behaviour of the code worth knowing:

- A status of 0 (network error or timeout) is shown as pending (hourglass, gray, `...`),
  not as broken. `ResultsTable.NetworkErrorShownPending` states this.
- A record with no matching result keeps whatever status it had. It is not reset to unset.
- The check-links endpoint's results come back in input order, because `Promise.all` keeps order.
- A body that is the JSON value `null` makes the destructuring throw, so the answer is 500,
  not 400.

## Model

| member | source | states |
|---|---|---|
| `Links.Urls` | src/app/page.js:33 | `chunk.map(l => l.url)` gives one URL per record, in record order. |
| `Links.UrlsMembers` | src/components/FileUpload.js:66 | The mapped URLs are exactly the records' URLs, as a set. |
| `CheckLinks.CheckUrl` | src/app/api/check-links/route.js:13-47 | HEAD is always sent first. A GET is sent exactly when HEAD answered 405. A HEAD code other than 405 is reported as is. After a 405 the GET's code is reported, whatever it is. A thrown HEAD or a thrown fallback GET reports 0. |
| `CheckLinks.Post` | src/app/api/check-links/route.js:3-56 | An unparsable or `null` body gives 500 "Internal Server Error". A missing, falsy or non-array `urls` gives 400 "Invalid URLs provided". Neither case sends a probe. An array of N URLs gives N results: result i has URL i and the status of URL i's own check, and only URL i's probes are sent for it. |
| `CheckLinks.PostStatus` | src/app/api/check-links/route.js:5-55 | The HTTP status is 200 exactly for an array `urls`, 400 exactly for a body whose `urls` is not an array, and 500 exactly for a body that cannot be read. Only the 200 answer carries results. |
| `CheckLinks.ResultsMatchRequest` | src/app/api/check-links/route.js:11-46 | The result URLs are the request URLs in the same order, so they have the same multiset. |
| `CheckLinks.ResultIsLocal` | src/app/api/check-links/route.js:12-47 | Two networks that agree on URL i's HEAD and GET outcomes give the same result i and the same probes for i. A failure on another URL cannot change it. |
| `CheckLinks.Reported405OnlyFromGet` | src/app/api/check-links/route.js:28-40 | 405 is reported only when HEAD answered 405 and the fallback GET also answered 405. |
| `CheckLinks.ZeroMeansFailure` | src/app/api/check-links/route.js:15-46 | When no server answers code 0, status 0 is reported exactly when HEAD threw, or when HEAD answered 405 and the GET threw. |
| `CheckLinks.ProbeExamples` | src/app/api/check-links/route.js:28-43 | HEAD 200 is reported as 200 with no GET. HEAD 405 then GET 403 is reported as 403 after exactly one GET. |
| `CheckLinks.StatusInRange` | src/app/api/check-links/route.js:40-46 | If every answer is a code from 100 to 599, every reported status is 0 or a code from 100 to 599. |
| `Home.Chunked` | src/app/page.js:18-22 | There is a chunk exactly when there is a record. Every chunk holds 1 to 10 records. |
| `Home.ChunkedFlatten` | src/app/page.js:18-22 | Concatenating the chunks gives back the extracted list exactly. |
| `Home.ChunkedSizes` | src/app/page.js:18-22 | There are ceil(n/10) chunks. Each has 1 to 10 records, and all but the last have exactly 10. |
| `Home.ChunkAt` | src/app/page.js:19-21 | Chunk k is the slice of the input that starts at 10k and ends at 10k+10 or at the end of the input. |
| `Home.ChunkOf` | src/app/page.js:19-21 | Record j is element j mod 10 of chunk j div 10. |
| `Home.MakeChunks` | src/app/page.js:18-22 | The counting loop builds exactly the chunk list above. |
| `Home.FindResult` | src/app/page.js:41 | `find` gives nothing exactly when no result has the URL. Otherwise it gives the first result whose URL matches, which is a member of the results. |
| `Home.MergeOne` | src/app/page.js:40-46 | The map callback keeps the record's url and page. The first matching result gives the status. Without a match the record is returned unchanged. |
| `Home.Merge` | src/app/page.js:40-46 | The list keeps its length and every record keeps its url and page. A record with a matching result takes the status of the first match. A record with no match is unchanged. |
| `Home.MergeIdempotent` | src/app/page.js:40-46 | Merging the same results twice gives the same list as merging them once. |
| `Home.Applied` | src/app/page.js:24-53 | The loop's working list only ever has statuses rewritten: it keeps the extracted list's length, and each record's url and page. |
| `Home.AppliedIsLatest` | src/app/page.js:24-53 | After the loop, each record carries the status from the last successful reply that mentioned its URL. A record no successful reply mentioned is exactly as extracted. |
| `Home.AppliedIdempotent` | src/app/page.js:24-53 | Running the loop again on its own output, with the same replies, changes nothing. |
| `Home.StatusStaysSet` | src/app/page.js:36-48 | A status that is set after some chunk stays set through every later chunk. |
| `Home.FailedChunkSkipped` | src/app/page.js:36-52 | A failed chunk leaves the working list exactly as it was. |
| `Home.LoopEvents` | src/app/page.js:26-53 | The chunk loop's effects are one POST per chunk and one publish per successful reply. |
| `Home.LoopPublishes` | src/app/page.js:36-48 | The loop publishes once per successful chunk. |
| `Home.LoopLastSnapshot` | src/app/page.js:36-48 | The last snapshot the loop publishes is its final list. If it publishes none, the list never changed. |
| `Home.LoopRequests` | src/app/page.js:26-34 | The loop posts every chunk's URLs in chunk order, failed chunks included. |
| `Home.LoopLeavesFlag` | src/app/page.js:26-53 | The loop never changes `isChecking`. |
| `Home.DispatchEvents` | src/app/page.js:13-56 | A whole dispatch has one POST per chunk, one publish per successful reply, and three more updates: the first publish, flag up and flag down. |
| `Home.DispatchFlag` | src/app/page.js:14-55 | The extracted list is published first. `isChecking` is then set true before any POST. It is set false only at the very end, and nowhere in between. |
| `Home.DispatchRequests` | src/app/page.js:18-34 | The whole dispatch posts exactly one URL list per chunk of 10, in order. |
| `Home.DispatchPublishes` | src/app/page.js:14-48 | There is one publish of the extracted list plus one per successful chunk. The last snapshot published is the final list. |
| `Home.EndpointAnswersChunks` | src/app/page.js:28-34 | Replies the check-links endpoint produced from each chunk's URLs answer exactly their own chunk's URLs. |
| `Home.DispatchOutcome` | src/app/page.js:24-53 | Assume distinct URLs and replies that answer their own chunk. Record j then ends with the status its own chunk's reply gave it if that reply succeeded. If that chunk failed, record j keeps its extracted status, whatever happened to the other chunks. |
| `Home.HomePage.constructor` | src/app/page.js:10-11 | The page starts with no links, `isChecking` false and nothing recorded. |
| `Home.HomePage.HandleLinksExtracted` | src/app/page.js:13-56 | The history grows by exactly the dispatch events (publish, flag up, per chunk a POST and a publish on success, flag down). `links` ends as the merged list, and `isChecking` ends false. |
| `Home.HomePage.HandleChunk` | src/app/page.js:28-52 | One chunk's turn posts the chunk's URLs. On a successful reply it merges the results into the working list and publishes it. On a failed reply it leaves the list and the shown links alone. The flag is untouched. |
| `Home.HomePage.RunChunks` | src/app/page.js:26-53 | The chunk loop records exactly the per-chunk events in order, and the shown list ends as every successful reply merged in turn. The flag is untouched. |
| `Home.ChunkTurn` | src/app/page.js:26-53 | One turn of the loop takes the merged list and the event record for the first k chunks to those for the first k+1 chunks. |
| `Home.HomePage.SetLinks` | src/app/page.js:14-48 | `setLinks` replaces the shown list, records a publish and leaves the flag alone. |
| `Home.HomePage.SetIsChecking` | src/app/page.js:15-55 | `setIsChecking` sets the flag, records it and leaves the list alone. |
| `FileUpload.HasUrl` | src/components/FileUpload.js:56 | An annotation's url is falsy exactly when the field is missing or the empty string. |
| `FileUpload.PageLinks` | src/components/FileUpload.js:55-60 | Only annotations with a truthy URL are kept, each tagged with the page and no status. Every such annotation is kept. |
| `FileUpload.PageLinksAppend` | src/components/FileUpload.js:55-60 | The filter keeps annotation order: filtering two runs of annotations is filtering each and concatenating. |
| `FileUpload.AllLinks` | src/components/FileUpload.js:49-63 | Every collected link comes from a truthy annotation of the 1-based page it names. Links are ordered by page. |
| `FileUpload.AllLinksComplete` | src/components/FileUpload.js:51-62 | Every truthy annotation of every page is collected, tagged with its 1-based page. |
| `FileUpload.AllLinksAppendPage` | src/components/FileUpload.js:62 | Reading one more page appends that page's links after all earlier ones. |
| `FileUpload.CollectLinks` | src/components/FileUpload.js:49-63 | The page loop accumulates exactly the collected links of all pages. |
| `FileUpload.FirstPos` | src/components/FileUpload.js:67 | `find` gives the position of the first occurrence. |
| `FileUpload.UniqueUrls` | src/components/FileUpload.js:66 | The Set holds each URL once, and exactly the URLs of the input. |
| `FileUpload.UniqueUrlsOrder` | src/components/FileUpload.js:66 | The Set keeps URLs in order of first occurrence. |
| `FileUpload.Dedup` | src/components/FileUpload.js:66-67 | The URLs after de-duplication are pairwise distinct, and their set is unchanged. Each entry is the first record that carries its URL. |
| `FileUpload.DedupOrder` | src/components/FileUpload.js:66-67 | De-duplicated entries come in order of first occurrence. |
| `FileUpload.DedupEarliestPage` | src/components/FileUpload.js:51-67 | Each de-duplicated entry carries the earliest page on which its URL appears. |
| `FileUpload.ProcessFile` | src/components/FileUpload.js:41-72 | A document pdf.js cannot read gives the error "Failed to parse PDF. Please try another file." Otherwise the result is the de-duplicated links of all pages. |
| `ResultsTable.Truthy` | src/components/ResultsTable.js:6-16 | `!status` holds exactly for an unset status and for 0. |
| `ResultsTable.Classify` | src/components/ResultsTable.js:6-16 | An unset status or 0 is pending. 200 to 299 (2xx) is valid. Any other status is broken. |
| `ResultsTable.StatusColor` | src/components/ResultsTable.js:6-10 | Gray exactly for pending, success colour exactly for valid, error colour exactly for broken. |
| `ResultsTable.StatusIcon` | src/components/ResultsTable.js:12-16 | Hourglass exactly for pending, check mark exactly for valid, cross exactly for broken. |
| `ResultsTable.IconMatchesColor` | src/components/ResultsTable.js:6-16 | The icon and the colour always show the same state. |
| `ResultsTable.ShowCode` | src/components/ResultsTable.js:63 | The code column shows the status exactly when it is truthy, and `...` otherwise, including for 0. |
| `ResultsTable.NetworkErrorShownPending` | src/components/ResultsTable.js:6-63 | Status 0 is shown exactly like an unchecked link: hourglass, gray, `...`. |
| `ResultsTable.Render` | src/components/ResultsTable.js:4-63 | A missing or empty list renders nothing. Otherwise the count is the list's length, and there is one row per record, in order, with its url and page. Each row's icon and colour are those of the record's state, and its code cell follows the code-column rule. |

## Left out

- `fetch`, `AbortController` and `setTimeout` are not modelled. Each probe's outcome is an input (`CheckLinks.Probe`), and a probe that hits the 5000 ms abort is a `Fail`. The User-Agent header is a constant only.
- `Promise.all` concurrency is not modelled. The per-URL checks are independent, so the batch is a map in input order.
- `request.json()` and `NextResponse.json` serialisation are not modelled. The body is the `Body` datatype, and the response is the `Response` datatype with its HTTP status.
- Array elements of `urls` that are not strings are not modelled. The model takes URL strings.
- The dispatcher's own `fetch('/api/check-links')` and `response.json()` are not modelled. The reply to each chunk's POST is an input, one per chunk. A thrown fetch, a non-ok response or an unreadable reply body is `None`. `HandleLinksExtracted` therefore requires exactly one reply per chunk.
- A second call to `handleLinksExtracted` while an earlier one is still awaiting is not modelled. Interleaving two dispatch loops needs React's asynchronous scheduling.
- PDF parsing with pdf.js and its worker configuration are not modelled. The parsed document is an input: one list of annotation `url` fields per page, or `None` when loading the document or any page fails.
- React hooks, drag and drop, the file-input handlers, `isLoading`, the JSX markup and the CSS class strings other than the three status colours are not modelled. They are UI.
- `console.error` logging is not modelled.
