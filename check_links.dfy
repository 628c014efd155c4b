/** The `POST /api/check-links` handler: validates the request body, probes every URL
    (HEAD first, one GET when HEAD answers 405) and answers one `{ url, status }`
    per URL, in input order.  The network is an oracle `net(i, m)`: the outcome of
    the probe with method `m` for the i-th URL of the request. */
module CheckLinks {

  /** Outcome of one `fetch`: a response carrying its status code, or a thrown error
      (network failure, or the abort fired by the probe's 5000 ms timer). */
  datatype Probe = Resp(code: int) | Fail

  datatype Method = Head | Get

  /** Per-probe timeout, in milliseconds; a probe that exceeds it is a `Fail`.
      Documentation only: timing is not modelled. */
  const ProbeTimeoutMs := 5000
  /** Header `User-Agent` sent with every probe. Documentation only: headers are not modelled. */
  const UserAgent := "PDFLinkChecker/1.0"
  /** 405 Method Not Allowed (section 15.5.6 of RFC 9110): the only code that triggers the GET. */
  const MethodNotAllowed := 405
  /** Status reported for a URL whose probe threw. */
  const NetworkError := 0

  datatype CheckResult = CheckResult(url: string, status: int)

  /** What one URL's check reports, and the probes it sent, in order. */
  datatype Check = Check(status: int, sent: seq<Method>)

  /** The per-URL check. */
  function CheckUrl(head: Probe, get: Probe): (c: Check)
    // HEAD always goes first; the GET is sent exactly when HEAD answered 405
    ensures c.sent == (if head == Resp(MethodNotAllowed) then [Head, Get] else [Head])
    // a HEAD answer other than 405 is the reported status
    ensures head.Resp? && head.code != MethodNotAllowed ==> c.status == head.code
    // after a 405 the GET's answer is reported, whatever it is
    ensures head == Resp(MethodNotAllowed) && get.Resp? ==> c.status == get.code
    // a thrown HEAD or a thrown fallback GET gives 0
    ensures head.Fail? || (head == Resp(MethodNotAllowed) && get.Fail?) ==> c.status == NetworkError
  {
    match head
    case Fail => Check(NetworkError, [Head])
    case Resp(code) =>
      if code == MethodNotAllowed then
        match get
        case Fail => Check(NetworkError, [Head, Get])
        case Resp(getCode) => Check(getCode, [Head, Get])
      else
        Check(code, [Head])
  }

  /** The `urls` field of the parsed body: absent, some non-array value, or an array of
      URL strings. The truthiness of a non-array value is documentation only: truthy or
      not, it is rejected with 400. */
  datatype UrlsField = Absent | Scalar(truthy: bool) | List(items: seq<string>)

  /** The request body: not valid JSON, the JSON value `null` (destructuring it
      throws), or any other JSON value, of which only the `urls` field matters. */
  datatype Body = Unparsable | Null | Value(urls: UrlsField)

  datatype Response = Results(results: seq<CheckResult>) | Error(code: int, message: string)

  /** The HTTP status of a response. */
  function HttpStatus(r: Response): int
  {
    match r
    case Results(_) => 200
    case Error(code, _) => code
  }

  const BadRequest := 400
  const InternalServerError := 500
  const InvalidUrlsMessage := "Invalid URLs provided"
  const InternalErrorMessage := "Internal Server Error"

  /** A handled request: the response and, per URL, the probes that were sent. */
  datatype Exchange = Exchange(response: Response, probes: seq<seq<Method>>)

  /** `POST(request)`; `Promise.all` over independent checks is a map in input order. */
  function Post(body: Body, net: (nat, Method) -> Probe): (x: Exchange)
    // a body that cannot be read or destructured is a 500, and nothing is probed
    ensures body.Unparsable? || body.Null? ==>
      x.response == Error(InternalServerError, InternalErrorMessage) && x.probes == []
    // `urls` missing, falsy or not an array is a 400, and nothing is probed
    ensures body.Value? && !body.urls.List? ==>
      x.response == Error(BadRequest, InvalidUrlsMessage) && x.probes == []
    // an array of N urls gives N results, result i for url i, each from its own probes only
    ensures body.Value? && body.urls.List? ==>
      var urls := body.urls.items;
      && x.response.Results?
      && |x.response.results| == |urls| && |x.probes| == |urls|
      && forall i :: 0 <= i < |urls| ==>
           var c := CheckUrl(net(i, Head), net(i, Get));
           x.response.results[i] == CheckResult(urls[i], c.status) && x.probes[i] == c.sent
  {
    match body
    case Unparsable => Exchange(Error(InternalServerError, InternalErrorMessage), [])
    case Null => Exchange(Error(InternalServerError, InternalErrorMessage), [])
    case Value(Absent) => Exchange(Error(BadRequest, InvalidUrlsMessage), [])
    case Value(Scalar(_)) => Exchange(Error(BadRequest, InvalidUrlsMessage), [])
    case Value(List(urls)) =>
      var checks := seq(|urls|, i requires 0 <= i < |urls| => CheckUrl(net(i, Head), net(i, Get)));
      Exchange(Results(seq(|urls|, i requires 0 <= i < |urls| => CheckResult(urls[i], checks[i].status))),
               seq(|urls|, i requires 0 <= i < |urls| => checks[i].sent))
  }

  /** The result URLs, in order. */
  function ResultUrls(results: seq<CheckResult>): seq<string>
  {
    seq(|results|, i requires 0 <= i < |results| => results[i].url)
  }

  /** The HTTP status of every outcome of Post, and the only one that carries results. */
  lemma PostStatus(body: Body, net: (nat, Method) -> Probe)
    ensures HttpStatus(Post(body, net).response) == 200 <==> body.Value? && body.urls.List?
    ensures HttpStatus(Post(body, net).response) == 400 <==> body.Value? && !body.urls.List?
    ensures HttpStatus(Post(body, net).response) == 500 <==> body.Unparsable? || body.Null?
    ensures Post(body, net).response.Results? <==> HttpStatus(Post(body, net).response) == 200
  {
  }

  /** The results carry exactly the request's URLs, in order (so the same multiset). */
  lemma ResultsMatchRequest(urls: seq<string>, net: (nat, Method) -> Probe)
    ensures ResultUrls(Post(Value(List(urls)), net).response.results) == urls
    ensures multiset(ResultUrls(Post(Value(List(urls)), net).response.results)) == multiset(urls)
  {
    var rs := Post(Value(List(urls)), net).response.results;
    assert |ResultUrls(rs)| == |urls|;
    forall i | 0 <= i < |urls| ensures ResultUrls(rs)[i] == urls[i] {
    }
  }

  /** The status of URL i depends only on URL i's own probes: two networks that agree on
      them give the same result i, whatever happens to every other URL. */
  lemma ResultIsLocal(urls: seq<string>, net1: (nat, Method) -> Probe, net2: (nat, Method) -> Probe, i: nat)
    requires i < |urls|
    requires net1(i, Head) == net2(i, Head) && net1(i, Get) == net2(i, Get)
    ensures Post(Value(List(urls)), net1).response.results[i] == Post(Value(List(urls)), net2).response.results[i]
    ensures Post(Value(List(urls)), net1).probes[i] == Post(Value(List(urls)), net2).probes[i]
  {
  }

  /** A 405 is reported only when the fallback GET itself answered 405. */
  lemma Reported405OnlyFromGet(head: Probe, get: Probe)
    requires CheckUrl(head, get).status == MethodNotAllowed
    ensures head == Resp(MethodNotAllowed) && get == Resp(MethodNotAllowed)
  {
  }

  /** Status 0 is reported exactly when the last probe sent threw (given that servers
      never answer with code 0). */
  lemma ZeroMeansFailure(head: Probe, get: Probe)
    requires head != Resp(0) && get != Resp(0)
    ensures CheckUrl(head, get).status == NetworkError <==>
              (head.Fail? || (head == Resp(MethodNotAllowed) && get.Fail?))
  {
  }

  /** HEAD answered 200: reported as 200, no GET.  HEAD answered 405 and GET 403: reported
      as 403 after exactly one GET. */
  lemma ProbeExamples(get: Probe)
    ensures CheckUrl(Resp(200), get) == Check(200, [Head])
    ensures CheckUrl(Resp(MethodNotAllowed), Resp(403)) == Check(403, [Head, Get])
  {
  }

  /** A valid HTTP status code (a three-digit code from 100 to 599). */
  predicate IsHttpCode(code: int) { 100 <= code <= 599 }

  /** When every answer is a valid HTTP code, every reported status is 0 or a valid code. */
  lemma StatusInRange(urls: seq<string>, net: (nat, Method) -> Probe)
    requires forall i: nat, m: Method :: net(i, m).Resp? ==> IsHttpCode(net(i, m).code)
    ensures forall r :: r in Post(Value(List(urls)), net).response.results ==>
              r.status == NetworkError || IsHttpCode(r.status)
  {
    var rs := Post(Value(List(urls)), net).response.results;
    forall r | r in rs ensures r.status == NetworkError || IsHttpCode(r.status) {
      var i :| 0 <= i < |rs| && rs[i] == r;
      assert net(i, Head).Resp? ==> IsHttpCode(net(i, Head).code);
      assert net(i, Get).Resp? ==> IsHttpCode(net(i, Get).code);
    }
  }
}
