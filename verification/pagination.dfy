/**
 * The page loop shared by both `fetch_reviews` functions
 * (src/reviews_fetcher.py and src/download_reviews.py): request a details
 * page, stop on a transport failure or a non-OK status keeping what was
 * gathered, turn the page's reviews into records, and follow the
 * continuation token after a pause until a page comes without one.
 */
module Pagination {
  import opened Options
  import opened PlacesApi

  /** Whose rules apply: src/reviews_fetcher.py or src/download_reviews.py. */
  datatype Variant = Fetcher | Downloader

  /**
   * Whether the loop still takes the place name from the next OK page: the
   * downloader only while it has none, the fetcher also while it holds "Unknown".
   */
  predicate NamePending(v: Variant, loc: Option<string>) {
    loc.None? || (v == Fetcher && loc == Some(UnknownName))
  }

  /** The location name after an OK page (`result.get("name", "Unknown")` while pending). */
  function AdoptName(v: Variant, loc: Option<string>, result: PlaceResult): string {
    if NamePending(v, loc) then result.name.GetOr(UnknownName) else loc.value
  }

  /**
   * One record built from a raw review: the queried place id, the current
   * location name, author and rating copied, a falsy `time` (absent or 0)
   * giving no timestamp, and the text defaulting to "" for the fetcher only.
   */
  function ToRecord(v: Variant, pid: string, loc: string, raw: RawReview): (r: ReviewRecord)
    ensures r.placeId == pid && r.locationName == loc
    ensures r.authorName == raw.authorName && r.rating == raw.rating
    ensures r.datetimeUtc.None? <==> raw.time.None? || raw.time == Some(0)
    ensures r.datetimeUtc.Some? ==> r.datetimeUtc == raw.time
    ensures v == Fetcher ==> r.text == Some(raw.text.GetOr(""))
    ensures v == Downloader ==> r.text == raw.text
  {
    var time := if raw.time.Some? && raw.time.value != 0 then raw.time else None;
    var text := if v == Fetcher then Some(raw.text.GetOr("")) else raw.text;
    ReviewRecord(pid, loc, raw.authorName, raw.rating, time, text)
  }

  function ToRecords(v: Variant, pid: string, loc: string, raws: seq<RawReview>): (rs: seq<ReviewRecord>)
    ensures |rs| == |raws|
    ensures forall i :: 0 <= i < |raws| ==> rs[i] == ToRecord(v, pid, loc, raws[i])
  {
    seq(|raws|, i requires 0 <= i < |raws| => ToRecord(v, pid, loc, raws[i]))
  }

  /** Why the loop ended. */
  datatype Stop = TransportFailed | StatusNotOk(status: Option<string>) | LastPage

  /** The loop's outcome: records gathered, location name, calls issued, and why it stopped. */
  datatype Crawl = Crawl(records: seq<ReviewRecord>, location: Option<string>, calls: seq<Call>, stop: Stop)

  /** The `pagetoken` parameter: sent only when the token is truthy. */
  function RequestToken(token: Option<string>): Option<string> {
    if Truthy(token) then token else None
  }

  /**
   * The loop from the request carrying `token` on, with `replies` the replies
   * still to come (running out of replies reads as a transport failure) and
   * `loc` the location name so far.
   */
  function CrawlPages(v: Variant, pid: string, replies: seq<DetailsReply>, token: Option<string>, loc: Option<string>): (c: Crawl)
    ensures loc.Some? ==> c.location.Some?
    ensures forall i :: 0 <= i < |c.records| ==> c.records[i].placeId == pid
    decreases |replies|
  {
    var request := Details(pid, RequestToken(token));
    if |replies| == 0 then Crawl([], loc, [request], TransportFailed)
    else match replies[0]
      case DetailsFailed => Crawl([], loc, [request], TransportFailed)
      case DetailsReply(status, result, next) =>
        if status != Some(StatusOk) then Crawl([], loc, [request], StatusNotOk(status))
        else
          var name := AdoptName(v, loc, result);
          var page := ToRecords(v, pid, name, result.reviews);
          if !Truthy(next) then Crawl(page, Some(name), [request], LastPage)
          else
            var rest := CrawlPages(v, pid, replies[1..], next, Some(name));
            Crawl(page + rest.records, rest.location, [request, Sleep(PageDelaySeconds)] + rest.calls, rest.stop)
  }

  // ---------------------------------------------------------------------------
  // Which replies the loop consumes and accepts

  /**
   * The number of page requests the loop issues: it continues exactly while
   * the reply is OK and carries a truthy token.
   */
  function Requested(replies: seq<DetailsReply>): (n: nat)
    ensures 1 <= n <= |replies| + 1
    ensures forall k :: 0 <= k < n - 1 ==> Continues(replies[k])
    ensures n - 1 < |replies| ==> !Continues(replies[n - 1])
    decreases |replies|
  {
    if |replies| == 0 || !Continues(replies[0]) then 1 else 1 + Requested(replies[1..])
  }

  /**
   * The results of the OK pages the loop processes: a prefix of the replies,
   * all OK, each but the last carrying a token, and stopped at the first reply
   * that is not OK or comes without a token.
   */
  function Accepted(replies: seq<DetailsReply>): (rs: seq<PlaceResult>)
    ensures |rs| <= |replies|
    ensures forall i :: 0 <= i < |rs| ==> IsOkReply(replies[i]) && rs[i] == replies[i].result
    ensures forall i :: 0 <= i < |rs| - 1 ==> Continues(replies[i])
    ensures (|rs| == 0 || Continues(replies[|rs| - 1])) ==> |rs| == |replies| || !IsOkReply(replies[|rs|])
    decreases |replies|
  {
    if |replies| == 0 || !IsOkReply(replies[0]) then []
    else if !Continues(replies[0]) then [replies[0].result]
    else [replies[0].result] + Accepted(replies[1..])
  }

  /** The requests the loop issues: the first with `token`, each later one with the previous reply's token. */
  function ExpectedRequests(pid: string, token: Option<string>, replies: seq<DetailsReply>): (reqs: seq<Call>)
    ensures |reqs| == Requested(replies)
  {
    var n := Requested(replies);
    seq(n, k requires 0 <= k < n => Details(pid, if k == 0 then RequestToken(token) else TokenOf(replies[k - 1])))
  }

  /** `reqs` with a pause of `PageDelaySeconds` between consecutive requests. */
  function Paced(reqs: seq<Call>): (cs: seq<Call>)
    ensures |reqs| > 0 ==> |cs| == 2 * |reqs| - 1
  {
    if |reqs| <= 1 then reqs else [reqs[0], Sleep(PageDelaySeconds)] + Paced(reqs[1..])
  }

  /** A crawl that starts without a token first requests the place's first page. */
  lemma FirstRequest(pid: string, replies: seq<DetailsReply>)
    ensures var cs := Paced(ExpectedRequests(pid, None, replies));
      |cs| > 0 && cs[0] == Details(pid, None)
  {
    var reqs := ExpectedRequests(pid, None, replies);
    assert reqs[0] == Details(pid, RequestToken(None));
    assert Paced(reqs)[0] == reqs[0];
  }

  /** The records the loop builds from the accepted results, with the name rule applied page by page. */
  function Expected(v: Variant, pid: string, loc: Option<string>, results: seq<PlaceResult>): seq<ReviewRecord>
    decreases |results|
  {
    if results == [] then []
    else
      var name := AdoptName(v, loc, results[0]);
      ToRecords(v, pid, name, results[0].reviews) + Expected(v, pid, Some(name), results[1..])
  }

  function FinalLocation(v: Variant, loc: Option<string>, results: seq<PlaceResult>): Option<string>
    decreases |results|
  {
    if results == [] then loc else FinalLocation(v, Some(AdoptName(v, loc, results[0])), results[1..])
  }

  /** The raw reviews of the accepted pages, in API order. */
  function AllReviews(results: seq<PlaceResult>): seq<RawReview> {
    if results == [] then [] else results[0].reviews + AllReviews(results[1..])
  }

  // ---------------------------------------------------------------------------
  // The loop against the reference definitions

  /** The calls issued are the expected requests with one pause between consecutive ones. */
  lemma {:induction false} CrawlCalls(v: Variant, pid: string, replies: seq<DetailsReply>, token: Option<string>, loc: Option<string>)
    ensures CrawlPages(v, pid, replies, token, loc).calls == Paced(ExpectedRequests(pid, token, replies))
    decreases |replies|
  {
    var reqs := ExpectedRequests(pid, token, replies);
    if |replies| > 0 && Continues(replies[0]) {
      var next := TokenOf(replies[0]);
      var tail := ExpectedRequests(pid, next, replies[1..]);
      CrawlCalls(v, pid, replies[1..], next, Some(AdoptName(v, loc, replies[0].result)));
      assert reqs == [Details(pid, RequestToken(token))] + tail;
      assert reqs[1..] == tail;
    }
  }

  /** The loop builds exactly the expected records from the accepted results and ends on their final name. */
  lemma {:induction false} CrawlIsExpected(v: Variant, pid: string, replies: seq<DetailsReply>, token: Option<string>, loc: Option<string>)
    ensures CrawlPages(v, pid, replies, token, loc).records == Expected(v, pid, loc, Accepted(replies))
    ensures CrawlPages(v, pid, replies, token, loc).location == FinalLocation(v, loc, Accepted(replies))
    decreases |replies|
  {
    if |replies| > 0 && IsOkReply(replies[0]) {
      var result := replies[0].result;
      var name := AdoptName(v, loc, result);
      var acc := Accepted(replies);
      if Continues(replies[0]) {
        CrawlIsExpected(v, pid, replies[1..], TokenOf(replies[0]), Some(name));
        assert acc[1..] == Accepted(replies[1..]);
      } else {
        assert acc == [result];
        assert acc[1..] == [];
      }
    }
  }

  /**
   * A failing reply at position `i` cuts the crawl there: the records and the
   * location name are those of the replies before it, so partial results are kept.
   */
  lemma {:induction false} FailureKeepsEarlierPages(v: Variant, pid: string, replies: seq<DetailsReply>, token: Option<string>, loc: Option<string>, i: nat)
    requires i < |replies| && !IsOkReply(replies[i])
    ensures CrawlPages(v, pid, replies, token, loc).records == CrawlPages(v, pid, replies[..i], token, loc).records
    ensures CrawlPages(v, pid, replies, token, loc).location == CrawlPages(v, pid, replies[..i], token, loc).location
    decreases i
  {
    if i > 0 && Continues(replies[0]) {
      var name := AdoptName(v, loc, replies[0].result);
      assert replies[..i][1..] == replies[1..][..i - 1];
      FailureKeepsEarlierPages(v, pid, replies[1..], TokenOf(replies[0]), Some(name), i - 1);
    }
  }

  /** The loop reports why it ended, as decided by the last reply it requested. */
  lemma {:induction false} CrawlStop(v: Variant, pid: string, replies: seq<DetailsReply>, token: Option<string>, loc: Option<string>)
    ensures
      var c := CrawlPages(v, pid, replies, token, loc);
      var n := Requested(replies);
      && (c.stop == TransportFailed <==> n > |replies| || replies[n - 1].DetailsFailed?)
      && (c.stop.StatusNotOk? <==> n <= |replies| && replies[n - 1].DetailsReply? && !IsOkReply(replies[n - 1]))
      && (c.stop == LastPage <==> n <= |replies| && IsOkReply(replies[n - 1]))
    decreases |replies|
  {
    if |replies| > 0 && Continues(replies[0]) {
      var name := AdoptName(v, loc, replies[0].result);
      CrawlStop(v, pid, replies[1..], TokenOf(replies[0]), Some(name));
    }
  }

  // ---------------------------------------------------------------------------
  // Records in API order

  lemma ToRecordsAppend(v: Variant, pid: string, loc: string, a: seq<RawReview>, b: seq<RawReview>)
    ensures ToRecords(v, pid, loc, a + b) == ToRecords(v, pid, loc, a) + ToRecords(v, pid, loc, b)
  {
  }

  /**
   * The i-th record is built from the i-th raw review of the accepted pages:
   * one record per review, in API order, neither sorted nor dropped.
   */
  lemma {:induction false} ExpectedFollowsReviews(v: Variant, pid: string, loc: Option<string>, results: seq<PlaceResult>)
    ensures |Expected(v, pid, loc, results)| == |AllReviews(results)|
    ensures forall i :: 0 <= i < |AllReviews(results)| ==>
      Expected(v, pid, loc, results)[i] == ToRecord(v, pid, Expected(v, pid, loc, results)[i].locationName, AllReviews(results)[i])
    decreases |results|
  {
    if results != [] {
      var name := AdoptName(v, loc, results[0]);
      ExpectedFollowsReviews(v, pid, Some(name), results[1..]);
      var head := ToRecords(v, pid, name, results[0].reviews);
      var e := Expected(v, pid, loc, results);
      var raws := AllReviews(results);
      forall i | 0 <= i < |raws|
        ensures e[i] == ToRecord(v, pid, e[i].locationName, raws[i])
      {
        if i >= |head| {
          assert e[i] == Expected(v, pid, Some(name), results[1..])[i - |head|];
          assert raws[i] == AllReviews(results[1..])[i - |head|];
        }
      }
    }
  }

  /** Once a downloader has a name it keeps it: every later record carries that name. */
  lemma {:induction false} DownloaderKeepsName(pid: string, name: string, results: seq<PlaceResult>)
    ensures Expected(Downloader, pid, Some(name), results) == ToRecords(Downloader, pid, name, AllReviews(results))
    ensures FinalLocation(Downloader, Some(name), results) == Some(name)
    decreases |results|
  {
    if results != [] {
      DownloaderKeepsName(pid, name, results[1..]);
      ToRecordsAppend(Downloader, pid, name, results[0].reviews, AllReviews(results[1..]));
    }
  }

  /** The first page name other than "Unknown" (a missing name reads as "Unknown"). */
  function FirstKnownName(results: seq<PlaceResult>): string
    decreases |results|
  {
    if results == [] then UnknownName
    else if results[0].name.Some? && results[0].name.value != UnknownName then results[0].name.value
    else FirstKnownName(results[1..])
  }

  /** The fetcher settles on the first known name and then keeps it. */
  lemma {:induction false} FetcherName(loc: string, results: seq<PlaceResult>)
    ensures FinalLocation(Fetcher, Some(loc), results) == Some(if loc == UnknownName then FirstKnownName(results) else loc)
    decreases |results|
  {
    if results != [] {
      FetcherName(AdoptName(Fetcher, Some(loc), results[0]), results[1..]);
    }
  }
}
