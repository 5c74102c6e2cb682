/**
 * src/reviews_fetcher.py: the name lookup used by the dashboard, and
 * `fetch_reviews`, which pages through the details endpoint and returns the
 * five most recent records.
 */
module ReviewsFetcher {
  import opened Options
  import opened Seqs
  import opened PlacesApi
  import opened Pagination
  import opened ReviewOrder

  /** All three keys are present (indexing a missing key raises, and the lookup then fails). */
  predicate HasAllKeys(c: Candidate) {
    c.placeId.Some? && c.name.Some? && c.formattedAddress.Some?
  }

  /**
   * `get_place_id_from_name`: the first candidate's triple iff the status is
   * "OK", there is a candidate, and it has all three keys; otherwise
   * `(None, None, None)`.
   */
  function GetPlaceIdFromName(reply: FindPlaceReply): (r: Resolution)
    ensures r != NotFound <==>
      reply.FindPlaceReply? && reply.status == Some(StatusOk) && |reply.candidates| > 0 && HasAllKeys(reply.candidates[0])
    ensures r != NotFound ==>
      var c := reply.candidates[0];
      r == Resolution(c.placeId, c.name, c.formattedAddress)
  {
    match reply
    case FindPlaceFailed => NotFound
    case FindPlaceReply(status, candidates) =>
      if status == Some(StatusOk) && |candidates| > 0 then
        var c := candidates[0];
        if HasAllKeys(c) then Resolution(c.placeId, c.name, c.formattedAddress) else NotFound
      else NotFound
  }

  /** `(top_reviews, location_name)`, plus the calls made. */
  datatype Fetched = Fetched(reviews: seq<ReviewRecord>, locationName: string, calls: seq<Call>)

  /** The records this collector builds: the fetcher rules over the accepted pages. */
  function Gathered(pid: string, replies: seq<DetailsReply>): seq<ReviewRecord> {
    Expected(Fetcher, pid, Some(UnknownName), Accepted(replies))
  }

  /**
   * `fetch_reviews(place_id)`: an empty id returns `([], "")` without any
   * request; otherwise the page loop runs from no token with the name
   * "Unknown", and the result is the newest-first prefix of at most five of
   * the gathered records.
   */
  function FetchReviews(pid: string, replies: seq<DetailsReply>): (r: Fetched)
    ensures pid == "" ==> r == Fetched([], "", [])
    ensures pid != "" ==> r.calls == Paced(ExpectedRequests(pid, None, replies))
    ensures pid != "" ==> r.locationName == FirstKnownName(Accepted(replies))
    ensures pid != "" ==> |r.reviews| == Min(MaxReviews, |Gathered(pid, replies)|)
    ensures pid != "" ==> multiset(r.reviews) <= multiset(Gathered(pid, replies))
    ensures pid != "" ==> r.reviews == SortNewestFirst(Gathered(pid, replies))[..|r.reviews|]
    ensures NewestFirst(r.reviews)
    ensures forall i :: 0 <= i < |r.reviews| ==> r.reviews[i].placeId == pid
  {
    if pid == "" then Fetched([], "", [])
    else
      var c := CrawlPages(Fetcher, pid, replies, None, Some(UnknownName));
      CrawlCalls(Fetcher, pid, replies, None, Some(UnknownName));
      CrawlIsExpected(Fetcher, pid, replies, None, Some(UnknownName));
      FetcherName(UnknownName, Accepted(replies));
      TopRecentFromInput(c.records);
      Fetched(TopRecent(c.records), c.location.value, c.calls)
  }
}
