/**
 * src/download_reviews.py: the name lookup, the non-truncating
 * `fetch_reviews`, and the loop of `main` that gathers the reviews of a list
 * of places (given by id or by name) into one list.
 */
module DownloadReviews {
  import opened Options
  import opened Seqs
  import opened PlacesApi
  import opened Pagination
  import opened Gathering

  /**
   * `get_place_id_from_name`: on status "OK" with at least one candidate, the
   * first candidate's fields (each `None` when its key is missing); on a
   * transport failure or any other reply, `(None, None, None)`.
   */
  function GetPlaceIdFromName(reply: FindPlaceReply): (r: Resolution)
    ensures reply.FindPlaceReply? && reply.status == Some(StatusOk) && |reply.candidates| > 0 ==>
      var c := reply.candidates[0];
      r == Resolution(c.placeId, c.name, c.formattedAddress)
    ensures !(reply.FindPlaceReply? && reply.status == Some(StatusOk) && |reply.candidates| > 0) ==> r == NotFound
  {
    match reply
    case FindPlaceFailed => NotFound
    case FindPlaceReply(status, candidates) =>
      if status == Some(StatusOk) && |candidates| > 0 then
        Resolution(candidates[0].placeId, candidates[0].name, candidates[0].formattedAddress)
      else NotFound
  }

  /** The downloader's crawl: no name until an OK page, then that page's name for every record. */
  lemma DownloaderCrawl(pid: string, replies: seq<DetailsReply>)
    ensures
      var c := CrawlPages(Downloader, pid, replies, None, None);
      var acc := Accepted(replies);
      && (acc == [] ==> c.records == [] && c.location == None)
      && (acc != [] ==>
        && c.location == Some(acc[0].name.GetOr(UnknownName))
        && c.records == ToRecords(Downloader, pid, c.location.value, AllReviews(acc)))
  {
    CrawlIsExpected(Downloader, pid, replies, None, None);
    var acc := Accepted(replies);
    if acc != [] {
      var name := acc[0].name.GetOr(UnknownName);
      DownloaderKeepsName(pid, name, acc[1..]);
      ToRecordsAppend(Downloader, pid, name, acc[0].reviews, AllReviews(acc[1..]));
    }
  }

  /** `(all_reviews_list, location_name)`, plus the calls made. */
  datatype Downloaded = Downloaded(reviews: seq<ReviewRecord>, locationName: Option<string>, calls: seq<Call>)

  /**
   * `fetch_reviews(place_id)`: an empty id returns `([], None)` without any
   * request. Otherwise the name is set once, from the first OK page, and the
   * result is one record per review of the accepted pages, in API order.
   */
  function FetchReviews(pid: string, replies: seq<DetailsReply>): (r: Downloaded)
    ensures pid == "" ==> r == Downloaded([], None, [])
    ensures pid != "" ==> r.calls == Paced(ExpectedRequests(pid, None, replies))
    ensures pid != "" && Accepted(replies) == [] ==> r.reviews == [] && r.locationName == None
    ensures pid != "" && Accepted(replies) != [] ==>
      && r.locationName == Some(Accepted(replies)[0].name.GetOr(UnknownName))
      && r.reviews == ToRecords(Downloader, pid, r.locationName.value, AllReviews(Accepted(replies)))
    ensures forall i :: 0 <= i < |r.reviews| ==> r.reviews[i].placeId == pid
  {
    if pid == "" then Downloaded([], None, [])
    else
      var c := CrawlPages(Downloader, pid, replies, None, None);
      CrawlCalls(Downloader, pid, replies, None, None);
      DownloaderCrawl(pid, replies);
      Downloaded(c.records, c.location, c.calls)
  }

  /** One entry of the place list of `main`. */
  datatype Place = ById(placeId: string) | ByName(name: string)

  /**
   * One place: an id is fetched directly; a name is looked up first, and a
   * lookup without a truthy id contributes nothing beyond the lookup itself.
   */
  function FetchPlace(api: Api, p: Place): (g: Gathered)
    ensures p.ById? ==>
      var byId := FetchReviews(p.placeId, api.details(p.placeId));
      g == Gathered(byId.reviews, byId.calls)
    ensures p.ById? ==> forall i :: 0 <= i < |g.reviews| ==> g.reviews[i].placeId == p.placeId
    ensures p.ByName? ==> |g.calls| > 0 && g.calls[0] == FindPlace(p.name)
    ensures p.ByName? && !Truthy(GetPlaceIdFromName(api.findPlace(p.name)).placeId) ==>
      g == Gathered([], [FindPlace(p.name)])
    ensures p.ByName? && Truthy(GetPlaceIdFromName(api.findPlace(p.name)).placeId) ==>
      forall i :: 0 <= i < |g.reviews| ==> g.reviews[i].placeId == GetPlaceIdFromName(api.findPlace(p.name)).placeId.value
    ensures p.ByName? && Truthy(GetPlaceIdFromName(api.findPlace(p.name)).placeId) ==>
      var found := GetPlaceIdFromName(api.findPlace(p.name)).placeId.value;
      var byName := FetchReviews(found, api.details(found));
      g == Gathered(byName.reviews, [FindPlace(p.name)] + byName.calls)
  {
    match p
    case ById(pid) =>
      var d := FetchReviews(pid, api.details(pid));
      Gathered(d.reviews, d.calls)
    case ByName(name) =>
      var found := GetPlaceIdFromName(api.findPlace(name));
      if !Truthy(found.placeId) then Gathered([], [FindPlace(name)])
      else
        var pid := found.placeId.value;
        var d := FetchReviews(pid, api.details(pid));
        Gathered(d.reviews, [FindPlace(name)] + d.calls)
  }

  /** `FetchPlace` against `api`, as the step of `main`'s loop. */
  function PlaceStep(api: Api): Place -> Gathered {
    p => FetchPlace(api, p)
  }

  /**
   * `main`'s gathering loop from an empty list: the global list is the
   * in-order concatenation of every place's reviews (a failed lookup adding
   * none), and the calls likewise.
   */
  function DownloadAll(api: Api, places: seq<Place>): (g: Gathered)
    ensures g.reviews == Flatten(ReviewsOfEach(PlaceStep(api), places))
    ensures g.calls == Flatten(CallsOfEach(PlaceStep(api), places))
  {
    GatherEachConcatenates(PlaceStep(api), places, Nothing);
    GatherEach(PlaceStep(api), places, Nothing)
  }

  /** Every review of one place comes with the request for that place's first page. */
  lemma PlaceTraced(api: Api, p: Place)
    ensures Traced(FetchPlace(api, p))
  {
    var pid := if p.ById? then p.placeId else GetPlaceIdFromName(api.findPlace(p.name)).placeId.GetOr("");
    var d := FetchReviews(pid, api.details(pid));
    if pid != "" {
      FirstRequest(pid, api.details(pid));
      assert d.calls[0] in d.calls;
    }
    OnePlaceTraced(pid, FetchPlace(api, p));
  }

  /** No review in the downloaded list belongs to a place whose first page was never requested. */
  lemma DownloadAllTraced(api: Api, places: seq<Place>)
    ensures Traced(DownloadAll(api, places))
  {
    forall k | 0 <= k < |places|
      ensures Traced(PlaceStep(api)(places[k]))
    {
      PlaceTraced(api, places[k]);
    }
    GatherEachTraced(PlaceStep(api), places, Nothing);
  }
}
