/**
 * The Places API as the collectors see it: replies are given values, and
 * every request the code would issue is recorded as a `Call`.
 */
module PlacesApi {
  import opened Options

  const StatusOk := "OK"
  const UnknownName := "Unknown"
  /** The pause, in seconds, between two page requests (`time.sleep(2)`). */
  const PageDelaySeconds: nat := 2

  /** One candidate of a find-place reply; `None` marks a missing key. */
  datatype Candidate = Candidate(placeId: Option<string>, name: Option<string>, formattedAddress: Option<string>)

  /** A find-place reply: a transport failure, or a status and the candidates (missing list = []). */
  datatype FindPlaceReply =
    | FindPlaceFailed
    | FindPlaceReply(status: Option<string>, candidates: seq<Candidate>)

  /** One review as the details endpoint returns it; `None` marks a missing key. */
  datatype RawReview = RawReview(authorName: Option<string>, rating: Option<int>, text: Option<string>, time: Option<int>)

  /** The `result` object of a details reply (missing object = no name, no reviews). */
  datatype PlaceResult = PlaceResult(name: Option<string>, reviews: seq<RawReview>)

  /** A details reply: a transport failure, or a status, the result and the continuation token. */
  datatype DetailsReply =
    | DetailsFailed
    | DetailsReply(status: Option<string>, result: PlaceResult, nextPageToken: Option<string>)

  /** What the collectors do to the outside world, in order. */
  datatype Call =
    | FindPlace(query: string)
    | Details(placeId: string, pageToken: Option<string>)
    | Sleep(seconds: nat)

  /**
   * The API for a whole run: the reply to a lookup of each query, and the
   * replies served, request after request, for each place id.
   */
  datatype Api = Api(findPlace: string -> FindPlaceReply, details: string -> seq<DetailsReply>)

  /** `(place_id, name, formatted_address)` returned by a lookup. */
  datatype Resolution = Resolution(placeId: Option<string>, name: Option<string>, formattedAddress: Option<string>)

  const NotFound := Resolution(None, None, None)

  /**
   * One review row; `datetimeUtc` is kept as epoch seconds (the source formats
   * it as a fixed-width UTC string, which orders the same way).
   */
  datatype ReviewRecord = ReviewRecord(
    placeId: string,
    locationName: string,
    authorName: Option<string>,
    rating: Option<int>,
    datetimeUtc: Option<int>,
    text: Option<string>)

  predicate IsOkReply(r: DetailsReply) {
    r.DetailsReply? && r.status == Some(StatusOk)
  }

  /** The continuation token of a reply (none for a failed one). */
  function TokenOf(r: DetailsReply): Option<string> {
    if r.DetailsReply? then r.nextPageToken else None
  }

  /** The loop goes on after reply `r` iff it is OK and carries a truthy token. */
  predicate Continues(r: DetailsReply) {
    IsOkReply(r) && Truthy(TokenOf(r))
  }
}
