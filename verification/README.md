# Google Places reviews and sentiment: a Dafny model

The system downloads the reviews of Google Places locations, cleans their
text and labels each review positive, neutral or negative. This project
models the core of that pipeline and proves properties about it:

- **Text normalisation** (`src/text_processing.py`, `TextProcessing`). A
  falsy text becomes "". Line breaks become spaces, the text is lower-cased,
  and characters outside a fixed allow-list (or whitespace) are dropped.
  Whitespace runs collapse to one space and the ends are trimmed. Python's
  whitespace class and its lower-casing are modelled character by character
  (`Chars`). Run collapsing and trimming live in `Whitespace`, together with
  a reference definition `Join(Words(s))`, which is Python's
  `" ".join(s.split())`.
- **CSV cleaning** (`src/clean_reviews.py`, `CleanReviews`). It repairs
  double-encoded text, then applies the same normaliser to `text`. It also
  repairs `author_name`, and refuses a file whose header lacks either column.
- **Sentiment** (`src/sentiment_analysis.py`, `Sentiment`). A falsy text is
  neutral. Otherwise the label follows strict thresholds at 0.1 and -0.1 on a
  polarity score.
- **Places API clients** (`PlacesApi`, `Pagination`, `ReviewOrder`,
  `ReviewsFetcher`, `DownloadReviews`).
  - Both files have a name lookup that takes the first candidate of an "OK"
    reply.
  - Both have a `fetch_reviews` that pages through the details endpoint,
    waiting two seconds before following a continuation token. The loop
    stops at a transport failure, a non-OK status or a page without a token.
  - The two `fetch_reviews` functions share one page loop (`CrawlPages`),
    parameterised by whose rules apply. They differ in two ways:
    - which name a record carries;
    - whether a missing review text defaults to "".
  - `src/reviews_fetcher.py` then sorts newest first, stably, and keeps five
    records.
  - `main` in `src/download_reviews.py` gathers the reviews of a list of
    places into one list.
- **Dashboard processing** (`app.py`, `Dashboard`). The text box is split
  into lines.
  - A stripped line starting with `pid:` is a place id. Every `pid:` is
    removed from it, then it is stripped again.
  - Any other non-blank line is looked up by name.
  - Reviews are gathered in line order. Each review gets `text_clean` and
    `sentiment`, and the positive rows are counted.

The HTTP replies are inputs to the model. A lookup reply is one
`FindPlaceReply`. A details conversation is a sequence of `DetailsReply`
values, and running out of replies counts as a transport failure. Every
request and pause is recorded as a `Call`, so each contract can state
exactly which requests an operation makes.

## Model

| member | source | states |
|---|---|---|
| Chars.Lower | src/text_processing.py:23 | Lower-casing one character never turns whitespace into non-whitespace or back, and never creates or removes a line break. ASCII capitals and the Latin-1 capitals U+00C0..U+00DE (except U+00D7) move down by 0x20, so ÁÉÍÓÚÜÑ become áéíóúüñ. The KELVIN SIGN U+212A becomes 'k' and U+0130 becomes 'i'. No other character outside the allow-list lower-cases into it. |
| Chars.AllowListIsVisibleLowerCase | src/text_processing.py:24 | Every allow-listed character is visible, is not a line break, and is already lower case, so it survives every step of the normaliser. |
| Whitespace.DropWs | src/text_processing.py:25 | The left-stripped text is a suffix of the input, everything cut is whitespace, and it does not start with whitespace. |
| Whitespace.DropWsRight | src/text_processing.py:25 | The right-stripped text is a prefix of the input, everything cut is whitespace, and it does not end with whitespace. |
| Whitespace.Strip | src/text_processing.py:25 | The stripped text is a slice of the input with only whitespace on either side of it, and has whitespace at neither end. |
| Whitespace.CollapseWs | src/text_processing.py:25 | Collapsing runs keeps the text empty exactly when it was empty, keeps whether it starts with whitespace, leaves only plain spaces as whitespace, and leaves no two spaces adjacent. |
| Whitespace.SqueezeIsSqueezed | src/text_processing.py:25 | Collapsing then stripping gives a trimmed text whose only whitespace is single spaces between visible characters. |
| Whitespace.SqueezeIsJoinedWords | src/text_processing.py:25 | Collapsing then stripping equals joining Python's `split()` words with one space (the independent reference definition). |
| Whitespace.SqueezeFixesSqueezed | src/text_processing.py:25 | A text already in squeezed form is unchanged by collapsing and stripping. |
| Whitespace.SqueezeKeepsVisible | src/text_processing.py:25 | Collapsing and stripping never adds, removes or reorders a visible character. |
| TextProcessing.ReplaceLineBreaks | src/text_processing.py:22 | The text keeps its length and loses every line break. Each line break becomes a space, and every other character is kept in place. |
| TextProcessing.LowerAll | src/text_processing.py:23 | Lower-casing keeps the length, keeps which positions are whitespace or line breaks, leaves allow-listed characters alone, and maps every capital Chars.Lower handles to its lower case at the same position. |
| TextProcessing.KeepAllowed | src/text_processing.py:24 | A character is in the result exactly when it is in the input and is allow-listed or whitespace. |
| TextProcessing.KeepAllowedSingle | src/text_processing.py:24 | One character is kept as it is when it is allow-listed or whitespace, and removed otherwise. |
| TextProcessing.KeepAllowedAppend | src/text_processing.py:24 | Filtering a concatenation concatenates the filtered parts, so order and multiplicity, whitespace included, are kept. |
| TextProcessing.CleanText | src/text_processing.py:8-26 | None or "" gives "". Every result is trimmed and single-spaced, has no line break, and uses only the allow-list and the space. |
| TextProcessing.CleanTextIsJoinedWords | src/text_processing.py:22-25 | For any text, the result equals the filtered text's `split()` words joined by single spaces. |
| TextProcessing.CleanTextVisible | src/text_processing.py:22-25 | The visible characters of the result are exactly the allow-listed characters of the lower-cased input, in order. Nothing allowed is lost and nothing else survives. |
| TextProcessing.CleanTextOfBlank | src/text_processing.py:20-25 | A text made only of whitespace cleans to "". |
| TextProcessing.CleanTextIdempotent | src/text_processing.py:8-26 | Cleaning a cleaned text changes nothing. |
| CleanReviews.FixDoubleEncoded | src/clean_reviews.py:9-23 | None or "" gives "" without consulting the codec. |
| CleanReviews.CleanText | src/clean_reviews.py:28-54 | None or "" gives "". Every other result has the normaliser's shape and alphabet. |
| CleanReviews.CleanTextIsRepairThenNormalize | src/clean_reviews.py:36-52 | For every input, this cleaner is the repair followed by the `src/text_processing.py` normaliser. |
| CleanReviews.CleanRow | src/clean_reviews.py:86-92 | A row keeps its columns. `author_name` is repaired and `text` is cleaned, and every other cell is passed through unchanged. |
| CleanReviews.CleanRows | src/clean_reviews.py:71-92 | Nothing is produced exactly when the header lacks `author_name` or `text`. Otherwise there is one output row per input row, in order, each transformed as CleanRow states. |
| Sentiment.Classify | src/sentiment_analysis.py:22-27 | Positive exactly when the polarity is above 0.1. Negative exactly when it is below -0.1. Neutral exactly in between, bounds included. |
| Sentiment.AnalyzeSentiment | src/sentiment_analysis.py:8-27 | A falsy text is neutral. Otherwise, each label holds exactly when the threshold rule gives it for the text's polarity. |
| Sentiment.ClassifyMonotone | src/sentiment_analysis.py:22-27 | A higher polarity never gives a lower label. |
| Sentiment.BoundariesAreNeutral | src/sentiment_analysis.py:22-27 | The cut-offs 0.1 and -0.1 themselves are neutral, because the comparisons are strict. |
| Sentiment.EmptyTextIgnoresPolarity | src/sentiment_analysis.py:18-19 | For an empty text, the label does not depend on the analyser. |
| Pagination.ToRecord | src/reviews_fetcher.py:92-104 | A record carries the queried id, the current name, and the author and rating copied. A falsy `time` gives no timestamp; any other time is kept. The text defaults to "" in the fetcher. |
| Pagination.CrawlPages | src/download_reviews.py:73-126 | Once the loop has a name, it keeps one. Every record it gathers carries the queried place id. |
| Pagination.Requested | src/reviews_fetcher.py:68-111 | The loop makes one request per reply that is OK with a truthy token, plus one final request. That final reply, if present, is not both OK and continuing. |
| Pagination.Accepted | src/reviews_fetcher.py:77-109 | The pages processed are a prefix of the replies and are all OK. Every page but the last carries a token. The prefix stops at the first reply that is not OK or has no token. |
| Pagination.FirstRequest | src/reviews_fetcher.py:66-78 | A crawl that starts without a token first requests the place's first page, with no page token. |
| Pagination.CrawlCalls | src/reviews_fetcher.py:68-111 | The requests are exactly those counted by Requested. The first request carries no token and each later one carries the previous reply's token. Consecutive requests are separated by one two-second pause. |
| Pagination.CrawlIsExpected | src/reviews_fetcher.py:84-105 | The records and the final name are those computed directly from the accepted pages. |
| Pagination.FailureKeepsEarlierPages | src/download_reviews.py:83-93 | A transport failure or non-OK status at page i keeps exactly what the pages before it gave. |
| Pagination.CrawlStop | src/download_reviews.py:83-123 | The loop reports why it stopped: transport failure, non-OK status, or a page without a token. The reason is determined by the first reply that does not continue. |
| Pagination.ExpectedFollowsReviews | src/reviews_fetcher.py:91-105 | There is one record per review of the accepted pages, in API order, each built from its own review. |
| Pagination.DownloaderKeepsName | src/download_reviews.py:95-98 | Once the downloader has a name it never changes. |
| Pagination.FetcherName | src/reviews_fetcher.py:88-89 | The fetcher's final name is the first page name that is not "Unknown", or stays as it was if it is already known. |
| ReviewOrder.Insert | src/reviews_fetcher.py:114-119 | Insertion keeps the sequence newest first and adds exactly one element. |
| ReviewOrder.SortNewestFirst | src/reviews_fetcher.py:114-119 | The result is a permutation of the input, newest first, with absent timestamps last. |
| ReviewOrder.SortStable | src/reviews_fetcher.py:114-119 | Records with equal timestamps keep their input order, as Python's `sorted` does. |
| ReviewOrder.TopRecent | src/reviews_fetcher.py:113-125 | The result has min(5, n) records, is the newest-first prefix of the sorted input, and is a sub-multiset of the input. |
| ReviewOrder.TopRecentKeepsNewest | src/reviews_fetcher.py:124-125 | Every dropped record is no more recent than every kept one. |
| ReviewsFetcher.GetPlaceIdFromName | src/reviews_fetcher.py:18-41 | A resolution exists exactly when the status is "OK", a candidate exists, and the first candidate has all three keys. It is then that candidate's triple. |
| ReviewsFetcher.FetchReviews | src/reviews_fetcher.py:43-126 | An empty id gives ([], "") with no request. Otherwise the result is the paced requests, the first known page name, and the min(5, n) newest of the gathered records (a sorted prefix and a sub-multiset), all tagged with the id. |
| DownloadReviews.GetPlaceIdFromName | src/download_reviews.py:17-49 | An "OK" reply with a candidate gives the first candidate's fields, each None when its key is missing. Anything else, including a failed request, gives (None, None, None). |
| DownloadReviews.DownloaderCrawl | src/download_reviews.py:71-128 | With no OK page, there are no records and no name. Otherwise the name comes from the first OK page and stamps a record for every accepted review. |
| DownloadReviews.FetchReviews | src/download_reviews.py:54-128 | An empty id gives ([], None) with no request. Otherwise the result is the paced requests, the first OK page's name, and every accepted review as a record, untruncated and in API order. |
| DownloadReviews.FetchPlace | src/download_reviews.py:217-235 | An id place gives exactly that id's fetch, records and calls, and only records of that id. A name place starts with one lookup call. A lookup without a truthy id adds nothing else. Otherwise the place gives the lookup call followed by the found id's fetch, and its records carry the found id. |
| DownloadReviews.PlaceTraced | src/download_reviews.py:217-235 | Every record one place adds belongs to a place whose first details page was requested among that place's calls. |
| Gathering.GatherEach | src/download_reviews.py:217-235 | The loop only appends: the records and calls gathered before it are an unchanged prefix of its result. |
| Gathering.GatherEachTraced | src/download_reviews.py:217-235 | If every item's records come with the first-page request for their place, the gathered list keeps that property. |
| Gathering.GatherEachConcatenates | src/download_reviews.py:213-235 | The accumulated list is the in-order concatenation of every item's records, and the calls likewise. The same loop serves the place list of `main` and the lines of the dashboard. |
| DownloadReviews.DownloadAll | src/download_reviews.py:213-235 | Starting from an empty list, the loop yields the concatenation of all places' records and calls. |
| DownloadReviews.DownloadAllTraced | src/download_reviews.py:213-235 | No downloaded record belongs to a place whose first details page was never requested. |
| Dashboard.SplitLines | app.py:37 | There is at least one piece, and no piece contains a newline. |
| Dashboard.SplitLinesJoin | app.py:37 | Joining the pieces with "\n" gives back the input. |
| Dashboard.JoinLinesSplit | app.py:37 | Splitting the "\n"-join of newline-free lines gives back those lines. |
| Dashboard.RemoveMarker | app.py:43 | Removing the marker never lengthens the text. |
| Dashboard.RemoveMarkerFirst | app.py:43 | At the first `pid:`, the text before it is kept, the marker is cut, and removal continues after it. |
| Dashboard.RemoveMarkerWithout | app.py:43 | A text without `pid:` is left unchanged by the removal. |
| Dashboard.RemoveMarkerSinglePass | app.py:43 | Removal is one left-to-right pass: `ppid:id:` becomes `pid:`. |
| Dashboard.ParseLine | app.py:38-47 | A line is blank exactly when it is all whitespace. It is an id line exactly when the stripped line starts with `pid:`, giving the stripped text with every `pid:` removed. Otherwise it is a non-empty trimmed name. |
| Dashboard.ParseIdLine | app.py:42-43 | `pid:` followed by a trimmed id without the marker yields that id. |
| Dashboard.ParseNameLine | app.py:46-47 | A trimmed line not starting with `pid:` is looked up as it is. |
| Dashboard.LineReviews | app.py:38-54 | A blank line gives nothing. An id line gives that id's fetch. A name line gives its lookup call, followed by the fetch of the found id when that id is truthy. |
| Dashboard.LineTraced | app.py:38-54 | Every review one line adds belongs to a place whose first details page that line requested. |
| Dashboard.BlankLineReviews | app.py:39-40 | A blank line adds no reviews and makes no call. |
| Dashboard.IdLineShape | app.py:42-45 | An id line adds at most five records, all carrying that id. |
| Dashboard.NameLineShape | app.py:46-53 | A name line makes its lookup call first and adds at most five records. A lookup without a truthy id adds nothing more. |
| Dashboard.Collect | app.py:35-54 | Everything gathered for the text box is the in-order concatenation of what each "\n"-separated line gathers, reviews and calls alike. |
| Dashboard.CollectTraced | app.py:35-54 | No gathered review belongs to a place whose first details page was never requested. |
| Dashboard.IdLineReviews | app.py:42-45 | The line `pid:` followed by a trimmed id gathers exactly that id's fetch, records and calls. |
| Dashboard.NameLineReviews | app.py:46-50 | A trimmed name whose lookup gives a non-empty id makes one lookup call, then gathers exactly that id's fetch. |
| Dashboard.CollectTwoLines | app.py:35-54 | Two newline-free lines gather the first line's records and calls, then the second's. |
| Dashboard.TwoPlaces | app.py:35-54 | For an id line, then a name line whose lookup gives a non-empty id: the lookup call for the name comes between the two places' detail requests, and the reviews of both places come in line order. |
| Dashboard.TwoPlacesTagged | app.py:35-54 | In that situation, every gathered review carries one of the two place ids. |
| Dashboard.Analyze | app.py:60-61 | `text_clean` is the normaliser applied to the review's text, and is in squeezed form. `sentiment` is the sentiment function applied to `text_clean`: neutral when it is empty, and otherwise the threshold rule on its polarity. |
| Dashboard.AnalyzeBlank | app.py:60-61 | A review whose text is missing or only whitespace gets an empty `text_clean` and is neutral, whatever the analyser says. |
| Dashboard.AnalyzeVisible | app.py:60-61 | A review with a character that lower-cases into the allow-list gets a non-empty `text_clean`, and its label is the threshold rule on the analyser's polarity for it. |
| Dashboard.CountPositive | app.py:69 | The count is at most the number of rows. It is zero exactly when no row is positive, and it is the number of rows exactly when every row is positive. |
| Dashboard.CountPositiveIsMultiplicity | app.py:69 | The positive count equals the number of positive labels in the table. |
| Dashboard.Tabulate | app.py:56-69 | No table exactly when there are no reviews. Otherwise there is one analysed row per review, in order, the total is the number of reviews, and the positive count is the multiplicity of positive labels. |
| Dashboard.Process | app.py:35-58 | The warning is shown exactly when the lines of the text box gather no review in total. Otherwise the total is the length of that concatenation. |

## Left out

- HTTP, JSON decoding, `dotenv` and the API key are left out. Each reply is an input value. A failed request is `FindPlaceFailed` or `DetailsFailed`. `time.sleep(2)` appears only as a `Sleep(2)` event in the call trace.
- The API is a function of the query. A repeated lookup of the same name, or a repeated fetch of the same id, gets the same replies each time. A real server may answer the second request differently.
- `datetime.utcfromtimestamp` raises for a `time` outside the representable range (src/reviews_fetcher.py:96, src/download_reviews.py:106). Nothing catches that exception, so the program stops. The model accepts every integer time.
- The details replies form a finite sequence. A conversation that runs out of replies is treated as a transport failure, because a real server always answers.
- JSON `null` values are not modelled. A missing key is `None`, and a key that is present holds a value of the expected type.
- Chars.Lower: Python's `lower()` is modelled for ASCII and Latin-1 capitals, the KELVIN SIGN U+212A (to 'k') and the dotted capital I U+0130. Other scripts' case mappings are left as identity. Their lower-case forms are outside the allow-list, so the normaliser drops them either way. U+0130 becomes 'i' alone. Python also appends U+0307 COMBINING DOT ABOVE, which the allow-list filter then removes, so the cleaned text is the same.
- CleanReviews.FixDoubleEncoded: the Latin-1 encode / UTF-8 decode round trip with replacement is a parameter `codec`. Its byte-level behaviour is not modelled, so nothing is claimed about what the repair returns for a truthy input.
- CleanReviews.CleanText: idempotence is not claimed, because the repair step may change an already-clean text. Only the normaliser it ends with is proved idempotent.
- The CSV reading and writing of `clean_reviews` is left out: file existence, `DictReader` quoting, `DictWriter` errors on extra keys, and the messages printed. An empty input file is also left out: there `reader.fieldnames` is None and the column test of src/clean_reviews.py:78 raises TypeError, whereas CleanRows with an empty header returns None (nothing written). Rows are given as maps with a cell for every header column.
- Sentiment.AnalyzeSentiment: TextBlob's polarity is a parameter `string -> real`. The thresholds are the exact reals 0.1 and -0.1. Python compares binary floats, so a polarity whose float value rounds onto 0.1 may classify differently.
- Timestamps are kept as the integer `time` rather than formatted by `utcfromtimestamp(...).strftime`. Their order is the order of the formatted strings only for years 1000 to 9999. The `except` fallback of src/reviews_fetcher.py:120-122, reached when parsing fails outside that range, is not modelled.
- The dashboard's presentation is left out: Streamlit widgets, the login gate, `pd.to_datetime`, and every figure other than the total and the positive count. Those other figures are the distinct locations, the average rating, the percentages, charts and downloads.
- `main` of src/download_reviews.py: the interactive menu that builds the place list, and `save_all_reviews_to_csv`, are left out. The list of places is an input.
- src/get_place_id.py and the backup copies of the scripts are not part of this model.
