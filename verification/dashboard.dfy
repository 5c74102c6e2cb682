/**
 * The processing behind the dashboard's "Procesar" button in app.py: the
 * text box is split into lines, each line names a place by id (`pid:...`) or
 * by name, the places' reviews are gathered in line order, and every review
 * gets a cleaned text and a sentiment label; the positive count is one of
 * the figures shown.
 */
module Dashboard {
  import opened Options
  import opened Seqs
  import opened Chars
  import opened Whitespace
  import opened PlacesApi
  import TP = TextProcessing
  import S = Sentiment
  import RF = ReviewsFetcher
  import RO = ReviewOrder
  import Pagination
  import opened Gathering

  // ---------------------------------------------------------------------------
  // Lines of the text box

  /** Python's `s.split("\n")`. */
  function SplitLines(s: string): (lines: seq<string>)
    ensures |lines| >= 1
    ensures forall k :: 0 <= k < |lines| ==> '\n' !in lines[k]
    decreases |s|
  {
    if s == [] then [[]]
    else
      var rest := SplitLines(s[1..]);
      if s[0] == '\n' then [[]] + rest
      else [[s[0]] + rest[0]] + rest[1..]
  }

  /** Python's `"\n".join(lines)`. */
  function JoinLines(lines: seq<string>): string
    decreases |lines|
  {
    if |lines| == 0 then []
    else if |lines| == 1 then lines[0]
    else lines[0] + "\n" + JoinLines(lines[1..])
  }

  /** Splitting loses nothing: joining the pieces with "\n" gives the input back. */
  lemma {:induction false} SplitLinesJoin(s: string)
    ensures JoinLines(SplitLines(s)) == s
    decreases |s|
  {
    if s != [] {
      var rest := SplitLines(s[1..]);
      SplitLinesJoin(s[1..]);
      if s[0] == '\n' {
        assert ([[]] + rest)[1..] == rest;
      } else {
        var lines := [[s[0]] + rest[0]] + rest[1..];
        if |rest| == 1 {
          assert JoinLines(lines) == [s[0]] + rest[0];
        } else {
          assert lines[1..] == rest[1..];
          assert JoinLines(rest) == rest[0] + "\n" + JoinLines(rest[1..]);
        }
      }
    }
  }

  /** The other direction: lines without "\n" are recovered from their join. */
  lemma {:induction false} JoinLinesSplit(lines: seq<string>)
    requires |lines| >= 1
    requires forall k :: 0 <= k < |lines| ==> '\n' !in lines[k]
    ensures SplitLines(JoinLines(lines)) == lines
    decreases |lines|, |lines[0]|
  {
    var first := lines[0];
    if first == [] {
      if |lines| > 1 {
        JoinLinesSplit(lines[1..]);
        assert JoinLines(lines) == "\n" + JoinLines(lines[1..]);
        assert JoinLines(lines)[1..] == JoinLines(lines[1..]);
      }
    } else {
      var shorter := [first[1..]] + lines[1..];
      assert shorter[1..] == lines[1..];
      assert forall k :: 0 < k < |shorter| ==> shorter[k] == lines[k];
      JoinLinesSplit(shorter);
      if |lines| == 1 {
        assert JoinLines(lines) == first;
        assert JoinLines(shorter) == first[1..];
      } else {
        assert JoinLines(lines) == [first[0]] + JoinLines(shorter);
      }
      var joined := JoinLines(lines);
      assert joined == [first[0]] + JoinLines(shorter);
      assert joined[0] == first[0] && first[0] != '\n';
      assert joined[1..] == JoinLines(shorter);
      assert [first[0]] + first[1..] == first;
    }
  }

  // ---------------------------------------------------------------------------
  // One line of the text box

  const PidMarker := "pid:"

  predicate StartsWith(s: string, p: string) {
    |p| <= |s| && s[..|p|] == p
  }

  /** "pid:" occurs in `s` at offset `i`. */
  predicate MarkerAt(s: string, i: int) {
    0 <= i && i + |PidMarker| <= |s| && s[i..i + |PidMarker|] == PidMarker
  }

  predicate ContainsMarker(s: string) {
    exists i :: 0 <= i < |s| && MarkerAt(s, i)
  }

  /** `s.replace("pid:", "")`: occurrences removed from left to right. */
  function RemoveMarker(s: string): (r: string)
    ensures |r| <= |s|
    decreases |s|
  {
    if |s| < |PidMarker| then s
    else if s[..|PidMarker|] == PidMarker then RemoveMarker(s[|PidMarker|..])
    else [s[0]] + RemoveMarker(s[1..])
  }

  /** A text without the marker is left unchanged. */
  lemma {:induction false} RemoveMarkerWithout(s: string)
    requires !ContainsMarker(s)
    ensures RemoveMarker(s) == s
    decreases |s|
  {
    if |s| >= |PidMarker| {
      assert !MarkerAt(s, 0);
      assert s[0..|PidMarker|] == s[..|PidMarker|];
      assert !ContainsMarker(s[1..]) by {
        if ContainsMarker(s[1..]) {
          var i :| 0 <= i < |s[1..]| && MarkerAt(s[1..], i);
          assert s[1..][i..i + |PidMarker|] == s[i + 1..i + 1 + |PidMarker|];
          assert MarkerAt(s, i + 1);
        }
      }
      RemoveMarkerWithout(s[1..]);
    }
  }

  /** Dropping the first character moves every marker one place to the left. */
  lemma MarkerAtTail(s: string, j: nat)
    requires s != []
    ensures MarkerAt(s[1..], j) <==> MarkerAt(s, j + 1)
  {
    if j + 1 + |PidMarker| <= |s| {
      assert s[1..][j..j + |PidMarker|] == s[j + 1..j + 1 + |PidMarker|];
    }
  }

  /** The first marker is cut out, the text before it is kept, and removal resumes after it. */
  lemma {:induction false} RemoveMarkerFirst(s: string, i: int)
    requires MarkerAt(s, i)
    requires forall j :: 0 <= j < i ==> !MarkerAt(s, j)
    ensures RemoveMarker(s) == s[..i] + RemoveMarker(s[i + |PidMarker|..])
    decreases i
  {
    if i == 0 {
      assert s[0..|PidMarker|] == s[..|PidMarker|];
    } else {
      assert !MarkerAt(s, 0);
      assert s[0..|PidMarker|] == s[..|PidMarker|];
      assert RemoveMarker(s) == [s[0]] + RemoveMarker(s[1..]);
      var t := s[1..];
      MarkerAtTail(s, i - 1);
      forall j | 0 <= j < i - 1
        ensures !MarkerAt(t, j)
      {
        MarkerAtTail(s, j);
      }
      RemoveMarkerFirst(t, i - 1);
      assert t[i - 1 + |PidMarker|..] == s[i + |PidMarker|..];
      assert s[..i] == [s[0]] + t[..i - 1];
    }
  }

  /** Removal is a single pass: the pieces around a removed marker can form a new one. */
  lemma RemoveMarkerSinglePass()
    ensures RemoveMarker("ppid:id:") == "pid:"
  {
    assert "ppid:id:"[..4][1] != PidMarker[1];
    assert "ppid:id:"[1..] == "pid:id:";
    assert "pid:id:"[..4] == PidMarker;
    assert "pid:id:"[4..] == "id:";
  }

  datatype LineKind = Blank | PlaceIdLine(placeId: string) | NameLine(name: string)

  lemma StripEmptyIffBlank(s: string)
    ensures Strip(s) == [] <==> forall i :: 0 <= i < |s| ==> IsSpace(s[i])
  {
    var d := DropWs(s);
    if d != [] {
      assert !IsSpace(s[|s| - |d|]) by {
        assert d[0] == s[|s| - |d|];
      }
      assert DropWsRight(d) != [] by {
        assert !IsSpace(d[0]);
      }
    }
  }

  /**
   * One stripped line: blank lines are skipped, a line starting with "pid:"
   * names a place id (every "pid:" removed, then stripped again), any other
   * line is a name to look up.
   */
  function ParseLine(line: string): (k: LineKind)
    ensures k.Blank? <==> forall i :: 0 <= i < |line| ==> IsSpace(line[i])
    ensures k.PlaceIdLine? <==> Strip(line) != [] && StartsWith(Strip(line), PidMarker)
    ensures k.PlaceIdLine? ==> k.placeId == Strip(RemoveMarker(Strip(line)))
    ensures k.NameLine? ==> k.name == Strip(line) && k.name != [] && !StartsWith(k.name, PidMarker)
  {
    StripEmptyIffBlank(line);
    var t := Strip(line);
    if t == [] then Blank
    else if StartsWith(t, PidMarker) then PlaceIdLine(Strip(RemoveMarker(t)))
    else NameLine(t)
  }

  // ---------------------------------------------------------------------------
  // Gathering reviews

  /**
   * The reviews and calls of one line: ids are fetched directly; names are
   * looked up and fetched only when the lookup gives a truthy id.
   */
  function LineReviews(api: Api, line: string): (g: Gathered)
    ensures ParseLine(line).Blank? ==> g == Nothing
    ensures ParseLine(line).PlaceIdLine? ==>
      var byId := RF.FetchReviews(ParseLine(line).placeId, api.details(ParseLine(line).placeId));
      g == Gathered(byId.reviews, byId.calls)
    ensures ParseLine(line).NameLine? && !Truthy(RF.GetPlaceIdFromName(api.findPlace(ParseLine(line).name)).placeId) ==>
      g == Gathered([], [FindPlace(ParseLine(line).name)])
    ensures ParseLine(line).NameLine? && Truthy(RF.GetPlaceIdFromName(api.findPlace(ParseLine(line).name)).placeId) ==>
      var found := RF.GetPlaceIdFromName(api.findPlace(ParseLine(line).name)).placeId.value;
      var byName := RF.FetchReviews(found, api.details(found));
      g == Gathered(byName.reviews, [FindPlace(ParseLine(line).name)] + byName.calls)
  {
    match ParseLine(line)
    case Blank => Nothing
    case PlaceIdLine(pid) =>
      var f := RF.FetchReviews(pid, api.details(pid));
      Gathered(f.reviews, f.calls)
    case NameLine(name) =>
      var found := RF.GetPlaceIdFromName(api.findPlace(name));
      if !Truthy(found.placeId) then Gathered([], [FindPlace(name)])
      else
        var pid := found.placeId.value;
        var f := RF.FetchReviews(pid, api.details(pid));
        Gathered(f.reviews, [FindPlace(name)] + f.calls)
  }

  /** A blank line contributes nothing. */
  lemma BlankLineReviews(api: Api, line: string)
    ensures ParseLine(line).Blank? ==> LineReviews(api, line) == Nothing
  {
  }

  /** An id line contributes at most five reviews, all of that id. */
  lemma IdLineShape(api: Api, line: string)
    ensures ParseLine(line).PlaceIdLine? ==>
      && |LineReviews(api, line).reviews| <= RO.MaxReviews
      && forall i :: 0 <= i < |LineReviews(api, line).reviews| ==>
        LineReviews(api, line).reviews[i].placeId == ParseLine(line).placeId
  {
    if ParseLine(line).PlaceIdLine? {
      var pid := ParseLine(line).placeId;
      var f := RF.FetchReviews(pid, api.details(pid));
      assert LineReviews(api, line).reviews == f.reviews;
    }
  }

  /**
   * A name line makes its lookup call first and contributes at most five
   * reviews; when the lookup gives no truthy id, nothing else.
   */
  lemma NameLineShape(api: Api, line: string)
    ensures ParseLine(line).NameLine? ==>
      var g := LineReviews(api, line);
      && |g.reviews| <= RO.MaxReviews
      && |g.calls| > 0 && g.calls[0] == FindPlace(ParseLine(line).name)
    ensures ParseLine(line).NameLine? && !Truthy(RF.GetPlaceIdFromName(api.findPlace(ParseLine(line).name)).placeId) ==>
      LineReviews(api, line) == Gathered([], [FindPlace(ParseLine(line).name)])
  {
    if ParseLine(line).NameLine? {
      var name := ParseLine(line).name;
      var found := RF.GetPlaceIdFromName(api.findPlace(name));
      if Truthy(found.placeId) {
        var f := RF.FetchReviews(found.placeId.value, api.details(found.placeId.value));
        assert LineReviews(api, line) == Gathered(f.reviews, [FindPlace(name)] + f.calls);
      }
    }
  }

  /** `LineReviews` against `api`, as the step of the line loop. */
  function LineStep(api: Api): string -> Gathered {
    line => LineReviews(api, line)
  }

  /**
   * Everything gathered for the text box `input`: the in-order concatenation
   * of what each of its "\n"-separated lines gathers.
   */
  function Collect(api: Api, input: string): (g: Gathered)
    ensures g.reviews == Flatten(ReviewsOfEach(LineStep(api), SplitLines(input)))
    ensures g.calls == Flatten(CallsOfEach(LineStep(api), SplitLines(input)))
  {
    GatherEachConcatenates(LineStep(api), SplitLines(input), Nothing);
    GatherEach(LineStep(api), SplitLines(input), Nothing)
  }

  /** A fetch's reviews all come with the request for the fetched place's first page, whatever calls precede it. */
  lemma FetchTraced(api: Api, pid: string, before: seq<Call>)
    ensures var f := RF.FetchReviews(pid, api.details(pid));
      Traced(Gathered(f.reviews, before + f.calls))
  {
    var f := RF.FetchReviews(pid, api.details(pid));
    if pid != "" {
      Pagination.FirstRequest(pid, api.details(pid));
      assert (before + f.calls)[|before|] == Details(pid, None);
    }
    OnePlaceTraced(pid, Gathered(f.reviews, before + f.calls));
  }

  /** The same with nothing before the fetch. */
  lemma FetchAloneTraced(api: Api, pid: string)
    ensures var f := RF.FetchReviews(pid, api.details(pid));
      Traced(Gathered(f.reviews, f.calls))
  {
    var f := RF.FetchReviews(pid, api.details(pid));
    FetchTraced(api, pid, []);
    assert [] + f.calls == f.calls;
  }

  lemma IdLineTraced(api: Api, line: string)
    ensures ParseLine(line).PlaceIdLine? ==> Traced(LineReviews(api, line))
  {
    if ParseLine(line).PlaceIdLine? {
      var pid := ParseLine(line).placeId;
      var f := RF.FetchReviews(pid, api.details(pid));
      FetchAloneTraced(api, pid);
      assert LineReviews(api, line) == Gathered(f.reviews, f.calls);
    }
  }

  lemma NameLineTraced(api: Api, line: string)
    ensures ParseLine(line).NameLine? ==> Traced(LineReviews(api, line))
  {
    if ParseLine(line).NameLine? {
      var name := ParseLine(line).name;
      var found := RF.GetPlaceIdFromName(api.findPlace(name));
      if Truthy(found.placeId) {
        var f := RF.FetchReviews(found.placeId.value, api.details(found.placeId.value));
        FetchTraced(api, found.placeId.value, [FindPlace(name)]);
        assert LineReviews(api, line) == Gathered(f.reviews, [FindPlace(name)] + f.calls);
      }
    }
  }

  /** Every review of one line comes with the request for that place's first page. */
  lemma LineTraced(api: Api, line: string)
    ensures Traced(LineReviews(api, line))
  {
    IdLineTraced(api, line);
    NameLineTraced(api, line);
    if ParseLine(line).Blank? {
      assert LineReviews(api, line) == Nothing;
    }
  }

  /** No gathered review belongs to a place whose first page was never requested. */
  lemma CollectTraced(api: Api, input: string)
    ensures Traced(Collect(api, input))
  {
    var lines := SplitLines(input);
    forall k | 0 <= k < |lines|
      ensures Traced(LineStep(api)(lines[k]))
    {
      LineTraced(api, lines[k]);
    }
    GatherEachTraced(LineStep(api), lines, Nothing);
  }

  /** Non-empty, and neither end is whitespace. */
  predicate Trimmed(s: string) {
    s != [] && !IsSpace(s[0]) && !IsSpace(s[|s| - 1])
  }

  /** A line whose ends are not whitespace is its own stripped form. */
  lemma StripTrimmed(s: string)
    requires Trimmed(s)
    ensures Strip(s) == s
  {
  }

  /** "pid:" followed by a trimmed id without the marker parses to that id. */
  lemma ParseIdLine(id: string)
    requires Trimmed(id) && !ContainsMarker(id)
    ensures ParseLine(PidMarker + id) == PlaceIdLine(id)
  {
    var line := PidMarker + id;
    StripTrimmed(line);
    assert line[..|PidMarker|] == PidMarker;
    assert line[|PidMarker|..] == id;
    RemoveMarkerWithout(id);
    StripTrimmed(id);
  }

  /** A trimmed line that does not start with "pid:" is looked up by name as it is. */
  lemma ParseNameLine(name: string)
    requires Trimmed(name) && !StartsWith(name, PidMarker)
    ensures ParseLine(name) == NameLine(name)
  {
    StripTrimmed(name);
  }

  lemma TwoLines(first: string, second: string)
    requires '\n' !in first && '\n' !in second
    ensures SplitLines(first + "\n" + second) == [first, second]
  {
    var lines := [first, second];
    assert JoinLines(lines) == first + "\n" + second;
    JoinLinesSplit(lines);
  }

  /** An id line fetches that id's reviews and nothing else. */
  lemma IdLineReviews(api: Api, id: string)
    requires Trimmed(id) && !ContainsMarker(id)
    ensures var byId := RF.FetchReviews(id, api.details(id));
      LineReviews(api, PidMarker + id) == Gathered(byId.reviews, byId.calls)
  {
    ParseIdLine(id);
  }

  /** A name line that the lookup resolves makes one lookup call, then fetches the id found. */
  lemma NameLineReviews(api: Api, name: string, foundId: string)
    requires Trimmed(name) && !StartsWith(name, PidMarker)
    requires RF.GetPlaceIdFromName(api.findPlace(name)).placeId == Some(foundId) && foundId != ""
    ensures var byName := RF.FetchReviews(foundId, api.details(foundId));
      LineReviews(api, name) == Gathered(byName.reviews, [FindPlace(name)] + byName.calls)
  {
    ParseNameLine(name);
  }

  /** Two lines without "\n" gather what the first gathers, then what the second gathers. */
  lemma CollectTwoLines(api: Api, first: string, second: string)
    requires '\n' !in first && '\n' !in second
    ensures Collect(api, first + "\n" + second).reviews == LineReviews(api, first).reviews + LineReviews(api, second).reviews
    ensures Collect(api, first + "\n" + second).calls == LineReviews(api, first).calls + LineReviews(api, second).calls
  {
    TwoLines(first, second);
    GatherTwo(LineStep(api), first, second);
  }

  /** A first part without a prefix and a second part after the call `q`, concatenated. */
  lemma JoinTwo(g: Gathered, first: Gathered, second: Gathered,
                r1: seq<ReviewRecord>, c1: seq<Call>, r2: seq<ReviewRecord>, c2: seq<Call>, q: Call)
    requires g.reviews == first.reviews + second.reviews && g.calls == first.calls + second.calls
    requires first == Gathered(r1, c1) && second == Gathered(r2, [q] + c2)
    ensures g.calls == c1 + [q] + c2 && g.reviews == r1 + r2
  {
  }

  /**
   * Two lines, a place id and a place name: one lookup call, for the name
   * only, between the two places' detail requests, and the reviews of both
   * places in line order.
   */
  lemma TwoPlaces(api: Api, id: string, name: string, foundId: string)
    requires Trimmed(id) && !ContainsMarker(id) && '\n' !in PidMarker + id
    requires Trimmed(name) && !StartsWith(name, PidMarker) && '\n' !in name
    requires RF.GetPlaceIdFromName(api.findPlace(name)).placeId == Some(foundId) && foundId != ""
    ensures var g := Collect(api, PidMarker + id + "\n" + name);
      var byId := RF.FetchReviews(id, api.details(id));
      var byName := RF.FetchReviews(foundId, api.details(foundId));
      && g.calls == byId.calls + [FindPlace(name)] + byName.calls
      && g.reviews == byId.reviews + byName.reviews
  {
    var byId := RF.FetchReviews(id, api.details(id));
    var byName := RF.FetchReviews(foundId, api.details(foundId));
    CollectTwoLines(api, PidMarker + id, name);
    IdLineReviews(api, id);
    NameLineReviews(api, name, foundId);
    JoinTwo(Collect(api, PidMarker + id + "\n" + name), LineReviews(api, PidMarker + id), LineReviews(api, name),
      byId.reviews, byId.calls, byName.reviews, byName.calls, FindPlace(name));
  }

  /** Records tagged with `a`, followed by records tagged with `b`, are all tagged with one of the two. */
  lemma TaggedConcat(xs: seq<ReviewRecord>, ys: seq<ReviewRecord>, a: string, b: string)
    requires forall i :: 0 <= i < |xs| ==> xs[i].placeId == a
    requires forall i :: 0 <= i < |ys| ==> ys[i].placeId == b
    ensures forall i :: 0 <= i < |xs + ys| ==> (xs + ys)[i].placeId in {a, b}
  {
    forall i | 0 <= i < |xs + ys|
      ensures (xs + ys)[i].placeId in {a, b}
    {
      if i >= |xs| {
        assert (xs + ys)[i] == ys[i - |xs|];
      }
    }
  }

  /** In the same situation, every gathered review is tagged with one of the two ids. */
  lemma TwoPlacesTagged(api: Api, id: string, name: string, foundId: string)
    requires Trimmed(id) && !ContainsMarker(id) && '\n' !in PidMarker + id
    requires Trimmed(name) && !StartsWith(name, PidMarker) && '\n' !in name
    requires RF.GetPlaceIdFromName(api.findPlace(name)).placeId == Some(foundId) && foundId != ""
    ensures var g := Collect(api, PidMarker + id + "\n" + name);
      forall i :: 0 <= i < |g.reviews| ==> g.reviews[i].placeId in {id, foundId}
  {
    TwoPlaces(api, id, name, foundId);
    TaggedConcat(RF.FetchReviews(id, api.details(id)).reviews, RF.FetchReviews(foundId, api.details(foundId)).reviews, id, foundId);
  }

  // ---------------------------------------------------------------------------
  // Derived columns and the positive count

  datatype AnalyzedReview = AnalyzedReview(review: ReviewRecord, textClean: string, sentiment: S.Label)

  /** `text_clean = clean_text(text)` and `sentiment = analyze_sentiment(text_clean)`. */
  function Analyze(polarity: string -> real, r: ReviewRecord): (a: AnalyzedReview)
    ensures a.review == r
    ensures a.textClean == TP.CleanText(r.text)
    ensures a.sentiment == S.AnalyzeSentiment(polarity, Some(a.textClean))
    ensures Squeezed(a.textClean)
    ensures a.textClean == "" ==> a.sentiment == S.Neutral
    ensures a.textClean != "" ==> a.sentiment == S.Classify(polarity(a.textClean))
  {
    var t := TP.CleanText(r.text);
    AnalyzedReview(r, t, S.AnalyzeSentiment(polarity, Some(t)))
  }

  /** A review whose text is missing or only whitespace is neutral, whatever the analyser would say. */
  lemma AnalyzeBlank(polarity: string -> real, r: ReviewRecord)
    requires r.text.None? || forall i :: 0 <= i < |r.text.value| ==> IsSpace(r.text.value[i])
    ensures Analyze(polarity, r).textClean == ""
    ensures Analyze(polarity, r).sentiment == S.Neutral
  {
    if r.text.Some? {
      TP.CleanTextOfBlank(r.text.value);
    }
  }

  /**
   * A review with a character that lower-cases into the allow-list keeps a
   * non-empty cleaned text, and its label is the analyser's verdict on it.
   */
  lemma AnalyzeVisible(polarity: string -> real, r: ReviewRecord, k: int)
    requires r.text.Some? && 0 <= k < |r.text.value| && InAllowList(Lower(r.text.value[k]))
    ensures Analyze(polarity, r).textClean != ""
    ensures Analyze(polarity, r).sentiment == S.Classify(polarity(Analyze(polarity, r).textClean))
  {
    var s := r.text.value;
    TP.CleanTextVisible(s);
    assert TP.LowerAll(s)[k] in Select(TP.LowerAll(s), InAllowList);
    assert Visible(TP.CleanText(Some(s))) != [];
  }

  function Labels(rows: seq<AnalyzedReview>): (ls: seq<S.Label>)
    ensures |ls| == |rows|
  {
    seq(|rows|, i requires 0 <= i < |rows| => rows[i].sentiment)
  }

  /** `(df["sentiment"] == "positive").sum()`. */
  function CountPositive(rows: seq<AnalyzedReview>): (n: nat)
    ensures n <= |rows|
    ensures n == 0 <==> forall i :: 0 <= i < |rows| ==> rows[i].sentiment != S.Positive
    ensures n == |rows| <==> forall i :: 0 <= i < |rows| ==> rows[i].sentiment == S.Positive
    decreases |rows|
  {
    if rows == [] then 0
    else (if rows[0].sentiment == S.Positive then 1 else 0) + CountPositive(rows[1..])
  }

  /** The positive count is the number of positive labels. */
  lemma {:induction false} CountPositiveIsMultiplicity(rows: seq<AnalyzedReview>)
    ensures CountPositive(rows) == multiset(Labels(rows))[S.Positive]
    decreases |rows|
  {
    if rows != [] {
      CountPositiveIsMultiplicity(rows[1..]);
      assert Labels(rows) == [rows[0].sentiment] + Labels(rows[1..]);
    }
  }

  /** The processed table, or the "no reviews" warning. */
  datatype Report = NoReviews | Report(rows: seq<AnalyzedReview>, total: nat, positiveCount: nat)

  /**
   * The table built from the gathered reviews: the warning when there are
   * none; otherwise one analysed row per review, in order, and the number of
   * positive rows.
   */
  function Tabulate(polarity: string -> real, reviews: seq<ReviewRecord>): (r: Report)
    ensures r.NoReviews? <==> reviews == []
    ensures r.Report? ==>
      && r.total == |r.rows| == |reviews|
      && (forall i :: 0 <= i < |reviews| ==> r.rows[i] == Analyze(polarity, reviews[i]))
      && r.positiveCount == multiset(Labels(r.rows))[S.Positive]
  {
    if reviews == [] then NoReviews
    else
      var rows := seq(|reviews|, i requires 0 <= i < |reviews| => Analyze(polarity, reviews[i]));
      CountPositiveIsMultiplicity(rows);
      Report(rows, |rows|, CountPositive(rows))
  }

  /**
   * The button handler: the table of every review gathered for the text box,
   * or the warning when the lines gathered none.
   */
  function Process(api: Api, polarity: string -> real, input: string): (r: Report)
    ensures r.NoReviews? <==> Flatten(ReviewsOfEach(LineStep(api), SplitLines(input))) == []
    ensures r.Report? ==> r.total == |Flatten(ReviewsOfEach(LineStep(api), SplitLines(input)))|
  {
    Tabulate(polarity, Collect(api, input).reviews)
  }
}
