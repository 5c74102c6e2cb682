/**
 * The accumulation both front ends share (`all_reviews.extend(...)` in
 * app.py, `all_reviews_global.extend(...)` in src/download_reviews.py): each
 * item of a list adds its reviews and its calls, in list order.
 */
module Gathering {
  import opened Options
  import opened Seqs
  import opened PlacesApi

  /** The reviews and calls gathered so far. */
  datatype Gathered = Gathered(reviews: seq<ReviewRecord>, calls: seq<Call>)

  const Nothing := Gathered([], [])

  /** `acc` followed by what `g` adds. */
  function Extend(acc: Gathered, g: Gathered): Gathered {
    Gathered(acc.reviews + g.reviews, acc.calls + g.calls)
  }

  /** The loop: `acc` extended by `step` of every item in turn. */
  function GatherEach<T>(step: T -> Gathered, items: seq<T>, acc: Gathered): (g: Gathered)
    ensures |acc.reviews| <= |g.reviews| && g.reviews[..|acc.reviews|] == acc.reviews
    ensures |acc.calls| <= |g.calls| && g.calls[..|acc.calls|] == acc.calls
    decreases |items|
  {
    if items == [] then acc
    else GatherEach(step, items[1..], Extend(acc, step(items[0])))
  }

  function ReviewsOfEach<T>(step: T -> Gathered, items: seq<T>): (rs: seq<seq<ReviewRecord>>)
    ensures |rs| == |items|
  {
    seq(|items|, i requires 0 <= i < |items| => step(items[i]).reviews)
  }

  function CallsOfEach<T>(step: T -> Gathered, items: seq<T>): (cs: seq<seq<Call>>)
    ensures |cs| == |items|
  {
    seq(|items|, i requires 0 <= i < |items| => step(items[i]).calls)
  }

  /** The loop's result is `acc` followed by the in-order concatenation of every item's reviews and calls. */
  lemma {:induction false} GatherEachConcatenates<T>(step: T -> Gathered, items: seq<T>, acc: Gathered)
    ensures GatherEach(step, items, acc).reviews == acc.reviews + Flatten(ReviewsOfEach(step, items))
    ensures GatherEach(step, items, acc).calls == acc.calls + Flatten(CallsOfEach(step, items))
    decreases |items|
  {
    if items != [] {
      GatherEachConcatenates(step, items[1..], Extend(acc, step(items[0])));
      assert ReviewsOfEach(step, items)[1..] == ReviewsOfEach(step, items[1..]);
      assert CallsOfEach(step, items)[1..] == CallsOfEach(step, items[1..]);
    }
  }

  /** Every gathered review belongs to a place whose first details page was requested. */
  predicate Traced(g: Gathered) {
    forall i :: 0 <= i < |g.reviews| ==> Details(g.reviews[i].placeId, None) in g.calls
  }

  /** The reviews of one place `pid` are traced once its first page request is among the calls. */
  lemma OnePlaceTraced(pid: string, g: Gathered)
    requires forall i :: 0 <= i < |g.reviews| ==> g.reviews[i].placeId == pid
    requires g.reviews != [] ==> Details(pid, None) in g.calls
    ensures Traced(g)
  {
  }

  lemma ExtendTraced(acc: Gathered, g: Gathered)
    requires Traced(acc) && Traced(g)
    ensures Traced(Extend(acc, g))
  {
    var e := Extend(acc, g);
    forall i | 0 <= i < |e.reviews|
      ensures Details(e.reviews[i].placeId, None) in e.calls
    {
      if i < |acc.reviews| {
        assert e.reviews[i] == acc.reviews[i];
      } else {
        assert e.reviews[i] == g.reviews[i - |acc.reviews|];
      }
    }
  }

  /** The loop keeps every review traced when each item's contribution is. */
  lemma {:induction false} GatherEachTraced<T>(step: T -> Gathered, items: seq<T>, acc: Gathered)
    requires Traced(acc)
    requires forall k :: 0 <= k < |items| ==> Traced(step(items[k]))
    ensures Traced(GatherEach(step, items, acc))
    decreases |items|
  {
    if items != [] {
      ExtendTraced(acc, step(items[0]));
      GatherEachTraced(step, items[1..], Extend(acc, step(items[0])));
    }
  }

  /** Two items gather the first's reviews and calls, then the second's. */
  lemma GatherTwo<T>(step: T -> Gathered, a: T, b: T)
    ensures GatherEach(step, [a, b], Nothing) == Gathered(step(a).reviews + step(b).reviews, step(a).calls + step(b).calls)
  {
    assert [a, b][1..] == [b];
    assert [b][1..] == [];
    var first := Extend(Nothing, step(a));
    assert first == step(a) by {
      assert [] + step(a).reviews == step(a).reviews;
      assert [] + step(a).calls == step(a).calls;
    }
    assert GatherEach(step, [a, b], Nothing) == GatherEach(step, [b], first);
    assert GatherEach(step, [b], first) == Extend(first, step(b));
  }
}
