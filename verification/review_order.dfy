/**
 * The ordering step of src/reviews_fetcher.py: a stable sort of the records,
 * most recent timestamp first with absent timestamps last (Python's `sorted`
 * with `reverse=True` keeps equal keys in their original order), followed by
 * keeping the first five.
 */
module ReviewOrder {
  import opened Options
  import opened Seqs
  import opened PlacesApi

  const MaxReviews: nat := 5

  /** The sort key order: any timestamp ranks above none (`datetime.min`); timestamps compare as numbers. */
  predicate AtLeastAsRecent(a: Option<int>, b: Option<int>) {
    b.None? || (a.Some? && a.value >= b.value)
  }

  predicate NewestFirst(rs: seq<ReviewRecord>) {
    forall i, j :: 0 <= i < j < |rs| ==> AtLeastAsRecent(rs[i].datetimeUtc, rs[j].datetimeUtc)
  }

  /** The records of `rs` whose timestamp is `t`, in their order in `rs`. */
  function WithTime(rs: seq<ReviewRecord>, t: Option<int>): seq<ReviewRecord>
    decreases |rs|
  {
    if rs == [] then []
    else (if rs[0].datetimeUtc == t then [rs[0]] else []) + WithTime(rs[1..], t)
  }

  /** No record of `rs` is more recent than `t`. */
  predicate Dominates(t: Option<int>, rs: seq<ReviewRecord>) {
    forall k :: 0 <= k < |rs| ==> AtLeastAsRecent(t, rs[k].datetimeUtc)
  }

  lemma DominatesSameRecords(t: Option<int>, a: seq<ReviewRecord>, b: seq<ReviewRecord>)
    requires multiset(a) == multiset(b) && Dominates(t, b)
    ensures Dominates(t, a)
  {
    forall k | 0 <= k < |a|
      ensures AtLeastAsRecent(t, a[k].datetimeUtc)
    {
      assert a[k] in multiset(b);
      var j :| 0 <= j < |b| && b[j] == a[k];
    }
  }

  lemma ConsNewestFirst(h: ReviewRecord, rs: seq<ReviewRecord>)
    requires Dominates(h.datetimeUtc, rs) && NewestFirst(rs)
    ensures NewestFirst([h] + rs)
  {
    var r := [h] + rs;
    forall i, j | 0 <= i < j < |r|
      ensures AtLeastAsRecent(r[i].datetimeUtc, r[j].datetimeUtc)
    {
      assert r[j] == rs[j - 1];
      if i > 0 {
        assert r[i] == rs[i - 1];
      }
    }
  }

  /** A record at least as recent as the head of a sorted list can go in front of it. */
  lemma PrependNewest(x: ReviewRecord, rs: seq<ReviewRecord>)
    requires NewestFirst(rs)
    requires rs == [] || AtLeastAsRecent(x.datetimeUtc, rs[0].datetimeUtc)
    ensures NewestFirst([x] + rs)
  {
    forall k | 0 <= k < |rs|
      ensures AtLeastAsRecent(x.datetimeUtc, rs[k].datetimeUtc)
    {
      if k > 0 {
        assert AtLeastAsRecent(rs[0].datetimeUtc, rs[k].datetimeUtc);
      }
    }
    ConsNewestFirst(x, rs);
  }

  /** The head of a sorted list stays in front when a less recent record is inserted behind it. */
  lemma KeepHead(x: ReviewRecord, rs: seq<ReviewRecord>, tail: seq<ReviewRecord>)
    requires NewestFirst(rs) && rs != [] && !AtLeastAsRecent(x.datetimeUtc, rs[0].datetimeUtc)
    requires NewestFirst(tail) && multiset(tail) == multiset(rs[1..]) + multiset{x}
    ensures NewestFirst([rs[0]] + tail)
  {
    var others := [x] + rs[1..];
    forall k | 0 <= k < |others|
      ensures AtLeastAsRecent(rs[0].datetimeUtc, others[k].datetimeUtc)
    {
      if k > 0 {
        assert others[k] == rs[k];
      }
    }
    assert multiset(others) == multiset(rs[1..]) + multiset{x};
    DominatesSameRecords(rs[0].datetimeUtc, tail, others);
    ConsNewestFirst(rs[0], tail);
  }

  /** Places `x` before the first record it is at least as recent as. */
  function Insert(x: ReviewRecord, rs: seq<ReviewRecord>): (r: seq<ReviewRecord>)
    requires NewestFirst(rs)
    ensures NewestFirst(r)
    ensures multiset(r) == multiset(rs) + multiset{x}
    ensures |r| == |rs| + 1
    decreases |rs|
  {
    if rs == [] || AtLeastAsRecent(x.datetimeUtc, rs[0].datetimeUtc) then
      PrependNewest(x, rs);
      [x] + rs
    else
      var tail := Insert(x, rs[1..]);
      KeepHead(x, rs, tail);
      assert rs == [rs[0]] + rs[1..];
      [rs[0]] + tail
  }

  /** `sorted(rs, key=timestamp, reverse=True)`: an insertion sort from the back. */
  function SortNewestFirst(rs: seq<ReviewRecord>): (r: seq<ReviewRecord>)
    ensures NewestFirst(r)
    ensures multiset(r) == multiset(rs)
    ensures |r| == |rs|
    decreases |rs|
  {
    if rs == [] then []
    else
      assert rs == [rs[0]] + rs[1..];
      Insert(rs[0], SortNewestFirst(rs[1..]))
  }

  lemma WithTimeCons(h: ReviewRecord, rs: seq<ReviewRecord>, t: Option<int>)
    ensures WithTime([h] + rs, t) == (if h.datetimeUtc == t then [h] else []) + WithTime(rs, t)
  {
    assert ([h] + rs)[1..] == rs;
  }

  lemma {:induction false} InsertStable(x: ReviewRecord, rs: seq<ReviewRecord>, t: Option<int>)
    requires NewestFirst(rs)
    ensures WithTime(Insert(x, rs), t) == (if x.datetimeUtc == t then [x] else []) + WithTime(rs, t)
    decreases |rs|
  {
    if rs == [] || AtLeastAsRecent(x.datetimeUtc, rs[0].datetimeUtc) {
      WithTimeCons(x, rs, t);
    } else {
      var tail := Insert(x, rs[1..]);
      assert Insert(x, rs) == [rs[0]] + tail;
      InsertStable(x, rs[1..], t);
      WithTimeCons(rs[0], tail, t);
      WithTimeCons(rs[0], rs[1..], t);
      assert [rs[0]] + rs[1..] == rs;
    }
  }

  /**
   * The sort is stable: for every timestamp, the records carrying it keep
   * their relative order.
   */
  lemma {:induction false} SortStable(rs: seq<ReviewRecord>, t: Option<int>)
    ensures WithTime(SortNewestFirst(rs), t) == WithTime(rs, t)
    decreases |rs|
  {
    if rs != [] {
      SortStable(rs[1..], t);
      InsertStable(rs[0], SortNewestFirst(rs[1..]), t);
    }
  }

  /** `sorted_reviews[:5]`. */
  function TopRecent(rs: seq<ReviewRecord>): (r: seq<ReviewRecord>)
    ensures |r| == Min(MaxReviews, |rs|)
    ensures r == SortNewestFirst(rs)[..|r|]
    ensures NewestFirst(r)
    ensures multiset(r) <= multiset(rs)
  {
    var s := SortNewestFirst(rs);
    var m := Min(MaxReviews, |s|);
    assert s == s[..m] + s[m..];
    assert multiset(s) == multiset(s[..m]) + multiset(s[m..]);
    s[..m]
  }

  lemma SplitMultiset(s: seq<ReviewRecord>, m: nat)
    requires m <= |s|
    ensures multiset(s) - multiset(s[..m]) == multiset(s[m..])
  {
    assert s == s[..m] + s[m..];
  }

  /** In a sorted list, every record of a prefix is at least as recent as every record after it. */
  lemma SortedSplit(s: seq<ReviewRecord>, m: nat)
    requires NewestFirst(s) && m <= |s|
    ensures forall x, y :: x in s[..m] && y in s[m..] ==> AtLeastAsRecent(x.datetimeUtc, y.datetimeUtc)
  {
    forall x, y | x in s[..m] && y in s[m..]
      ensures AtLeastAsRecent(x.datetimeUtc, y.datetimeUtc)
    {
      var i :| 0 <= i < m && s[..m][i] == x;
      var j :| 0 <= j < |s| - m && s[m..][j] == y;
      assert s[i] == x && s[m + j] == y;
    }
  }

  /** Every record left out is no more recent than any record kept. */
  lemma TopRecentKeepsNewest(rs: seq<ReviewRecord>)
    ensures forall x, y :: x in TopRecent(rs) && y in multiset(rs) - multiset(TopRecent(rs)) ==>
      AtLeastAsRecent(x.datetimeUtc, y.datetimeUtc)
  {
    var s := SortNewestFirst(rs);
    var r := TopRecent(rs);
    SplitMultiset(s, |r|);
    SortedSplit(s, |r|);
    assert r == s[..|r|];
    assert multiset(rs) - multiset(r) == multiset(s[|r|..]);
  }

  /** The kept records all come from the input, so any property of every input record holds of them. */
  lemma TopRecentFromInput(rs: seq<ReviewRecord>)
    ensures forall i :: 0 <= i < |TopRecent(rs)| ==> TopRecent(rs)[i] in rs
  {
    var r := TopRecent(rs);
    forall i | 0 <= i < |r|
      ensures r[i] in rs
    {
      assert r[i] in multiset(r);
    }
  }
}
