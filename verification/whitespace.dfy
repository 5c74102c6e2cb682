/**
 * Whitespace handling of the normaliser: `re.sub(r"\s+", " ", s).strip()`,
 * together with Python's `s.split()` and `" ".join(...)` as an independent
 * description of the same result.
 */
module Whitespace {
  import opened Seqs
  import opened Chars

  predicate NoSpace(w: string) {
    forall i :: 0 <= i < |w| ==> !IsSpace(w[i])
  }

  /** The non-whitespace characters of `s`, in order. */
  function Visible(s: string): string {
    Select(s, (c: char) => !IsSpace(c))
  }

  /** No two consecutive characters of `r` are both whitespace. */
  predicate NoAdjacentSpaces(r: string) {
    forall i, j :: 0 <= i < |r| && 0 <= j < |r| && j == i + 1 ==> !IsSpace(r[i]) || !IsSpace(r[j])
  }

  /** `s` without its leading whitespace (`lstrip()`). */
  function DropWs(s: string): (r: string)
    ensures |r| <= |s| && r == s[|s| - |r|..]
    ensures r == [] || !IsSpace(r[0])
    ensures forall i :: 0 <= i < |s| - |r| ==> IsSpace(s[i])
    decreases |s|
  {
    if s == [] || !IsSpace(s[0]) then s else DropWs(s[1..])
  }

  /** `s` without its trailing whitespace (`rstrip()`). */
  function DropWsRight(s: string): (r: string)
    ensures |r| <= |s| && r == s[..|r|]
    ensures r == [] || !IsSpace(r[|r| - 1])
    ensures forall i :: |r| <= i < |s| ==> IsSpace(s[i])
    decreases |s|
  {
    if s == [] || !IsSpace(s[|s| - 1]) then s else DropWsRight(s[..|s| - 1])
  }

  /** `r` is the slice of `s` at offset `a`, and everything of `s` outside that slice is whitespace. */
  predicate SliceBetweenWs(s: string, r: string, a: int) {
    && 0 <= a <= |s| - |r| && r == s[a..a + |r|]
    && (forall i :: 0 <= i < a ==> IsSpace(s[i]))
    && (forall i :: a + |r| <= i < |s| ==> IsSpace(s[i]))
  }

  /**
   * Python's `strip()`: the slice of `s` left once the whitespace at both
   * ends is removed; it neither starts nor ends with whitespace.
   */
  function Strip(s: string): (r: string)
    ensures |r| <= |s|
    ensures r == [] || (!IsSpace(r[0]) && !IsSpace(r[|r| - 1]))
    ensures exists a :: SliceBetweenWs(s, r, a)
  {
    StripSlice(s);
    DropWsRight(DropWs(s))
  }

  /** Whitespace cut from the front of `s`, then from the back of what is left, leaves a slice between whitespace. */
  lemma TrimmedBothEnds(s: string, d: string, r: string)
    requires |d| <= |s| && d == s[|s| - |d|..] && forall i :: 0 <= i < |s| - |d| ==> IsSpace(s[i])
    requires |r| <= |d| && r == d[..|r|] && forall i :: |r| <= i < |d| ==> IsSpace(d[i])
    ensures SliceBetweenWs(s, r, |s| - |d|)
  {
    var a := |s| - |d|;
    forall k | 0 <= k < |r|
      ensures r[k] == s[a + k]
    {
      assert r[k] == d[k];
    }
    forall i | a + |r| <= i < |s|
      ensures IsSpace(s[i])
    {
      assert s[i] == d[i - a];
    }
  }

  lemma StripSlice(s: string)
    ensures SliceBetweenWs(s, DropWsRight(DropWs(s)), |s| - |DropWs(s)|)
  {
    TrimmedBothEnds(s, DropWs(s), DropWsRight(DropWs(s)));
  }

  /** `re.sub(r"\s+", " ", s)`: every maximal run of whitespace becomes one space. */
  function CollapseWs(s: string): (r: string)
    ensures |r| == 0 <==> |s| == 0
    ensures |r| > 0 ==> (IsSpace(r[0]) <==> IsSpace(s[0]))
    ensures forall i :: 0 <= i < |r| && IsSpace(r[i]) ==> r[i] == ' '
    ensures NoAdjacentSpaces(r)
    decreases |s|
  {
    if s == [] then []
    else if IsSpace(s[0]) then [' '] + CollapseWs(DropWs(s[1..]))
    else [s[0]] + CollapseWs(s[1..])
  }

  /** The whitespace step of the normaliser. */
  function Squeeze(s: string): string {
    Strip(CollapseWs(s))
  }

  /**
   * The shape of a normalised string: the only whitespace is `' '`, it never
   * starts or ends the string, and no two spaces are adjacent.
   */
  predicate Squeezed(r: string) {
    && (forall i :: 0 <= i < |r| && IsSpace(r[i]) ==> r[i] == ' ')
    && (|r| > 0 ==> !IsSpace(r[0]) && !IsSpace(r[|r| - 1]))
    && NoAdjacentSpaces(r)
  }

  /** The leading run of non-whitespace characters of `s`. */
  function LeadingWord(s: string): (w: string)
    ensures |w| <= |s| && w == s[..|w|]
    ensures NoSpace(w)
    ensures |w| < |s| ==> IsSpace(s[|w|])
    ensures s != [] && !IsSpace(s[0]) ==> |w| > 0
    decreases |s|
  {
    if s == [] || IsSpace(s[0]) then [] else [s[0]] + LeadingWord(s[1..])
  }

  /** Python's `s.split()`: the maximal runs of non-whitespace characters. */
  function Words(s: string): (ws: seq<string>)
    ensures forall k :: 0 <= k < |ws| ==> ws[k] != [] && NoSpace(ws[k])
    decreases |s|
  {
    if s == [] then []
    else if IsSpace(s[0]) then Words(s[1..])
    else
      var w := LeadingWord(s);
      [w] + Words(s[|w|..])
  }

  /** Python's `" ".join(ws)`. */
  function Join(ws: seq<string>): string {
    if |ws| == 0 then []
    else if |ws| == 1 then ws[0]
    else ws[0] + [' '] + Join(ws[1..])
  }

  // ---------------------------------------------------------------------------
  // Shape of the result

  /** The whitespace step always yields a normalised string. */
  lemma SqueezeIsSqueezed(s: string)
    ensures Squeezed(Squeeze(s))
  {
    var c := CollapseWs(s);
    var d := DropWs(c);
    var r := DropWsRight(d);
    var a := |c| - |d|;
    forall i | 0 <= i < |r|
      ensures r[i] == c[a + i]
    {
      assert r[i] == d[i];
    }
    forall i, j | 0 <= i && j == i + 1 && j < |r|
      ensures !IsSpace(r[i]) || !IsSpace(r[j])
    {
      assert r[i] == c[a + i] && r[j] == c[a + j];
    }
  }

  // ---------------------------------------------------------------------------
  // Words are insensitive to how whitespace is spelled

  lemma {:induction false} WordsDropWs(s: string)
    ensures Words(DropWs(s)) == Words(s)
    decreases |s|
  {
    if s != [] && IsSpace(s[0]) {
      WordsDropWs(s[1..]);
    }
  }

  /** Prefixing a visible character either starts a new word or extends the first one. */
  lemma WordsCons(c: char, s: string)
    requires !IsSpace(c)
    ensures s == [] || IsSpace(s[0]) ==> Words([c] + s) == [[c]] + Words(s)
    ensures s != [] && !IsSpace(s[0]) ==>
      |Words(s)| > 0 && Words([c] + s) == [[c] + Words(s)[0]] + Words(s)[1..]
  {
    var t := [c] + s;
    assert t[1..] == s;
    var w := LeadingWord(s);
    assert LeadingWord(t) == [c] + w;
    assert t[|[c] + w|..] == s[|w|..];
  }

  lemma {:induction false} LeadingWordSnocSpace(s: string, x: char)
    requires IsSpace(x)
    ensures LeadingWord(s + [x]) == LeadingWord(s)
    decreases |s|
  {
    if s == [] {
    } else {
      assert (s + [x])[1..] == s[1..] + [x];
      LeadingWordSnocSpace(s[1..], x);
    }
  }

  lemma {:induction false} WordsSnocSpace(s: string, x: char)
    requires IsSpace(x)
    ensures Words(s + [x]) == Words(s)
    decreases |s|
  {
    if s == [] {
      assert ([] + [x])[1..] == [];
    } else if IsSpace(s[0]) {
      assert (s + [x])[1..] == s[1..] + [x];
      WordsSnocSpace(s[1..], x);
    } else {
      var w := LeadingWord(s);
      LeadingWordSnocSpace(s, x);
      assert (s + [x])[|w|..] == s[|w|..] + [x];
      WordsSnocSpace(s[|w|..], x);
    }
  }

  lemma {:induction false} WordsDropWsRight(s: string)
    ensures Words(DropWsRight(s)) == Words(s)
    decreases |s|
  {
    if s != [] && IsSpace(s[|s| - 1]) {
      var p := s[..|s| - 1];
      assert s == p + [s[|s| - 1]];
      WordsSnocSpace(p, s[|s| - 1]);
      WordsDropWsRight(p);
    }
  }

  lemma {:induction false} WordsCollapseWs(s: string)
    ensures Words(CollapseWs(s)) == Words(s)
    decreases |s|
  {
    if s == [] {
    } else if IsSpace(s[0]) {
      var d := DropWs(s[1..]);
      assert ([' '] + CollapseWs(d))[1..] == CollapseWs(d);
      WordsCollapseWs(d);
      WordsDropWs(s[1..]);
    } else {
      assert s == [s[0]] + s[1..];
      WordsCollapseWs(s[1..]);
      WordsCons(s[0], s[1..]);
      WordsCons(s[0], CollapseWs(s[1..]));
    }
  }

  /** Normalising whitespace never changes the words of a text. */
  lemma SqueezeKeepsWords(s: string)
    ensures Words(Squeeze(s)) == Words(s)
  {
    var c := CollapseWs(s);
    WordsCollapseWs(s);
    WordsDropWs(c);
    WordsDropWsRight(DropWs(c));
  }

  // ---------------------------------------------------------------------------
  // A normalised string is determined by its words

  lemma JoinCons(w: string, ws: seq<string>)
    requires ws != []
    ensures Join([w] + ws) == w + [' '] + Join(ws)
  {
    assert ([w] + ws)[1..] == ws;
  }

  /** A suffix of a normalised string that starts on a visible character is normalised. */
  lemma SqueezedSuffix(r: string, k: nat)
    requires Squeezed(r) && k < |r| && !IsSpace(r[k])
    ensures Squeezed(r[k..])
  {
    var u := r[k..];
    forall i | 0 <= i < |u|
      ensures u[i] == r[k + i]
    {
    }
  }

  /** A normalised string with more than one word: its first word, one space, and a normalised rest. */
  lemma SqueezedSplit(r: string)
    requires Squeezed(r) && r != [] && |LeadingWord(r)| < |r|
    ensures var w := LeadingWord(r);
      var u := r[|w| + 1..];
      && |w| + 1 < |r| && r == w + [' '] + u
      && Squeezed(u) && u != [] && !IsSpace(u[0])
  {
    var w := LeadingWord(r);
    assert r[|w|] == ' ';
    assert |w| + 1 < |r| by {
      assert !IsSpace(r[|r| - 1]);
    }
    assert !IsSpace(r[|w| + 1]);
    SqueezedSuffix(r, |w| + 1);
    assert r == w + [' '] + r[|w| + 1..];
  }

  lemma {:induction false} SqueezedIsJoinedWords(r: string)
    requires Squeezed(r)
    ensures Join(Words(r)) == r
    decreases |r|
  {
    if r != [] {
      var w := LeadingWord(r);
      if |w| == |r| {
        assert r[|w|..] == [];
      } else {
        SqueezedSplit(r);
        var u := r[|w| + 1..];
        assert Words(r[|w|..]) == Words(u) by {
          assert r[|w|..][1..] == u;
          assert IsSpace(r[|w|..][0]);
        }
        SqueezedIsJoinedWords(u);
        JoinCons(w, Words(u));
      }
    }
  }

  /** The whitespace step equals Python's `" ".join(s.split())`. */
  lemma SqueezeIsJoinedWords(s: string)
    ensures Squeeze(s) == Join(Words(s))
  {
    SqueezeIsSqueezed(s);
    SqueezedIsJoinedWords(Squeeze(s));
    SqueezeKeepsWords(s);
  }

  /** On an already normalised string the whitespace step is the identity. */
  lemma SqueezeFixesSqueezed(r: string)
    requires Squeezed(r)
    ensures Squeeze(r) == r
  {
    SqueezeIsJoinedWords(r);
    SqueezedIsJoinedWords(r);
  }

  // ---------------------------------------------------------------------------
  // Visible characters

  lemma {:induction false} VisibleOfNoSpace(w: string)
    requires NoSpace(w)
    ensures Visible(w) == w
    decreases |w|
  {
    if w != [] {
      VisibleOfNoSpace(w[1..]);
    }
  }

  /** The visible characters of a text are its words run together. */
  lemma {:induction false} VisibleIsFlattenedWords(s: string)
    ensures Visible(s) == Flatten(Words(s))
    decreases |s|
  {
    if s == [] {
    } else if IsSpace(s[0]) {
      VisibleIsFlattenedWords(s[1..]);
    } else {
      var w := LeadingWord(s);
      var rest := s[|w|..];
      assert s == w + rest;
      SelectAppend(w, rest, (c: char) => !IsSpace(c));
      VisibleOfNoSpace(w);
      VisibleIsFlattenedWords(rest);
      assert Words(s) == [w] + Words(rest);
      assert Flatten(Words(s)) == w + Flatten(Words(rest));
    }
  }

  /** Normalising whitespace keeps every visible character, in order. */
  lemma SqueezeKeepsVisible(s: string)
    ensures Visible(Squeeze(s)) == Visible(s)
  {
    VisibleIsFlattenedWords(s);
    VisibleIsFlattenedWords(Squeeze(s));
    SqueezeKeepsWords(s);
  }

  /** A normalised string without visible characters is empty. */
  lemma SqueezedWithoutVisible(r: string)
    requires Squeezed(r) && Visible(r) == []
    ensures r == []
  {
    if r != [] {
      SelectMember(r, (c: char) => !IsSpace(c), 0);
    }
  }
}
