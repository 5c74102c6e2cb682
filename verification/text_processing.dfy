/**
 * The review text normaliser `clean_text` of src/text_processing.py: line
 * breaks become spaces, the text is lower-cased, every character outside a
 * fixed allow-list (or whitespace) is dropped, whitespace runs collapse to one
 * space and the ends are trimmed.
 */
module TextProcessing {
  import opened Options
  import opened Seqs
  import opened Chars
  import opened Whitespace

  /** `text.replace("\n", " ").replace("\r", " ")` */
  function ReplaceLineBreaks(s: string): (r: string)
    ensures |r| == |s|
    ensures forall i :: 0 <= i < |r| ==> !IsLineBreak(r[i]) && (IsSpace(r[i]) <==> IsSpace(s[i]))
    ensures forall i :: 0 <= i < |r| && !IsLineBreak(s[i]) ==> r[i] == s[i]
    ensures forall i :: 0 <= i < |r| && IsLineBreak(s[i]) ==> r[i] == ' '
  {
    seq(|s|, i requires 0 <= i < |s| => if IsLineBreak(s[i]) then ' ' else s[i])
  }

  /** `text.lower()`, one character at a time. */
  function LowerAll(s: string): (r: string)
    ensures |r| == |s|
    ensures forall i :: 0 <= i < |r| ==> (IsSpace(r[i]) <==> IsSpace(s[i])) && (IsLineBreak(r[i]) <==> IsLineBreak(s[i]))
    ensures forall i :: 0 <= i < |r| && InAllowList(s[i]) ==> r[i] == s[i]
    ensures forall i :: 0 <= i < |r| && 'A' <= s[i] <= 'Z' ==> r[i] as int == s[i] as int + 0x20
    ensures forall i :: 0 <= i < |r| && 0xC0 <= s[i] as int <= 0xDE && s[i] as int != 0xD7 ==>
      r[i] as int == s[i] as int + 0x20
    ensures forall i :: 0 <= i < |r| && s[i] == '\U{212A}' ==> r[i] == 'k'
    ensures forall i :: 0 <= i < |r| && s[i] == '\U{0130}' ==> r[i] == 'i'
  {
    seq(|s|, i requires 0 <= i < |s| => Lower(s[i]))
  }

  /** `re.sub(r"[^a-z0-9áéíóúüñ¡!¿?.,:;'\"()\s-]", "", text)` */
  function KeepAllowed(s: string): (r: string)
    ensures |r| <= |s|
    ensures forall c :: c in r <==> c in s && KeptByFilter(c)
  {
    Select(s, KeptByFilter)
  }

  /** The filter works character by character: a kept character stays, any other disappears. */
  lemma KeepAllowedSingle(c: char)
    ensures KeepAllowed([c]) == if KeptByFilter(c) then [c] else []
  {
    assert [c][1..] == [];
  }

  /** The filter keeps order and multiplicity: filtering a concatenation concatenates the filtered parts. */
  lemma KeepAllowedAppend(a: string, b: string)
    ensures KeepAllowed(a + b) == KeepAllowed(a) + KeepAllowed(b)
  {
    SelectAppend(a, b, KeptByFilter);
  }

  /** The characters left after the first three steps, before whitespace is normalised. */
  function Filtered(s: string): string {
    KeepAllowed(LowerAll(ReplaceLineBreaks(s)))
  }

  /** The normaliser's steps on a non-empty text, in the order the source applies them. */
  function Normalize(s: string): string {
    Squeeze(Filtered(s))
  }

  /** The output alphabet: a space or an allow-listed character. */
  predicate CleanChar(c: char) {
    c == ' ' || InAllowList(c)
  }

  /** Every visible character of the filtered text is allow-listed. */
  lemma FilteredVisibleAllowed(s: string, c: char)
    requires c in Filtered(s) && !IsSpace(c)
    ensures InAllowList(c)
  {
  }

  lemma NormalizeAlphabet(s: string)
    ensures forall i :: 0 <= i < |Normalize(s)| ==> CleanChar(Normalize(s)[i])
  {
    var t := Filtered(s);
    var r := Normalize(s);
    SqueezeIsSqueezed(t);
    SqueezeKeepsVisible(t);
    forall i | 0 <= i < |r|
      ensures CleanChar(r[i])
    {
      if !IsSpace(r[i]) {
        SelectMember(r, (c: char) => !IsSpace(c), i);
        assert r[i] in Visible(t);
        FilteredVisibleAllowed(s, r[i]);
      }
    }
  }

  /**
   * `clean_text(text)`: falsy input (None or "") gives "", and the result is
   * trimmed, single-spaced, free of line breaks and drawn from the allow-list.
   */
  function CleanText(text: Option<string>): (r: string)
    ensures !Truthy(text) ==> r == ""
    ensures Squeezed(r)
    ensures forall i :: 0 <= i < |r| ==> CleanChar(r[i]) && !IsLineBreak(r[i])
  {
    if !Truthy(text) then ""
    else
      SqueezeIsSqueezed(Filtered(text.value));
      NormalizeAlphabet(text.value);
      Normalize(text.value)
  }

  // ---------------------------------------------------------------------------
  // What the normaliser computes

  lemma NormalizeEmpty()
    ensures Normalize("") == ""
  {
    assert ReplaceLineBreaks("") == "";
    assert LowerAll("") == "";
  }

  /** The normaliser is the total function `s => Normalize(s)`: the empty-text guard changes nothing. */
  lemma CleanTextIsNormalize(s: string)
    ensures CleanText(Some(s)) == Normalize(s)
  {
    if s == "" {
      NormalizeEmpty();
    }
  }

  /** The result is `" ".join(filtered.split())`, where `filtered` is the text after the allow-list filter. */
  lemma CleanTextIsJoinedWords(s: string)
    ensures CleanText(Some(s)) == Join(Words(Filtered(s)))
  {
    CleanTextIsNormalize(s);
    SqueezeIsJoinedWords(Filtered(s));
  }

  lemma {:induction false} VisibleOfKeepAllowed(y: string)
    ensures Visible(KeepAllowed(y)) == Select(y, InAllowList)
    decreases |y|
  {
    if y != [] {
      var head := if KeptByFilter(y[0]) then [y[0]] else [];
      SelectAppend(head, KeepAllowed(y[1..]), (c: char) => !IsSpace(c));
      VisibleOfKeepAllowed(y[1..]);
      if InAllowList(y[0]) {
        AllowListIsVisibleLowerCase(y[0]);
      }
    }
  }

  /** Turning line breaks into spaces does not change which allow-listed characters remain. */
  lemma LineBreaksNotAllowed(s: string)
    ensures Select(LowerAll(ReplaceLineBreaks(s)), InAllowList) == Select(LowerAll(s), InAllowList)
  {
    var a := LowerAll(ReplaceLineBreaks(s));
    var b := LowerAll(s);
    forall i | 0 <= i < |a|
      ensures a[i] == b[i] || (!InAllowList(a[i]) && !InAllowList(b[i]))
    {
      if IsLineBreak(s[i]) {
        if InAllowList(a[i]) { AllowListIsVisibleLowerCase(a[i]); }
        if InAllowList(b[i]) { AllowListIsVisibleLowerCase(b[i]); }
      }
    }
    SelectAgrees(a, b, InAllowList);
  }

  lemma FilteredVisible(s: string)
    ensures Visible(Filtered(s)) == Select(LowerAll(s), InAllowList)
  {
    VisibleOfKeepAllowed(LowerAll(ReplaceLineBreaks(s)));
    LineBreaksNotAllowed(s);
  }

  lemma CleanTextKeepsFilteredVisible(s: string)
    ensures Visible(CleanText(Some(s))) == Visible(Filtered(s))
  {
    CleanTextIsNormalize(s);
    SqueezeKeepsVisible(Filtered(s));
  }

  /**
   * The visible characters of the result are exactly the allow-listed
   * characters of the lower-cased input, in their original order.
   */
  lemma CleanTextVisible(s: string)
    ensures Visible(CleanText(Some(s))) == Select(LowerAll(s), InAllowList)
  {
    CleanTextKeepsFilteredVisible(s);
    FilteredVisible(s);
  }

  /** Whitespace lower-cases to whitespace, which the allow-list does not contain. */
  lemma BlankHasNothingAllowed(s: string)
    requires forall i :: 0 <= i < |s| ==> IsSpace(s[i])
    ensures Select(LowerAll(s), InAllowList) == []
  {
    var b := LowerAll(s);
    forall i | 0 <= i < |b|
      ensures !InAllowList(b[i])
    {
      if InAllowList(b[i]) { AllowListIsVisibleLowerCase(b[i]); }
    }
    SelectNone(b, InAllowList);
  }

  /** A text made only of whitespace and line breaks cleans to "". */
  lemma CleanTextOfBlank(s: string)
    requires forall i :: 0 <= i < |s| ==> IsSpace(s[i])
    ensures CleanText(Some(s)) == ""
  {
    CleanTextVisible(s);
    BlankHasNothingAllowed(s);
    SqueezedWithoutVisible(CleanText(Some(s)));
  }

  /** The first three steps leave a text over the output alphabet unchanged. */
  lemma FilteredFixesCleanAlphabet(r: string)
    requires forall i :: 0 <= i < |r| ==> CleanChar(r[i])
    ensures Filtered(r) == r
  {
    forall i | 0 <= i < |r|
      ensures !IsLineBreak(r[i]) && Lower(r[i]) == r[i] && KeptByFilter(r[i])
    {
      if InAllowList(r[i]) { AllowListIsVisibleLowerCase(r[i]); }
    }
    assert ReplaceLineBreaks(r) == r;
    assert LowerAll(r) == r;
    SelectAll(r, KeptByFilter);
  }

  /** Cleaning twice is cleaning once. */
  lemma CleanTextIdempotent(s: Option<string>)
    ensures CleanText(Some(CleanText(s))) == CleanText(s)
  {
    var r := CleanText(s);
    CleanTextIsNormalize(r);
    FilteredFixesCleanAlphabet(r);
    SqueezeFixesSqueezed(r);
  }
}
