/**
 * The CSV cleaning step of src/clean_reviews.py: a double-encoding repair
 * followed by the same normaliser as src/text_processing.py, applied to the
 * `author_name` and `text` columns of every row.
 */
module CleanReviews {
  import opened Options
  import opened Chars
  import opened Whitespace
  import TP = TextProcessing

  const AuthorColumn := "author_name"
  const TextColumn := "text"

  /**
   * `fix_double_encoded_text`: a falsy value becomes "" without consulting the
   * codec; any other value goes through `codec`, which stands for the
   * `encode("latin-1") / decode("utf-8")` round trip with replacement.
   */
  function FixDoubleEncoded(codec: string -> string, s: Option<string>): (r: string)
    ensures !Truthy(s) ==> r == ""
  {
    if !Truthy(s) then "" else codec(s.value)
  }

  /**
   * `clean_text` of this file: falsy input gives "", otherwise the text is
   * repaired first and then normalised, so the result has the normaliser's
   * alphabet and shape.
   */
  function CleanText(codec: string -> string, text: Option<string>): (r: string)
    ensures !Truthy(text) ==> r == ""
    ensures Squeezed(r)
    ensures forall i :: 0 <= i < |r| ==> TP.CleanChar(r[i]) && !IsLineBreak(r[i])
  {
    if !Truthy(text) then ""
    else
      var fixed := FixDoubleEncoded(codec, text);
      TP.CleanTextIsNormalize(fixed);
      TP.Normalize(fixed)
  }

  /** For every input, this cleaner is the plain normaliser applied after the repair. */
  lemma CleanTextIsRepairThenNormalize(codec: string -> string, text: Option<string>)
    ensures CleanText(codec, text) == TP.CleanText(Some(FixDoubleEncoded(codec, text)))
  {
    if Truthy(text) {
      TP.CleanTextIsNormalize(FixDoubleEncoded(codec, text));
    }
  }

  /** One CSV row as `csv.DictReader` yields it: column name to cell (`None` when the row is short). */
  type Row = map<string, Option<string>>

  /**
   * The per-row transform: `author_name` is repaired, `text` is cleaned, every
   * other column is passed through.
   */
  function CleanRow(codec: string -> string, row: Row): (r: Row)
    requires AuthorColumn in row && TextColumn in row
    ensures r.Keys == row.Keys
    ensures r[AuthorColumn] == Some(FixDoubleEncoded(codec, row[AuthorColumn]))
    ensures r[TextColumn] == Some(CleanText(codec, row[TextColumn]))
    ensures forall k :: k in row && k != AuthorColumn && k != TextColumn ==> r[k] == row[k]
  {
    var author := Some(FixDoubleEncoded(codec, row[AuthorColumn]));
    var text := Some(CleanText(codec, row[TextColumn]));
    assert AuthorColumn[0] != TextColumn[0];
    UpdateTwo(row, AuthorColumn, TextColumn, author, text);
    row[AuthorColumn := author][TextColumn := text]
  }

  /** Two updates of distinct existing keys: same keys, the two new cells, every other cell as before. */
  lemma UpdateTwo(m: Row, a: string, b: string, x: Option<string>, y: Option<string>)
    requires a in m && b in m && a != b
    ensures var r := m[a := x][b := y];
      && r.Keys == m.Keys && r[a] == x && r[b] == y
      && forall k :: k in m && k != a && k != b ==> r[k] == m[k]
  {
  }

  /**
   * `clean_reviews` without the file handling: `None` when the header lacks a
   * required column (nothing is written), otherwise every row transformed, in
   * order. `csv.DictReader` gives every row a cell for every header column.
   */
  function CleanRows(codec: string -> string, header: seq<string>, rows: seq<Row>): (r: Option<seq<Row>>)
    requires forall i, f :: 0 <= i < |rows| && f in header ==> f in rows[i]
    ensures r.None? <==> AuthorColumn !in header || TextColumn !in header
    ensures r.Some? ==> |r.value| == |rows|
    ensures r.Some? ==> forall i :: 0 <= i < |rows| ==>
      && r.value[i].Keys == rows[i].Keys
      && r.value[i][AuthorColumn] == Some(FixDoubleEncoded(codec, rows[i][AuthorColumn]))
      && r.value[i][TextColumn] == Some(CleanText(codec, rows[i][TextColumn]))
      && (forall k :: k in rows[i] && k != AuthorColumn && k != TextColumn ==> r.value[i][k] == rows[i][k])
  {
    if AuthorColumn !in header || TextColumn !in header then None
    else Some(seq(|rows|, i requires 0 <= i < |rows| => CleanRow(codec, rows[i])))
  }
}
