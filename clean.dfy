/**
  `clean_data` of data/process_data.py: the packed `categories` string of
  every merged row is split on `;`, the column names come from the name
  parts of row 0's tokens, each cell is reduced to the number its last
  character denotes, the packed column is replaced by the new columns, and
  exact duplicate rows are dropped.

  The pandas steps are modelled as they behave on the frames this code
  builds: `str.split(';', expand=True)` makes as many columns as the row
  with most tokens and pads shorter rows with missing cells; `astype(str)`
  turns a missing cell into the text "None"; `str[-1]` of an empty string
  is NaN, which `pd.to_numeric` keeps; any other last character that is not
  a decimal digit makes `pd.to_numeric` raise.
*/
module Clean {
  import opened Wrappers
  import opened Text
  import opened Dedup
  import opened Load

  /** A category cell after `pd.to_numeric`: a number, or NaN for a token with no last character. */
  datatype Score = Digit(n: nat) | NaN

  /** A row of the cleaned table: the merged columns except `categories`, then one value per category column. */
  datatype Cleaned = Cleaned(id: int, message: string, original: Option<string>, genre: string, values: seq<Score>)

  /** The cleaned table: the names of the category columns and the surviving rows. */
  datatype Table = Table(names: seq<string>, rows: seq<Cleaned>)

  /** The ways `clean_data` raises. */
  datatype CleanError =
    | NoRows                                           // `iloc[0]` of an empty frame
    | MissingName(column: nat)                         // row 0 has no token there, and a missing cell has no `split`
    | NotNumeric(column: nat, row: nat, text: string)  // `pd.to_numeric` cannot parse the last character of `text`

  /** The `;`-separated tokens of a packed categories string. */
  function Tokens(categories: string): seq<string> {
    SplitOn(categories, ';')
  }

  /**
    `token.split('-')[0]`: the longest prefix of the token without a `-`,
    so either the whole token or the part before its first `-`.
  */
  function NameOf(token: string): (name: string)
    ensures name <= token
    ensures '-' !in name
    ensures |name| < |token| ==> token[|name|] == '-'
  {
    var parts := SplitOn(token, '-');
    JoinWithHead(parts, '-');
    parts[0]
  }

  /** The three properties of `NameOf` single out its result. */
  lemma NameOfUnique(token: string, name: string)
    requires name <= token && '-' !in name
    requires |name| < |token| ==> token[|name|] == '-'
    ensures name == NameOf(token)
  {
  }

  /** The character that writes the decimal digit `n`. */
  function DigitChar(n: nat): char
    requires n <= 9
  {
    ('0' as int + n) as char
  }

  /**
    `str[-1]` and then `pd.to_numeric` on one cell's text. The empty text
    has no last character and gives NaN; a last character that is a
    decimal digit gives that digit's value (also when it is not 0 or 1);
    any other last character cannot be parsed.
  */
  function ValueOf(text: string): (v: Option<Score>)
  {
    if |text| == 0 then Some(NaN)
    else
      var c := text[|text| - 1];
      if '0' <= c <= '9' then Some(Digit(c as int - '0' as int)) else None
  }

  /**
    What `ValueOf` promises: NaN for the empty text, a failure exactly when
    the last character is not a decimal digit, and otherwise a digit value
    that writes back as that last character.
  */
  lemma ValueOfMeaning(text: string)
    ensures |text| == 0 ==> ValueOf(text) == Some(NaN)
    ensures |text| > 0 ==> (ValueOf(text).Some? <==> '0' <= text[|text| - 1] <= '9')
    ensures |text| > 0 && ValueOf(text).Some? ==>
      ValueOf(text).value.Digit? && ValueOf(text).value.n <= 9 && DigitChar(ValueOf(text).value.n) == text[|text| - 1]
  {
  }

  /** `astype(str)` of a cell: a token is its own text, a padding cell reads "None". */
  function CellText(cell: Option<string>): string {
    match cell
    case Some(token) => token
    case None => "None"
  }

  /** The number of columns `str.split(';', expand=True)` creates: the largest token count of any row. */
  function Width(rows: seq<Joined>): (w: nat)
    ensures forall i :: 0 <= i < |rows| ==> |Tokens(rows[i].categories)| <= w
    ensures |rows| > 0 ==> exists i :: 0 <= i < |rows| && |Tokens(rows[i].categories)| == w
    decreases |rows|
  {
    if |rows| == 0 then 0
    else
      var n := |rows| - 1;
      var w0 := Width(rows[..n]);
      assert forall i :: 0 <= i < n ==> rows[..n][i] == rows[i];
      var t := |Tokens(rows[n].categories)|;
      if t > w0 then t else w0
  }

  /** A frame of text cells held column by column: `frame[c][i]` is row `i` of column `c`. */
  type Frame = seq<seq<Option<string>>>

  /** Cell `c` of a split row: its `c`-th token, or a missing cell past its last token. */
  function CellAt(tokens: seq<string>, c: nat): Option<string> {
    if c < |tokens| then Some(tokens[c]) else None
  }

  /** `df['categories'].str.split(';', expand=True)`: `Width(rows)` columns, one cell per row in each. */
  function SplitExpand(rows: seq<Joined>): (frame: Frame)
    ensures |frame| == Width(rows)
    ensures forall c :: 0 <= c < |frame| ==> |frame[c]| == |rows|
    ensures forall c, i :: 0 <= c < |frame| && 0 <= i < |rows| ==> frame[c][i] == CellAt(Tokens(rows[i].categories), c)
  {
    seq(Width(rows), c requires 0 <= c => seq(|rows|, i requires 0 <= i < |rows| => CellAt(Tokens(rows[i].categories), c)))
  }

  /** `categories.iloc[0]`: the first cell of every column. */
  function FirstRow(frame: Frame): (row: seq<Option<string>>)
    requires forall c :: 0 <= c < |frame| ==> |frame[c]| > 0
    ensures |row| == |frame| && forall c :: 0 <= c < |frame| ==> row[c] == frame[c][0]
  {
    seq(|frame|, c requires 0 <= c < |frame| => frame[c][0])
  }

  /**
    `[col.split('-')[0] for col in row]` over row 0 of the split frame: the
    name of every token, or a failure at the first missing cell.
  */
  function ColumnNames(row: seq<Option<string>>): (r: Result<seq<string>, CleanError>)
    ensures r.Ok? <==> forall k :: 0 <= k < |row| ==> row[k].Some?
    ensures r.Ok? ==> |r.value| == |row| && forall k :: 0 <= k < |row| ==> r.value[k] == NameOf(row[k].value)
    ensures r.Err? ==> r.error.MissingName? && r.error.column < |row| && row[r.error.column].None?
    ensures r.Err? ==> forall k :: 0 <= k < r.error.column ==> row[k].Some?
    decreases |row|
  {
    if |row| == 0 then Ok([])
    else
      var n := |row| - 1;
      assert forall k :: 0 <= k < n ==> row[..n][k] == row[k];
      match ColumnNames(row[..n])
      case Err(e) => Err(e)
      case Ok(names) =>
        if row[n].None? then Err(MissingName(n)) else Ok(names + [NameOf(row[n].value)])
  }

  /** The text of the cell parses to a value. */
  predicate Parses(cell: Option<string>) {
    ValueOf(CellText(cell)).Some?
  }

  /** Every cell of the column parses. */
  predicate ColumnParses(column: seq<Option<string>>) {
    forall i :: 0 <= i < |column| ==> Parses(column[i])
  }

  /**
    `pd.to_numeric(column.astype(str).str[-1])`: the value of every cell, or
    the position of the first cell whose text cannot be parsed.
  */
  function ConvertColumn(column: seq<Option<string>>): (r: Result<seq<Score>, nat>)
    ensures r.Ok? ==> |r.value| == |column|
    ensures r.Err? ==> r.error < |column|
    decreases |column|
  {
    if |column| == 0 then Ok([])
    else
      var n := |column| - 1;
      match ConvertColumn(column[..n])
      case Err(e) => Err(e)
      case Ok(values) =>
        match ValueOf(CellText(column[n]))
        case None => Err(n)
        case Some(v) => Ok(values + [v])
  }

  /**
    The conversion of a column succeeds exactly when every cell parses,
    and then holds every cell's value in row order; a failure names the
    first cell that does not parse.
  */
  lemma {:induction false} ConvertColumnMeaning(column: seq<Option<string>>)
    ensures ConvertColumn(column).Ok? <==> ColumnParses(column)
    ensures ConvertColumn(column).Ok? ==>
      forall i :: 0 <= i < |column| ==> ValueOf(CellText(column[i])) == Some(ConvertColumn(column).value[i])
    ensures ConvertColumn(column).Err? ==>
      && !Parses(column[ConvertColumn(column).error])
      && forall i :: 0 <= i < ConvertColumn(column).error ==> Parses(column[i])
    decreases |column|
  {
    if |column| > 0 {
      var n := |column| - 1;
      var init := column[..n];
      ConvertColumnMeaning(init);
      assert forall i :: 0 <= i < n ==> init[i] == column[i];
    }
  }

  /** Every cell of the first `k` columns parses. */
  predicate Converts(frame: Frame, k: nat)
    requires k <= |frame|
  {
    forall c :: 0 <= c < k ==> ColumnParses(frame[c])
  }

  /**
    The coercion loop `for column in categories: ...` run over the first
    `k` columns: the converted columns, or the failure of the first column
    that does not convert.
  */
  function ConvertColumns(frame: Frame, k: nat): (r: Result<seq<seq<Score>>, CleanError>)
    requires k <= |frame|
    ensures r.Ok? ==> |r.value| == k && forall c :: 0 <= c < k ==> |r.value[c]| == |frame[c]|
    decreases k
  {
    if k == 0 then Ok([])
    else
      match ConvertColumns(frame, k - 1)
      case Err(e) => Err(e)
      case Ok(columns) =>
        match ConvertColumn(frame[k - 1])
        case Err(i) => Err(NotNumeric(k - 1, i, CellText(frame[k - 1][i])))
        case Ok(values) => Ok(columns + [values])
  }

  /**
    The loop succeeds exactly when every cell of the converted columns
    parses, and then holds each column's conversion.
  */
  lemma {:induction false} ConvertColumnsOk(frame: Frame, k: nat)
    requires k <= |frame|
    ensures ConvertColumns(frame, k).Ok? <==> Converts(frame, k)
    ensures ConvertColumns(frame, k).Ok? ==>
      forall c :: 0 <= c < k ==> ConvertColumn(frame[c]) == Ok(ConvertColumns(frame, k).value[c])
    decreases k
  {
    if k > 0 {
      ConvertColumnsOk(frame, k - 1);
      ConvertColumnMeaning(frame[k - 1]);
      var prev := ConvertColumns(frame, k - 1);
      if prev.Ok? && ConvertColumn(frame[k - 1]).Ok? {
        var r := prev.value + [ConvertColumn(frame[k - 1]).value];
        forall c | 0 <= c < k
          ensures ConvertColumn(frame[c]) == Ok(r[c])
        {
          if c < k - 1 {
            assert r[c] == prev.value[c];
          }
        }
      }
    }
  }

  /**
    A failure names the first column that does not convert, the first row
    in it whose cell does not parse, and that cell's text.
  */
  lemma {:induction false} ConvertColumnsErr(frame: Frame, k: nat)
    requires k <= |frame|
    requires ConvertColumns(frame, k).Err?
    ensures var e := ConvertColumns(frame, k).error;
      && e.NotNumeric? && e.column < k
      && Converts(frame, e.column)
      && ConvertColumn(frame[e.column]) == Err(e.row)
      && e.text == CellText(frame[e.column][e.row])
    decreases k
  {
    if ConvertColumns(frame, k - 1).Err? {
      ConvertColumnsErr(frame, k - 1);
    } else {
      ConvertColumnsOk(frame, k - 1);
    }
  }

  /** Once a column fails, converting more columns reports the same failure. */
  lemma {:induction false} ConvertColumnsFailureStays(frame: Frame, k: nat, m: nat)
    requires k <= m <= |frame|
    requires ConvertColumns(frame, k).Err?
    ensures ConvertColumns(frame, m) == ConvertColumns(frame, k)
    decreases m
  {
    if k < m {
      ConvertColumnsFailureStays(frame, k, m - 1);
    }
  }

  /**
    `pd.concat([df.drop('categories', axis=1), categories], axis=1)`: each
    merged row without its packed string, followed by its value in every
    category column.
  */
  function Concat(rows: seq<Joined>, columns: seq<seq<Score>>): (r: seq<Cleaned>)
    requires forall c :: 0 <= c < |columns| ==> |columns[c]| == |rows|
    ensures |r| == |rows|
  {
    seq(|rows|, i requires 0 <= i < |rows| =>
      Cleaned(rows[i].id, rows[i].message, rows[i].original, rows[i].genre,
              seq(|columns|, c requires 0 <= c < |columns| => columns[c][i])))
  }

  /** `clean_data(df)` on the merged rows: the cleaned table, or the failure it raises. */
  function CleanRows(rows: seq<Joined>): Result<Table, CleanError> {
    if |rows| == 0 then Err(NoRows)
    else
      var frame := SplitExpand(rows);
      match ColumnNames(FirstRow(frame))
      case Err(e) => Err(e)
      case Ok(names) =>
        match ConvertColumns(frame, |frame|)
        case Err(e) => Err(e)
        case Ok(columns) => Ok(Table(names, DropDuplicates(Concat(rows, columns))))
  }

  /**
    The loop `for column in categories:` as `clean_data` runs it, one column
    at a time, stopping at the first column that does not convert.
  */
  method ConvertAll(categories: Frame) returns (r: Result<seq<seq<Score>>, CleanError>)
    ensures r == ConvertColumns(categories, |categories|)
  {
    var columns: seq<seq<Score>> := [];
    var k := 0;
    while k < |categories|
      invariant 0 <= k <= |categories|
      invariant ConvertColumns(categories, k) == Ok(columns)
    {
      var converted := ConvertColumn(categories[k]);
      if converted.Err? {
        var i := converted.error;
        var e := NotNumeric(k, i, CellText(categories[k][i]));
        ConvertColumnsFailureStays(categories, k + 1, |categories|);
        return Err(e);
      }
      columns := columns + [converted.value];
      k := k + 1;
    }
    r := Ok(columns);
  }

  /**
    `clean_data(df)` step by step: split, name the columns after
    row 0, convert the columns, replace the packed column and drop
    duplicates.
  */
  method CleanData(df: seq<Joined>) returns (r: Result<Table, CleanError>)
    ensures r == CleanRows(df)
  {
    if |df| == 0 {
      return Err(NoRows);
    }
    var categories := SplitExpand(df);
    var names := ColumnNames(FirstRow(categories));
    if names.Err? {
      return Err(names.error);
    }
    var columns := ConvertAll(categories);
    if columns.Err? {
      return Err(columns.error);
    }
    r := Ok(Table(names.value, DropDuplicates(Concat(df, columns.value))));
  }

  // ----- The same cleaning, stated row by row -----

  /** Every row has as many tokens as row 0. */
  predicate Uniform(rows: seq<Joined>)
    requires |rows| > 0
  {
    forall i :: 0 <= i < |rows| ==> |Tokens(rows[i].categories)| == |Tokens(rows[0].categories)|
  }

  /** Every token has a value. */
  predicate TokensParse(tokens: seq<string>) {
    forall k :: 0 <= k < |tokens| ==> ValueOf(tokens[k]).Some?
  }

  /** Every token of the row has a value. */
  predicate RowParses(row: Joined) {
    TokensParse(Tokens(row.categories))
  }

  /** Every token of every row has a value. */
  predicate Parseable(rows: seq<Joined>) {
    forall i :: 0 <= i < |rows| ==> RowParses(rows[i])
  }

  /** The cleaned form of one merged row on its own: its other columns, then its token values in order. */
  function CleanRow(row: Joined): Cleaned
    requires RowParses(row)
  {
    Cleaned(row.id, row.message, row.original, row.genre, ValuesOf(Tokens(row.categories)))
  }

  /** The value of every token, in order. */
  function ValuesOf(tokens: seq<string>): (values: seq<Score>)
    requires TokensParse(tokens)
    ensures |values| == |tokens| && forall k :: 0 <= k < |tokens| ==> Some(values[k]) == ValueOf(tokens[k])
  {
    seq(|tokens|, k requires 0 <= k < |tokens| => ValueOf(tokens[k]).value)
  }

  /** Every merged row cleaned on its own, in order. */
  function CleanEach(rows: seq<Joined>): (r: seq<Cleaned>)
    requires Parseable(rows)
    ensures |r| == |rows| && forall i :: 0 <= i < |rows| ==> r[i] == CleanRow(rows[i])
  {
    seq(|rows|, i requires 0 <= i < |rows| && RowParses(rows[i]) => CleanRow(rows[i]))
  }

  /** The name part of every token, in order. */
  function NamesOf(tokens: seq<string>): (names: seq<string>)
    ensures |names| == |tokens| && forall k :: 0 <= k < |tokens| ==> names[k] == NameOf(tokens[k])
  {
    seq(|tokens|, k requires 0 <= k < |tokens| => NameOf(tokens[k]))
  }
}
