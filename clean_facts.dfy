/**
  What `clean_data` computes, stated row by row: when it succeeds, when it
  raises, which names the columns get and which rows come out.
*/
module CleanFacts {
  import opened Wrappers
  import opened Text
  import opened Dedup
  import opened Load
  import opened Clean

  /** The text "None" that `astype(str)` gives a missing cell does not end in a digit. */
  lemma {:induction false} MissingCellFails()
    ensures !Parses(None)
  {
    assert CellText(None)[|CellText(None)| - 1] == 'e';
  }

  /** The cell of row `i` in column `c` of the split frame has a value exactly when row `i` has a token there that has one. */
  lemma {:induction false} ParsesCell(rows: seq<Joined>, c: nat, i: nat)
    requires c < Width(rows) && i < |rows|
    ensures Parses(SplitExpand(rows)[c][i]) <==>
      c < |Tokens(rows[i].categories)| && ValueOf(Tokens(rows[i].categories)[c]).Some?
  {
    MissingCellFails();
  }

  /** Row 0 names every column exactly when no row has more tokens than row 0. */
  lemma {:induction false} ColumnNamesOk(rows: seq<Joined>)
    requires |rows| > 0
    ensures ColumnNames(FirstRow(SplitExpand(rows))).Ok? <==> |Tokens(rows[0].categories)| == Width(rows)
  {
    var t0 := Tokens(rows[0].categories);
    if |t0| < Width(rows) {
      assert FirstRow(SplitExpand(rows))[|t0|].None?;
    }
  }

  /** A successful cleaning means uniform rows whose tokens all have values. */
  lemma {:induction false} CleanRowsOkOnlyIf(rows: seq<Joined>)
    requires CleanRows(rows).Ok?
    ensures |rows| > 0 && Uniform(rows) && Parseable(rows)
  {
    var frame := SplitExpand(rows);
    var w := |frame|;
    var t0 := Tokens(rows[0].categories);
    ColumnNamesOk(rows);
    ConvertColumnsOk(frame, w);
    assert w > 0 by { assert |t0| >= 1; }
    forall i | 0 <= i < |rows|
      ensures |Tokens(rows[i].categories)| == |t0| && RowParses(rows[i])
    {
      assert ColumnParses(frame[w - 1]);
      ParsesCell(rows, w - 1, i);
      forall k | 0 <= k < |Tokens(rows[i].categories)|
        ensures ValueOf(Tokens(rows[i].categories)[k]).Some?
      {
        assert ColumnParses(frame[k]);
        ParsesCell(rows, k, i);
      }
    }
  }

  /** Uniform rows whose tokens all have values clean successfully. */
  lemma {:induction false} CleanRowsOkIf(rows: seq<Joined>)
    requires |rows| > 0 && Uniform(rows) && Parseable(rows)
    ensures CleanRows(rows).Ok?
  {
    var frame := SplitExpand(rows);
    var w := |frame|;
    var j :| 0 <= j < |rows| && |Tokens(rows[j].categories)| == w;
    ColumnNamesOk(rows);
    ConvertColumnsOk(frame, w);
    forall c | 0 <= c < w
      ensures ColumnParses(frame[c])
    {
      forall i | 0 <= i < |frame[c]|
        ensures Parses(frame[c][i])
      {
        assert RowParses(rows[i]);
        ParsesCell(rows, c, i);
      }
    }
    assert Converts(frame, w);
  }

  /**
    `clean_data` succeeds exactly when there is at least one row, every row
    has as many tokens as row 0, and every token of every row ends in a
    decimal digit or is empty.
  */
  lemma {:induction false} CleanRowsSucceeds(rows: seq<Joined>)
    ensures CleanRows(rows).Ok? <==> |rows| > 0 && Uniform(rows) && Parseable(rows)
  {
    if CleanRows(rows).Ok? {
      CleanRowsOkOnlyIf(rows);
    }
    if |rows| > 0 && Uniform(rows) && Parseable(rows) {
      CleanRowsOkIf(rows);
    }
  }

  /** In a successful cleaning, the value in column `c` of row `i` is the value of row `i`'s token `c`. */
  lemma {:induction false} ConvertedCell(rows: seq<Joined>, columns: seq<seq<Score>>, c: nat, i: nat)
    requires ConvertColumns(SplitExpand(rows), Width(rows)) == Ok(columns)
    requires c < Width(rows) && i < |rows| && c < |Tokens(rows[i].categories)|
    ensures ValueOf(Tokens(rows[i].categories)[c]) == Some(columns[c][i])
  {
    var frame := SplitExpand(rows);
    ConvertColumnsOk(frame, |frame|);
    ConvertColumnMeaning(frame[c]);
    assert frame[c][i] == Some(Tokens(rows[i].categories)[c]);
  }

  /** In a successful conversion, column `c` of row `i` holds the value of row `i`'s token `c`, for every token. */
  lemma {:induction false} ConvertedRow(rows: seq<Joined>, columns: seq<seq<Score>>, i: nat)
    requires ConvertColumns(SplitExpand(rows), Width(rows)) == Ok(columns)
    requires i < |rows|
    ensures forall c :: 0 <= c < |Tokens(rows[i].categories)| ==>
      ValueOf(Tokens(rows[i].categories)[c]) == Some(columns[c][i])
  {
    forall c | 0 <= c < |Tokens(rows[i].categories)|
      ensures ValueOf(Tokens(rows[i].categories)[c]) == Some(columns[c][i])
    {
      ConvertedCell(rows, columns, c, i);
    }
  }

  /** In a successful conversion, concatenated row `i` is row `i` cleaned on its own. */
  lemma {:induction false} ConcatRow(rows: seq<Joined>, columns: seq<seq<Score>>, i: nat)
    requires ConvertColumns(SplitExpand(rows), Width(rows)) == Ok(columns)
    requires i < |rows| && |Tokens(rows[i].categories)| == Width(rows) && RowParses(rows[i])
    ensures Concat(rows, columns)[i] == CleanRow(rows[i])
  {
    ConvertedRow(rows, columns, i);
    assert Concat(rows, columns)[i].values == CleanRow(rows[i]).values;
  }

  /** The concatenated columns of a successful cleaning are the rows cleaned one by one. */
  lemma {:induction false} ConcatIsCleanRow(rows: seq<Joined>)
    requires CleanRows(rows).Ok?
    ensures Parseable(rows)
    ensures Concat(rows, ConvertColumns(SplitExpand(rows), Width(rows)).value)
         == CleanEach(rows)
  {
    CleanRowsOkOnlyIf(rows);
    ColumnNamesOk(rows);
    var columns := ConvertColumns(SplitExpand(rows), Width(rows)).value;
    forall i | 0 <= i < |rows|
      ensures Concat(rows, columns)[i] == CleanRow(rows[i])
    {
      ConcatRow(rows, columns, i);
    }
  }

  /**
    A successful cleaning names the category columns after the name parts
    of row 0's tokens, in order, and holds every row cleaned on its own
    with duplicates dropped.
  */
  lemma {:induction false} CleanRowsResult(rows: seq<Joined>)
    requires CleanRows(rows).Ok?
    ensures Parseable(rows)
    ensures var names := CleanRows(rows).value.names;
      var t0 := Tokens(rows[0].categories);
      |names| == |t0| && forall k :: 0 <= k < |t0| ==> names[k] == NameOf(t0[k])
    ensures CleanRows(rows).value.rows
         == DropDuplicates(CleanEach(rows))
  {
    ConcatIsCleanRow(rows);
    ColumnNamesOk(rows);
  }

  /** A token whose last character is not a decimal digit makes `clean_data` raise. */
  lemma {:induction false} NonDigitFails(rows: seq<Joined>, i: nat, k: nat)
    requires i < |rows| && k < |Tokens(rows[i].categories)|
    requires var token := Tokens(rows[i].categories)[k];
      |token| > 0 && !('0' <= token[|token| - 1] <= '9')
    ensures CleanRows(rows).Err?
  {
    CleanRowsSucceeds(rows);
    ValueOfMeaning(Tokens(rows[i].categories)[k]);
  }

  /**
    A row with more tokens than row 0 leaves a missing cell in row 0 of the
    split frame, and naming that column raises.
  */
  lemma {:induction false} LongerRowFails(rows: seq<Joined>, j: nat)
    requires j < |rows| && |Tokens(rows[j].categories)| > |Tokens(rows[0].categories)|
    ensures CleanRows(rows) == Err(MissingName(|Tokens(rows[0].categories)|))
  {
    var t0 := Tokens(rows[0].categories);
    var frame := SplitExpand(rows);
    var row := FirstRow(frame);
    assert |t0| < |row|;
    forall c | 0 <= c < |row|
      ensures row[c] == CellAt(t0, c)
    {
      assert row[c] == frame[c][0];
    }
    var names := ColumnNames(row);
    assert names.Err? && names.error.column == |t0| by {
      assert row[|t0|].None?;
      if names.Err? {
        assert row[names.error.column].None?;
      }
    }
  }

  /** The names of the category columns depend on row 0 and on nothing else. */
  lemma {:induction false} NamesFromFirstRowOnly(rows: seq<Joined>, others: seq<Joined>)
    requires CleanRows(rows).Ok? && CleanRows(others).Ok?
    requires rows[0].categories == others[0].categories
    ensures CleanRows(rows).value.names == CleanRows(others).value.names
  {
    CleanRowsResult(rows);
    CleanRowsResult(others);
  }

  /** Dropping duplicates from the rows cleaned one by one keeps one copy of each. */
  lemma {:induction false} DedupCleaned(rows: seq<Joined>)
    requires Parseable(rows)
    ensures var out := DropDuplicates(CleanEach(rows));
      && Distinct(out) && |out| <= |rows|
      && (forall i :: 0 <= i < |rows| ==> CleanRow(rows[i]) in out)
      && (forall k :: 0 <= k < |out| ==> exists i :: 0 <= i < |rows| && out[k] == CleanRow(rows[i]))
  {
    var cleaned := CleanEach(rows);
    var out := DropDuplicates(cleaned);
    forall k | 0 <= k < |out|
      ensures exists i :: 0 <= i < |rows| && out[k] == CleanRow(rows[i])
    {
      var i :| 0 <= i < |cleaned| && cleaned[i] == out[k];
    }
    forall i | 0 <= i < |rows|
      ensures CleanRow(rows[i]) in out
    {
      assert cleaned[i] == CleanRow(rows[i]);
    }
  }

  /**
    The rows of a successful cleaning are the merged rows cleaned one by
    one: each cleaned merged row is among them, each of them is a cleaned
    merged row, no two are equal, and there are no more of them than merged
    rows.
  */
  lemma {:induction false} CleanRowsRows(rows: seq<Joined>)
    requires CleanRows(rows).Ok?
    ensures Parseable(rows)
    ensures var out := CleanRows(rows).value.rows;
      && Distinct(out) && |out| <= |rows|
      && (forall i :: 0 <= i < |rows| ==> CleanRow(rows[i]) in out)
      && (forall k :: 0 <= k < |out| ==> exists i :: 0 <= i < |rows| && out[k] == CleanRow(rows[i]))
  {
    CleanRowsResult(rows);
    DedupCleaned(rows);
  }

  /**
    When no two merged rows clean to the same row, cleaning keeps every one
    of them, in input order: only rows that clean alike are dropped.
  */
  lemma {:induction false} CleanRowsKeepsDistinct(rows: seq<Joined>)
    requires |rows| > 0 && Uniform(rows) && Parseable(rows)
    requires Distinct(CleanEach(rows))
    ensures CleanRows(rows).Ok?
    ensures CleanRows(rows).value.rows == CleanEach(rows)
    ensures |CleanRows(rows).value.rows| == |rows|
  {
    CleanRowsOkIf(rows);
    CleanRowsResult(rows);
    DropDuplicatesOfDistinct(CleanEach(rows));
  }

  /** A packed string without a separator is a single token. */
  lemma {:induction false} OneToken(s: string)
    requires ';' !in s
    ensures Tokens(s) == [s]
  {
    SplitOnJoinWith([s], ';');
  }

  /**
    Two merged rows with as many tokens, whose cleaned forms are equal,
    clean to one row: `drop_duplicates` compares the cleaned rows, not the
    merged ones.
  */
  lemma {:induction false} EqualCleanRowsCollapse(a: Joined, b: Joined)
    requires RowParses(a) && RowParses(b)
    requires |Tokens(a.categories)| == |Tokens(b.categories)|
    requires CleanRow(a) == CleanRow(b)
    ensures CleanRows([a, b]) == Ok(Table(NamesOf(Tokens(a.categories)), [CleanRow(a)]))
  {
    var rows := [a, b];
    assert Uniform(rows) && Parseable(rows);
    CleanRowsOkIf(rows);
    CleanRowsResult(rows);
    assert CleanRows(rows).value.names == NamesOf(Tokens(a.categories));
    var x := CleanRow(a);
    assert CleanEach(rows) == [x, x];
    assert DropDuplicates([x, x]) == [x] by {
      assert [x, x][..1] == [x];
      assert [x][..0] == [];
    }
  }

  /**
    Two distinct merged rows that differ only in the name parts of their
    tokens, `a-1` and `b-1`, clean to a single row: a table without
    duplicate rows can lose rows in cleaning.
  */
  lemma {:induction false} NamePartsCollapse(a: Joined, b: Joined)
    requires a == Joined(1, "m", None, "g", "a-1")
    requires b == Joined(1, "m", None, "g", "b-1")
    ensures a != b
    ensures CleanRows([a, b]) == Ok(Table(["a"], [Cleaned(1, "m", None, "g", [Digit(1)])]))
  {
    assert a.categories[0] != b.categories[0];
    OneToken(a.categories);
    OneToken(b.categories);
    NameOfUnique(a.categories, "a");
    assert NamesOf([a.categories]) == ["a"];
    assert ValuesOf([a.categories]) == [Digit(1)];
    assert ValuesOf([b.categories]) == [Digit(1)];
    EqualCleanRowsCollapse(a, b);
  }

  /**
    Each category value of a cleaned row is the decimal digit its token
    ends in, whatever that digit is, or NaN for an empty token.
  */
  lemma {:induction false} CleanRowValue(row: Joined, k: nat)
    requires RowParses(row) && k < |Tokens(row.categories)|
    ensures var token := Tokens(row.categories)[k];
      var v := CleanRow(row).values[k];
      && (|token| == 0 ==> v == NaN)
      && (|token| > 0 ==> v.Digit? && v.n <= 9 && DigitChar(v.n) == token[|token| - 1])
  {
    ValueOfMeaning(Tokens(row.categories)[k]);
  }

  /** A value of 2 is kept as 2: a category cell is not clamped to 0 or 1. */
  lemma {:induction false} NotClamped()
    ensures ValueOf("related-2") == Some(Digit(2))
    ensures NameOf("related-2") == "related"
  {
    NameOfUnique("related-2", "related");
  }

  /** The tokens of a packed categories string with two tokens. */
  lemma {:induction false} TwoTokens(a: string, b: string)
    requires ';' !in a && ';' !in b
    ensures Tokens(a + ";" + b) == [a, b]
  {
    assert JoinWith([a, b], ';') == a + ";" + b by {
      assert [a, b][1..] == [b];
    }
    SplitOnJoinWith([a, b], ';');
  }

  /** A single merged row whose tokens all have values cleans to itself, named after its own tokens. */
  lemma {:induction false} SingleRow(row: Joined)
    requires RowParses(row)
    ensures CleanRows([row]) == Ok(Table(NamesOf(Tokens(row.categories)), [CleanRow(row)]))
  {
    assert Uniform([row]) && Parseable([row]);
    CleanRowsOkIf([row]);
    CleanRowsResult([row]);
    assert CleanRows([row]).value.names == NamesOf(Tokens(row.categories));
    assert CleanEach([row]) == [CleanRow(row)];
    assert DropDuplicates([CleanRow(row)]) == [CleanRow(row)] by {
      assert [CleanRow(row)][..0] == [];
    }
  }

  /** The categories string of the example row, put together from its two tokens. */
  lemma {:induction false} ExampleJoined()
    ensures "related-1" + ";" + "request-0" == "related-1;request-0"
  {
  }

  /** The tokens of the categories string of the example row. */
  lemma {:induction false} ExampleTokens()
    ensures Tokens("related-1;request-0") == ["related-1", "request-0"]
  {
    ExampleJoined();
    TwoTokens("related-1", "request-0");
  }

  /** The name of the first token of the example row. */
  lemma {:induction false} ExampleFirstName()
    ensures NameOf("related-1") == "related"
  {
    NameOfUnique("related-1", "related");
  }

  /** The name of the second token of the example row. */
  lemma {:induction false} ExampleSecondName()
    ensures NameOf("request-0") == "request"
  {
    NameOfUnique("request-0", "request");
  }

  /** A message and a categories row with the same id join to one merged row, which cleans on its own. */
  lemma {:induction false} JoinOneThenClean(m: Message, c: Categories)
    requires m.id == c.id && RowParses(Merge(m, c))
    ensures CleanRows(InnerJoin([m], [c])) == Ok(Table(NamesOf(Tokens(c.categories)), [CleanRow(Merge(m, c))]))
  {
    var ms := [m];
    var cs := [c];
    assert InnerJoin(ms, cs) == [Merge(m, c)] by {
      assert ms[..0] == [] && cs[..0] == [];
      assert MatchesOf(m, cs) == [Merge(m, c)];
      assert InnerJoin(ms[..0], cs) == [];
    }
    SingleRow(Merge(m, c));
  }

  /** The values of the tokens of the example row. */
  lemma {:induction false} ExampleValues()
    ensures TokensParse(["related-1", "request-0"])
    ensures ValuesOf(["related-1", "request-0"]) == [Digit(1), Digit(0)]
  {
    var tokens := ["related-1", "request-0"];
    assert ValueOf(tokens[0]) == Some(Digit(1));
    assert ValueOf(tokens[1]) == Some(Digit(0));
  }

  /** The names of two tokens. */
  lemma {:induction false} NamesOfTwo(a: string, b: string)
    ensures NamesOf([a, b]) == [NameOf(a), NameOf(b)]
  {
  }

  /** The example tokens name the columns `related` and `request`. */
  lemma {:induction false} ExampleColumnNames(tokens: seq<string>)
    requires tokens == ["related-1", "request-0"]
    ensures NamesOf(tokens) == ["related", "request"]
  {
    NamesOfTwo("related-1", "request-0");
    ExampleFirstName();
    ExampleSecondName();
  }

  /** The example merged row cleans to the values 1 and 0. */
  lemma {:induction false} ExampleCleanRow(m: Message, c: Categories)
    requires m == Message(1, "help", None, "direct")
    requires c == Categories(1, "related-1;request-0")
    ensures RowParses(Merge(m, c))
    ensures CleanRow(Merge(m, c)) == Cleaned(1, "help", None, "direct", [Digit(1), Digit(0)])
  {
    ExampleTokens();
    ExampleValues();
  }

  /**
    One message and its categories row: the join pairs them, and cleaning
    names the columns `related` and `request` and gives the values 1 and 0.
  */
  lemma {:induction false} ExampleHelp(m: Message, c: Categories)
    requires m == Message(1, "help", None, "direct")
    requires c == Categories(1, "related-1;request-0")
    ensures CleanRows(InnerJoin([m], [c]))
      == Ok(Table(["related", "request"], [Cleaned(1, "help", None, "direct", [Digit(1), Digit(0)])]))
  {
    ExampleTokens();
    ExampleColumnNames(Tokens(c.categories));
    ExampleCleanRow(m, c);
    JoinOneThenClean(m, c);
  }
}
