# Disaster response ETL: merging and cleaning the message table

This project models the core of the ETL step of a disaster-response message
classifier (`data/process_data.py`). Two tables go in: messages (`id`,
`message`, `original`, `genre`) and categories (`id`, plus one packed string
such as `related-1;request-0;offer-0`).

- `load_data` inner-joins the two tables on `id`.
- `clean_data` splits the packed string on `;` into one column per token.
- It names each column after the part before `-` of row 0's token.
- It reduces every cell to the number its last character denotes.
- It replaces the packed column with the new columns and drops exact duplicate rows.

The model is written in Dafny.

- `wrappers.dfy` (`Wrappers`): `Option` (a cell that may be missing) and `Result` (a value or the error `clean_data` raises).
- `text.dfy` (`Text`): `str.split` with a one-character separator, and its inverse, `sep.join`.
- `dedup.dfy` (`Dedup`): `drop_duplicates()` with pandas' default `keep='first'`.
- `load.dfy` (`Load`): the message, category and merged records, and the inner join.
- `clean.dfy` (`Clean`):
  - `clean_data` as a function, `CleanRows`.
  - The same as a method, `CleanData`. It converts the columns one by one in a loop, `ConvertAll`, and is proved equal to `CleanRows`.
  - A row-by-row reference, `CleanRow`.
- `clean_facts.dfy` (`CleanFacts`): what `CleanRows` computes, stated row by row. It covers when it succeeds, the names, the rows and the values, a worked example, and the error cases.

The pandas steps follow how pandas treats the frames this code builds:

- `str.split(';', expand=True)` makes as many columns as the row with the most tokens. Shorter rows get missing cells.
- `iloc[0]` of an empty frame raises (`NoRows`).
- Naming a column whose row-0 cell is missing raises (`MissingName`), because a missing cell has no `split`.
- `astype(str)` turns a missing cell into the text `None`. Its last character `e` makes `pd.to_numeric` raise (`NotNumeric`).
- `str[-1]` of an empty token is NaN, and `pd.to_numeric` keeps NaN.
- A last character that is a decimal digit becomes that digit, whatever its value. Any other last character makes `pd.to_numeric` raise.

When no two of row 0's tokens share a name part, `clean_data` succeeds exactly when these three things hold:

- there is a row;
- every row has as many tokens as row 0;
- every token ends in a digit or is empty.

A row whose token count differs from row 0's makes `clean_data` raise. A longer row breaks the naming step, because row 0 has a missing cell in that column. A shorter row gets a missing cell that reads "None" and fails `to_numeric`. No row is padded through or misaligned.

`drop_duplicates` compares the cleaned rows, not the merged ones. Two merged rows that differ only in the name parts of their tokens, such as `a-1` and `b-1` with the rest equal, clean to one row (`CleanFacts.NamePartsCollapse`). So a table without duplicate rows can lose rows; it keeps them all exactly when no two of its rows clean alike (`CleanFacts.CleanRowsKeepsDistinct`).

`clean_data` keeps any digit, so `related-2` becomes 2, although its docstring speaks of binary values. The model follows the code (`CleanFacts.NotClamped`).

## Model

| member | source | states |
|---|---|---|
| Text.SplitOn | data/process_data.py:37 | splitting on `;` gives one token more than there are separators, no token holds the separator, and joining the tokens with the separator gives the input back |
| Text.SplitOnJoinWith | data/process_data.py:37 | splitting the joined separator-free tokens gives the tokens back |
| Text.JoinWithInjective | data/process_data.py:37 | two lists of separator-free tokens that join to the same string are equal |
| Load.Merge | data/process_data.py:19 | no contract of its own: the merged row of a message and a category row with the same id, stated by `Load.InnerJoinSound` and `Load.InnerJoinComplete` |
| Load.MatchesOf | data/process_data.py:19 | one message's side of the join: every category row with its id, merged, in table order; stated by `Load.MatchesOfMultiplicity` and `Load.MatchesOfLength` |
| Load.InnerJoin | data/process_data.py:19 | no contract of its own: `messages.merge(categories, how='inner', on='id')`, stated by `Load.InnerJoinMultiplicity`, `Load.InnerJoinLength`, `Load.InnerJoinComplete` and `Load.InnerJoinSound` |
| Clean.ValueOf | data/process_data.py:48-49 | no contract of its own: `pd.to_numeric` of a cell's last character, stated by `Clean.ValueOfMeaning` |
| Clean.CellText | data/process_data.py:48 | no contract of its own: `astype(str)` of a split cell, the token itself or the text `None` for a missing cell; stated by `CleanFacts.MissingCellFails` |
| Clean.SplitExpand | data/process_data.py:37 | `str.split(';', expand=True)`: as many columns as the widest row, one cell per row, holding that row's token in that column or a missing cell |
| Clean.FirstRow | data/process_data.py:40 | `categories.iloc[0]`: one cell per column, the cell of row 0 |
| Clean.ConvertColumn | data/process_data.py:48-49 | a successful conversion has one value per cell; a failure names a row of the column; stated in full by `Clean.ConvertColumnMeaning` |
| Clean.ConvertColumns | data/process_data.py:47-49 | a successful conversion of the first k columns holds k columns of their lengths; stated in full by `Clean.ConvertColumnsOk` and `Clean.ConvertColumnsErr` |
| Clean.Concat | data/process_data.py:52-53 | `drop('categories')` then `concat` on the columns: one row per merged row; stated in full by `CleanFacts.ConcatRow` and `CleanFacts.ConcatIsCleanRow` |
| Clean.CleanRows | data/process_data.py:37-56 | no contract of its own: `clean_data` as a function, stated by `CleanFacts.CleanRowsSucceeds` and `CleanFacts.CleanRowsResult` and implemented by `Clean.CleanData` |
| Clean.NameOf | data/process_data.py:41 | `token.split('-')[0]` is a prefix of the token without `-`, and is followed by `-` whenever it is shorter than the token |
| Clean.NameOfUnique | data/process_data.py:41 | those three properties determine the name completely |
| Clean.ValueOfMeaning | data/process_data.py:48-49 | `str[-1]` then `to_numeric`: NaN for an empty token; a failure exactly when the last character is not a decimal digit; otherwise a digit 0..9 that writes back as that last character |
| Clean.Width | data/process_data.py:37 | the split frame is as wide as the longest row: no row has more tokens, and (when there are rows) some row has exactly that many |
| Clean.ColumnNames | data/process_data.py:40-41 | naming row 0 succeeds exactly when none of its cells is missing, and then gives the name part of every cell in order; otherwise it fails at the first missing cell |
| Clean.ConvertColumnMeaning | data/process_data.py:48-49 | one column converts exactly when every cell's text parses, and then holds each cell's value in row order; a failure names the first cell that does not parse |
| Clean.ConvertColumnsOk | data/process_data.py:47-49 | the loop over the columns succeeds exactly when every cell of every column parses, and then holds each column's conversion |
| Clean.ConvertColumnsErr | data/process_data.py:47-49 | a failure of the loop names the first column that does not convert, every earlier column converts, and the failure also names the first failing row and that cell's text |
| Clean.ConvertColumnsFailureStays | data/process_data.py:47-49 | once a column fails, later columns do not change the failure |
| Clean.ConvertAll | data/process_data.py:47-49 | the column-by-column loop computes the conversion of all columns, and stops at the first failure |
| Clean.CleanData | data/process_data.py:37-58 | the step-by-step `clean_data` returns exactly what `CleanRows` specifies, including each error |
| CleanFacts.MissingCellFails | data/process_data.py:48-49 | a missing cell, read as the text "None", makes `to_numeric` fail |
| CleanFacts.ParsesCell | data/process_data.py:37 | a cell of the split frame parses exactly when its row has a token in that column and that token parses |
| CleanFacts.ColumnNamesOk | data/process_data.py:37-41 | row 0 names every column exactly when no row has more tokens than row 0 |
| CleanFacts.CleanRowsOkOnlyIf | data/process_data.py:37-56 | a successful cleaning implies rows exist, every row has row 0's token count, and every token parses |
| CleanFacts.CleanRowsOkIf | data/process_data.py:37-56 | non-empty, uniform rows whose tokens all parse clean successfully (when no two row-0 tokens share a name part) |
| CleanFacts.CleanRowsSucceeds | data/process_data.py:37-56 | when no two row-0 tokens share a name part, `clean_data` succeeds if and only if rows exist, every row has as many tokens as row 0, and every token parses (the model, treating columns by position, also succeeds when two names coincide) |
| CleanFacts.LongerRowFails | data/process_data.py:37-41 | a row with more tokens than row 0 makes naming raise at the first column row 0 lacks |
| CleanFacts.NonDigitFails | data/process_data.py:48-49 | a non-empty token whose last character is not a decimal digit makes `clean_data` raise |
| CleanFacts.ConvertedCell | data/process_data.py:47-49 | after a successful conversion, the cell in column c of row i holds the value of row i's token c |
| CleanFacts.ConvertedRow | data/process_data.py:47-49 | the same for every token of one row |
| CleanFacts.ConcatRow | data/process_data.py:52-53 | after `drop` and `concat`, row i keeps its id, message, original and genre, loses the packed string, and gains the values of its own tokens in column order |
| CleanFacts.ConcatIsCleanRow | data/process_data.py:52-53 | the concatenated frame is the merged rows, each cleaned on its own, in input order |
| CleanFacts.CleanRowsResult | data/process_data.py:40-56 | on success, there is one name per token of row 0, each name is the part before `-` of that token, in order, and the rows are the duplicate-free form of the rows cleaned one by one |
| CleanFacts.NamesFromFirstRowOnly | data/process_data.py:40-41 | two inputs whose row 0 has the same packed string get the same column names, whatever their other rows hold |
| CleanFacts.DedupCleaned | data/process_data.py:56 | dropping duplicates from the cleaned rows gives distinct rows, no more of them than there are inputs; every cleaned input row is among them, and each of them is a cleaned input row |
| CleanFacts.CleanRowsRows | data/process_data.py:56 | the rows of a successful cleaning are distinct, no more numerous than the merged rows, include every cleaned merged row, and hold nothing else |
| CleanFacts.CleanRowsKeepsDistinct | data/process_data.py:52-56 | for non-empty, uniform rows whose tokens all parse, and no two of which clean to the same row, cleaning succeeds (when no two row-0 tokens share a name part) and keeps every row, in input order, so the row count is unchanged |
| CleanFacts.OneToken | data/process_data.py:37 | a packed string without `;` splits into that string alone |
| CleanFacts.EqualCleanRowsCollapse | data/process_data.py:52-56 | two merged rows with as many tokens, all parsing, whose cleaned forms are equal clean to a single row (when no two row-0 tokens share a name part) |
| CleanFacts.NamePartsCollapse | data/process_data.py:41-56 | the distinct merged rows with tokens `a-1` and `b-1` and otherwise equal clean to the one row with value 1 in column `a` |
| CleanFacts.CleanRowValue | data/process_data.py:48-49 | every value of a cleaned row is the digit its token ends with, writing back as that character, or NaN for an empty token |
| CleanFacts.NotClamped | data/process_data.py:46-49 | `related-2` becomes the value 2, not clamped to 0 or 1, in a column named `related` |
| CleanFacts.TwoTokens | data/process_data.py:37 | a packed string made of two separator-free tokens splits into exactly those two tokens |
| CleanFacts.SingleRow | data/process_data.py:37-58 | a single row whose tokens all parse cleans to that row alone, with columns named after its own tokens (when no two row-0 tokens share a name part) |
| CleanFacts.JoinOneThenClean | data/process_data.py:19 | a message and a category row with the same id join into one merged row, which then cleans on its own (when no two row-0 tokens share a name part) |
| CleanFacts.ExampleHelp | data/process_data.py:37-58 | the message `help` (id 1, genre `direct`) joined with `related-1;request-0` cleans to one row with columns `related` and `request` holding 1 and 0 |
| Dedup.FirstIndex | data/process_data.py:56 | the position of the first occurrence of a value |
| Dedup.DropDuplicates | data/process_data.py:56 | the result has no two equal rows, keeps every input row's value, holds nothing that was not in the input, and is no longer than the input |
| Dedup.DropDuplicatesOrder | data/process_data.py:56 | the surviving rows appear in the order of their first occurrences |
| Dedup.FirstOccurrences | data/process_data.py:56 | the positions that hold the first occurrence of their value, all of them, in increasing order |
| Dedup.DropDuplicatesKeepsFirst | data/process_data.py:56 | the result is exactly the rows at the first-occurrence positions, in order (`keep='first'`) |
| Dedup.DropDuplicatesOfDistinct | data/process_data.py:56 | a table without duplicates is left unchanged |
| Dedup.DropDuplicatesIdempotent | data/process_data.py:56 | dropping duplicates twice is the same as dropping them once |
| Load.MatchesOfMultiplicity | data/process_data.py:19 | the merged rows of one message contain each row once per matching category row that merges into it |
| Load.MatchesOfLength | data/process_data.py:19 | one message yields one merged row per category row with its id |
| Load.InnerJoinMultiplicity | data/process_data.py:19 | each row occurs in the join exactly as many times as there are (message, category) pairs with equal ids that merge into it |
| Load.InnerJoinLength | data/process_data.py:19 | the join has exactly as many rows as there are pairs of rows with equal ids |
| Load.InnerJoinComplete | data/process_data.py:19 | every pair of rows with equal ids shows up in the join |
| Load.InnerJoinSound | data/process_data.py:19 | every joined row is the merge of a message row and a category row that share its id, so that id occurs in both tables |

## Left out

- `pd.read_csv` (lines 17-18), `save_data` and its SQLite write (lines 61-70), and `main` with its `sys.argv` handling and `print` calls are file and database I/O. The model starts from the two tables as values and ends with the cleaned table.
- `original` is modelled as `Option<string>`, with `None` for a missing (NaN) cell. `drop_duplicates` treats two NaNs as equal, and so does `None == None`. `id`, `message` and `genre` are assumed never to be NaN, and a NaN in them is not represented.
- The `categories` column is assumed never to be NaN. A NaN packed string would make `str.split` give NaN rather than tokens, and this model does not represent it.
- Duplicate column names: when row 0 has two tokens with the same name part, pandas gives the frame two columns with one label. Then `categories[column]` at line 48 is a two-column frame, which has no `.str` accessor, so `clean_data` raises. The model treats the columns by position and succeeds on such input: it does not model this error.
- CleanFacts.CleanRowsSucceeds: the if-and-only-if is proved of the model. For the source it holds only when no two row-0 tokens share a name part, for the reason on the line above. The same limit applies to the success claims of `CleanFacts.CleanRowsOkIf`, `CleanFacts.CleanRowsKeepsDistinct`, `CleanFacts.EqualCleanRowsCollapse`, `CleanFacts.SingleRow` and `CleanFacts.JoinOneThenClean`.
- Pandas dtypes: the model does not distinguish an integer column from a float column holding NaN. Values are `Digit(n)` or `NaN`.
- Only the ASCII characters `0` to `9` count as digits. Other Unicode decimal digits and the float-like single characters `pd.to_numeric` might accept are not modelled.
- The row order of the join is fixed as: messages in table order, each followed by its matching category rows in table order. The row order of pandas' `merge` is not otherwise pinned down.
- Floating point and the pandas index (`concat` aligns on the index, and the merge gives a fresh default index) are not modelled. The rows are aligned by position.
