# Sales-report pipeline, modelled in Dafny

This project models the data pipeline behind a sales dashboard. The dashboard takes a CSV of sales.
It renames the headers to five canonical Portuguese column names (`Data`, `Produto`, `Quantidade`,
`Preço Unitário`, `Total de Vendas`) using a fixed synonym table. It then validates the table:
numbers are coerced and missing ones become 0, duplicate rows are dropped, rows without a positive
quantity are dropped, and the table is rejected as a whole if any kept row has unit price ×
quantity ≠ total. From the validated rows it derives the best-selling product, the most profitable
product, the average ticket and date-range selections.

Layout, one module per file:

- `wrappers.dfy` (`Wrappers`): `Option` and `Result`. `None` stands for NaN or a pandas exception; `Failure` stands for a raised error.
- `seqs.dfy` (`Seqs`): `DropDuplicates` (pandas `drop_duplicates`, keep first), `Distinct` and `Subsequence`.
- `text.dfy` (`Text`): Python's `str` ordering (`StrLe`), used by the sorted group index, and `str.join`.
- `table.dfy` (`Table`): the canonical names, the error kinds and their messages, and `Timestamp` and `Row`. It also holds two classes. `Frame` is the loaded table (headers and text cells). `SalesFrame` is the validated table, whose date column has a dtype (`dateKind`).
- `columns.dfy` (`Columns`): `COLUMN_MAPPING` and `normalize_column_names`. The nested loop that fills the corrections dictionary is a method with loop invariants. The in-place rename is a method that modifies the `Frame`.
- `validation.dfy` (`Validation`): `validations`. It is a method that runs the source's steps in order and is proved equal to the pure function `Validated`. Lemmas state what a validated table satisfies.
- `aggregation.dfy` (`Aggregation`): `get_best_selling_product`, `get_best_profitable_product` and `get_avarage_ticket`, as functions over `seq<Row>`.
- `date_filter.dfy` (`DateFilter`): `filter_by_date` as written (it overwrites the caller's date column) and a corrected filter that works on a copy.

Three behaviours of the code are easy to get wrong; the model follows the code.

- On an empty table, `get_avarage_ticket` divides a NumPy zero by zero. That gives NaN, not a division-by-zero exception (data_processing.py:158-161). `AverageTicket` returns `None` there.
- The best-product tie-break is not left open. `groupby` sorts its keys and `idxmax` returns the first maximum, so among tied products the one that sorts first wins (data_processing.py:99-107). For a product column of text, that is Python string order, which the model uses. A column pandas reads as numbers sorts numerically instead; see Left out.
- Filtering is not free of side effects. `filter_by_date` overwrites the caller's date column (data_processing.py:145); see Findings.

## Model

| member | source | states |
|---|---|---|
| `Columns.MappingShape` | data_processing.py:14-20 | The table has five entries in the order Data, Produto, Quantidade, Preço Unitário, Total de Vendas. Each canonical name is in its own synonym list, and the names are pairwise distinct. |
| `Columns.MappingDisjoint` | data_processing.py:14-20 | No header spelling is listed under two canonical names. |
| `Columns.BuildCorrections` | data_processing.py:30-37 | The nested loop produces a dictionary whose keys are exactly the headers that some synonym list accepts. Each key maps to the canonical name of the last list accepting it, because later iterations overwrite earlier entries. |
| `Columns.Lookup` | data_processing.py:34-37 | Definition: the canonical name the loop settles on for a header. That is the name of the last table entry whose list accepts it, or none. Its properties are stated by `Columns.LookupSound`, `Columns.LookupComplete` and `Columns.LookupNone`. |
| `Columns.CanonicalName` | data_processing.py:34-40 | Definition: a header's name after the rename, which is the looked-up canonical name or else the header itself. Its properties are stated by `Columns.SynonymRenamed`, `Columns.UnlistedKept` and `Columns.RenamedToIff`. |
| `Columns.Renamed` | data_processing.py:34-40 | Definition: the header list after normalisation, taken header by header. Its properties are stated by `Columns.RenamedIdempotent` and `Columns.RenamedCanonicalNoOp`. |
| `Columns.Rename` | data_processing.py:40 | Definition: `df.rename(columns=corrections)`, which replaces every header that is a key of the dictionary. `Columns.NormalizeColumnNames` proves that applying it to the loop's dictionary gives `Columns.Renamed`. |
| `Columns.LookupSound` | data_processing.py:34-37 | A header the loop renames is in the list of the entry whose name it receives. |
| `Columns.LookupComplete` | data_processing.py:34-37 | A header accepted by entry k and by no later entry receives entry k's name. |
| `Columns.LookupNone` | data_processing.py:34-37 | A header in no list is left out of the corrections. |
| `Columns.SynonymRenamed` | data_processing.py:14-40 | A header found in canonical name k's list is renamed to k. |
| `Columns.UnlistedKept` | data_processing.py:34-40 | A header in no list keeps its name. |
| `Columns.RenamedToIff` | data_processing.py:14-40 | A header becomes canonical name k if and only if k's list contains it. |
| `Columns.CanonicalKept` | data_processing.py:14-40 | A header that is already canonical is not renamed. |
| `Columns.CanonicalNameIdempotent` | data_processing.py:34-40 | Renaming one header twice gives the same name as renaming it once. |
| `Columns.RenamedIdempotent` | data_processing.py:34-40 | Normalising a header list twice equals normalising it once. |
| `Columns.RenamedCanonicalNoOp` | data_processing.py:34-40 | Normalising headers that are all canonical leaves them unchanged. |
| `Columns.MissingFrom` | data_processing.py:44 | The comprehension returns exactly the canonical names absent from the headers, as a subsequence of the mapping order. |
| `Columns.MissingColumns` | data_processing.py:44 | Definition: the comprehension over `COLUMN_MAPPING.keys()`, which is `Columns.MissingFrom` over the canonical names in mapping order. Its properties are stated by `Columns.MissingFrom`, `Columns.MissingEmptyIff` and `Columns.MissingExactly`. |
| `Columns.MissingEmptyIff` | data_processing.py:44-46 | The missing list is empty if and only if every canonical name is a header. |
| `Columns.NormalizeColumnNames` | data_processing.py:23-50 | Renames the frame's headers in place and leaves the cells untouched. It fails if and only if some canonical name is absent afterwards, and the error carries every missing name in mapping order. On success it returns the same frame. |
| `Columns.MissingExactly` | data_processing.py:34-47 | Canonical name k is reported missing if and only if no incoming header is in k's synonym list. |
| `Columns.NormalizeFailsIff` | data_processing.py:34-47 | Normalisation fails if and only if some canonical name has none of its spellings among the headers. |
| `Columns.MissingMessageNames` | data_processing.py:47 | The error message contains every missing canonical name. The names are joined with ", " after the fixed prefix. |
| `Table.Message` | data_processing.py:47-82 | Definition: the text of the two `ValueError`s the pipeline raises itself (lines 47 and 82), the missing-column prefix followed by the `", "` join of the names, and the fixed consistency message. `Columns.MissingMessageNames` states that the first names every missing column. |
| `Text.Join` | data_processing.py:47 | Definition: `sep.join(parts)`. `Text.JoinContainsParts` states that every part occurs in the result. |
| `Text.JoinContainsParts` | data_processing.py:47 | Every part occurs in the `", ".join` of the parts. |
| `Text.StrLe` | data_processing.py:99 | Definition: Python's `<=` on `str`, code point by code point with a proper prefix first, the order `groupby` sorts its keys in. `Text.StrLeTotal`, `Text.StrLeTransitive` and `Text.StrLeAntisymmetric` state that it is a total order. |
| `Text.StrLeTotal` | data_processing.py:99 | Python string order, which sorts the group keys, is total. |
| `Text.StrLeTransitive` | data_processing.py:99 | Python string order is transitive. |
| `Text.StrLeAntisymmetric` | data_processing.py:99 | Python string order is antisymmetric. |
| `Validation.RepeatedFrom` | data_processing.py:60-63 | Lists exactly the canonical names that head more than one column after renaming, in mapping order. pandas cannot coerce such a column. |
| `Validation.RepeatedColumns` | data_processing.py:60-63 | Definition: `Validation.RepeatedFrom` over the canonical names in mapping order, the names that would make a column selection return more than one column. Its properties are stated by `Validation.RepeatedFrom`. |
| `Validation.Coerce` | data_processing.py:60-63 | Definition: one row after `pd.to_numeric` on the three numeric columns and `pd.to_datetime` on the date column. Each cell is found under its canonical header, and the other columns' cells are kept in column order. |
| `Validation.CoerceAll` | data_processing.py:60-63 | Definition: `Validation.Coerce` applied to every row. |
| `Validation.FillNa` | data_processing.py:66-70 | Definition: `fillna` with 0 on quantity, unit price and total; the other fields are unchanged. |
| `Validation.FillNaAll` | data_processing.py:66-70 | Definition: `Validation.FillNa` applied to every row. |
| `Validation.PositiveQuantity` | data_processing.py:76 | Keeps exactly the rows with quantity > 0, as a subsequence of the input, and as many rows as the input has with quantity > 0. Together these fix the result: every such row, in order. |
| `Validation.Consistent` | data_processing.py:79 | Definition: the per-row comparison, unit price times quantity equals the total. `Validation.ConsistencyAllOrNothing` states how it decides the whole table and `Validation.ValidatedRows` that every returned row satisfies it. |
| `Validation.Validated` | data_processing.py:52-83 | Definition: the whole pipeline as a function of the loaded headers and cells. It renames, checks for missing and repeated columns, coerces, checks dates, zero-fills, drops duplicates, keeps positive quantities and checks consistency. Its properties are the `Validation` lemmas below. |
| `Validation.Validations` | data_processing.py:52-83 | Renames the caller's headers in place. It returns a new frame holding the rows of `Validated`, or that function's error: missing columns, a repeated canonical column, an unparseable date, or inconsistent totals. |
| `Validation.ValidatedMissingColumns` | data_processing.py:44-57 | Validation fails on missing columns if and only if some canonical name has no spelling among the headers. The error then names exactly the missing ones. |
| `Validation.ValidatedPastColumnsIff` | data_processing.py:57-63 | The table gets past the column and date steps if and only if validation either succeeds or fails on consistency. |
| `Validation.UnparseableDateRejects` | data_processing.py:63 | One unparseable date rejects the whole table, even when its row would be dropped later. |
| `Validation.ValidatedRows` | data_processing.py:73-82 | Every returned row has quantity > 0 and unit price × quantity = total, and no two returned rows are identical. |
| `Validation.ValidatedContents` | data_processing.py:60-76 | The returned rows are exactly the zero-filled input rows with quantity > 0. |
| `Validation.ConsistencyAllOrNothing` | data_processing.py:79-82 | Validation succeeds if and only if every kept row is consistent. Otherwise it returns the consistency error and no rows. |
| `Validation.UnparsedQuantityDropped` | data_processing.py:60-76 | A quantity that does not parse becomes 0, so its row is dropped and never kept. |
| `Validation.UnparsedPriceRejects` | data_processing.py:61-82 | A unit price that does not parse becomes 0. In a row with positive quantity and a non-zero total, that rejects the whole table. |
| `Validation.PositiveQuantityKeepsAll` | data_processing.py:76 | The quantity filter changes nothing when every quantity is positive. |
| `Validation.CleanTableValidates` | data_processing.py:52-83 | A table whose rows are all positive and consistent validates to its distinct rows, in first-occurrence order. |
| `Seqs.DropDuplicates` | data_processing.py:73 | Definition: `drop_duplicates()`, built one row at a time; a row is appended only if it is not already kept. Its result is never longer than its input. |
| `Seqs.KeepFirst` | data_processing.py:73 | Reference definition: the left-to-right scan that keeps a row unless an equal row was seen before. |
| `Seqs.KeepFirstAppend` | data_processing.py:73 | Scanning one more row appends it exactly when no equal row came before. |
| `Seqs.DropDuplicatesKeepsFirst` | data_processing.py:73 | `DropDuplicates` equals the keep-first scan. So it keeps the first occurrence of every row, in input order. |
| `Seqs.DropDuplicatesSpec` | data_processing.py:73 | Dropping duplicates keeps every row value and repeats none. |
| `Seqs.DropDuplicatesOfDistinct` | data_processing.py:73 | A table without duplicates is left as it is. |
| `Aggregation.GroupTotals` | data_processing.py:99-104 | Definition: `groupby("Produto")` with quantity and total summed, built one row at a time. Its property is stated by `Aggregation.GroupTotalsCorrect`. |
| `Aggregation.QuantityOf` | data_processing.py:132 | Definition: the summed quantity over the rows of one product, which is the `df.loc[...].sum()` at this line and the group's `Quantidade` sum at line 101. `Aggregation.GroupTotalsCorrect` states that the groups hold it. |
| `Aggregation.SalesOf` | data_processing.py:128 | Definition: the summed total sales over the rows of one product, which is the per-product sum at this line and the group's `Total de Vendas` sum at line 102. `Aggregation.GroupTotalsCorrect` states that the groups hold it. |
| `Aggregation.GroupTotalsCorrect` | data_processing.py:99-104 | The groups are exactly the products. Each group holds its product's summed quantity and summed sales. |
| `Aggregation.IdxMax` | data_processing.py:107 | Returns None exactly on an empty index (pandas raises ValueError there); otherwise the key it returns is in the index. |
| `Aggregation.IdxMaxRanksFirst` | data_processing.py:107 | The chosen key's score is at least every other key's, and among equal scores it sorts first. |
| `Aggregation.BestSellingProduct` | data_processing.py:99-117 | None on an empty table. Otherwise it returns a product of the table whose summed quantity is at least every other product's, the first in sorted order among ties, with that product's summed quantity and summed sales. |
| `Aggregation.BestProfitableProduct` | data_processing.py:128-134 | None on an empty table. Otherwise it returns the product with the largest summed sales, the first in sorted order among ties. It also returns that maximum and the quantity summed over the rows of that product. |
| `Aggregation.BestIsUnique` | data_processing.py:99-107 | The ranking picks a single product: two products that both satisfy it are equal. |
| `Aggregation.TotalSales` | data_processing.py:158 | Definition: the sum of the total-sales column. It is related to the average by `Aggregation.AverageTicket` and bounded by `Aggregation.AverageTicketBounds`. |
| `Aggregation.AverageTicket` | data_processing.py:158-163 | None (NaN) exactly on an empty table; otherwise the value times the row count is the summed total. |
| `Aggregation.AverageTicketBounds` | data_processing.py:158-163 | The average ticket lies between any lower and upper bound of the row totals. |
| `DateFilter.TruncateDates` | data_processing.py:145 | Definition: `.dt.date` on every row, which keeps the calendar day, zeroes the time of day and leaves the other fields as they are. |
| `DateFilter.InRange` | data_processing.py:146 | Definition: the mask, the day lies between the two bounds, both inclusive. `DateFilter.FilterRows` states that the result is exactly the rows it accepts. |
| `DateFilter.FilterRows` | data_processing.py:145-146 | The result holds exactly the date-truncated rows whose day d satisfies start ≤ d ≤ end. It is a subsequence of the input in original order, with as many rows as the input has in range, so rows that become equal after truncation are all kept. |
| `DateFilter.FilterRowsTwice` | data_processing.py:145-146 | Filtering a filtered table again gives the same rows as one filter by the intersection of the two ranges. |
| `DateFilter.FilterByDate` | data_processing.py:136-149 | Used on the datetime date column, it overwrites the caller's rows with date-truncated ones and changes the column's dtype. It returns a new frame holding the selected rows. Used on any other column, or on a column already truncated, it fails and changes nothing. |
| `DateFilter.DashboardDateFilters` | app.py:88-115 | With the filter as written, the dashboard's second date filter on the same frame always fails. |
| `DateFilter.FilterByDateCopy` | data_processing.py:136-149 | The corrected filter returns the same selection and leaves the caller's frame as it was. |
| `DateFilter.DashboardDateFiltersCorrected` | app.py:88-115 | With the corrected filter both dashboard selections succeed, each over the whole validated table. |

## Findings

| source | as written | input that shows it | evidently intended | confidence | as-written member | corrected member |
|---|---|---|---|---|---|---|
| data_processing.py:145 | `df[column] = df[column].dt.date` writes Python `date` objects into the caller's frame, so its date column is no longer datetime64. Any later `.dt` on that column raises AttributeError. | In the dashboard, pick both the line-chart range (app.py:90-91) and the bar-chart range (app.py:113-114). The second `filter_by_date` runs on the frame the first one altered. | Filter a selection of the rows and leave the caller's frame as it was, so that both filters succeed. | medium, not executed | `DateFilter.FilterByDate`, `DateFilter.DashboardDateFilters` | `DateFilter.FilterByDateCopy`, `DateFilter.DashboardDateFiltersCorrected` |

## Left out

- `load_data` (CSV reading), `save_chart_as_image` (file system and image export), `charts.py`, `tests.py` and the Streamlit and PDF code of `app.py` are I/O and UI glue. They are not modelled. The `print(df)` call in `filter_by_date` and the unreachable statements after `return` in `validations` are left out too.
- `pd.to_numeric` and `pd.to_datetime` are not modelled internally. They are the two functions of a `Parsers` parameter, from a cell's text to an optional number or timestamp. The date parser works cell by cell. pandas 2 parses the whole column at once and infers one format from the first cell, so the parse of one cell can depend on the others. The model does not express that.
- Numbers are exact `real`s. The source multiplies and compares float64 values, so its all-or-nothing consistency check and the model's can disagree in either direction. The source can reject a row whose rounded product differs from an exactly matching total. It can also accept one that exact arithmetic rejects: for unit price 0.1, quantity 3 and total 0.30000000000000004, float64 gives `0.1 * 3 == 0.30000000000000004`, while the exact product is 0.3.
- Validation.Validations: in the source, the coercion, `fillna` and `drop_duplicates` steps also update the caller's frame in place before the quantity filter makes a copy (data_processing.py:60-73). The model applies only the rename to the caller's frame.
- Validation.Validations: the source turns a blank date cell into NaT without raising. The model's date parser either returns a timestamp or rejects the table, so NaT dates are not represented.
- Validation.Validations: a table with two columns that both normalise to `Produto` is rejected with the repeated-column error. The source accepts it here and fails only at the first `groupby`. For the date and numeric columns both reject.
- Validation.Validations: the returned rows do not carry the `Vendas_validas` column, which is True in every row of a successful result. The extra columns are kept per row in their order, but not their position among the canonical columns.
- Aggregation.BestSellingProduct: every cell is modelled as text, but `pd.read_csv` gives columns types. A product column of digits only is read as integers. `groupby` then sorts it numerically ("9" before "10", where `StrLe` puts "10" first), so the tie-break can pick a different product. Cells such as "01" and "1" also fall into one group. The stated tie-break holds for text product columns only. The same holds for `Aggregation.BestProfitableProduct`.
- Validation.Validations: because every cell is text, two rows count as duplicates only if their cells match as text. pandas compares the typed values `read_csv` produced. In a numeric extra column, "1" and "1.0" are equal to `drop_duplicates`, and so are "" and "NA" (both NaN), but they differ here.
- Aggregation.BestSellingProduct: pandas reads a blank product cell as NaN, and `groupby` leaves those rows out. Here a product is text, so a blank product forms its own group. The same holds for `Aggregation.BestProfitableProduct`.
- DateFilter.FilterByDate: the date bounds are day numbers, and a timestamp is a day number plus a time of day. Calendar arithmetic and time zones are not modelled.
