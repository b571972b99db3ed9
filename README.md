# E-commerce health-check dashboard: a verified model of its data core

The dashboard reads a table of retail transactions and computes five things:
- a loaded frame with two derived columns, `Total = Quantity * Price` and the
  calendar month `YearMonth`;
- a cleaned frame: sales only, exact duplicates dropped, rows with a missing
  cell dropped, a `VolatilePricing` flag, and a normalised `Description`;
- five read-only views over the loaded frame:
  - the summary metrics and the cleaning summary;
  - the ten most refunded products;
  - the ten products with the highest revenue;
  - the ten products with the most distinct prices;
  - the monthly revenue series.

This project models that core as pure Dafny functions over sequences of
records and proves that each view means what it claims.

Layout, one module per file:
- `Wrappers`: `Option` and `Result`.
- `Seqs`: the frame operations and their laws. These are `Filter` (boolean
  masks), `Sum`, `Dedup` (`drop_duplicates`, keeping the first occurrence),
  `DuplicateCount` (`duplicated().sum()`) and `Values` (what `nunique`
  counts).
- `Grouping`: `groupby` as map accumulators (`CountBy`, `SumBy`, `ValuesBy`,
  `NUniqueBy`). Each accumulator is proved equal to filtering the frame down
  to one group. Rows whose key is missing belong to no group, as in pandas.
- `Ranking`: `sort_values(ascending=False).head(n)` as a descending
  insertion sort followed by a prefix.
- `Records`: the record types and `load_data`'s derived columns.
- `Text`: `str.strip` and `str.title`.
- `Cleaning`: `clean_data`.
- `Dashboard`: the five views.

Money is held in integer cents, so `Price`, `Total` and every sum are exact
integers. `Quantity` and `Price` are never missing. Every other column is an
`Option`.

Three behaviours of the code are easy to mistake, and the model follows the
code in each:
- **The cleaned frame can repeat a record.** One might expect every cleaned
  record to be unique. The code drops duplicates before it normalises
  `Description`, so two rows that differ only in surrounding whitespace
  (`" a"` and `"a"`) both survive and then become equal.
  `Cleaning.CleanMayRepeatRecords` and `Cleaning.SampleQualifies` show this.
  `Cleaning.KeptSpec` proves the rows before normalisation duplicate-free,
  and `Cleaning.CleanRepeatsOnlyByNormalization` proves normalisation is the
  only way a repeat arises.
- **Ties in a ranking.** One might expect ties to keep their original
  encounter order. The code calls `sort_values` with its default, non-stable
  quicksort, so the order among equal values is not fixed. The model's sort happens to be
  stable, but no lemma claims an order among ties.
- **An empty frame.** The code divides by `len(df)` and raises a
  division-by-zero error. This is modelled as `Failure(EmptyDataset)` of the
  refund rate. The rest of the summary view fails with it.

## Model

| member | source | states |
|---|---|---|
| Records.Load | streamlit_app.py:14-16 | Loading keeps the row count and order and leaves every original column unchanged. Every loaded row has `Total == Quantity * Price`, and it has a `YearMonth` exactly when it has a date, with that date's year and month. |
| Records.DeriveOriginal | streamlit_app.py:14-16 | A row whose derived columns are consistent is exactly what loading its original columns produces. |
| Records.MonthIndexOrder | streamlit_app.py:16 | Numbering of months on one time line orders `YearMonth` periods chronologically, and no two periods share a number. |
| Text.LeadingSpaces | streamlit_app.py:28 | Counts the leading whitespace: that prefix is all whitespace, and the character after it is not. |
| Text.TrailingSpaces | streamlit_app.py:28 | Counts the trailing whitespace: that suffix is all whitespace, and the character before it is not. |
| Text.Strip | streamlit_app.py:28 | `str.strip()` returns a slice of its input with no whitespace at either end, and whatever it cut off on either side is whitespace. |
| Text.StripTrimmed | streamlit_app.py:28 | Stripping text that has no surrounding whitespace returns it unchanged. |
| Text.TitleFromAt | streamlit_app.py:28 | Per character, title-casing upper-cases a character that follows an uncased one and lower-cases one that follows a cased one. |
| Text.TitleAt | streamlit_app.py:28 | `str.title()` keeps the length. It upper-cases the first letter of each word and lower-cases the rest. |
| Text.TitleIdempotent | streamlit_app.py:28 | Title-casing twice is the same as title-casing once. |
| Text.TitleKeepsSpaces | streamlit_app.py:28 | Title-casing leaves whitespace where it was, so word boundaries do not move. |
| Text.NormalizeIdempotent | streamlit_app.py:28 | Normalising a description that is already normalised changes nothing. |
| Seqs.Filter | streamlit_app.py:24 | A boolean mask keeps only rows that satisfy it, keeps each row value that satisfies it, and is never longer than the input. |
| Seqs.FilterCounts | streamlit_app.py:24 | A boolean mask keeps every copy of a matching row and no copy of any other row, so the result's length counts the matching rows. |
| Seqs.FilterSubseq | streamlit_app.py:24 | A masked frame is a subsequence of the frame, in the original order. |
| Seqs.Dedup | streamlit_app.py:25 | `drop_duplicates` result has no two equal rows, holds every distinct row of the input, and is no longer than the input. |
| Seqs.DedupSubseq | streamlit_app.py:25 | `drop_duplicates` result is a subsequence of its input. |
| Seqs.DedupOrdered | streamlit_app.py:25 | `drop_duplicates` keeps the first occurrence of each row: its rows appear in the order of their first occurrence in the input. |
| Seqs.DedupFilter | streamlit_app.py:24-26 | Dropping duplicates and then masking gives the same frame as masking and then dropping duplicates. |
| Seqs.DedupLength | streamlit_app.py:60 | The rows that `duplicated()` marks, the rows equal to an earlier row, are exactly the rows that `drop_duplicates` removes. |
| Seqs.ValuesBound | streamlit_app.py:49 | A column has at most as many distinct non-missing values as there are rows. |
| Grouping.GroupKeys | streamlit_app.py:76 | The index of a `groupby` series holds each non-missing key of the frame exactly once, and nothing else. |
| Grouping.CountBy | streamlit_app.py:76 | For every key present, `groupby(key).count()` is the number of rows with that key, which is at least one. It has an entry for exactly the keys present. |
| Grouping.SumBy | streamlit_app.py:85 | For every key present, `groupby(key)[col].sum()` is the sum of the column over the rows with that key. It has an entry for exactly the keys present. |
| Grouping.ValuesBy | streamlit_app.py:94 | Each group maps to the set of distinct non-missing values of the column among its rows. |
| Grouping.NUniqueBy | streamlit_app.py:94 | `groupby(key)[col].nunique()` gives each group the number of distinct non-missing values of the column among its rows. |
| Grouping.GroupSumsTotal | streamlit_app.py:105 | The group sums add up to the sum over all rows that have a key: grouping neither loses a row nor counts one twice. |
| Grouping.CountAbove | streamlit_app.py:52 | Counting the groups whose value exceeds a threshold (`gt(3).sum()`) gives the length of the index selected with that threshold (`s[s > 3]`). |
| Ranking.Insert | streamlit_app.py:76 | Inserting a key into a sequence in descending order keeps that order and adds exactly that key. |
| Ranking.SortDesc | streamlit_app.py:76 | `sort_values(ascending=False)` is a permutation of its input, in non-increasing order of value. |
| Ranking.SortSum | streamlit_app.py:105 | Sorting does not change the sum of a column. |
| Ranking.Head | streamlit_app.py:76 | `head(n)` is the prefix of length `min(n, len)`. |
| Ranking.EntriesSum | streamlit_app.py:105 | A series' values add up to the map's total over its index. |
| Ranking.TopSpec | streamlit_app.py:76 | `sort_values(ascending=False).head(n)` over distinct keys has `min(n, len)` entries with distinct keys from the index, each with its own value, in non-increasing order. A key that is left out has a value no larger than the last listed one. |
| Ranking.SortedEntries | streamlit_app.py:105 | A series laid out over its sorted distinct index has one entry per key, each with its value, in the sort order. Its values add up to the series total. |
| Cleaning.KeptSpec | streamlit_app.py:24-26 | The three filters together keep exactly the first occurrences of the rows that are sales with no missing cell. The result is duplicate-free, a subsequence of the input, and in first-occurrence order. |
| Cleaning.KeptFixedPoint | streamlit_app.py:24-26 | A duplicate-free frame of complete sales passes the three filters unchanged. |
| Cleaning.KeptIdempotent | streamlit_app.py:24-26 | Running the three filters again removes nothing. |
| Cleaning.CleanSpec | streamlit_app.py:23-29 | Every cleaned row has `Quantity > 0` and no missing cell. It equals the surviving row at its position except for the description, which is that row's description stripped and title-cased. Its `VolatilePricing` flag holds exactly when the surviving rows with the same pre-normalisation description show more than three distinct prices. |
| Cleaning.CleanAt | streamlit_app.py:27-28 | The same facts for one position of the cleaned frame. |
| Cleaning.CleanRepeatsOnlyByNormalization | streamlit_app.py:25-28 | Two positions of the cleaned frame can hold equal rows only if their source rows had different descriptions that normalise to the same text. |
| Cleaning.CleanMayRepeatRecords | streamlit_app.py:25-28 | Two complete sales that differ only in a description whose normalisations agree are both kept, and they come out as equal cleaned rows. |
| Cleaning.SampleQualifies | streamlit_app.py:25-28 | Rows with descriptions `" a"` and `"a"` are such a pair. |
| Dashboard.Refunds | streamlit_app.py:42 | The refund frame holds only rows with negative `Quantity`, and every such row value of the frame. |
| Dashboard.RefundsCounts | streamlit_app.py:42 | The refund frame keeps every copy of each refund row and no other row, so its length is the number of refund rows. |
| Dashboard.UniqueCustomers | streamlit_app.py:49 | There are no more distinct customer identifiers than rows. |
| Dashboard.RefundRate | streamlit_app.py:51 | The refund rate fails exactly on an empty frame. Otherwise it is a percentage between 0 and 100, and times the row count it equals 100 times the number of refund rows. |
| Dashboard.RefundVolumeNonPositive | streamlit_app.py:50 | When every row is consistently loaded and no price is negative, the refund volume is at most zero. |
| Dashboard.SummaryMetrics | streamlit_app.py:42-54 | The metrics table fails exactly on an empty frame. Otherwise it reports the row count; the number of distinct customer identifiers, at most the row count; the sum of `Total` over the refund rows; the refund rate, which is refund rows ÷ rows × 100 and lies in [0, 100]; and the number of products the volatility view selects. |
| Dashboard.CleaningSummary | streamlit_app.py:58-62 | The report holds the row count, the number of refund rows, the number of rows equal to an earlier row, the number of rows with a missing cell, and the length of the cleaned frame. Each of the three removal counts is at most the row count, and the cleaned row count is at most the row count minus any one of them. |
| Dashboard.CleanedBounds | streamlit_app.py:58-62 | The counting facts behind the cleaning summary: the cleaned frame shares no row with the refunds or with the incomplete rows, and it is no longer than the frame without duplicates. |
| Dashboard.SummaryView | streamlit_app.py:40-70 | The summary view fails exactly on an empty frame. |
| Dashboard.RefundRankingSpec | streamlit_app.py:75-76 | At most ten products, each once, in non-increasing order of refund count. Each count is the product's number of refund rows, so it is at least one. A refunded product that is left out has no more refund rows than the last one listed. |
| Dashboard.RevenueRankingSpec | streamlit_app.py:85 | At most ten products that occur in the frame, each once, in non-increasing order of revenue. Each carries the sum of `Total` over all of its rows, refunds included. A product that is left out earns no more than the last one listed. |
| Dashboard.VolatileProductsSpec | streamlit_app.py:94-95 | The volatile products are distinct. They are exactly the descriptions with more than three distinct prices, and each is scored by that number. |
| Dashboard.VolatileCountMatches | streamlit_app.py:52 | The summary's volatile-products metric equals the number of products the volatility view selects before it takes the top ten. |
| Dashboard.VolatilityRankingSpec | streamlit_app.py:94-95 | `min(10, metric)` products, each once, each with more than three distinct prices, in non-increasing order of that count. A volatile product that is left out has no more distinct prices than the last one listed. |
| Dashboard.MonthlyTrendSpec | streamlit_app.py:105 | One entry per month present in the frame, in strictly increasing month order. Each carries that month's revenue, and together the entries add up to the revenue of every row that has a date. |

## Left out

- Page setup, the sidebar, tables, markdown and charts are left out. They are user interface and rendering calls into Streamlit, matplotlib and seaborn.
- Reading the CSV file with Latin-1 decoding is left out; it is I/O. The model starts from parsed records.
- `pd.to_datetime` parsing is left out; it is library parsing. The model starts from parsed records with an integer year and a month.
- `st.cache_data` memoisation is left out. It changes when a function runs, not what it returns.
- Floating-point `Price` and `Total` are replaced by exact integer cents. The rate's `round(..., 2)`, the currency sign and the thousands separators are left out. They are presentation of values the model computes exactly.
- Dashboard.RefundRate: is the exact ratio, not the float rounded to two decimals, because the rounding is presentation.
- Records.RawRecord: `Quantity` and `Price` are never missing. A missing one would make `Total` missing, and the model does not represent that case.
- Text.Title: cases ASCII letters only. Python's Unicode case mappings and its Unicode notion of a cased character are outside the model.
- Text.IsSpace: covers the whitespace of the Latin-1 range, which is every character the Latin-1 decoding can produce. Python's wider Unicode whitespace is outside the model.
- Ranking.SortDesc: no lemma states the order among equal values, because pandas' default quicksort leaves that order unspecified.
