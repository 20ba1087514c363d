# Spotify / Billboard enrichment and merge, modelled in Dafny

This project models the data logic of two scripts. Everything they do
around it (reading and writing CSV files) is left out.

- **`normalize`** (scripts/dataset/enrich_spotify_with_billboard.py) turns
  a song title or an artist name into a matching key. It lower-cases and
  strips the text, folds it to ASCII, and turns runs of white space and `&`
  into one space. It then deletes every character outside `[a-z0-9 ]` and
  the whole words `feat`, `ft` and `featuring`. Finally it collapses the
  spaces and strips again.
- **The enrichment join** (same script) works in four steps:
  - drops the Spotify rows that lack a track or an artist name;
  - adds the normalised key columns to both tables;
  - groups the Billboard chart entries by normalised (title, performer);
  - appends one output row per Spotify row in a loop. A track whose key
    has a group is flagged 1 and gets the group size, the best peak, and
    the first and last chart weeks. Any other track gets 0 / 0 / None /
    None / None.
- **The merge** (scripts/merge.py) works in five steps:
  - concatenates the enriched tables;
  - coerces the two date columns, so that an unreadable date becomes
    missing;
  - groups the rows by Spotify `uri`;
  - collapses each group into one row. That row copies the group's first
    row, then takes the OR of the presence flags, the sum of the weeks, the
    least strictly positive peak, the earliest first date and the latest
    last date;
  - turns a missing peak into 0.

Modules:

- `Wrappers` (wrappers.dfy): `Option`.
- `Stats` (stats.dfy): the minimum, maximum and sum of a column, and the
  minimum and maximum over the present values of a column with gaps. The
  gaps stand for NaN, which pandas skips.
- `Text` (text.dfy): Python's white-space class, the key alphabet, and
  splitting a string into words and joining words back. It also defines
  `Canonical`, the shape of a key.
- `Normalizer` (normalize.dfy): `normalize`, one function per rewrite of
  the pipeline, and the lemmas about the key.
- `Enrichment` (enrich.dfy): the join. The loop is a method, proved
  against the function `EnrichRow` that specifies one output row.
- `Lexicographic` (lexicographic.dfy): Python's string order, which
  `groupby` sorts its keys by, and sorted sequences of strings.
- `Merge` (merge.dfy): concatenation, date coercion, `merge_group`, the
  group-by on `uri` and the final clean-up.

These modelling choices apply throughout:

- Tables are sequences of rows. A missing cell is `None`.
- Dates are day numbers: the Billboard chart week, and the two date
  columns of the merge. A date cell before coercion in the merge is
  `Blank`, `Written(day)` or `Garbled(text)`.
- Columns that the scripts only carry along are `features` or `fields`.
- The in-place column assignments of the scripts are functions that
  return the new table.

## Model

| member | source | states |
|---|---|---|
| Normalizer.Lower | scripts/dataset/enrich_spotify_with_billboard.py:18 | `lower()` keeps the length and maps every character through the case mapping |
| Normalizer.LowerIdempotent | scripts/dataset/enrich_spotify_with_billboard.py:18 | lower-casing twice is lower-casing once |
| Normalizer.Strip | scripts/dataset/enrich_spotify_with_billboard.py:18 | neither end of the result of `strip()` is white space, and it keeps the key alphabet and single spacing of its input |
| Normalizer.StripPiece | scripts/dataset/enrich_spotify_with_billboard.py:18 | `strip()` removes exactly the white space at the two ends: the result is a piece `s[a..b]` of the input with only white space before `a` and from `b` on |
| Normalizer.StripKeepsTrimmed | scripts/dataset/enrich_spotify_with_billboard.py:18 | a text with no white space at either end is its own strip |
| Normalizer.Fold | scripts/dataset/enrich_spotify_with_billboard.py:19 | the NFKD-then-ASCII step yields only ASCII and leaves ASCII text unchanged |
| Normalizer.FoldSingle | scripts/dataset/enrich_spotify_with_billboard.py:19 | one character becomes the ASCII part of its NFKD decomposition |
| Normalizer.FoldAppend | scripts/dataset/enrich_spotify_with_billboard.py:19 | the fold of two texts read in turn is the fold of the first followed by that of the second, so every character's ASCII part stays in its place |
| Normalizer.CollapseRuns | scripts/dataset/enrich_spotify_with_billboard.py:20 | replacing runs of `[\s&]` (or of `\s`) by one space leaves only plain spaces as separators, never two in a row, and never grows the text |
| Normalizer.CollapseEndRuns | scripts/dataset/enrich_spotify_with_billboard.py:20 | a run of separators at the start or the end of the text still leaves a space there (at the start, unless the text before ended in a run) |
| Normalizer.AmpCollapseKeepsWords | scripts/dataset/enrich_spotify_with_billboard.py:20 | replacing runs of `[\s&]` by one space keeps the words of the text read with every `&` as a space: every other character stays, in order, in its word |
| Normalizer.CollapseAmpAsSpace | scripts/dataset/enrich_spotify_with_billboard.py:20 | collapsing runs of `[\s&]` gives the same text as collapsing runs of `\s` once every `&` is read as a space |
| Normalizer.KeepKeyChars | scripts/dataset/enrich_spotify_with_billboard.py:21 | deleting `[^a-z0-9 ]` leaves only key characters and keeps text already in the alphabet |
| Normalizer.KeepKeyCharsSingle | scripts/dataset/enrich_spotify_with_billboard.py:21 | one character is kept exactly when it is in `[a-z0-9 ]`, and deleted otherwise |
| Normalizer.KeepKeyCharsAppend | scripts/dataset/enrich_spotify_with_billboard.py:21 | the characters kept from two texts read in turn are those kept from the first followed by those kept from the second, so every key character survives, in order |
| Normalizer.DropMarkers | scripts/dataset/enrich_spotify_with_billboard.py:22 | deleting the marker words never grows the text and keeps it in the key alphabet |
| Normalizer.DropMarkersWords | scripts/dataset/enrich_spotify_with_billboard.py:22 | on `[a-z0-9 ]` text, `\b(feat\|ft\|featuring)\b` deletes exactly the words that are markers, keeping the other words in order |
| Normalizer.KeepWords | scripts/dataset/enrich_spotify_with_billboard.py:22 | the words kept are exactly the non-marker words |
| Normalizer.CollapseKeepsWords | scripts/dataset/enrich_spotify_with_billboard.py:23 | collapsing white-space runs keeps the word list |
| Normalizer.FinishShape | scripts/dataset/enrich_spotify_with_billboard.py:22-23 | the last two rewrites of `[a-z0-9 ]` text give a canonical string whose words are the text's non-marker words |
| Normalizer.Normalize | scripts/dataset/enrich_spotify_with_billboard.py:15-23 | the key uses only `[a-z0-9 ]`, has no space at either end and never two in a row; its words are the non-marker words of the cleaned text, so no word is a marker |
| Normalizer.NormalizeIdempotent | scripts/dataset/enrich_spotify_with_billboard.py:15-23 | normalising a key gives the key back |
| Normalizer.NormalizeIgnoresCase | scripts/dataset/enrich_spotify_with_billboard.py:18 | lower-casing the input first does not change the key |
| Normalizer.NormalizeIgnoresAccents | scripts/dataset/enrich_spotify_with_billboard.py:18-23 | two texts of one length with white space at the same places, whose lower-cased characters fold to the same ASCII place by place, have the same key |
| Normalizer.NormalizeByWords | scripts/dataset/enrich_spotify_with_billboard.py:20-23 | the key is the one canonical string whose words are the cleaned text's non-marker words |
| Normalizer.AmpersandSeparates | scripts/dataset/enrich_spotify_with_billboard.py:20 | "a&b" normalises to "a b" |
| Normalizer.EmbeddedMarkerSurvives | scripts/dataset/enrich_spotify_with_billboard.py:22 | "Craft" normalises to "craft": a marker inside a word is kept |
| Normalizer.MarkerWordDeleted | scripts/dataset/enrich_spotify_with_billboard.py:22 | "a feat b" normalises to "a b" |
| Normalizer.NanKey | scripts/dataset/enrich_spotify_with_billboard.py:18-23 | "Nan" and "nan" both normalise to "nan" |
| Normalizer.AccentIgnored | scripts/dataset/enrich_spotify_with_billboard.py:19 | "Café" and "cafe" have the same key |
| Text.UnwordsOfWords | scripts/dataset/enrich_spotify_with_billboard.py:23 | a canonical string is its words joined by single spaces |
| Text.WordsOfUnwords | scripts/dataset/enrich_spotify_with_billboard.py:23 | splitting words joined by single spaces gives the words back |
| Text.CanonicalByWords | scripts/dataset/enrich_spotify_with_billboard.py:23 | two canonical strings with the same words are equal |
| Enrichment.DropIncomplete | scripts/dataset/enrich_spotify_with_billboard.py:12 | `dropna` keeps exactly the rows with both names; every kept row is complete, and a table without gaps is unchanged |
| Enrichment.DropIncompleteSingle | scripts/dataset/enrich_spotify_with_billboard.py:12 | a single row is kept exactly when both its names are present |
| Enrichment.DropIncompleteAppend | scripts/dataset/enrich_spotify_with_billboard.py:12 | the rows kept from two tables read in turn are those kept from the first followed by those kept from the second, so the kept rows keep their order and their repetitions |
| Enrichment.KeyTracks | scripts/dataset/enrich_spotify_with_billboard.py:25-26 | one keyed row per row, in order, carrying the row and the normalised track and artist |
| Enrichment.KeyEntries | scripts/dataset/enrich_spotify_with_billboard.py:28-29 | one keyed entry per chart row, in order, carrying the row and the normalised title and performer; a missing title or performer is normalised as the text "nan" |
| Enrichment.Matches | scripts/dataset/enrich_spotify_with_billboard.py:42 | the group of a key holds exactly the chart entries with that key |
| Enrichment.MatchCount | scripts/dataset/enrich_spotify_with_billboard.py:42-45 | a group's size is the number of chart positions with its key |
| Enrichment.GroupIndex | scripts/dataset/enrich_spotify_with_billboard.py:32 | the grouped chart has a key exactly when some entry has it, and maps it to that key's group |
| Enrichment.GroupStatistics | scripts/dataset/enrich_spotify_with_billboard.py:46-48 | the group's minimum peak and minimum and maximum chart weeks are values of its entries and bound every entry |
| Enrichment.EnrichRowStatistics | scripts/dataset/enrich_spotify_with_billboard.py:42-66 | an output row is flagged 1 iff some chart entry has the track's key, else 0. Its weeks are the number of such entries. A matched row's peak is the least peak among them and its first/last weeks are their earliest/latest, each drawn from one of them, with first <= last. An unmatched row is 0 / 0 / None / None / None |
| Enrichment.EnrichAll | scripts/dataset/enrich_spotify_with_billboard.py:35-66 | one output row per track, in order |
| Enrichment.EnrichOne | scripts/dataset/enrich_spotify_with_billboard.py:38-66 | looking the key up in the grouped chart yields the row `EnrichRow` specifies |
| Enrichment.EnrichLoop | scripts/dataset/enrich_spotify_with_billboard.py:35-66 | the loop appends, for every track in order, exactly the row `EnrichRow` specifies |
| Enrichment.EnrichTable | scripts/dataset/enrich_spotify_with_billboard.py:12-66 | the script's result is the enrichment of the kept rows, keyed with `Normalize`, against the keyed chart |
| Enrichment.MatchIsNormalizedEquality | scripts/dataset/enrich_spotify_with_billboard.py:25-42 | a chart row is in a track's group iff its normalised title and performer equal the track's normalised track and artist |
| Enrichment.MissingNamesMatchNan | scripts/dataset/enrich_spotify_with_billboard.py:28-42 | a chart row with both names missing is in the group of a track "Nan" by the artist "Nan" |
| Enrichment.ThreeWeeksPeakTwo | scripts/dataset/enrich_spotify_with_billboard.py:44-46 | three entries of a song with peaks 5, 2, 10 give a flag of 1, 3 weeks and a peak of 2 |
| Stats.MinPresent | scripts/merge.py:22-24 | the minimum of a column skipping gaps is missing iff every cell is; otherwise it is a cell's value and bounds every present value |
| Stats.MaxPresent | scripts/merge.py:25 | the maximum of a column skipping gaps is missing iff every cell is; otherwise it is a cell's value and bounds every present value |
| Stats.SumAppend | scripts/merge.py:21 | the sum of two columns one after the other is the sum of their sums |
| Merge.ConcatSplit | scripts/merge.py:9 | every table sits unchanged in the concatenation, between the tables before it and those after it |
| Merge.ConcatRow | scripts/merge.py:9 | row `j` of table `t` is in the concatenation, right after the rows of the earlier tables |
| Merge.CoerceDate | scripts/merge.py:12-13 | a readable date becomes that date; an empty or unreadable cell becomes missing, never an error |
| Merge.CoerceDates | scripts/merge.py:12-13 | both date columns are coerced; every other column and the row order are kept |
| Lexicographic.LessTransitive | scripts/merge.py:30-31 | Python's string order is transitive |
| Lexicographic.LessTotal | scripts/merge.py:30-31 | of two different strings one is less than the other |
| Lexicographic.Insert | scripts/merge.py:30-31 | inserting a key into a sorted key list keeps it strictly sorted and adds exactly that key |
| Lexicographic.SortedUnique | scripts/merge.py:30-31 | two strictly sorted key lists with the same members are equal |
| Lexicographic.SortedCardinality | scripts/merge.py:30-34 | a strictly sorted key list has as many members as entries |
| Merge.Group | scripts/merge.py:30-31 | the group of a uri holds exactly the rows with that uri |
| Merge.GroupFirst | scripts/merge.py:17 | the first row of a group is the first row with its uri |
| Merge.GroupAppend | scripts/merge.py:30-31 | the group of a uri in two tables read one after the other is the first table's group followed by the second's |
| Merge.SortedUris | scripts/merge.py:30-31 | the group keys are strictly ascending and are exactly the uris that occur |
| Merge.AnyOnBillboard | scripts/merge.py:20 | `any()` holds iff some row of the group has a nonzero flag |
| Merge.MergeGroup | scripts/merge.py:16-27 | the collapsed row keeps the first row's uri and other columns; its flag is 0 or 1 and a present peak is positive |
| Merge.MergeGroupAggregates | scripts/merge.py:20-25 | the flag is 1 iff some row's flag is nonzero and the weeks are the group's sum. The peak is missing iff no row has a positive peak; otherwise it is one row's peak and at most every positive peak. The first/last dates are missing iff no row has one; otherwise they are one row's date and the earliest/latest present |
| Merge.GroupByUri | scripts/merge.py:30-34 | one row per distinct uri, in strictly ascending uri order, each the collapse of that uri's group |
| Merge.FinalizeEach | scripts/merge.py:37-38 | every collapsed row with a missing peak turned into 0, in order, with the same uris |
| Merge.MergeRows | scripts/merge.py:12-38 | the merged table has exactly one row per distinct uri of its input, in ascending order. Each row's flag is 0 or 1 and its peak is never negative |
| Merge.MergeTables | scripts/merge.py:9-38 | with no table, there is nothing to concatenate and the result is the error (None); otherwise it is what MergeRows states, for the concatenation of the tables in the order they are read |
| Merge.MergedRowIsGroup | scripts/merge.py:30-38 | each merged row is the cleaned-up collapse of its uri's group |
| Merge.MergedRowCopiesFirst | scripts/merge.py:17 | the columns of a merged row other than the chart columns are those of the first row with its uri in concatenation order |
| Merge.MergedOnBillboard | scripts/merge.py:20 | a merged row's flag is 1 iff some input row with its uri has a nonzero flag, else 0 |
| Merge.MergedWeeks | scripts/merge.py:21 | a merged row's weeks are the sum of the weeks of the input rows with its uri |
| Merge.UriWeeksOfGroup | scripts/merge.py:21 | the weeks column of a uri's group lists the weeks of the rows with that uri, in order |
| Merge.WeeksAdditive | scripts/merge.py:21 | the weeks of a uri over two tables read in turn are the sum of its weeks in each |
| Merge.MergedPeak | scripts/merge.py:22-38 | a merged peak is never negative. It is 0 iff no input row with the uri has a strictly positive peak. Otherwise it is one of those peaks and at most every strictly positive one |
| Merge.MergedFirstCharted | scripts/merge.py:12-24 | a merged first date is missing iff no row with the uri has a readable one; otherwise it is the earliest readable first date, from one of the rows |
| Merge.MergedLastCharted | scripts/merge.py:13-25 | a merged last date is missing iff no row with the uri has a readable one; otherwise it is the latest readable last date, from one of the rows |
| Merge.SingletonGroup | scripts/merge.py:17-38 | a group of one row with a 0/1 flag and no negative peak collapses to that row, a missing peak becoming 0 |
| Merge.GroupOfDistinct | scripts/merge.py:30-31 | when uris are pairwise distinct, each row's group is that row alone |
| Merge.GroupByUriOfSorted | scripts/merge.py:30-34 | grouping rows whose uris already ascend keeps the uris in place |
| Merge.RemergeIsIdentity | scripts/merge.py:9-38 | merging a merged table again, as read back from its file, gives the same table |
| Merge.RemergeRows | scripts/merge.py:12-38 | the rows of a merged table read back merge into that same table |
| Merge.TwoListingsOfOneSong | scripts/merge.py:20-22 | two charted listings with 3 and 5 weeks and peaks 4 and 1 merge into one row with flag 1, 8 weeks and peak 1 |
| Merge.UnchartedListings | scripts/merge.py:20-38 | listings with no peak and a peak of 0 merge into a row with flag 0 and peak 0 |

## Left out

- Reading and writing CSV files, `glob` with its sorted paths,
  `os.makedirs` and `print` are not modelled. The tables are parameters,
  given in the order the files are read.
- scripts/dataset/explore_hot100_data.py is not part of this model. It
  only prints facts about a CSV file.
- The Unicode NFKD decomposition of `unicodedata` is reduced to a table.
  - ASCII is left alone.
  - Latin-1 characters (U+0080 to U+00FF) map to their ASCII part.
  - The Unicode spaces that decompose to a space map to a space.
  - Every other character above U+00FF counts as having no ASCII part and
    is dropped.
- `str.lower()` is modelled for ASCII and Latin-1 letters only. A letter
  above U+00FF is left as it is, and the reduced fold then drops it. In
  Python its lower case may fold to an ASCII letter (`'Š'` gives `'s'`),
  so for such text the model's key differs from the script's.
- Which cell texts `read_csv` reads as missing ("NaN", "nan", "NA", an
  empty cell and the other default markers) is not modelled: a name cell
  is given already read, as present text or missing.
- `str(text)` is modelled only for a missing cell, which becomes "nan".
  Spotify names are present after `dropna`. Billboard titles and
  performers are not filtered, so a missing one gets the key "nan". Cells
  that pandas reads as numbers are not modelled; names are text.
- The Billboard `chart_week` column is read as text, not parsed as a date,
  so the minimum and maximum at lines 47-48 compare text. The model
  compares day numbers, which gives the same result only when every cell
  is a zero-padded `YYYY-MM-DD` date.
- The regular-expression engine is not modelled in general. Each
  `re.sub` is a function on characters or words that does what its
  pattern does.
- `pd.to_datetime` parsing is abstracted. A cell is either a date the
  parser reads, an empty cell or unreadable text.
- pandas dtype promotion, `astype(int)`, and rows whose `uri` is NaN are
  not modelled. `groupby` would drop those rows; here uris are always
  strings.
- Enrichment.KeyTracks, Enrichment.KeyEntries: these take the normaliser
  as a parameter. `EnrichTable` passes `Normalize`, so the join is stated
  for the script's normaliser. Its own lemmas hold for any normaliser.
- The in-place column assignments are not modelled as updates in place.
  Each is a function that returns the new table, since no other code
  shares the tables.
