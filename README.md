# Predict-Return: a verified model of the schema check, risk rules and page workflow

Predict-Return is a small web application. A Flask server reads an uploaded
spreadsheet of past orders, checks that it has the seven required columns
(under any of several accepted spellings), trains a classifier and predicts
for each order the probability that it comes back. A browser script uploads
the file, shows the server's answers and keeps three page-level globals
(`uploadedFile`, `analysisData`, `predictionsData`).

This project models in Dafny the parts of that program that are plain logic,
and proves what they promise:

- `schema.dfy`, module `Schema`: `DataProcessor.validate_schema`.
  - It models the column mapping, the search loops (first spelling wins, then the first column in column order) and the renaming.
  - It models the checks on the `retour` column and the `(valid, errors, frame)` result.
  - The loops are imperative methods, each proved equal to a specification function.
  - Lemmas prove the promises about that function.
- `text.dfy`, module `Text`: the string operations that code relies on.
  - Python `lower`/`strip` and `endswith`.
  - JavaScript `toLowerCase` and `split('.').pop()`.
- `upload.dfy`, module `Upload`: file-name admission on both sides.
  - The browser keeps a name whose lower-cased last dot-separated piece is `xlsx` or `csv`.
  - The server keeps a name that ends case-sensitively in `.xlsx` or `.csv`.
  - The module proves how the two rules relate and where they disagree.
- `analyze.dfy`, module `Analyze`: the `/analyze` route.
  - Admission, schema check, summary figures and the ten-row preview.
  - The contents of the uploaded file are a parameter (the frame the reader produced, or none).
- `risk.dfy`, module `Risk`: the probability thresholds.
  - The server's 0.5 label rule.
  - The 0.3/0.7 risk buckets and their counts.
  - The browser's `getRiskLevel`/`getRiskClass` and the percentage-based copy of the same rule.
- `predict.dfy`, module `Predict`: the `/predict` route.
  - The labels and the bucket counts.
  - The first-twenty predictions loop.
  - The classifier's probabilities are a parameter.
  - Two routes: the intended one, and the one as written, whose numpy counts make `jsonify` raise (see Findings).
- `single.dfy`, module `Single`: the one-product prediction.
  - The browser's form check and the JSON body it sends.
  - The server's required-field check in `predict_single`.
- `display.dfy`, module `Display`: what the browser shows.
  - The preview columns, filtered from a fixed column order.
  - The preview cells, with the euro suffix on prices.
  - The prediction table rows and the single-product gauge.
- `workflow.dfy`, module `Workflow`: the page as a class `Controller`.
  - The three globals, the last single-product result and the loading overlay.
  - The handlers that change them.
  - Messages shown, requests sent, the scheduled analysis and a started download are recorded in order in a trace `effects`.
- `wrappers.dfy`, module `Wrappers`: `Option` and `Result`.

Numbers are exact reals: every threshold comparison is stated over `real`, not
over floating point. A pandas frame is a sequence of named columns of cells
(`Null`, a number or a string).

## Model

| member | source | states |
|---|---|---|
| Text.LowerChar | app.py:41 | a lower-cased character is never upper-case, and other characters are left alone |
| Text.Lower | app.py:41 | `str.lower` keeps the length and lower-cases each character in place |
| Text.TrimLeft | app.py:41 | what is left is a suffix starting with a non-space, and everything dropped is whitespace |
| Text.TrimRight | app.py:41 | what is left is a prefix ending with a non-space, and everything dropped is whitespace |
| Text.Strip | app.py:41 | `str.strip` gives a middle slice of the string: everything before and after it is whitespace, the slice neither starts nor ends with whitespace, and it is never longer |
| Text.StripWitness | app.py:41 | a suffix after leading whitespace, cut before trailing whitespace, is such a middle slice |
| Text.LowerOfLower | app.py:41 | lower-casing a string without upper-case letters changes nothing |
| Text.NormalizePlain | app.py:41 | a lower-case, stripped spelling is its own comparison key |
| Text.LowerKeepsSuffix | static/js/script.js:117 | lower-casing keeps a suffix relation |
| Text.Split | static/js/script.js:117 | `split` gives at least one piece, and no piece holds the separator |
| Text.JoinSplit | static/js/script.js:117 | joining the pieces of a split gives the string back |
| Text.SplitWithoutSeparator | static/js/script.js:117 | a string splits into one piece exactly when it has no separator, and that piece is the string |
| Text.LastPiece | static/js/script.js:117 | `pop()` of the split is the longest separator-free suffix: the whole name or what follows its last dot |
| Text.LastPieceUnique | static/js/script.js:117 | that suffix is unique |
| Text.LastPieceOfLonger | static/js/script.js:117 | when the first character is a dot or a dot follows it, the last piece of the name is the last piece of the rest |
| Text.LastAfterSeparator | static/js/script.js:117 | a leading separator does not change the last piece |
| Text.LastAfterInnerSeparator | static/js/script.js:117 | a leading non-separator before a later separator does not change the last piece |
| Text.LastPieceExtends | static/js/script.js:117 | a shorter-than-the-rest or separator-preceded suffix stays the longest separator-free suffix when a character is put in front |
| Upload.Extension | static/js/script.js:117 | the computed extension is never empty and starts with a dot |
| Upload.ExtensionShape | static/js/script.js:117 | what follows that dot is the lower-cased last dot-separated piece, the longest dot-free suffix of the name |
| Upload.CheckExtension | static/js/script.js:117-122 | the check accepts exactly the names whose extension is .xlsx or .csv |
| Upload.ClientAccepts | static/js/script.js:115-119 | the browser keeps a name whose computed extension is one of `.xlsx` and `.csv`; Upload.ClientAcceptsIff states it on the name itself |
| Upload.LowerDot | static/js/script.js:117 | lower-casing maps a character to '.' exactly when it is '.' |
| Upload.LowerKeepsDots | static/js/script.js:117 | lower-casing keeps every dot where it is and adds none |
| Upload.LastPieceIsToSuffix | static/js/script.js:117 | a dot-free last piece equal to w means that the lower-cased name ends in "." + w or is w |
| Upload.BareWordIsLastPiece | static/js/script.js:117 | a dot-free name that lower-cases to w has last piece w |
| Upload.DottedSuffixIsLastPiece | static/js/script.js:117 | a lower-cased name ending in "." + w has last piece w |
| Upload.DotBeforeSuffix | static/js/script.js:117 | when the lower-cased name ends in "." + w for dot-free w, the name has a dot at that place, no dot after it, and what follows lower-cases to w |
| Upload.LastPieceIs | static/js/script.js:117 | for dot-free w, the lower-cased last piece is w exactly when the name ends in "." + w or is w (lower-cased) |
| Upload.ExtensionIs | static/js/script.js:117-119 | the extension is "." + w exactly when the lower-cased name ends in "." + w or is w |
| Upload.ClientAcceptsIff | static/js/script.js:117-122 | the browser accepts a file exactly when its lower-cased name ends in .xlsx or .csv, or is "xlsx" or "csv" |
| Upload.ServerAdmission | app.py:120-132 | no file part, an empty name, a name ending case-sensitively in .xlsx (Excel reader), in .csv (CSV reader), or anything else (unsupported), each case exactly |
| Upload.AdmissionMessage | app.py:121-132 | the three refusal texts of the route, one per admission error; Workflow.AnalysisWithoutFileRefused uses the first |
| Upload.SuffixExtension | static/js/script.js:117 | a name ending in "." + w, with w dot-free and already lower-case, has extension "." + w |
| Upload.XlsxSuffixAccepted | app.py:127-128 | a name ending in .xlsx passes the browser's check |
| Upload.CsvSuffixAccepted | app.py:129-130 | a name ending in .csv passes the browser's check |
| Upload.ServerAcceptedIsClientAccepted | app.py:127-132 | every name the server admits passes the browser's check |
| Upload.UpperCaseExtensionDisagrees | app.py:127-132 | "Data.CSV" passes the browser's check and the server refuses it as unsupported |
| Upload.DataCsvLowered | static/js/script.js:117 | "Data.CSV" lower-cases to "data.csv" |
| Upload.DotlessNameDisagrees | static/js/script.js:117-122 | the dot-less name "csv" passes the browser's check and the server refuses it |
| Upload.SuffixHasDot | app.py:127-129 | a name ending in a suffix that starts with a dot contains a dot |
| Upload.ServerAcceptedHasDot | app.py:127-132 | every name the server admits contains a dot |
| Schema.Names | app.py:41 | the column names of a frame, in column order |
| Schema.Keys | app.py:41 | the comparison key of each column name is its lower-cased, stripped form |
| Schema.MatchingColumns | app.py:41 | the comprehension keeps only column names of the frame |
| Schema.IndexFrom | app.py:41-43 | the first column from position j on whose key equals the given key, or none |
| Schema.MatchingHead | app.py:41-43 | the comprehension is empty exactly when no column has the key, and otherwise starts at the first column that does |
| Schema.ResolveFrom | app.py:40-45 | the search stops at the first spelling some column answers to, and every spelling before it is answered by none |
| Schema.ResolveFirstAliasWins | app.py:38-45 | the first spelling in list order that some column answers to wins, with the first such column in column order; nothing is found exactly when no spelling is answered |
| Schema.FoundColumn | app.py:40-45 | the column found for one required column; Schema.FoundColumnMatches states that it is found exactly when some spelling is answered, and answers to one of them |
| Schema.RetourColumns | app.py:57 | there is no `retour` column exactly when no column is named `retour` |
| Schema.RetourCheck | app.py:57-69 | once everything is renamed, the result is valid exactly when there are no errors, carries the frame exactly when valid, and that frame is the renamed one |
| Schema.ValidateAgainst | app.py:37-69 | valid exactly when there are no errors; the frame is None exactly when invalid; a missing column rejects the frame with the missing-column errors alone |
| Schema.SearchColumn | app.py:39-45 | the inner loop finds the column the specification resolves to |
| Schema.SearchColumns | app.py:37-48 | the outer loop yields exactly the specified missing-column errors and found columns, in mapping order |
| Schema.RenameFound | app.py:51-54 | the rename loop yields the specified renamed frame |
| Schema.CheckRetour | app.py:56-67 | the checks on `retour` yield the specified verdict |
| Schema.ValidateSchemaAgainst | app.py:34-69 | the body of `validate_schema`, against any mapping, equals the specification function |
| Schema.ValidateSchema | app.py:22-69 | `validate_schema` with its own mapping equals the specification function |
| Schema.Validate | app.py:22-69 | `validate_schema` with its own mapping; Schema.ValidateReportsMissing, Schema.ValidFrameIsCanonical and Schema.RetourVerdict state its outcome |
| Schema.MissingErrors | app.py:38-48 | the missing-column errors in mapping order; Schema.MissingErrorsExact and Schema.MissingErrorsInMappingOrder state which ones and in what order, and Schema.SearchColumns computes them |
| Schema.Found | app.py:38-45 | `found_columns` in mapping order; Schema.FoundComplete states its shape and Schema.SearchColumns computes it |
| Schema.SearchStep | app.py:38-48 | one more required column adds its missing-column error when it cannot be resolved, and its found column otherwise |
| Schema.RenameColumns | app.py:54 | `df.rename(columns={actual: standard})`; Schema.ApplyRenamesPointwise states that it renames exactly the columns called `actual` and keeps every cell |
| Schema.ApplyRenames | app.py:51-54 | the rename loop; Schema.ApplyRenamesPointwise and Schema.RenamedNameIs state what it changes, and Schema.RenameFound computes it |
| Schema.Renamed | app.py:51-54 | the frame after the renames; Schema.CanonicalNamesPresent, Schema.CanonicalNamesKept and Schema.OtherNamesKept state its names |
| Schema.DistinctNonNull | app.py:59 | `dropna().unique()`; Schema.DistinctNonNullContents states its contents |
| Schema.NonBinary | app.py:60 | the invalid-value comprehension; Schema.NonBinaryContents states its contents |
| Schema.RetourErrors | app.py:56-67 | the errors the `retour` column adds; Schema.RetourErrorsMeaning states when each appears |
| Schema.MissingErrorsExact | app.py:38-48 | every error is a missing column of the mapping that no column answers to, and every such column is reported |
| Schema.MissingErrorsSound | app.py:38-48 | every reported error is a missing column of the mapping that no column answers to |
| Schema.MissingErrorsComplete | app.py:38-48 | every column of the mapping that no column answers to is reported |
| Schema.Canonicals | app.py:24-32 | the canonical names, in mapping order |
| Schema.MissingErrorsFromMapping | app.py:47-48 | each error names a canonical column of the mapping |
| Schema.MissingErrorsOncePerColumn | app.py:38-48 | with distinct canonical names, no column is reported missing twice |
| Schema.FoundColumnMatches | app.py:40-45 | a column is found exactly when some spelling is answered, and the found column answers to one of the spellings |
| Schema.FoundComplete | app.py:38-45 | when nothing is missing, exactly one column is found per required column, in mapping order |
| Schema.ApplyRenamesPointwise | app.py:51-54 | renaming keeps the number of columns and each column's cells, and changes names one column at a time |
| Schema.RenamedNameIs | app.py:51-54 | under independent renames, a name is renamed once, to its canonical name, or not at all |
| Schema.FoundIndependent | app.py:51-54 | the renames of a complete search over the mapping never touch the same name twice or chain |
| Schema.CanonicalNamesPresent | app.py:51-54 | when nothing is missing, every canonical name is a column name after renaming, and the cells are unchanged |
| Schema.CanonicalNamesKept | app.py:52-53 | a column already carrying a canonical name is not renamed |
| Schema.CanonicalNameKeptAt | app.py:52-53 | for one column named after a canonical name, renaming leaves that name in place |
| Schema.OtherNamesKept | app.py:51-54 | a column answering to no spelling keeps its name |
| Schema.DistinctNonNullContents | app.py:59 | `dropna().unique()` holds exactly the non-null values, each once |
| Schema.NonBinaryContents | app.py:60 | the invalid values are exactly those other than 0 and 1; there are none exactly when all are 0 or 1; no duplicates appear |
| Schema.RetourErrorsMeaning | app.py:57-67 | `retour` passes exactly when every cell is 0 or 1; the missing-value error appears exactly when a cell is null; the reported values are the distinct invalid ones |
| Schema.RetourPassesIffBinary | app.py:57-67 | `retour` yields no error exactly when every cell is 0 or 1 |
| Schema.RetourInvalidValues | app.py:60-63 | the invalid-value error lists each distinct non-null value other than 0 and 1 once, and only those |
| Schema.FirstSpellingIsCanonical | app.py:24-32 | every required column's first spelling is its canonical name |
| Schema.SpellingsDifferAcrossColumns | app.py:24-32 | no spelling is shared between two required columns |
| Schema.PlainSpellings0 | app.py:25 | the `id_commande` spellings are already lower-case and stripped |
| Schema.PlainSpellings1 | app.py:26 | the `id_client` spellings are already lower-case and stripped |
| Schema.PlainSpellings2 | app.py:27 | the `id_produit` spellings are already lower-case and stripped |
| Schema.PlainSpellings3 | app.py:28 | the `prix` spellings are already lower-case and stripped |
| Schema.PlainSpellings4 | app.py:29 | the `catégorie` spellings are already lower-case and stripped |
| Schema.PlainSpellings5 | app.py:30 | the `note_client` spellings are already lower-case and stripped |
| Schema.PlainSpellings6 | app.py:31 | the `retour` spellings are already lower-case and stripped |
| Schema.PlainSpellings | app.py:24-32 | every spelling of the mapping is already lower-case and stripped |
| Schema.MappingSeparated | app.py:24-32 | spellings of different columns never share a key, and the canonical names are distinct |
| Schema.ValidateReportsMissing | app.py:38-51 | a column is reported missing exactly when some required column cannot be found, and the frame is then rejected with those errors alone |
| Schema.GenericReportsMissing | app.py:38-48 | for any mapping, some error is reported exactly when some entry is unresolvable |
| Schema.MissingErrorsOfMapping | app.py:38-48 | the missing-column errors name exactly the unresolvable required columns, each once, in mapping order |
| Schema.MissingErrorsInMappingOrder | app.py:38-48 | with distinct canonical names, an earlier error names a required column that comes earlier in the mapping |
| Schema.OrderExtends | app.py:38-48 | appending the errors of one more required column keeps mapping order |
| Schema.ValidFrameIsCanonical | app.py:51-54 | a frame that passes comes back renamed; it carries every canonical name with the same columns and cells, and leaves names already canonical or matching nothing alone |
| Schema.RetourVerdict | app.py:56-69 | with nothing missing, there is a `retour` column; two of them make the call raise; with one, the frame passes exactly when all its cells are 0 or 1, and a null is reported exactly when present |
| Risk.MasksExclusive | app.py:214-217 | the three bucket conditions are exhaustive and pairwise exclusive |
| Risk.LevelOf | app.py:215-217 | each probability has exactly one bucket, high above 0.7, medium in (0.3, 0.7], low at or below 0.3 |
| Risk.RiskLevel | static/js/script.js:582-586 | `getRiskLevel` gives the name of the probability's level |
| Risk.RiskClass | static/js/script.js:589-593 | `getRiskClass` gives the style class of the probability's level |
| Risk.LevelLabel | static/js/script.js:582-586 | the name of each level; Risk.LabelsDistinct states that the names differ |
| Risk.LevelClass | static/js/script.js:589-593 | the class of each level; Risk.LabelsDistinct states that the classes differ |
| Risk.LabelsDistinct | static/js/script.js:582-593 | the three level names and the three classes are pairwise different |
| Risk.LevelAndClassAgree | static/js/script.js:582-593 | `getRiskLevel` and `getRiskClass` split at the same thresholds: a probability gets Élevé exactly when it gets risk-high, Modéré exactly with risk-medium, Faible exactly with risk-low |
| Risk.PercentRiskAgrees | static/js/script.js:404-413 | over exact reals, the percentage-based rule gives the same class and label as `getRiskClass`/`getRiskLevel` |
| Risk.PercentRisk | static/js/script.js:403-413 | the gauge's class and label from the percentage; Risk.PercentRiskAgrees states that they are `getRiskClass`/`getRiskLevel` of the probability |
| Risk.Label | app.py:110 | the prediction is 0 or 1, and 1 exactly when the probability is above 0.5 |
| Risk.LabelFollowsLevel | app.py:110 | a high-risk order is always predicted to come back, a low-risk one never |
| Risk.CountLevel | app.py:215-217 | a bucket never counts more orders than there are |
| Risk.CountsPartition | app.py:214-217 | high + medium + low is the total number of orders |
| Risk.CountPositive | app.py:110 | the number of orders predicted to come back is at most the total |
| Risk.PositivesBetweenCounts | app.py:110 | that number lies between the high count and the high count plus the medium count |
| Predict.Predictions | app.py:106-111 | one 0/1 label per probability, 1 exactly above 0.5 |
| Predict.Truncate | app.py:240 | `int()` of a number truncates toward zero |
| Predict.RowId | app.py:240 | the order id of an entry: null for a missing value, the truncated number otherwise; Predict.FirstRows states that a text id makes the loop raise |
| Predict.FirstRows | app.py:236-243 | the rows are the first k orders with their id, probability and prediction; the loop raises exactly when one of those ids is text |
| Predict.BuildPredictionsData | app.py:236-243 | the index-guarded loop over all rows yields exactly the first min(20, n) rows |
| Predict.PredictionsData | app.py:236-243 | `predictions_data`; Predict.BuildPredictionsData computes it and Predict.FirstRows states its entries |
| Predict.Summarize | app.py:214-217 | the three counts add up to the total number of orders |
| Predict.PredictRoute | app.py:198-270 | the route with its counts as Python integers: the no-data error exactly without an analysis; a success exactly when an analysis is stored, training and prediction do not raise, and none of the first min(20, n) ids is text; a success lists those min(20, n) predictions with their probabilities and labels, reports n orders split into high, medium and low counts that add up to n, and links to /download |
| Predict.CountsAsWritten | app.py:214-217 | the four counts as the route builds them: the total is len() and the three bucket counts, which add up to it, are numpy integers, so not every count is serializable |
| Predict.PredictRouteAsWritten | app.py:198-270 | the route as written, where jsonify raises on the numpy counts; Predict.AsWrittenNeverPredicts states its answers |
| Predict.AsWrittenNeverPredicts | app.py:258-270 | as written, the route answers the no-data error without an analysis and the error answer with one, never a success |
| Predict.AsWrittenDiffers | app.py:258-270 | one order with id 1 and probability 0.9 gets a success from the intended route and the error answer from the route as written |
| Analyze.RowDict | app.py:181-184 | a preview row has exactly the frame's column names as keys |
| Analyze.RowDictValue | app.py:181-184 | under a name, the row holds the cell of the last column with that name; when no later column shares the name, that is the column's own cell |
| Analyze.Preview | app.py:179-185 | the preview has min(10, number of rows) rows |
| Analyze.BuildPreview | app.py:179-185 | the nested loops build exactly the specified preview |
| Analyze.CountOnesRange | app.py:149 | the number of ones in a column is at most its length, equals it exactly when every cell is 1, and is 0 exactly when no cell is 1 |
| Analyze.MeanOfBinary | app.py:149 | the mean of a 0/1 `retour` column is undefined exactly when it is empty; otherwise it lies in [0, 1], is 1 exactly when every order came back and 0 exactly when none did |
| Analyze.Share | app.py:149 | a count c out of n > 0 gives a share in [0, 1], 1 exactly when c = n and 0 exactly when c = 0 |
| Analyze.CountOnes | app.py:149 | the number of ones in a column; Analyze.CountOnesRange states its range |
| Analyze.MissingValues | app.py:148 | `isnull().sum().sum()`; Analyze.MissingValuesZero states when it is 0 |
| Analyze.CountNullZero | app.py:148 | a column counts no null cell exactly when it has none |
| Analyze.MissingValuesZero | app.py:148 | the missing-value figure is 0 exactly when no cell of any column is null |
| Analyze.StatsOf | app.py:146-150 | the three figures: the number of rows, the null count and the mean of `retour`; Analyze.ReturnRateAvailable and Analyze.MissingValuesZero state their meaning |
| Analyze.RenamedRectangular | app.py:137 | renaming keeps a frame rectangular and its number of rows |
| Analyze.AnalyzeFrame | app.py:71-196 | never a refusal; an unreadable file or a `validate_schema` that raises gives the error answer; a frame failing validation gives its schema errors and the available column names; a frame passing it gives a success exactly when its renamed `note_client` holds no text (whose mean raises) and, when it has rows, no two renamed columns share a name (whose preview cell raises); a success reports the number of rows and the null count of the renamed frame |
| Analyze.AnalyzeRoute | app.py:117-196 | the route refuses the file exactly when admission fails, with that reason, and otherwise answers as the frame check does |
| Analyze.ReturnRateAvailable | app.py:149 | after a success the return rate is never 'N/A', and it is undefined exactly when the frame has no rows |
| Analyze.RetourColumnsRectangular | app.py:149 | every `retour` column has one cell per row |
| Analyze.PreviewRowHasName | app.py:179-185 | each of the first ten rows of the preview has every column name of the frame |
| Analyze.PreviewHasCanonicalColumns | app.py:179-192 | after a success, every preview row has all seven canonical column names |
| Analyze.PreviewExact | app.py:179-185 | when no two columns share a name, every preview row maps each column name to that column's cell in that row |
| Analyze.AnalyzedPreviewExact | app.py:137-192 | after a success, every preview row maps each column name of the renamed frame to that column's cell in that row |
| Single.Stringify | static/js/script.js:361-371 | `JSON.stringify` writes a finite number as itself and NaN or an infinity as null |
| Single.RequestBody | static/js/script.js:361-371 | the body has exactly `categorie`, `prix` and `note_client`; the rating is null when its field is empty |
| Single.ClientValid | static/js/script.js:355 | the browser goes on with a non-empty category and a price that is not NaN; Single.ValidFormPasses and Single.SentRequestFailsOnlyOnPrice state what the server then does |
| Single.Message | app.py:275-284 | the two error texts of `predict_single`, the no-data one and `Champ manquant:` with the field |
| Single.FirstMissing | app.py:281-284 | the first required field that is absent or null, or none when all are present |
| Single.SingleCheck | app.py:275-284 | the checks of `predict_single`; Single.SingleCheckMeaning states the error for each case and Single.CheckSingleRequest computes it |
| Single.SingleCheckMeaning | app.py:275-284 | the no-analysis error exactly without analysis; otherwise `categorie` is reported when it is missing, `prix` when only it is missing, and nothing when both are present |
| Single.CheckSingleRequest | app.py:275-284 | the checking loop yields exactly the specified error |
| Single.ValidFormPasses | static/js/script.js:355-371 | a form the browser accepts with a finite price passes the server's field check |
| Single.InfinitePriceReportedMissing | static/js/script.js:355-371 | an infinite price passes the browser's check, but the server reports `prix` missing |
| Single.SentRequestFailsOnlyOnPrice | static/js/script.js:355-371 | a request the browser sends fails the field check exactly when the price is not finite, and then on `prix` |
| Display.AllKeys | static/js/script.js:236-242 | the set holds exactly the keys present in some preview row |
| Display.CollectColumns | static/js/script.js:237-242 | the `forEach` loops fill the set with exactly those keys |
| Display.KeptFrom | static/js/script.js:245 | the kept positions increase, each holds a present key, and every position with a present key is kept |
| Display.FilterColumns | static/js/script.js:245 | `filter` keeps exactly the entries whose key is present |
| Display.ColumnKeys | static/js/script.js:226-234 | the keys of the column entries, in order |
| Display.ColumnOrderKeysDistinct | static/js/script.js:226-234 | the fixed column order has no key twice |
| Display.FilterSpec | static/js/script.js:245 | filtering takes entries at increasing positions and keeps keys distinct |
| Display.DisplayedColumnsSpec | static/js/script.js:226-245 | the displayed columns are a subsequence of the column order, with no duplicates, holding exactly the entries whose key some preview row has |
| Display.DisplayedColumns | static/js/script.js:226-245 | the header of the preview table; Display.DisplayedColumnsSpec states its contents |
| Display.ShowCell | static/js/script.js:262-267 | a missing key shows '', a `prix` value other than '' gets the euro suffix, and anything else shows as itself |
| Display.RenderPreview | static/js/script.js:259-273 | at most ten rows are rendered, each with one cell per displayed column |
| Display.FullPreviewShowsAllColumns | static/js/script.js:226-245 | a preview carrying all seven canonical columns shows the whole column order |
| Display.AllPresentKeepsAll | static/js/script.js:245 | when every key is present, filtering keeps everything |
| Display.KeptAll | static/js/script.js:245 | when every key is present, every position is kept |
| Display.Line | static/js/script.js:518-527 | a table line blanks a missing or zero id, says Oui exactly for prediction 1, and uses getRiskLevel/getRiskClass |
| Display.RenderPredictions | static/js/script.js:516-529 | the first min(20, n) predictions are rendered, one line each |
| Display.LineConsistent | static/js/script.js:518-527 | for a server-made prediction, a line says Oui exactly above 0.5, always for Élevé and never for Faible |
| Display.SingleGauge | static/js/script.js:398-419 | the gauge shows the percentage, and says "Retour probable" exactly for prediction 1 |
| Display.GaugeAgreesWithTable | static/js/script.js:404-416 | the gauge shows the same level and class as the table; for a server-made prediction, high risk reads "Retour probable" and low risk "Retour improbable" |
| Workflow.UploadEffects | static/js/script.js:117-141 | a refused name shows only the invalid-type error; an accepted one shows the success message naming the file and then schedules the analysis; an error is shown exactly when the name is refused |
| Workflow.ErrorText | static/js/script.js:186 | `result.error` is shown unless it is absent or empty; then the fallback is shown |
| Workflow.DownloadHref | static/js/script.js:604 | the link is the server's URL, or /download when that is empty; it is never empty |
| Workflow.ReplyMessage | static/js/script.js:181-190 | a finished request shows the success text, the server's error or fallback, or the connection error |
| Workflow.Controller.constructor | static/js/script.js:2-4 | the page starts with the three globals null |
| Workflow.Controller.HandleFileUpload | static/js/script.js:112-142 | a refused extension shows the error and leaves every global unchanged; an accepted file becomes `uploadedFile` and schedules the analysis, and no other global changes |
| Workflow.Controller.RemoveFile | static/js/script.js:145-164 | the three globals become null |
| Workflow.Controller.StartAnalysis | static/js/script.js:167-177 | the overlay is shown and the current `uploadedFile` is sent |
| Workflow.Controller.FinishAnalysis | static/js/script.js:179-193 | `analysisData` is replaced only on success, the matching message is shown and the overlay hidden |
| Workflow.Controller.StartPredictions | static/js/script.js:434-446 | the overlay is shown and `analysisData` is sent as it is |
| Workflow.Controller.FinishPredictions | static/js/script.js:448-462 | `predictionsData` is replaced only on success, the matching message is shown and the overlay hidden |
| Workflow.Controller.PredictSingle | static/js/script.js:344-371 | an empty category or a NaN price shows an error, sends nothing and hides the overlay; otherwise the form's JSON body is sent |
| Workflow.Controller.FinishPredictSingle | static/js/script.js:373-386 | on success the gauge shows the answer; the matching message is shown and the overlay hidden |
| Workflow.Controller.DownloadResults | static/js/script.js:596-611 | without predictions only an error is shown; otherwise the download starts and a success message follows; no global changes |
| Workflow.AnalysisWithoutFileRefused | app.py:120-121 | a request sent without a file, as after `removeFile`, is refused with 'Aucun fichier fourni' |
| Workflow.ServerResultLinksToDownload | app.py:264 | a download started from a success of the intended route goes to /download |

## Left out

- The HTML the browser writes is not modelled: headers, row markup, icons, modals, `scrollIntoView`, the probability circle's angle, the three-second auto-close of messages, page navigation and drag-and-drop. A table is modelled as its sequence of cells, and a message as its type and text.
- `fetch`, `FormData`, JSON parsing, Flask routing, `send_file` and the `/download` route are network I/O. A request is recorded as an effect, and each answer is a parameter of the handler that receives it.
- Model training and prediction (`train_model`, `predict_proba`, `StandardScaler`, `LabelEncoder`) are foreign library calls. Their outcome is a parameter of the prediction route: the probabilities, or none when they raise, which the route answers with the error. Which frames make them raise is not modelled: for example a null or text `prix`, a `retour` with one class only, or a frame without rows.
- `clean_and_preprocess_data` is left out for the same reason. It imputes missing values and encodes categories. The model keeps one way it fails on a frame that passed validation: a `note_client` column holding text makes its mean raise.
- Analyze.AnalyzeFrame: other exceptions of `clean_and_preprocess_data` are not modelled. For example, on a frame without rows, two columns renamed to the same `catégorie` name hand a two-column selection to the label encoder; the model answers with a success there.
- Reading the uploaded file (`read_excel`, `read_csv`) is left out. The frame it produces, or none when it cannot be read, is a parameter of the analyze route.
- The charts (matplotlib, base64) and the Excel workbook (`ExcelWriter`) are foreign library output.
- Number formatting is floating-point text: `toFixed(1)`, the `:.1f` percentages and the `:.2%` return rate. Numbers are exact reals.
- `convert_to_serializable` is left out: it dispatches on numpy dtypes the model does not have. A preview cell is the frame's cell as it is. The one failure kept is a row value read under a name that two columns carry, which is a Series, so `pd.isna` gives no single truth value.
- The shared `app.current_analysis` across requests is not modelled: the prediction routes get "is there an analysis" as a parameter. Overlapping browser requests are not modelled either. Both are concurrency.
- `checkDataAndShowPredictions` is left out: it reads an `app` object that does not exist in the browser.
- The twelve prediction-table headers over four cells per row are a markup mismatch. The model keeps only the four cells.
- test_data.py is not part of this model. It generates random data into a file.
- The text of the schema errors is left out: the missing-column sentence, the numpy rendering of the invalid `retour` values and the `Erreurs: ...<br><br>Colonnes disponibles: ...` composition. Errors and responses stay structured: the canonical name with the spellings searched, the list of invalid values, the available column names.
- Exception texts (`'Erreur: ' + str(e)`) are left out. Every exception is one `Failed`/`Raised` outcome.
- Text.Lower and Text.Strip cover only the Basic Latin and Latin-1 letters and whitespace. Characters beyond U+00FF are treated as neither upper-case nor whitespace.
- A cell is null, a number or a text. pandas booleans are not modelled: a TRUE/FALSE `retour` column would pass the 0/1 check, since `True in [0, 1]` holds in Python.
- Column labels are strings. pandas also allows numeric labels, which make `col.lower()` raise; that is not modelled.
- Predict.FirstRows: `int()` of an id held as text is modelled as raising, although Python accepts a text of digits.
- `parseFloat` of the form's text is left out. The form holds its result as a JavaScript number: NaN, an infinity or a finite value.
- A `predict_single` body that is not a JSON object is not modelled: the body is always the dictionary the browser sends.
- Workflow.ServerResultLinksToDownload is stated about the intended prediction route. As written, that route never succeeds (see Findings).

## Findings

| source | as written | input that shows it | evidently intended | confidence | as-written member | corrected member |
|---|---|---|---|---|---|---|
| app.py:214-270 | `high_risk`, `medium_risk` and `low_risk` are `.sum()`s of numpy boolean arrays, so numpy.int64; `jsonify` cannot encode them and raises, and the `except` turns every request with a stored analysis into the error answer | a stored analysis with one order, id 1, to which the classifier gives probability 0.9 | a success answer carrying the counts as Python integers, which the browser's `performPredictions` expects | not executed | Predict.PredictRouteAsWritten | Predict.PredictRoute |
