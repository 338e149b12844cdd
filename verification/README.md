# Airline review ETL: the transform pipeline in Dafny

This project models the cleaning and feature-engineering pipeline of an
airline-review ETL repository. The pipeline turns a table of scraped
British Airways reviews into a tidy table with one row per review.

- `transform` has eight stages:
  - removes parentheses from the country;
  - splits the review body into a "Trip Verified" flag and the review text;
  - parses the review date ("15th March 2024");
  - splits the flown date ("May 2019") into month, year, month number and `MM-YYYY`;
  - strips surrounding whitespace from every text cell;
  - sorts by review date, newest first, and numbers the rows;
  - renames the columns to snake case;
  - selects 25 columns in a fixed order.
- `feature_engineer` adds:
  - the mean of five ratings (`score`);
  - the route split into origin, destination and transit, with airport
    spellings normalised;
  - the aircraft split into two cleaned aircraft codes;
  - an experience band from the value-for-money rating;
  - `recommended` as a boolean.

  Then it selects 32 columns in a fixed order.

The model follows pandas 2.x from 2.2 on. The canonical copy's
`future.no_silent_downcasting` option needs 2.2, and from pandas 2.0 on
`str.replace` treats its pattern as plain text unless it is given
`regex=True`. pandas 3.0 behaves differently in ways the model does not
follow (see "## Left out").

The repository holds three copies of the pipeline. They differ in small
ways, and `Prelude.Variant` names them:

- `Canonical`: `etl/transform.py`.
- `Aws`: `etl-aws/data_cleaning.py` with `etl-aws/feature_engineering.py`.
  - The cabin-staff rating is called `cabit_serv`.
  - The digit replacements for 777, 170 and 190 are literal, not regular
    expressions.
  - `recommended` is never cast to booleans.
- `Legacy`: `etl/etl-aws/data_cleaning.py` with `etl/feature_engineering.py`.
  - Parentheses are removed by two literal replacements.
  - The review-body guard never holds, so a table without `review_bodies`
    raises.
  - A body with three or more pipe-separated pieces raises.
  - `verified` is selected twice, giving 26 columns.
  - The feature step stops after the aircraft codes: it has no experience
    or recommendation stage, and `score` is computed but not selected.

A pandas DataFrame is `Frame.Table`: column names, one list of cells per
column, and a shared row count. Each cell is a `Frame.Value`: missing, text,
number, boolean or timestamp. A stage that raises gives
`Prelude.Result.Err` carrying a `Prelude.Failure` that says why:

- a missing column (`KeyError`);
- a split whose width the assignment cannot take;
- a column with no text;
- an unparseable review date;
- a route with two " via ";
- a value that is not boolean;
- a duplicated aircraft column.

Every stage is a pure function. Each one has a contract that says which
inputs make it fail, what it writes, and that it leaves every other column
untouched. Lemmas then relate the whole runs (`Cleaning.Transform`,
`Features.FeatureEngineer`, `Features.Run`) back to the stages and to their
inputs.

Some of the code's behaviour is easy to misread, and the model follows
the code in each case:

- `experience` (etl/transform.py:183-189) is "unknown" only for a missing
  rating or one strictly between 2 and 3 or between 3 and 4. A rating of 0
  is "Poor" and a rating of 7 is "Good", because the code compares with
  `<= 2` and `>= 4`; nothing checks a 1-5 scale.
- `recommended` values other than "yes", "no" and missing make the
  canonical cast raise (etl/transform.py:199). They do not pass through as
  unknown.
- A review date with three tokens that does not parse makes the stage
  raise, because `pd.to_datetime` is called without `errors='coerce'`
  (etl/transform.py:35-38). Only a date with fewer than three tokens
  becomes missing.
- Rows with equal review dates are not kept in input order
  (etl/transform.py:68): `sort_values` defaults to an unstable sort. The
  model leaves their order open.

## Model

| member | source | states |
|---|---|---|
| Country.CleanCountry | etl/transform.py:7-9 | no parenthesis survives in the cleaned country, and a country without parentheses is left as it is |
| Country.CleanCountryKeeps | etl/transform.py:8 | cleaning goes character by character: a concatenation cleans to the concatenation of its cleaned parts, and one character is deleted iff it is a parenthesis, so every other character is kept in order |
| Country.CleanCountries | etl/transform.py:7-9 | the stage fails only on a non-empty column holding no text; otherwise every present cell is cleaned and every missing cell stays missing |
| Country.CleanCountryIdempotent | etl/transform.py:8 | cleaning an already cleaned country changes nothing |
| Country.CleanParenthesised | etl/transform.py:8 | a parenthesised suffix keeps its text and loses only the two parentheses |
| Country.ScenarioUnitedKingdom | etl/transform.py:8 | "United Kingdom (UK)" becomes "United Kingdom UK" |
| Country.LegacyAgrees | etl/etl-aws/data_cleaning.py:5-8 | the older copy's two literal replacements give the same text as the regular-expression rule for every input |
| Country.LegacyColumnAgrees | etl/etl-aws/data_cleaning.py:7 | the older copy cleans the whole column, and fails, exactly as the canonical copy |
| Cleaning.CleanCountryStage | etl/transform.py:7-9 | the stage fails iff `countries` is missing or holds no text; on success only `countries` changes, to the cleaned column |
| ReviewSplit.SplitWidth | etl/transform.py:15 | the width of the expanded split is the largest piece count of any row, and zero only when no row has text |
| ReviewSplit.CleanReviewsIsRowwise | etl/transform.py:15-26 | the split fails only when no row has a body; otherwise each row's review and flag depend on that row's body alone, as `ReviewOf` describes |
| ReviewSplit.NoPipeMeansUnverified | etl/transform.py:17-19 | when no body contains a pipe character, every body becomes the review and no row is verified |
| ReviewSplit.ReviewWithoutPipe | etl/transform.py:17-26 | a body without a pipe character is all review, not verified |
| ReviewSplit.ReviewAfterPipe | etl/transform.py:20-26 | for a tag, a pipe and a text, the review is the text, and the row is verified iff the tag contains "Trip Verified" ignoring case |
| ReviewSplit.VerifiedHeader | etl/transform.py:20-26 | a body headed "Trip Verified" and a pipe is verified and keeps the rest as review |
| ReviewSplit.ScenarioPlain | etl/transform.py:17-26 | "Average flight" is an unverified review |
| ReviewSplit.LegacyAgreesUpToTwoPieces | etl/etl-aws/data_cleaning.py:10-39 | the older `clean_review` fails when some body has three or more pieces, and otherwise agrees with the canonical one |
| Cleaning.ReplaceBodies | etl/transform.py:18-28 | `review_bodies` is dropped, `review` and `verified` hold the split rows, and every other column is unchanged |
| Cleaning.CleanReviewStage | etl/transform.py:11-29 | without `review_bodies` the canonical and etl-aws copies return the table unchanged and the older copy fails with a missing column; with it, the stage fails iff the split fails and otherwise replaces the bodies |
| Cleaning.ReviewStageNames | etl/transform.py:11-29 | the stage adds no column except `review` and `verified`, and those only when `review_bodies` was there |
| ReviewDate.TokenWidth | etl/transform.py:32 | the width of the whitespace split is the largest token count of any row |
| ReviewDate.DropLastTwo | etl/transform.py:33 | the day loses its last two characters, and a shorter text becomes empty |
| ReviewDate.DayField | etl/transform.py:35-38 | `%d` accepts one non-zero digit, or two digits from 01 to 31 |
| ReviewDate.YearField | etl/transform.py:35-38 | `%Y` accepts exactly four digits |
| ReviewDate.ParseDayMonthYear | etl/transform.py:35-38 | a date parses iff day, month name (any case) and year parse, the day exists in that month, and the date lies in the pandas Timestamp range |
| ReviewDate.RowParts | etl/transform.py:32-38 | the day cell is the first token less its last two characters, the month cell the second token and the year cell the third, each missing exactly when the row has no such token; a parsed row's date agrees with those three fields; a row that is neither parsed nor rejected has fewer than three tokens |
| ReviewDate.CleanDateReview | etl/transform.py:31-40 | the stage succeeds iff the widest row has exactly three tokens and no complete row is rejected; each row is then `RowParts` of its cell; a wrong width fails at the `.str` accessor exactly when the column is non-empty and holds no text, and otherwise at the assignment |
| ReviewDate.WrittenDateWords | etl/transform.py:32 | a written date splits into day-with-suffix, month name and year |
| ReviewDate.WrittenFieldsParse | etl/transform.py:35-38 | the written fields of any valid in-range date parse back to that date |
| ReviewDate.ParseWrittenDate | etl/transform.py:31-40 | round trip: writing a valid in-range date as "15th March 2024" and cleaning it gives back that date and its three fields |
| ReviewDate.ScenarioFifteenthMarch | etl/transform.py:31-40 | "15th March 2024" gives day "15", month "March", year "2024" and 15 March 2024 |
| Cleaning.WriteReviewDates | etl/transform.py:32-38 | the four date columns hold day, month, year and timestamp of each row, and every other column is unchanged |
| Cleaning.CleanDateReviewStage | etl/transform.py:31-40 | the stage fails iff `dates` is missing or the dates do not clean; otherwise it writes the cleaned rows |
| Cleaning.ReviewDateStageMeaning | etl/transform.py:31-40 | a row's timestamp is missing iff its cell has fewer than three tokens; a present timestamp is a valid in-range date; the day column holds the first token less two characters and the month column the second token, each missing exactly when the row has no such token |
| Calendar.MonthNumber | etl/transform.py:46-51 | the dictionary lookup succeeds exactly on the twelve English month names and gives their position |
| Calendar.MonthFromName | etl/transform.py:37 | `%B` accepts a month name in any case and gives its position |
| Calendar.MonthNamesDistinct | etl/transform.py:46-49 | no two month names are equal, even ignoring case |
| Calendar.MonthOfOwnName | etl/transform.py:46-51 | each month's own name maps back to its number, both exactly and ignoring case |
| Calendar.DaysInMonth | etl/transform.py:35-38 | months have 28 to 31 days, and 29 only in February of a leap year |
| Calendar.OnOrBeforeTotalOrder | etl/transform.py:68 | the order on dates is reflexive, total, antisymmetric and transitive |
| Calendar.Pad2 | etl/transform.py:57 | `zfill(2)` of a month number is two digits whose value is the month |
| FlownDate.FlownWidth | etl/transform.py:44 | the width of the single-space split is the largest piece count of any row, and zero only without text |
| FlownDate.MonthNumberOf | etl/transform.py:51 | a month number exists iff the cell is exactly a month name, and it is that name's position |
| FlownDate.MonthYear | etl/transform.py:54-60 | `MM-YYYY` exists iff the month number is 1-12, the year is four digits and the first of that month is a pandas Timestamp; then it reads back as that month and year |
| FlownDate.CleanDateFlown | etl/transform.py:42-62 | the stage succeeds iff the widest row has exactly two pieces, and then cleans each row on its own |
| FlownDate.FlownRowMeaning | etl/transform.py:44-60 | month and year are the first two pieces; the number exists iff the month is a month name; `MM-YYYY` reads back as that number and year |
| FlownDate.FlownOfWritten | etl/transform.py:42-62 | round trip: "May 2019" written from any in-range month and four-digit year cleans to that name, year, number and `MM-YYYY` |
| FlownDate.ScenarioMay2019 | etl/transform.py:42-62 | "May 2019" gives May, 2019, 5 and "05-2019" |
| FlownDate.ScenarioAbbreviated | etl/transform.py:46-60 | "Sept 2019" gets no month number and no `MM-YYYY` |
| FlownDate.FlownWithoutSpace | etl/transform.py:44-60 | a cell without a space is all month, with no year and no `MM-YYYY` |
| FlownDate.ScenarioNoYear | etl/transform.py:44-60 | "May" has no year and no `MM-YYYY` |
| FlownDate.ScenarioLowerCaseMonth | etl/transform.py:46-51 | the flown-month dictionary is case-sensitive while `%B` is not: "march" gets no number from the one and 3 from the other |
| Cleaning.FlownRenameFindsColumn | etl/transform.py:43 | after the rename, `Month Flown` holds the former `Date Flown` column |
| Cleaning.WriteFlown | etl/transform.py:44-60 | the five flown columns hold each row's month, year, month number, review-month number and `MM-YYYY`, and every other column is unchanged |
| Cleaning.CleanDateFlownStage | etl/transform.py:42-62 | the stage fails iff the renamed `Month Flown` or `Month Review` is missing or the split fails; a missing `Month Flown` is reported as such |
| Cleaning.FlownStageRows | etl/transform.py:44-60 | each written cell is the matching field of that row's cleaned flown date, and the review-month number comes from that row's review month |
| Cleaning.FlownStageMeaning | etl/transform.py:42-62 | the month and year columns are the first two pieces of the flown date; `month_fly_num` is the month's number; `MM-YYYY` reads back as them |
| Frame.Trim | etl/transform.py:64-65 | every cell is stripped in place; the names and the row count do not change |
| Frame.TrimMeaning | etl/transform.py:64-65 | only text cells change; a stripped text is the original less whitespace on both ends, and starts and ends without whitespace |
| Frame.TrimIdempotent | etl/transform.py:64-65 | stripping a stripped table changes nothing |
| Text.Strip | etl/transform.py:65 | the result is the text with leading and trailing whitespace removed; it is empty iff the text is all whitespace |
| Text.StripIdempotent | etl/transform.py:65 | stripping twice is stripping once |
| Ids.AheadTotalOrder | etl/transform.py:68 | the sort order (latest date first, missing last) is a total order |
| Ids.SortOrder | etl/transform.py:68 | the sort gives a permutation of the rows that puts the dates in that order |
| Ids.SortedUnique | etl/transform.py:68 | two sorted arrangements of the same dates are equal |
| Ids.ReorderKeeps | etl/transform.py:68 | reordering by a permutation keeps every cell exactly once |
| Ids.Numbering | etl/transform.py:69 | the new `id` column is 0, 1, ..., n-1 |
| Ids.CreateId | etl/transform.py:67-70 | fails iff `Dates Review` is missing; otherwise the rows come out in some permutation that orders the dates, every other column moves with its row, and `id` numbers the new order |
| Ids.AdmissibleDatesAgree | etl/transform.py:67-70 | whatever order the sort picks among equal dates, the date column comes out the same |
| Frame.Rename | etl/transform.py:97 | renaming keeps every column and the row count, and replaces exactly the names the dictionary lists |
| Frame.RenameMoves | etl/transform.py:97 | a renamed column is found under its new name when no other column takes that name |
| Cleaning.RenameMapKeeps | etl-aws/data_cleaning.py:71-96 | the rename neither moves nor targets `id`, `review` or `verified` |
| Cleaning.RenameMapDates | etl/transform.py:72-97 | `Dates Review` and only it becomes `date_review` |
| Frame.Select | etl/transform.py:106 | `df[order]` fails iff some listed column is missing, reports the missing names, and otherwise gives exactly those columns in that order |
| Frame.SelectFinds | etl/transform.py:106 | a selected column holds what it held before the selection |
| Cleaning.BeforeFeShape | etl/etl-aws/data_cleaning.py:137-141 | the order before feature engineering has 25 names, and in the older copy 26, with `verified` at positions 1 and 7 |
| Cleaning.Transform | etl/transform.py:108-117 | a run that ends gives exactly the 25 (older copy: 26) ordered columns with one row per review; without `countries` it fails at the first stage |
| Cleaning.TransformSteps | etl/transform.py:108-117 | a run that ends is the stages composed in the order the pipe lists them |
| Cleaning.ParsedNames | etl/transform.py:108-112 | the parsing stages add no column except the date columns, and `review`/`verified` from the bodies |
| Cleaning.CleanedNames | etl/transform.py:108-114 | before renaming, the only new columns are the date columns, `id`, and `review`/`verified` from the bodies |
| Cleaning.TransformNumbers | etl/transform.py:67-70 | the output's `id` column is 0..n-1 |
| Cleaning.TransformSorts | etl/transform.py:67-70 | the output's `date_review` column is sorted latest first, missing last |
| Cleaning.TransformNeedsReview | etl/transform.py:99-106 | without `review_bodies` and `review`, every copy's transform fails |
| Scores.Present | etl/transform.py:120 | the mean looks only at numeric ratings, and finds none iff no rating is numeric |
| Scores.RowScore | etl/transform.py:119-121 | the score is missing iff no rating is numeric, and otherwise lies between the least and the greatest given rating |
| Scores.MeanBetween | etl/transform.py:120 | a mean lies between the least and the greatest element |
| Scores.ScoreInRange | etl/transform.py:120 | ratings within bounds give a score within the same bounds |
| Scores.ScoreOfEqualRatings | etl/transform.py:120 | equal given ratings score their common value, whatever is missing |
| Scores.ScoreSkipsMissing | etl/transform.py:120 | missing ratings are left out of the mean, not counted as zero |
| Features.ScoreColumn | etl/transform.py:119-121 | each row's score is the mean of that row's five ratings |
| Features.ScoreStage | etl/transform.py:119-121 | the stage fails iff a rating column is missing, reports those columns, and otherwise writes `score` from the ratings |
| Features.ScoreColumnSame | etl/transform.py:192-194 | a score computed again from unchanged rating columns is the same |
| Route.SplitRouteMeaning | etl/transform.py:124-139 | with " to ": the origin is the text before it; the destination and transit are either side of " via " in the next segment; two " via " fail. Without: the origin and destination are either side of the first "-", and there is no transit. A missing route gives three missing parts |
| Route.StripIfAny | etl/transform.py:139 | an empty or missing part stays missing, and a present one is stripped |
| Route.RouteWithTransit | etl/transform.py:127-131 | "A to B via C" gives A, B and C |
| Route.RouteWithDash | etl/transform.py:134-138 | "A-B" gives A and B with no transit |
| Route.RouteWithTwoTransits | etl/transform.py:131 | "A to B via C via D" fails to unpack |
| Route.RouteToBlank | etl/transform.py:139 | "A to " followed by whitespace gives an empty destination, not a missing one |
| Route.ScenarioLondonParisDublin | etl/transform.py:124-139 | "London to Paris via Dublin" gives London, Paris and Dublin |
| Route.Lookup | etl/transform.py:143-156 | a name is replaced iff it is a key of the table, and then by that key's value |
| Route.Replace | etl/transform.py:156 | a missing part stays missing, and a changed part was replaced by its synonym |
| Route.ReplaceMeaning | etl/transform.py:143-156 | a listed spelling becomes London Heathrow or London Gatwick, and any other name is kept |
| Route.TargetsAreNotKeys | etl/transform.py:143-154 | no replacement target is itself replaced |
| Route.ReplaceIdempotent | etl/transform.py:156 | replacing twice is replacing once |
| Route.ScenarioHeathrowSpelling | etl/transform.py:143-156 | "LHR" becomes "London Heathrow" and "CDG" is kept |
| Route.ScenarioHeathrowDash | etl/transform.py:123-158 | "LHR-CDG" gives origin London Heathrow, destination CDG |
| Route.CleanRoutes | etl/transform.py:141-156 | the stage fails iff some route fails to split; each row is then its own route split with airport names replaced |
| Features.RouteStage | etl/transform.py:123-158 | the stage fails iff `route` is missing or a route fails; otherwise it writes origin, destination and transit and keeps every other column |
| Aircraft.SplitAny | etl/transform.py:161 | the pieces hold no separator, and joined back they are the text less its separators, one piece more than separators |
| Aircraft.SplitAnyTwo | etl/transform.py:161 | two separator-free texts around one separator split into exactly those two |
| Aircraft.AircraftWidth | etl/transform.py:161-163 | the width of the split is the largest piece count of any row, and zero only without text |
| Aircraft.SplitAircraft | etl/transform.py:160-164 | the split succeeds iff some row has two or more pieces (else `aircraft_2` is missing); each row keeps its first two pieces |
| Features.AircraftSplitStage | etl/transform.py:160-164 | the stage fails iff `aircraft` is missing, the split fails, or `aircraft_1`/`aircraft_2` already exist; otherwise it adds the two pieces |
| Aircraft.BoeingOfDigits | etl/transform.py:168 | "Boeing " followed by digits becomes "B" followed by those digits |
| Aircraft.BoeingNeedsO | etl/transform.py:168 | a text without any o/O is untouched by the Boeing rule |
| Aircraft.AirbusCapitalises | etl/transform.py:170 | the `A(\d+)` rule changes only a lower-case `a` before a digit, to `A` |
| Aircraft.SevenSevenSeven | etl/transform.py:169 | the canonical regex turns "B777" into "BB777", while the other copies' literal "(?i)777" leaves it alone |
| Aircraft.ExtractCode | etl/transform.py:178 | the extract is missing iff no letter precedes a digit; otherwise it is the leftmost letter-and-digits run, and no digit follows it |
| Aircraft.CleanCode | etl/transform.py:166-180 | a missing cell stays missing; a present cell has no code iff no letter precedes a digit in its rewritten text, and otherwise the code is the leftmost letter there that precedes a digit, with the whole digit run after it |
| Aircraft.PlainIsReplace | etl-aws/feature_engineering.py:68 | a plain-text rule replaces exactly as Python's `str.replace` does: every occurrence found scanning from the left, without overlap |
| Aircraft.RegexRulesOn190 | etl/transform.py:167-176 | the canonical rules turn a bare "190" at the end into "E190" |
| Aircraft.ScenarioBoeing777 | etl/transform.py:166-180 | "Boeing 777" cleans to "B777" in every copy |
| Aircraft.ScenarioEmbraer190 | etl/transform.py:166-180 | "Embraer 190" cleans to "E190" in the canonical copy |
| Aircraft.LiteralRulesKeep | etl-aws/feature_engineering.py:67-71 | the literal 777/170/190 replacements leave an ordinary name unchanged |
| Aircraft.ScenarioEmbraer190Literal | etl-aws/feature_engineering.py:66-77 | "Embraer 190" has no code after the etl-aws cleaning |
| Features.CodeColumn | etl/transform.py:175-178 | each cell becomes the cleaned code of that cell |
| Features.CleanAircraftStage | etl/transform.py:166-180 | the stage fails iff the column is missing, and otherwise replaces it by its cleaned codes |
| Scores.Experience | etl/transform.py:182-190 | the band is Poor, Fair, Good or unknown, and unknown exactly for a missing rating or one strictly between 2 and 3 or between 3 and 4 |
| Scores.ExperienceOfWholeRating | etl/transform.py:182-190 | a whole rating always has a band: Poor iff at most 2, Good iff at least 4 |
| Scores.ExperienceMonotone | etl/transform.py:182-190 | a higher rating never gets a lower band |
| Features.ExperienceStage | etl/transform.py:182-190 | the stage fails iff `money_value` is missing, writes each row's band to `experience`, and keeps every other column |
| Scores.YesNo | etl/transform.py:196-198 | exactly "yes" and "no" become booleans; anything else is kept |
| Scores.YesNoIdempotent | etl/transform.py:198 | replacing twice is replacing once |
| Scores.FirstNonBoolean | etl/transform.py:199 | finds the first cell that is neither boolean nor missing, or reports that there is none |
| Scores.Recommend | etl/transform.py:196-200 | with the cast the stage fails iff some cell is not yes, no, a boolean or missing, and then every cell is boolean or missing; without the cast it never fails |
| Scores.ScenarioCapitalisedYes | etl/transform.py:196-200 | "Yes" fails the canonical cast at its row and is kept as text by the etl-aws copy |
| Features.RecommendStage | etl-aws/feature_engineering.py:96-108 | the stage fails iff `recommended` is missing or, in the canonical copy only, holds a non-boolean; only `recommended` changes |
| Features.Enriched | etl/feature_engineering.py:88-98 | the older copy adds nothing after the aircraft codes; the others need `money_value` and `recommended` |
| Features.PreparedNeeds | etl/transform.py:213-218 | the first five stages succeed only on a table with the ratings, a route that splits, an aircraft column that splits, and no `aircraft_1`/`aircraft_2` yet |
| Features.PreparedSucceeds | etl/transform.py:213-218 | the first five stages succeed on every such table |
| Features.PreparedKeeps | etl/transform.py:213-218 | the first five stages change no column except `score`, the route parts and the aircraft codes |
| Features.PreparedScore | etl/transform.py:214 | after the first five stages `score` is the mean of the input's ratings |
| Features.PreparedRoutes | etl/transform.py:215 | after the first five stages the route parts are the input's cleaned routes |
| Features.PreparedAircraft | etl/transform.py:216-218 | after the first five stages the aircraft columns are the cleaned codes of the input's aircraft pieces |
| Features.EnrichedKeeps | etl/transform.py:219-221 | the last three stages change no column except `experience`, `score` and `recommended` |
| Features.EnrichedScore | etl/transform.py:219-220 | the second score computation gives the first one's column again |
| Features.EnrichedColumns | etl/transform.py:219-221 | `experience` is the band of the input's `money_value` and `recommended` its replaced value |
| Features.AfterFeHas | etl/feature_engineering.py:78-85 | the final order lists the route parts, both aircraft codes and `recommended`, and `score`/`experience` outside the older copy |
| Features.FeatureEngineer | etl/transform.py:213-223 | a run that ends gives exactly the final ordered columns and one row per review; missing ratings fail, naming the missing columns |
| Features.FeatureEngineerSteps | etl/transform.py:213-223 | a run that ends is the nine stages composed in order, on a table that met their needs |
| Features.FeatureEngineerCarries | etl/transform.py:202-223 | every output column that no stage writes is the input's column, unchanged |
| Features.FeatureEngineerSplits | etl/transform.py:213-223 | the output's route parts and aircraft codes are those of the input's route and aircraft |
| Features.FeatureEngineerScore | etl/transform.py:214-220 | though computed twice, the output's `score` is the mean of the input's ratings |
| Features.FeatureEngineerEnriches | etl/transform.py:219-221 | `experience` and `recommended` are derived from the input's columns; the older copy passes `recommended` through untouched |
| Features.Run | etl/transform.py:225-234 | `main`'s transform then feature step gives the final columns, one row per review, and fails without `countries` |
| Features.TransformFeedsFeatures | etl/transform.py:229-231 | the transform's output always has the ratings, `money_value` and `recommended`, so feature engineering can proceed iff its routes and aircraft split |

## Left out

- Reading and writing CSV files, logging, `print` and `main`'s file paths
  are left out. `Features.Run` passes the transformed table straight on,
  without the CSV round trip between each split copy's two scripts.
- Floating-point detail is left out. Ratings and means are exact reals;
  `Int64`, `float` and object dtypes are not told apart.
- Case folding covers the ASCII letters only. `case=False`, `(?i)` and `%B`
  on other Unicode letters are not modelled.
- Digits are the ASCII digits `0`-`9` only. Python's `\d` and `int()`, and
  so the `%d`, `%Y` and `%m` fields of the date parses, the `(\d+)` of the
  Boeing and Airbus rules and the `[A-Z]\d+` extraction, also accept other
  Unicode decimal digits such as the Arabic-Indic ones. The model rejects
  those: a review date written with them fails the stage, and an aircraft
  name written with them yields no code.
- The older `clean_date_flown` parses its `YYYY-MM-01` text without a
  format, before formatting the result as `MM-YYYY`. It is modelled with
  the canonical `%Y-%m-%d` format, because pandas' format inference on
  these strings cannot be stated without pandas.
- The older `clean_date_review` converts `Dates Review` a second time.
  That conversion is the identity on timestamps and is not modelled.
- A label shared by two columns resolves to the first of them. pandas'
  `df[name]` and `df[list]` return every column with that label, and `.str`
  on the result fails. Such tables come from an input that already has a
  repeated label, and the pipeline makes them in three ways:
  - renaming `Date Flown` to `Month Flown` when `Month Flown` already
    exists, where pandas then fails at `.str` and the model does not;
  - `rename_columns` onto a name the table already holds;
  - the older copy's reorder, which lists `verified` twice.
  In the last case `Features.Run` for the older copy gives 30 columns. That
  is the count after the CSV round trip, where `read_csv` renames the
  second header to `verified.1` and the feature step's selection drops it.
  An in-memory run would carry both `verified` columns and give 31.
- Features.AircraftSplitStage: a pre-existing `aircraft_1` or `aircraft_2`
  is the one repeated label the model reports. It reports it at the split,
  whereas pandas fails later, at the first `clean_aircraft`.
- Cells of an unexpected type count as missing. A number in a text column
  is a missing cell to `.str` methods; the model drops the distinction
  between NaN and non-string values there.
- A rating that is text rather than a number is left out of the mean, as a
  missing one is. pandas would raise on it.
- Scores.Experience: a text `money_value` gives "unknown". In pandas the
  comparison `df['money_value'] <= 2` on such a cell raises `TypeError`,
  and that error is not modelled. A boolean cell, which pandas compares as
  0 or 1, also gives "unknown" here.
- Features.ExperienceStage: succeeds on a text `money_value` cell, where
  `calculate_experience` raises `TypeError`, for the reason given for
  `Scores.Experience`.
- pandas 3.0 is not modelled. It removed `DataFrame.applymap`, which the
  older copy's `clean_space` calls, so under 3.0 that copy raises where
  `Frame.Trim` succeeds. It also parses date strings at microsecond
  resolution, so the nanosecond Timestamp range `Calendar.InTimestampRange`
  no longer decides which review dates raise or which `MM-YYYY` values are
  produced.
- Scores.Recommend: the cast accepts only booleans, "yes", "no" and missing
  cells. The integers 0 and 1, which `astype('boolean')` also accepts, are
  not modelled.
- Frame.PutAll: states which names the table holds afterwards, not their
  order. Intermediate column order is unobservable after the final
  selection.
- Route.CleanRoutes: on an empty table, pandas' `apply(pd.Series)` yields
  no columns to assign to the three names. The model writes three empty
  columns instead.
- Cleaning.BeforeFeShape: states the length and a few positions of the
  order. The full list is the definition `Cleaning.BeforeFe`.
- Cleaning.CleanDateFlownStage: names the failure only for a missing
  `Month Flown`. It does not state which failure a bad split or a missing
  `Month Review` reports.
- Ids.CreateId: pandas' unstable sort order among equal dates is left open.
  The contract admits every order that sorts the dates.
