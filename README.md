# mailanalyzer — a verified model of the analysis core

mailanalyzer is a Next.js page. It reads an uploaded comma-separated file of
e-mail records (sender, recipient, subject, content, date) and turns it into
a report. This project models the parts of that report that carry
algorithmic content, and proves what they compute:

- **Rows**: reading the upload into records. The text is cut at newlines and
  each line at commas. Lines with fewer than five fields are dropped, and the
  first remaining line is the header.
- **Categorizer**: `categorizeEmail`, a fixed set of case-insensitive
  substring tests. They tag a mail with complaints, urgent, inquiries and
  feedback, in that order.
- **Aggregation**: the `forEach` pass of `handleAnalyze`, modelled as a
  method with a loop. It fills the category counters, the internal/external
  split and five count maps: sender, recipient, month name, weekday name and
  hour. It also covers the `topSenders` and `topRecipients` rankings.
- **Topics**: `analyzeTopics`, modelled as methods with the source's nested
  loops. It counts subject bigrams in a `Map` and files mails under three
  keyword topics. Then it ranks both.
- **Prediction**: `predictEmailActivity`. It keeps the mails with a valid
  date and sorts them by time. One pass then bumps a `"YYYY-MM"` month map
  and increments slots of per-year twelve-slot arrays in place (`array<nat>`
  values of a map). The result is a month series in string order and
  year rows in ascending year order. The month labels use the corrected
  label, which is the month key itself. The code's label differs for a
  negative year (see "## Findings").

Shared modules:

- **Seqs**: distinctness, first-seen de-duplication, filtering and
  occurrence sums.
- **Text**: `includes`, `toLowerCase`, one-character `split` and `join`,
  decimal rendering and `padStart`.
- **Ordering**: a stable sort by an integer key, which is what
  `Array.prototype.sort` with a numeric comparator does. It also holds the
  default string sort of `keys.sort()`.
- **Counter**: a count map modelled as its list of `[key, count]` entries in
  insertion order. `m[k] = (m[k] || 0) + 1` is `Bump`. `Object.entries` puts
  array-index keys first, in numeric order. The top-ten ranking lives here too.
- **Dates**: the platform date parser as a parameter (`Parser`) and the
  `sv-SE` month and weekday name tables.

Each imperative part is a method proved equal to a declarative function:
`Aggregate` to `Tallied`, `AnalyzeTopics` to `CommonSubjects`/`TopicClusters`,
and `PredictActivity` to `Predicted`. The lemmas then state what the source
promises about those functions.

Two places where the code differs from a natural reading of the design, and
the model follows the code (the one place where the model departs from the
code, the month label of a negative year, is under "## Findings"):

- The internal/external test is a substring test for `@internt.com` on both
  addresses, not a suffix test.
- The `handleAnalyze` pass does not skip unparseable dates. Such a record is
  counted under the month and weekday label `Invalid Date` and the hour key
  `NaN`.

## Model

| member | source | states |
|---|---|---|
| Rows.TableLines | app/page.tsx:229-231 | the filtered table is the comma-split of exactly the lines with at least four commas, in file order; joining a row with `,` gives back its line |
| Rows.RecordsAreDataLines | app/page.tsx:229-234 | the records are those lines after the first (the header), in order, one record per line, and each rejoins to its line |
| Rows.SplitRows | app/page.tsx:233-234 | the record count is the table's length minus the header, 0 for an empty table |
| Rows.FieldCount | app/page.tsx:231 | a line survives the `length >= 5` filter iff it holds at least four commas |
| Rows.RowsAreLines | app/page.tsx:229-230 | no field of a record holds a newline or a comma |
| Categorizer.Categorize | app/page.tsx:102-150 | each tag is present iff its keyword test on the lower-cased subject (urgent) or content (the others) succeeds, and tags come in the order complaints, urgent, inquiries, feedback |
| Categorizer.CategorizeDistinct | app/page.tsx:102-150 | the tags are duplicate-free, at most four |
| Categorizer.CategorizeOnce | app/page.tsx:102-150 | each category occurs at most once among the tags |
| Categorizer.CategorizeIgnoresCase | app/page.tsx:104-105 | lower-casing the inputs first changes nothing |
| Categorizer.SubjectOnlyUrgent | app/page.tsx:107-146 | the subject affects only the urgent tag |
| Categorizer.ContentNotUrgent | app/page.tsx:118-126 | the content does not affect the urgent tag |
| Categorizer.ComplaintKeyword | app/page.tsx:108-116 | any complaint keyword in the content yields the complaints tag |
| Categorizer.NoKeywords | app/page.tsx:102-150 | with no keyword anywhere the result is empty |
| Aggregation.Aggregate | app/page.tsx:251-282 | the pass leaves every counter equal to its declarative tally over all records |
| Aggregation.CountRecord | app/page.tsx:252-281 | one iteration performs exactly one step: sender, recipient, tags, internal/external, month, weekday, hour |
| Aggregation.CountTags | app/page.tsx:259-265 | each tag adds one to its counter |
| Aggregation.TalliedStep | app/page.tsx:251-282 | counting a further record is one step of the pass |
| Aggregation.InternalPlusExternal | app/page.tsx:267-272 | internal plus external equals the number of records |
| Aggregation.TagCountIsMailCount | app/page.tsx:259-265 | each category counter is the number of records carrying that tag, so at most the number of records |
| Aggregation.TalliedTotals | app/page.tsx:256-257 | the sender, recipient, month, weekday and hour counts each sum to the number of records |
| Aggregation.SenderCount | app/page.tsx:256 | the count of a sender is the number of records it sent |
| Aggregation.TimeKeyBounds | app/page.tsx:275-281 | at most 13 month labels, 8 weekday labels and 25 hour keys |
| Aggregation.TopSendersCounts | app/page.tsx:284-293 | at most ten entries, non-increasing counts, none filtered out, each count the sender's number of records |
| Aggregation.TopSendersComplete | app/page.tsx:284-293 | a listable sender left out means ten are kept and it counts no more than the tenth |
| Aggregation.TopRecipientsCounts | app/page.tsx:295-298 | ten entries or all distinct recipients if fewer, non-increasing, each count exact |
| Aggregation.TopRecipientsComplete | app/page.tsx:295-298 | an omitted recipient counts no more than the tenth kept |
| Aggregation.TopSendersTies | app/page.tsx:284-292 | among senders with equal counts, the kept ones are a prefix of the listed entries in `Object.entries` order |
| Aggregation.TopSendersTiesFirstSeen | app/page.tsx:284-292 | with no numeric sender, the sender map is in first-seen order and senders with equal counts are ranked in that order |
| Aggregation.TopRecipientsTies | app/page.tsx:295-298 | among recipients with equal counts, the kept ones are a prefix of the `Object.entries` order |
| Aggregation.TopRecipientsTiesFirstSeen | app/page.tsx:295-298 | with no numeric recipient, recipients with equal counts are ranked in first-seen order |
| Counter.TallyCounts | app/page.tsx:256-257 | counting with `(m[k] \|\| 0) + 1` gives one entry per distinct key, in first-seen order, each with its number of occurrences |
| Counter.TallyPositive | app/page.tsx:256-257 | every count in a tally is at least one |
| Counter.TallyTotal | app/page.tsx:256-257 | the counts of a tally sum to the number of keys counted |
| Counter.LookupTally | app/utils/predictiveAnalysis.ts:36 | `m.get(k) \|\| 0` on a tally is the number of occurrences of `k` |
| Counter.TopTenLength | app/page.tsx:291-292 | `.slice(0, 10)` keeps ten entries, or all when fewer |
| Counter.TopTenDescending | app/page.tsx:291 | the kept entries are non-increasing by count |
| Counter.TopTenKept | app/page.tsx:291-292 | every kept entry is an entry of the map |
| Counter.TopTenSelects | app/page.tsx:291-292 | an entry left out implies ten are kept and it counts no more than the tenth |
| Counter.TopTenTies | app/utils/topicAnalysis.ts:56-57 | among equal counts the kept entries are a prefix of the map's order (stable sort) |
| Counter.ObjectEntriesOrder | app/page.tsx:284 | `Object.entries` lists array-index keys first in ascending numeric order, then the other keys in insertion order |
| Counter.ObjectEntriesNamed | app/page.tsx:284 | without array-index keys `Object.entries` follows insertion order |
| Counter.TallyNamed | app/page.tsx:256-257 | counting keys that are not array indices gives a map without array-index keys |
| Counter.NumericKeyFirst | app/page.tsx:284 | `Object.entries` lists the key `123` before `anna@firma.se`, although `anna@firma.se` was counted first |
| Counter.NatToDecIsArrayIndex | app/page.tsx:281 | the hour keys are array-index keys |
| Dates.MonthLabelSame | app/page.tsx:276 | two dates share a month label iff both are invalid or both fall in the same month |
| Dates.WeekdayLabelSame | app/page.tsx:277 | two dates share a weekday label iff both are invalid or both fall on the same weekday |
| Dates.HourKeySame | app/page.tsx:278 | two dates share an hour key iff both are invalid or both have the same hour |
| Dates.MonthLabelsSize | app/page.tsx:276 | 13 possible month labels, the twelve names and `Invalid Date` |
| Dates.WeekdayLabelsSize | app/page.tsx:277 | 8 possible weekday labels |
| Dates.HourKeysSize | app/page.tsx:278 | 25 possible hour keys, `0` to `23` and `NaN` |
| Topics.AnalyzeTopics | app/utils/topicAnalysis.ts:6-66 | the method returns the declarative ranked phrases and clusters |
| Topics.CountPhrases | app/utils/topicAnalysis.ts:8-18 | the first pass leaves the tally of all subject bigrams |
| Topics.CountBigrams | app/utils/topicAnalysis.ts:13-17 | the inner loop bumps every neighbouring word pair once |
| Topics.ClusterMails | app/utils/topicAnalysis.ts:21-51 | the second pass leaves the declarative topic list |
| Topics.FileUnderTopics | app/utils/topicAnalysis.ts:24-50 | one mail is filed under each topic whose test passes, in code order |
| Topics.Words | app/utils/topicAnalysis.ts:11-13 | the subject splits on single spaces into at least one lower-case word without a space |
| Topics.Touch | app/utils/topicAnalysis.ts:30-33 | filing keeps every existing topic and keyword set, and a new topic is appended with its fixed keywords and count 1 |
| Topics.TouchSummary | app/utils/topicAnalysis.ts:30-33 | filing under a topic is one count-map bump of the topic's name |
| Topics.ClusteredSummary | app/utils/topicAnalysis.ts:21-51 | the topic list, read by name, is the tally of the topic names of all mails |
| Topics.ClusteredKeywords | app/utils/topicAnalysis.ts:29-49 | each topic keeps the keyword set it was created with |
| Topics.ClusteredCounts | app/utils/topicAnalysis.ts:28-50 | a topic's count is the number of mails matching its test, at least one |
| Topics.ClusteredPresent | app/utils/topicAnalysis.ts:28-50 | a topic is present iff some mail matches its test |
| Topics.TopicNamesOnce | app/utils/topicAnalysis.ts:28-50 | one mail adds one to a topic iff it passes that topic's test, and nothing otherwise |
| Topics.TopicClustersCounts | app/utils/topicAnalysis.ts:58-64 | every returned cluster counts its matching mails, at least one, and carries its fixed keywords |
| Topics.TopicClustersPresent | app/utils/topicAnalysis.ts:58-64 | a topic is returned iff some mail matches its test |
| Topics.TopicClustersShape | app/utils/topicAnalysis.ts:58-64 | at most three clusters, distinct topics, non-increasing counts |
| Topics.AllPhrasesLength | app/utils/topicAnalysis.ts:13-17 | a subject of n words adds n-1 phrases |
| Topics.PhraseTotal | app/utils/topicAnalysis.ts:8-18 | the phrase counts sum to the number of word gaps over all subjects |
| Topics.PhraseCountsShape | app/utils/topicAnalysis.ts:11-16 | every phrase is two lower-case words joined by one space |
| Topics.CommonSubjectsRanked | app/utils/topicAnalysis.ts:54-57 | at most ten phrases, non-increasing, each with its exact number of occurrences |
| Topics.CommonSubjectsComplete | app/utils/topicAnalysis.ts:54-57 | a phrase left out counts no more than the tenth kept |
| Topics.NoMails | app/utils/topicAnalysis.ts:6-66 | no mails give no phrases and no clusters |
| Topics.SubjectExample | app/utils/topicAnalysis.ts:11-17 | `faktura för möte idag` yields `faktura för`, `för möte` and `möte idag` once each |
| Prediction.PredictActivity | app/utils/predictiveAnalysis.ts:13-72 | the method's result is the declarative forecast, with the corrected month label |
| Prediction.CountPass | app/utils/predictiveAnalysis.ts:29-43 | after the pass the month map is the tally of month keys, and each year array holds that year's per-month counts |
| Prediction.CountMail | app/utils/predictiveAnalysis.ts:30-42 | one mail bumps its month key and its year's slot |
| Prediction.FileYear | app/utils/predictiveAnalysis.ts:39-42 | a new year gets a zeroed array; exactly the mail's slot goes up by one |
| Prediction.YearlyRows | app/utils/predictiveAnalysis.ts:57-62 | one row per year with its array's contents and their sum |
| Prediction.UndatedIgnored | app/utils/predictiveAnalysis.ts:15-18 | a mail without a valid date changes no output |
| Prediction.SameValid | app/utils/predictiveAnalysis.ts:15-18 | the output depends only on the valid mails |
| Prediction.LabelsAreKeys | app/utils/predictiveAnalysis.ts:46-50 | with the corrected label, the labels are the sorted month keys |
| Prediction.LabelOfKey | app/utils/predictiveAnalysis.ts:47-50 | the corrected label of a key is the key itself, for every year |
| Prediction.LabelFormat | app/utils/predictiveAnalysis.ts:33 | every corrected label is a valid mail's year, `-`, and its month number padded to two digits |
| Prediction.MonthKeyInjective | app/utils/predictiveAnalysis.ts:33 | different months give different keys |
| Prediction.MonthsListed | app/utils/predictiveAnalysis.ts:36-46 | a key is listed iff some valid mail falls in that month |
| Prediction.MonthsAscending | app/utils/predictiveAnalysis.ts:46-54 | the keys are strictly ascending, and labels and values have equal length |
| Prediction.ValueOfMonth | app/utils/predictiveAnalysis.ts:51-54 | a value is the number of valid mails in its month and equals that slot of its year's distribution |
| Prediction.ValuesPositive | app/utils/predictiveAnalysis.ts:51-54 | every value is at least one |
| Prediction.ValuesTotal | app/utils/predictiveAnalysis.ts:51-54 | the values sum to the number of valid mails |
| Prediction.YearRowContents | app/utils/predictiveAnalysis.ts:57-62 | a year row has twelve slots, each the month's count; its total is their sum, is the number of valid mails in that year, and is at least one |
| Prediction.YearRowsOrdered | app/utils/predictiveAnalysis.ts:63 | the year rows are strictly ascending by year |
| Prediction.YearRowsListed | app/utils/predictiveAnalysis.ts:39-57 | a year has a row iff some valid mail falls in it |
| Prediction.TotalsSum | app/utils/predictiveAnalysis.ts:57-62 | the year totals sum to the number of valid mails, as the values do |
| Prediction.ViewsAgree | app/utils/predictiveAnalysis.ts:31-43 | the value of month m of year y equals slot m of year y's row |
| Prediction.Reordered | app/utils/predictiveAnalysis.ts:21-43 | permuting the input leaves the whole forecast unchanged |
| Prediction.MonthsPermutation | app/utils/predictiveAnalysis.ts:46 | the month keys do not depend on the order of the valid mails |
| Prediction.ValuesPermutation | app/utils/predictiveAnalysis.ts:51-54 | the values do not depend on the order of the valid mails |
| Prediction.YearsPermutation | app/utils/predictiveAnalysis.ts:57-63 | the year rows do not depend on the order of the valid mails |
| Prediction.LabelAsWrittenKeeps | app/utils/predictiveAnalysis.ts:47-50 | with the split as written, a key of a year of zero or more keeps its label |
| Prediction.LabelAsWrittenNegative | app/utils/predictiveAnalysis.ts:47-50 | with the split as written, a negative year's label is the year alone, not the key |
| Prediction.NegativeYearLabel | app/utils/predictiveAnalysis.ts:47-50 | the month key of March of year -5 is `-5-03`, and the code as written labels it `-5` |

## Left out

- Rendering: the JSX tree, Chart.js registration, the icons and the top-five-hours sort inside the markup are presentation.
- React state and file reading are left out: `useState`, `setAnalysis`, `selectedFile.text()`. The model starts from the file's text.
- `performAIAnalysis`, the `/api/analyze` route and the OpenAI client are network calls whose result is opaque text.
- `layout.tsx` holds no logic.
- `cleanEmailSender` is never called. Its replacements map characters to themselves.
- The assembly of the final analysis object is not modelled: the hard-coded `responseTimeAvg: 24`, and the declared `highActivityPeriods`, `patterns` and `upcomingPeaks` fields that nothing fills.
- Date parsing, the local time zone and the `sv-SE` locale belong to the platform. They are the `Parser` parameter and two name tables, with `Invalid Date` and `NaN` for an invalid date.
- The `isNaN` guards in the forecast are no-ops on integer counts, so they are not modelled.
- Strings are sequences of characters, not UTF-16 code units. `toLowerCase` is modelled on ASCII and the Latin-1 capitals `À` to `Þ` except `×`. Other scripts, for example `Ł`, Greek and Cyrillic, are not lowered.
- `keys.sort()` compares by character, not by UTF-16 code unit. The two orders agree for the month keys, which are digits and `-`.
- Count maps are plain objects in the source. Keys such as `__proto__` that collide with the prototype chain are not modelled.
- Counts are unbounded integers. JavaScript numbers lose precision above 2^53, far beyond any upload.
- The three entry points are separate methods. The orchestration in `handleAnalyze` that calls them one after another and stores the results is not modelled.
- Prediction.PredictActivity / Predicted / LabelsAreKeys / LabelFormat: the labels use the corrected `Label`. For a negative year the code's label is the year alone (see "## Findings").

## Findings

| source | as written | input that shows it | evidently intended | confidence | as-written member | corrected member |
|---|---|---|---|---|---|---|
| app/utils/predictiveAnalysis.ts:47-50 | the label is rebuilt from the first two fields of `key.split('-')` | a valid mail dated in year -5, month 3: its key `-5-03` splits into `""`, `5`, `03` and is labelled `-5` | the label equals the month key, as it does for every year of zero or more | not executed | Prediction.LabelAsWrittenNegative | Prediction.LabelOfKey |
