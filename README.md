# HR selector front end: a Dafny model of its client-side logic

This project models the logic of the HR selector's React front end. It
covers what the browser computes from a ranking response and the search
form. The modelled behaviour is:

- **Recruiter panel:** reads the comma-separated skill and city fields and
  tokenises the job description. It labels each candidate's skill badges,
  sorts the candidates by score, experience or name, and pages through them.
- **Analytics panel:** tallies skill and city frequencies, picks the top
  skills and top cities, and counts experience and score bands.
- **CSV export:** two variants build metadata, header and row lines with
  RFC 4180 quoting (RFC 4180 section 2, rules 5 to 7).
- **Candidate profile page:** reads the search filters from the URL,
  highlights and counts matching skills, cuts skill lists into grid columns
  and chooses the CV category to show.
- **Autocomplete box:** the state machine behind the skill fields.
- **Display helpers:** the score bar and the match indicator.

Modules follow the source files:

| module | file |
|---|---|
| `Text` | the JavaScript string built-ins the code relies on: `trim`, `toLowerCase`, `split` on one character, `join`, `includes`, `filter(Boolean)` |
| `Candidates` | `src/types/index.ts` |
| `StableSort` | `Array.prototype.sort`, which the language requires to be stable since ECMAScript 2019 |
| `RecruiterPanel` | `src/pages/RecruiterPanel.tsx` |
| `Analytics` | `src/components/Analytics.tsx` |
| `Csv` | the cells and line assembly shared by both exports |
| `ExportOptions` | `src/components/ExportOptions.tsx` |
| `ExportUtils` | `src/utils/exportUtils.ts` |
| `CandidateProfile` | `src/pages/CandidateProfile.tsx` |
| `Autocomplete` | `src/components/Autocomplete.tsx` |
| `UIComponents` | `src/components/UIComponents.tsx` |

The model takes the source's form file by file:

- Expression chains are functions.
- Loops are methods proved against those functions:
  - `Analytics.SkillFrequency` and `Analytics.LocationDistribution` are the `forEach` dictionary loops.
  - `CandidateProfile.CountMatches` is the `forEach` counter.
  - `CandidateProfile.ChunkSkills` is the `for` loop.
- State updated through React setters is a class: the page state of the
  recruiter panel (`RecruiterPanel.ResultView`) and the autocomplete box
  (`Autocomplete.Widget`).

Host services enter as parameters:

- `Number.prototype.toFixed(2)`, `String(number)` and the collation order of
  `localeCompare` are functions of type `real -> string` or `real -> real`.
- The export date and the ISO timestamp are strings.

## Model

| member | source | states |
|---|---|---|
| RecruiterPanel.CommaList | src/pages/RecruiterPanel.tsx:114-118 | every item of a comma field is non-empty, trimmed and free of commas |
| RecruiterPanel.ParseSkillList | src/pages/RecruiterPanel.tsx:157-158 | every parsed skill filter is non-empty, trimmed and lower-case |
| RecruiterPanel.ParsedIsLoweredCommaList | src/pages/RecruiterPanel.tsx:114-115 | the parsed filter is exactly the request payload's list, lower-cased, so the two never disagree on which items exist |
| RecruiterPanel.NonEmptyLowerAll | src/pages/RecruiterPanel.tsx:157 | dropping empty items commutes with lower-casing |
| RecruiterPanel.NoTokensFromSeparators | src/pages/RecruiterPanel.tsx:157-158 | a field of only commas and blanks (including the empty field) yields no items |
| RecruiterPanel.JoinCommaSpace | src/pages/RecruiterPanel.tsx:142-143 | joining with ", " is joining with "," after prefixing every later item with a space |
| RecruiterPanel.PresetRoundTrip | src/pages/RecruiterPanel.tsx:142-143 | applying a preset and parsing the field again gives back the preset's list, lower-cased, whenever its items are trimmed, non-empty and comma-free |
| RecruiterPanel.SpacedCommaFree | src/pages/RecruiterPanel.tsx:142 | prefixing a space adds no comma |
| RecruiterPanel.SpacedTrims | src/pages/RecruiterPanel.tsx:142-157 | trimming removes exactly the space the join added |
| RecruiterPanel.SplitOnNonTokenPieces | src/pages/RecruiterPanel.tsx:159 | every piece of the job-description split consists of token characters only |
| RecruiterPanel.JdTokens | src/pages/RecruiterPanel.tsx:159 | every job-description token is non-empty, lower-case and made only of a-z, 0-9, `+`, `#`, `.` and U+00E1 to U+00FA |
| RecruiterPanel.JdPiece | src/pages/RecruiterPanel.tsx:159 | the pieces of a lower-cased description are already trimmed and lower-case |
| RecruiterPanel.SplitOnNonTokenAt | src/pages/RecruiterPanel.tsx:159 | a non-token character separates: the split distributes over it |
| RecruiterPanel.JdSeparator | src/pages/RecruiterPanel.tsx:159 | any non-token character between two texts splits their token lists apart |
| RecruiterPanel.SplitWord | src/pages/RecruiterPanel.tsx:159 | a run of token characters is never split |
| RecruiterPanel.JdWord | src/pages/RecruiterPanel.tsx:159 | a single lower-case word is its own single token |
| RecruiterPanel.AnyTokenInExists | src/pages/RecruiterPanel.tsx:473 | `jdTokens.some(...)` holds exactly when some token occurs in the skill |
| RecruiterPanel.LabelSkill | src/pages/RecruiterPanel.tsx:467-474 | each skill gets exactly one label, in priority order required, preferred, matched (some description token is a substring), unmatched; each label stated as an if-and-only-if |
| RecruiterPanel.LabelIgnoresCase | src/pages/RecruiterPanel.tsx:468 | the label does not depend on the skill's case |
| RecruiterPanel.RequiredBeatsPreferred | src/pages/RecruiterPanel.tsx:471-472 | a skill listed in the required field is labelled required even when the preferred field lists it too |
| RecruiterPanel.CardLabels | src/pages/RecruiterPanel.tsx:467 | a card labels the first min(8, n) skills, each with its own label |
| RecruiterPanel.OverflowBadge | src/pages/RecruiterPanel.tsx:477-478 | the "+N" badge appears exactly when there are more than eight skills |
| RecruiterPanel.CardAccountsForEverySkill | src/pages/RecruiterPanel.tsx:467-478 | the shown badges plus the overflow count add up to the number of skills |
| RecruiterPanel.SortedCandidates | src/pages/RecruiterPanel.tsx:161-166 | the sorted list is a permutation of the result, in non-decreasing order of the field for ascending and non-increasing for descending |
| RecruiterPanel.SortedCandidatesStable | src/pages/RecruiterPanel.tsx:161-166 | candidates that compare equal keep the order the service sent them in |
| RecruiterPanel.TotalPages | src/pages/RecruiterPanel.tsx:168 | at least one page, and exactly one when there are no candidates |
| RecruiterPanel.TotalPagesBounds | src/pages/RecruiterPanel.tsx:168 | the pages hold every candidate and one page fewer would not |
| RecruiterPanel.JsSlice | src/pages/RecruiterPanel.tsx:171 | `slice` with in-range bounds is the subsequence, and never longer than the list |
| RecruiterPanel.PageItems | src/pages/RecruiterPanel.tsx:169-171 | a page never shows more than the page size |
| RecruiterPanel.PageItemsInRange | src/pages/RecruiterPanel.tsx:169-171 | page p of an in-range page number shows the positions (p-1)·size up to p·size, capped at the end |
| RecruiterPanel.PageItemsClampHigh | src/pages/RecruiterPanel.tsx:169 | a page number past the last page shows the last page |
| RecruiterPanel.PageZeroIsEmpty | src/pages/RecruiterPanel.tsx:169-171 | page 0 is not clamped up: it shows nothing |
| RecruiterPanel.PagesUpToPrefix | src/pages/RecruiterPanel.tsx:169-171 | the first p pages, concatenated, are the matching prefix of the sorted list |
| RecruiterPanel.PagesCoverSorted | src/pages/RecruiterPanel.tsx:167-171 | paging through every page shows each sorted candidate once, in order |
| RecruiterPanel.Payload | src/pages/RecruiterPanel.tsx:112-120 | the skill and city lists are the comma lists of their fields with case kept, and lower-cased the skill lists are the highlighting filters; gender and the distance (`Number` of the field) are sent exactly when their fields are non-empty, so "0" is sent as 0 |
| RecruiterPanel.PayloadListsClean | src/pages/RecruiterPanel.tsx:114-118 | no list in the request holds an empty, untrimmed or comma-containing item |
| RecruiterPanel.ResultView.Visible | src/pages/RecruiterPanel.tsx:169-171 | a valid view shows at most one page and its page number needs no clamping |
| RecruiterPanel.ResultView.constructor | src/pages/RecruiterPanel.tsx:23-28 | initial state: no result, by score, descending, page 1 of size 10 |
| RecruiterPanel.ResultView.ShowResult | src/pages/RecruiterPanel.tsx:128-129 | a new ranking result resets to page 1 and keeps the sort and page size |
| RecruiterPanel.ResultView.PrevPage | src/pages/RecruiterPanel.tsx:553 | the page goes down by one but not below 1, and the page stays valid |
| RecruiterPanel.ResultView.NextPage | src/pages/RecruiterPanel.tsx:563 | the page goes up by one but not past the last page, and the page stays valid |
| RecruiterPanel.ResultView.ChangePageSize | src/pages/RecruiterPanel.tsx:574-580 | a page size from the selector is set and the page goes back to 1 |
| RecruiterPanel.ResultView.ChangeSort | src/pages/RecruiterPanel.tsx:372-377 | changing the sort field or direction keeps the page, which stays valid |
| StableSort.Sort | src/pages/RecruiterPanel.tsx:161 | the sort is a permutation and ordered by the key |
| StableSort.SortIsStable | src/pages/RecruiterPanel.tsx:161 | the elements with any one key keep their relative order |
| StableSort.SortIsUnique | src/pages/RecruiterPanel.tsx:161 | any ordered permutation that keeps equal keys in order is the sort, so the result does not depend on the algorithm |
| Analytics.BumpWellFormed | src/components/Analytics.tsx:20 | one `t[k] = (t[k] \|\| 0) + 1` keeps the table's keys distinct and in step with its entries |
| Analytics.TallyWellFormed | src/components/Analytics.tsx:17-22 | a tally built by repeated increments is well formed |
| Analytics.TallyCounts | src/components/Analytics.tsx:17-22 | a key is in the table exactly when it occurs, and its count is its number of occurrences |
| Analytics.TallyTotal | src/components/Analytics.tsx:17-22 | the counts add up to the number of items tallied |
| Analytics.TallyKeyCount | src/components/Analytics.tsx:92 | the table has one key per distinct item |
| Analytics.Entries | src/components/Analytics.tsx:25-45 | `Object.entries` lists the keys in insertion order with their counts |
| Analytics.Cities | src/components/Analytics.tsx:40 | only non-empty cities are counted, at most one per candidate |
| Analytics.TallyStep | src/components/Analytics.tsx:18-22 | tallying one more item is one increment |
| Analytics.Count | src/components/Analytics.tsx:20-41 | one `t[k] = (t[k] || 0) + 1` on the (keys, counts) table is `Bump` |
| Analytics.SkillFrequency | src/components/Analytics.tsx:17-22 | the nested loops compute the tally of every candidate's skills, in order |
| Analytics.LocationDistribution | src/components/Analytics.tsx:38-43 | the loop computes the tally of the non-empty cities |
| Analytics.LocationTotals | src/components/Analytics.tsx:38-43 | the empty city is never a key, and the city counts add up to at most the number of candidates |
| Analytics.SkillTotals | src/components/Analytics.tsx:17-22 | the skill counts add up to the number of skill occurrences |
| Analytics.UniqueSkills | src/components/Analytics.tsx:92 | "Skills Únicas" is the number of distinct skills |
| Analytics.SkillCountAtMostCandidates | src/components/Analytics.tsx:17-22 | when no candidate repeats a skill, no skill is counted more often than there are candidates, so its bar stays within 100% |
| Analytics.Top | src/components/Analytics.tsx:25-47 | the top list has min(k, n) entries, counts never increase along it, and it is drawn from the entries |
| Analytics.TopIsTop | src/components/Analytics.tsx:25-27 | every entry left out has a count no larger than any entry kept |
| Analytics.TopKeepsTieOrder | src/components/Analytics.tsx:26 | entries with equal counts keep their insertion order |
| Analytics.TopLocationBounded | src/components/Analytics.tsx:45-47 | every top city's count is at most the number of candidates |
| Analytics.CountWhere | src/components/Analytics.tsx:31-34 | a filtered count never exceeds the number of candidates |
| Analytics.ExperienceBucketsDisjoint | src/components/Analytics.tsx:30-35 | the four experience bands do not overlap: with the candidates in no band they add up to the total |
| Analytics.WholeYearsInSomeRange | src/components/Analytics.tsx:30-35 | whole-year experience always falls in some band |
| Analytics.ExperienceBucketsCover | src/components/Analytics.tsx:30-35 | with whole years the bands add up to the number of candidates |
| Analytics.ExperienceGap | src/components/Analytics.tsx:31-32 | 2.5 years falls in no band |
| Analytics.ScoreBucketsPartition | src/components/Analytics.tsx:181-215 | the high, mid and low score bands partition the candidates |
| Analytics.Percent | src/components/Analytics.tsx:106-154 | a share of a non-empty total lies in [0, 100] and is 100 exactly for the whole |
| Analytics.Analyze | src/components/Analytics.tsx:9-47 | no panel for an empty list; otherwise at most 10 top skills and 5 top cities, and the score bands add up to the total |
| Csv.HeadersHaveNoComma | src/components/ExportOptions.tsx:47-64 | sixteen non-empty column names without commas |
| Csv.Escape | src/components/ExportOptions.tsx:103 | a cell without quotes is left unchanged by the doubling of `"` |
| Csv.Quote | src/components/ExportOptions.tsx:103 | a quoted cell starts and ends with `"` |
| Csv.BodyOfEscaped | src/components/ExportOptions.tsx:103 | reading a quoted field stops exactly at the closing quote of an escaped cell |
| Csv.UnquoteQuote | src/components/ExportOptions.tsx:103 | unquoting a quoted cell gives the cell back (RFC 4180 section 2 rule 7) |
| Csv.ParseQuotedRow | src/components/ExportOptions.tsx:103-104 | a row of quoted cells joined by commas parses back into the same cells, whatever the cells contain |
| Csv.HeaderRowColumns | src/components/ExportOptions.tsx:47-64 | one header row splits into the sixteen column names |
| Csv.OrZero | src/utils/exportUtils.ts:28-29 | `x \|\| 0` prints 0 for zero and the number otherwise |
| Csv.MatchCell | src/components/ExportOptions.tsx:73-75 | a match count cell is 0 without reasons and the count otherwise |
| Csv.ExperienceOkCell | src/components/ExportOptions.tsx:76 | the cell reads "Sí" exactly when the reasons say the experience suffices, else "No" |
| Csv.DistanceCell | src/components/ExportOptions.tsx:80 | no distance and a distance of 0 both print as an empty cell |
| Csv.ListCell | src/components/ExportOptions.tsx:72-79 | a missing list prints empty, a present one joined by "; " |
| Csv.RowWithScore | src/components/ExportOptions.tsx:66-83 | sixteen cells, 1-based rank first, defaults for missing reasons, skills, education and distance |
| Csv.AssembleStrict | src/components/ExportOptions.tsx:101-104 | joining fails with a TypeError exactly when some line is a bare string, at the first one |
| Csv.FirstBare | src/components/ExportOptions.tsx:104 | the reported line is the first bare string |
| Csv.LenientLines | src/utils/exportUtils.ts:61 | every line is a joined row or a string as it is |
| Csv.DownloadName | src/components/ExportOptions.tsx:110 | the file name is "hr-ranking-" + a prefix of the timestamp without "T" + ".csv" |
| Csv.DownloadNameOfTimestamp | src/utils/exportUtils.ts:67 | for an ISO timestamp the name carries exactly the date part |
| Csv.SplitAtFirst | src/components/ExportOptions.tsx:110 | `split('T')[0]` is the text before the first "T" |
| ExportOptions.ScoreCell | src/components/ExportOptions.tsx:70 | the score cell is the two-decimal text, or "0" when that is empty |
| ExportOptions.Row | src/components/ExportOptions.tsx:66-83 | sixteen cells with the rank first and the two-decimal score in the fourth column |
| ExportOptions.Metadata | src/components/ExportOptions.tsx:86-97 | eleven two-cell metadata rows; empty minimum experience prints empty, no gender prints "Cualquiera", then the date, the total and a blank row |
| ExportOptions.QuotedRows | src/components/ExportOptions.tsx:103 | one quoted line per candidate, in order |
| ExportOptions.LinesAsWritten | src/components/ExportOptions.tsx:98-104 | the spread puts the sixteen header names in as bare strings from line 11 on |
| ExportOptions.ReportAsWrittenFails | src/components/ExportOptions.tsx:98-104 | the export as written always throws a TypeError at line 11 |
| ExportOptions.Lines | src/components/ExportOptions.tsx:98-104 | corrected: eleven metadata lines, one header line, then one quoted line per candidate |
| ExportOptions.ReportColumns | src/components/ExportOptions.tsx:98-104 | corrected: the header line has the sixteen columns, and each candidate line parses back into that candidate's sixteen cells |
| ExportUtils.Row | src/utils/exportUtils.ts:24-41 | sixteen cells with the rank first and the raw score, 0 for a zero score |
| ExportUtils.RowsDifferOnlyInScore | src/utils/exportUtils.ts:24-41 | the two exports' rows agree on every column but the score |
| ExportUtils.Metadata | src/utils/exportUtils.ts:43-54 | eleven metadata rows with the defaults "años", "Todos", "Todas", "N/A km", the date, the total and a blank row |
| ExportUtils.JobDescriptionCommaAddsColumn | src/utils/exportUtils.ts:51-61 | a description containing a comma spills its unquoted metadata row over more than two columns |
| ExportUtils.Items | src/utils/exportUtils.ts:58-60 | eleven metadata rows, sixteen bare header strings and one row per candidate |
| ExportUtils.LinesAsWritten | src/utils/exportUtils.ts:55-61 | as written the file has 27 + n lines |
| ExportUtils.HeadersOnSeparateLines | src/utils/exportUtils.ts:55-61 | as written every column name is on a line of its own, so the header line has one column, not sixteen |
| ExportUtils.QuotedRows | src/utils/exportUtils.ts:60 | one quoted line per candidate, in order |
| ExportUtils.Lines | src/utils/exportUtils.ts:55-61 | corrected: eleven metadata lines, one header line, then one quoted line per candidate |
| ExportUtils.ReportColumns | src/utils/exportUtils.ts:55-61 | corrected: the header line has sixteen columns and each candidate line parses back into its cells |
| CandidateProfile.KeepNonEmpty | src/pages/CandidateProfile.tsx:22-28 | a query key is kept exactly when present and non-empty, with its value |
| CandidateProfile.ReadQuery | src/pages/CandidateProfile.tsx:20-30 | each of required, preferred and jd is set exactly when its parameter is non-empty |
| CandidateProfile.FilterSet | src/pages/CandidateProfile.tsx:33-53 | no parameter gives the empty set; otherwise exactly the trimmed non-empty comma items, case kept |
| CandidateProfile.SkillClass | src/pages/CandidateProfile.tsx:55-61 | required style exactly when the lower-cased skill is in the required set; preferred only when not required; neutral otherwise |
| CandidateProfile.CapitalisedFilterNeverMatches | src/pages/CandidateProfile.tsx:39-58 | a filter item with a capital letter never matches, since skills are lower-cased and filters are not |
| CandidateProfile.HitsAtMostSkills | src/pages/CandidateProfile.tsx:92-100 | `req + pref` never exceeds the number of skills |
| CandidateProfile.HitsFollowSkillClass | src/pages/CandidateProfile.tsx:55-100 | `req` and `pref` are the numbers of skills shown in the required and the preferred style |
| CandidateProfile.CountMatches | src/pages/CandidateProfile.tsx:92-100 | the loop's counters are the required and preferred hit counts, which add up to at most the number of skills |
| CandidateProfile.ChunksConcatenate | src/pages/CandidateProfile.tsx:121-127 | the chunks put back together are the list |
| CandidateProfile.ChunksFull | src/pages/CandidateProfile.tsx:121-127 | no chunk is empty or longer than the size, and every chunk but the last is full |
| CandidateProfile.ChunkCount | src/pages/CandidateProfile.tsx:121-127 | there are ceil(n / size) chunks |
| CandidateProfile.ChunkedStep | src/pages/CandidateProfile.tsx:123-124 | one turn of the loop pushes the next slice, and the rest starts `size` further on |
| CandidateProfile.ChunkSkills | src/pages/CandidateProfile.tsx:121-127 | the loop builds exactly the chunk list |
| CandidateProfile.GridColumns | src/pages/CandidateProfile.tsx:368 | the grid has at least one column |
| CandidateProfile.GridColumnsMatchChunks | src/pages/CandidateProfile.tsx:368-369 | for a non-empty list the column count equals the number of chunks of five |
| CandidateProfile.FirstCategoryName | src/pages/CandidateProfile.tsx:108 | the first category's name, or "" when there are none |
| CandidateProfile.ActiveCategory | src/pages/CandidateProfile.tsx:110-111 | a category already chosen is kept; otherwise the recommended CV's; otherwise the first |
| CandidateProfile.Active | src/pages/CandidateProfile.tsx:187-188 | none exactly when no category has the name; otherwise the first category with that name |
| CandidateProfile.FreshLoadShowsFirstCategory | src/pages/CandidateProfile.tsx:108-111 | on a first load without a recommended CV the first category is shown |
| Autocomplete.Filter | src/components/Autocomplete.tsx:27-29 | the list is never longer than the suggestions |
| Autocomplete.FilterMembers | src/components/Autocomplete.tsx:27-29 | a suggestion is listed exactly when its lower-cased text contains the lower-cased value |
| Autocomplete.FilterConcat | src/components/Autocomplete.tsx:27-29 | filtering distributes over concatenation, so it keeps the suggestions' order |
| Autocomplete.FilterEmptyKeepsAll | src/components/Autocomplete.tsx:27-29 | with nothing typed every suggestion is listed |
| Autocomplete.AppendedShape | src/components/Autocomplete.tsx:74-76 | a blank value is replaced by the suggestion; otherwise the old value is kept as a prefix, followed by ", " and the suggestion |
| RecruiterPanel.CommaListAround | src/pages/RecruiterPanel.tsx:114-118 | a comma splits a comma field's items into those before it followed by those after it |
| Autocomplete.SelectionExtendsCommaList | src/components/Autocomplete.tsx:74-76 | after a selection the comma list of the field is the old list followed by the suggestion's items |
| Autocomplete.Widget.constructor | src/components/Autocomplete.tsx:20-32 | closed, nothing highlighted, the list filtered from the props |
| Autocomplete.Widget.SetProps | src/components/Autocomplete.tsx:26-32 | a change of value or suggestions refilters and clears the highlight; unchanged props change nothing |
| Autocomplete.Widget.InputChange | src/components/Autocomplete.tsx:87-90 | typing sets the value and opens the list |
| Autocomplete.Widget.Focus | src/components/Autocomplete.tsx:92-94 | focusing opens the list and changes nothing else |
| Autocomplete.Widget.ClickOutside | src/components/Autocomplete.tsx:34-44 | a click outside closes the list only while it is shown (open with at least one match; otherwise the list ref is unset and nothing happens), and changes nothing else |
| Autocomplete.Widget.MouseEnter | src/components/Autocomplete.tsx:123 | hovering highlights that item |
| Autocomplete.Widget.Select | src/components/Autocomplete.tsx:72-85 | the value becomes the appended text, the list closes and nothing is highlighted |
| Autocomplete.Widget.KeyDown | src/components/Autocomplete.tsx:46-70 | no effect while closed. ArrowDown moves down but stops at the last item; ArrowUp moves up but not below -1. Enter selects the highlighted item only when one is highlighted; Escape closes. -1 ≤ index < list length is kept throughout |
| UIComponents.ScorePercentage | src/components/UIComponents.tsx:13-18 | with the default scale of 10: within [0, 100] for scores in range, 100 or more exactly from the maximum, not clamped above it, negative exactly for negative scores |
| UIComponents.PercentBounds | src/components/UIComponents.tsx:13-18 | for any positive scale, the percentage lies in [0, 100] for in-range scores, reaches 100 exactly from the maximum, exceeds 100 above it and is negative exactly for negative scores |
| UIComponents.ColourOf | src/components/UIComponents.tsx:33-38 | exactly one of the four colours, by the bands ≥80, [60, 80), [40, 60) and <40 |
| UIComponents.ColourMonotone | src/components/UIComponents.tsx:33-38 | a higher percentage never gets a worse colour |
| UIComponents.DefaultScaleBands | src/components/UIComponents.tsx:13-38 | on the default scale the bar is green exactly from a score of 8 and red exactly below 4 |
| UIComponents.ScoreBarClasses | src/components/UIComponents.tsx:19-31 | compact mode uses the compact table, otherwise the size table; sizes differ in each table and each size differs between the tables |
| UIComponents.TagTypeClass | src/components/UIComponents.tsx:71-76 | each of the four labels has its own style |
| UIComponents.TagClasses | src/components/UIComponents.tsx:78-88 | compact mode uses the compact table, otherwise the size table; the sizes and modes are told apart |
| UIComponents.MatchPercentage | src/components/UIComponents.tsx:118-119 | 0 when the total is 0; otherwise matches·100/total, within [0, 100] when the matches do not exceed the total, and 100 exactly for all matched |
| UIComponents.IndicatorBarShowsPercentage | src/components/UIComponents.tsx:118-134 | a bar on the scale of 100 shows the percentage unchanged, and is green exactly from 80% of the terms matched |
| UIComponents.JdBarWidth | src/components/UIComponents.tsx:141 | never above 100; 10 points per term below ten terms; full exactly from ten |
| UIComponents.JdBarMonotone | src/components/UIComponents.tsx:141 | more matched terms never give a shorter bar |

## Left out

- Network, authentication, uploads and storage are left out. This covers the axios calls, `localStorage`, the upload form, `handleRank`'s timers and progress messages, and the CV count fetch.
- The profile page's `fetchData`, `handleDownload` and `handleSetPrimary` are left out. So are the map iframe and the scrolling to the recommended CV.
- The Blob/anchor download and `new Date()` are left out. The export date and the ISO timestamp are parameters.
- The averages are left out: `avgScore`, `avgExperience` and `shareResults`. They are IEEE double arithmetic, and only the non-empty guard (`Analytics.Analyze`) is modelled.
- NaN and infinities are not modelled:
  - `Number(minExperience) || 0` in the payload takes the number as given, and `Number(maxDistanceKm)` is an abstract parameter from text to number.
  - A `maxScore` of 0 is excluded by `UIComponents.ScorePercentage`'s precondition, where JavaScript would give Infinity or NaN.
- `toFixed(2)`, `String(number)` and `localeCompare` are abstract parameters. Name sorting therefore holds for any collation that is a total preorder.
- Case mapping covers ASCII and Latin-1 only. Other scripts, and `toLowerCase`'s multi-character mappings, are outside the model.
- Analytics.Entries: keys in insertion order. `Object.entries` lists integer-like keys (a skill named "2019") first in numeric order, which is not modelled.
- Skill or city names that collide with `Object.prototype` members (for example "constructor") are not modelled. In the source they make `t[k] || 0` yield a function, and the count becomes a string.
- CandidateProfile.ChunkSkills: requires a positive size. With size 0 the source loops forever, and every call in the source passes 5.
- CandidateProfile.SkillClass: returns the style rather than the class string. The `small` variant only changes the base padding and font classes.
- The profile's classification-score bar (`Math.min(100, score * 100)`) is not modelled.
- The match indicator's four compact-mode class strings (src/components/UIComponents.tsx:121-124) are constant picks and are not modelled.
- The spinner, tooltips, slider, error boundary, routing and dashboard are pure presentation and are not part of this model.
- RecruiterPanel.PageItems: page 0 is not clamped up to 1. `Math.min(page, totalPages)` leaves 0 alone, so the slice from `-pageSize` to 0 is empty. The code is followed here; the page state never holds 0 (`RecruiterPanel.ResultView` keeps 1 ≤ page).
- RecruiterPanel.ResultView.ChangeSort: sets the field and the direction together. The source has two selectors, but each one leaves the page where it is.
- Autocomplete.Widget: `value` is a prop that the parent updates from `onChange`. The model assumes the parent feeds every value back, as both skill fields do.

## Findings

| source | as written | input that shows it | evidently intended | confidence | as-written member | corrected member |
|---|---|---|---|---|---|---|
| src/components/ExportOptions.tsx:98-104 | `...headers` spreads the sixteen column names into the metadata as plain strings; `row.join(',')` is then called on a string | any call, even with no candidates: line 11 is the string "Ranking" and `.join` is not a function on it, so the export throws a TypeError | one header row `Ranking,Nombre Completo,...` between the metadata and the candidate rows | not executed | ExportOptions.ReportAsWrittenFails | ExportOptions.ReportColumns |
| src/utils/exportUtils.ts:55-61 | the same spread; the `Array.isArray` guard turns each column name into a line of its own | any call: the file has 27 + n lines, and the header line "Ranking" has one column, not sixteen | one header row with sixteen columns, giving 12 + n lines | not executed | ExportUtils.HeadersOnSeparateLines | ExportUtils.ReportColumns |
