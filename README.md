# Baseball scorebook from play-by-play rows

`Main.py` turns the play-by-play table of one Milwaukee Brewers game, as
exported from Baseball-Reference, into a scorebook grid. The grid has one
row per Brewers batter and one column per inning. Each cell holds scorebook
shorthand for that batter's plate appearances in that inning: `1B`, `K*`,
`6-3`, `GDP 4-6-3`, `F8f`, `FC`, and so on. Runs batted in appear as
`, RBI`, stolen bases as `, SB` and caught stealing as `, CS`.

The script runs in five stages, and the model follows them module by module:

- **Pinch-hitter map** (`pinch.dfy`, module `Pinch`). A sentence "X pinch
  hits for Y ..." makes X's later plays go on Y's line. A later sentence
  about the same X overrides an earlier one.
- **Play classifier** (`classifier.dfy`, module `Classifier`). This covers
  `score_unassisted`, `score_groundout` and `to_scorebook`: keyword rules
  tried in a fixed order, the first match winning, plus the fielder-number
  chains of ground-outs.
- **Row filter** (`rows.dfy`, module `Rows`).
  - It keeps the columns Inn, @Bat, Batter and Play Description.
  - It strips a capitalised first word from multi-word batter names.
  - It keeps the header row, then only the rows whose @Bat column is `MIL`.
- **Accumulator** (`board.dfy`, module `Board`). It folds the rows into an
  insertion-ordered dictionary of innings, each holding an
  insertion-ordered dictionary of cells. It models Python's dictionary
  order explicitly (`dict.dfy`, module `Dict`).
- **Layout** (`grid.dfy`, module `Grid`).
  - Innings are sorted by numeric value.
  - Batters are listed in order of first appearance.
  - There are at least nine inning columns.
  - One row per batter.

`scorebook.dfy` (module `Scorebook`) chains the stages. `text.dfy` (module
`Text`) models the Python string operations the script relies on: `in`,
`split()`, `split(sep)`, `count`, `join`, `*`, `upper` and
`filter(str.isdigit)`.

The pure functions of the source become Dafny functions with lemmas. The
script's loops become methods, each proved equal to a specification
function: the pinch loop, the column loop, the row loop, the runner loops,
the accumulation loop, the batter-order loop and the row-building loop.
Errors the script does not catch become the `Err` case of a `Result`:

- `ValueError` from `header.index`;
- `IndexError` from `split()[-1]` on a text with no word;
- `ValueError` from `int("")` on an inning with no digit.

## Model

| member | source | states |
|---|---|---|
| Classifier.ScoreUnassisted | Main.py:31-37 | the result is "" or a single position number 1-9 |
| Classifier.UnassistedFrom | Main.py:34-37 | the `pos_map` loop resumed at key k; stated by `UnassistedFromFirst` and `UnassistedFromRange` |
| Classifier.UnassistedFirstMatch | Main.py:31-37 | the result is "" exactly when no position key occurs; otherwise it is the number of the first key, in `pos_map` order, that occurs |
| Classifier.UnassistedFromFirst | Main.py:34-37 | the loop resumed at key k returns the number of the first key from k on that occurs, or "" when none does |
| Classifier.UnassistedFromRange | Main.py:34-37 | every step of the key loop yields "" or a position number |
| Classifier.PositionNumbersAreNumbers | Main.py:33 | every value of `pos_map` is a one-digit position number, one per key |
| Classifier.PieceNumbers | Main.py:46 | the numbers kept from the pieces of a hyphenated word are all position numbers |
| Classifier.PieceNumbersSnoc | Main.py:46 | one more piece appends its number exactly when `score_unassisted` of it is non-empty |
| Classifier.ChainNumbers | Main.py:44-46 | the numbers collected over the words are all position numbers |
| Classifier.GroundoutChain | Main.py:41-47 | the ground-out chain is digits and hyphens, with no hyphen at either end and no two hyphens in a row |
| Classifier.ExtendWithNumbers | Main.py:46 | the `extend` loop appends exactly the numbers of the pieces, in order |
| Classifier.ScoreGroundout | Main.py:39-47 | the word loop returns exactly `GroundoutChain(desc)` |
| Classifier.GroundoutChainLayout | Main.py:43-47 | the chain is empty exactly when no number was collected; otherwise it has the numbers at even positions and hyphens at odd ones |
| Classifier.ChainNumbersNeedHyphen | Main.py:44-46 | numbers are collected only when some word contains a hyphen |
| Classifier.GroundoutNeedsHyphen | Main.py:41-47 | a non-empty chain needs a hyphen in the description |
| Classifier.JoinShape | Main.py:47 | joining one-character strings with "-" puts them at even positions and hyphens at odd ones, giving length 2n-1 |
| Classifier.JoinNumbersAt | Main.py:47 | a join of position numbers has a digit at every even index and a hyphen at every odd one |
| Classifier.JoinNumbersParity | Main.py:47 | a join of position numbers has odd length (or is empty) and alternates digit and hyphen |
| Classifier.JoinNumbersWellFormed | Main.py:47 | a join of position numbers is a well-formed chain |
| Classifier.ParityChainWellFormed | Main.py:47 | an alternating digit/hyphen string of odd length is a well-formed chain |
| Classifier.ToScorebook | Main.py:49-81 | the keyword rules in source order; what each rule yields is stated by the rule lemmas below |
| Classifier.WordNumbers | Main.py:45-46 | the numbers of one word: those of its hyphen pieces when it has a hyphen, none otherwise (stated through `ChainNumbers`) |
| Classifier.EmptyIsUnclassified | Main.py:51-52 | the empty description yields "" |
| Classifier.FixedCodeRules | Main.py:54-61 | WALK gives BB; otherwise HIT BY PITCH gives HBP; otherwise SACRIFICE gives SAC; otherwise SINGLE gives 1B |
| Classifier.DoubleRule | Main.py:62-63 | with no earlier keyword: DOUBLE PLAY gives "GDP " plus the chain; DOUBLE without PLAY gives 2B |
| Classifier.TripleRule | Main.py:64-65 | with no earlier keyword: TRIPLE PLAY gives "GTP " plus the chain; TRIPLE without PLAY gives 3B |
| Classifier.HomeRunRule | Main.py:66-67 | with no earlier keyword, HOMERS or HOME RUN gives HR |
| Classifier.StrikeoutRule | Main.py:68-69 | with no earlier keyword, STRIKEOUT gives K* exactly when LOOKING occurs and K exactly when it does not |
| Classifier.GroundoutRule | Main.py:70-71 | with no earlier keyword, GROUNDOUT gives the unassisted fielder when UNASSISTED occurs, else the chain |
| Classifier.FieldedLetter | Main.py:73-79 | the letters L, P and F are single characters other than 'f' |
| Classifier.FieldedRule | Main.py:72-80 | with no earlier keyword, LINEOUT/POPFLY/FLYBALL give their letter, the fielder, then "f" exactly when FOUL occurs |
| Classifier.UnclassifiedIsEmpty | Main.py:81 | a description with none of the thirteen keywords yields "" |
| Classifier.ContainsPrefixOf | Main.py:63 | a description containing "DOUBLE PLAY" (or any longer phrase) contains its prefix |
| Pinch.Entry | Main.py:95-102 | one line's contribution, upper-cased and read in the corrected way; stated by `EntryShape` |
| Pinch.SentenceEntry | Main.py:96-102 | the same on an upper-cased line; stated by `SentenceShape` |
| Pinch.SentenceShape | Main.py:96-102 | an upper-cased line registers an entry exactly when it has the phrase, a word before its first occurrence and more than two words after it; the entry is the last word before and the second word after |
| Pinch.EntryShape | Main.py:95-102 | the same for any line, after `upper()` |
| Pinch.EntryNamesAreWords | Main.py:99-101 | both registered names are non-empty and contain no whitespace |
| Pinch.EntryNeedsPhrase | Main.py:96 | a line without the phrase registers nothing |
| Pinch.EntriesOf | Main.py:94 | one contribution per input line, in order |
| Pinch.BuildPinchMap | Main.py:93-104 | the loop builds exactly `MapOf(lines)`, the fold of the line entries |
| Pinch.RegisteredKeys | Main.py:102 | a hitter is a key exactly when some entry names them |
| Pinch.RegisteredLast | Main.py:102 | a key maps to the batter of the last entry naming that hitter |
| Pinch.Register | Main.py:102 | `pinch_map[name1] = name2` for one line, later lines overriding earlier ones; stated by `RegisteredKeys` and `RegisteredLast` |
| Pinch.Registered | Main.py:102 | the map after registering the line entries in order; stated by `RegisteredKeys` and `RegisteredLast` |
| Pinch.MapOf | Main.py:93-104 | the pinch map after all input lines; stated by `MapOfLast`, and built by `BuildPinchMap` |
| Pinch.MapOfLast | Main.py:93-104 | over input lines: a hitter is a key exactly when some line registers them, and the last such line decides the batter |
| Pinch.EntryAsWritten | Main.py:96-104 | as written, a line that runs to completion contributes exactly what `Entry` does; nothing before the phrase is an uncaught IndexError |
| Pinch.LeadingPhraseCrashes | Main.py:99 | "Pinch hits for Jones" stops the program as written, but is skipped by the corrected reading |
| Rows.StripBatter | Main.py:124-128 | the batter-name stripping; stated by `StripBatterWords` |
| Rows.StripBatterWords | Main.py:124-128 | stripping removes exactly the capitalised first word of a multi-word name and keeps the other words in order |
| Rows.Cell | Main.py:123-128 | the value kept from one column, the batter column stripped; stated by `ProjectShape` |
| Rows.Select | Main.py:121-129 | the fields kept for a list of column indexes; stated by `SelectSnoc` and `ProjectShape` |
| Rows.Project | Main.py:120-129 | one row projected onto columns 0, 6, 7 and 11; stated by `ProjectShape` and `ProjectAtMostFour`, and built by `ProjectRow` |
| Rows.Filtered | Main.py:133-134 | the projected header followed by the projected MIL rows; stated by `FilteredShape` and `FilteredComplete`, and built by `FilterRows` |
| Rows.ProjectRow | Main.py:120-129 | the column loop builds exactly `Project(row)` |
| Rows.ProjectShape | Main.py:121-129 | the projection has 0-4 fields, as many as the columns 0, 6, 7, 11 the row reaches, and field j is the (stripped) cell of column j |
| Rows.SelectSnoc | Main.py:121-129 | one more column index appends that cell exactly when the row has it |
| Rows.ProjectAtMostFour | Main.py:121 | a projected row has at most four fields |
| Rows.KeepTeam | Main.py:134 | the team filter never adds rows |
| Rows.ProjectAll | Main.py:119-130 | every row is projected, in order |
| Rows.FilterRows | Main.py:118-134 | the row loop and the team filter build exactly `Filtered(rows)` |
| Rows.KeepTeamMembers | Main.py:134 | a row is kept exactly when it is an input row of more than one field whose @Bat is MIL |
| Rows.KeepTeamAllOfTeam | Main.py:134 | every kept row is a MIL row |
| Rows.KeepTeamIdempotent | Main.py:134 | filtering for the team twice is filtering once |
| Rows.FilteredShape | Main.py:133-134 | the header row is kept first; every later row has 2-4 fields and MIL second |
| Rows.FilteredComplete | Main.py:134 | every data row whose projection is a MIL row survives the filter |
| Rows.ProjectTwice | Main.py:119-130 | a row of at most four fields projects to its first field only, so the filter is not idempotent |
| Dict.EmptyValid | Main.py:137 | the empty dictionary is well formed |
| Dict.PutFacts | Main.py:152-165 | assignment keeps the dictionary well formed, updates only that key, and appends a new key at the end of the order |
| Dict.PutPut | Main.py:157-160 | writing a key twice is writing the second value |
| Dict.PutGet | Main.py:165 | reading after a write sees the written value for that key and the old value elsewhere |
| Dict.PutOrder | Main.py:159 | one store keeps the key order and appends a new key |
| Dict.ExtendedPrefix | Main.py:152-170 | the keys already present keep their places at the front |
| Dict.ExtendedAppend | Main.py:152-170 | storing under a and then b orders the keys as storing under a + b |
| Board.FieldIndex | Main.py:138-140 | the index is the first position holding the title; it is missing exactly when the title is not in the header |
| Board.LookupFields | Main.py:138-140 | the lookups succeed exactly when Inn, Batter and Play Description are all in the header, each index then holding its title; otherwise ValueError |
| Board.Short | Main.py:142 | the short-row test; stated by `ShortIsMax` |
| Board.ShortIsMax | Main.py:142 | a row is passed over exactly when its length is at most the largest of the three indexes |
| Board.Resolve | Main.py:154-155 | a name in the pinch map is replaced by its batter, any other name is kept; stated by `PinchHitterOnBattersLine` and `RunnersValues` |
| Board.Runners | Main.py:161-169 | the runner names, read in the corrected way that "## Left out" names; stated by `RunnersNone`, `RunnersValues` and `RunnersShape` |
| Board.StealSources | Main.py:161-162 | the texts the stealers are read from; stated by `StealSourcesShape` |
| Board.StealSourcesShape | Main.py:161-162 | one text per "STEALS": the i-th piece of the split on "STEALS", the first being the text before the first "STEALS" |
| Board.CaughtSources | Main.py:166-167 | every caught-stealing event of a row reads the text before the FIRST "CAUGHT STEALING", because the split is indexed with `[0]`, not `[j]`; stated by `CaughtSourcesFirst` |
| Board.CaughtSourcesFirst | Main.py:166-167 | one text per "CAUGHT STEALING", and each of them is the text before the first occurrence |
| Board.Accumulated | Main.py:137-170 | the header lookups, then the fold of the rows from an empty scoreboard; stated by `AccumulatedWellFormed`, and built by `Accumulate` |
| Board.FilteredHeaderFields | Main.py:138-140 | in the filtered header the inning, batter and description are columns 0, 2 and 3 |
| Board.PlayCode | Main.py:147-151 | "FC" when the description holds the batter's name followed by " TO ", otherwise the classification of the text before the first "(" |
| Board.ParseRow | Main.py:144-167 | reading one row; stated by `ParseRowCounts` and `ParseRowFails` |
| Board.BatCell | Main.py:156-160 | the batter's new cell; stated by `ApplyPlayEffect` |
| Board.AppendEach | Main.py:161-170 | the runner appends; stated by `AppendEachGet`, `AppendEachKeys` and `AppendEachOrder` |
| Board.ApplyPlay | Main.py:152-170 | one play written into the scoreboard; stated by `ApplyPlayEffect`, `ApplyPlayOrder` and `ApplyPlayOtherInnings` |
| Board.Run | Main.py:141-170 | the fold over the rows; stated by `RunErrors` and `RunWellFormed` |
| Board.CaughtRunnerAsWritten | Main.py:166-170 | the caught-stealing lookup as written, the as-written half of the second finding; stated by `CaughtRunnerAsWrittenAgrees` and `CaughtPinchHitterCrashes` |
| Board.AppendRunners | Main.py:161-170 | a runner loop fails when some runner text has no word, and otherwise appends the suffix for each runner |
| Board.ProcessRow | Main.py:144-170 | one row fails with IndexError exactly when its runner names cannot be read; otherwise it applies the row's play to the scoreboard |
| Board.Accumulate | Main.py:137-170 | the row loop skips short rows and builds exactly `Accumulated(header, rows, pinch)` |
| Board.RunnersPrefixNone | Main.py:161-170 | once one runner text has no word, the whole loop fails |
| Board.RunnersNone | Main.py:162-167 | the runner list is missing exactly when some source text has no word |
| Board.RunnersValues | Main.py:162-169 | the i-th runner is the last word of the i-th source text, resolved through the pinch map |
| Board.RunnersShape | Main.py:161-170 | both of the above together |
| Board.ParseRowCounts | Main.py:144-155 | a row yields one RBI per SCORES, one stealer per STEALS and one caught runner per CAUGHT STEALING; the batter is resolved and the inning is its digits |
| Board.ParseRowFails | Main.py:161-170 | reading fails exactly when the text before some STEALS, or before the first CAUGHT STEALING of a row that has one, holds no word |
| Board.PinchHitterOnBattersLine | Main.py:154-155 | a pinch hitter's play is filed under the batter of the last line saying whom they hit for |
| Board.RunErrors | Main.py:141-170 | the accumulation fails only with IndexError |
| Board.AppendEachValid | Main.py:161-170 | appending to runners' cells keeps the cells well formed |
| Board.AppendEachGet | Main.py:161-170 | each runner's cell gets the suffix once per occurrence of that runner, created as "" first; other cells are unchanged |
| Board.AppendEachKeys | Main.py:161-170 | after appending, the cells are the old ones plus the runners' |
| Board.AppendEachOrder | Main.py:161-170 | the runners' cells are ordered as stores under each runner in turn: names without a cell go to the end, in order of first mention |
| Board.ApplyPlayOrder | Main.py:152-170 | a play keeps the inning's cell order and appends the batter, then the stealers, then the caught runners that had no cell, in that order; a new inning goes after the others |
| Board.ApplyPlayEffect | Main.py:152-170 | in the play's inning, the batter's cell is joined with "; " to a non-empty earlier entry, then gets ", RBI" per run if non-empty; each runner gets ", SB" per steal and ", CS" per time caught; every other cell is unchanged, and a cell exists exactly when it existed or was written |
| Board.ApplyPlayOtherInnings | Main.py:152-170 | a play changes no other inning |
| Board.PutWellFormed | Main.py:152-153 | storing well-formed cells under a digit-only inning keeps the scoreboard well formed |
| Board.ApplyPlayWellFormed | Main.py:144-170 | one play keeps the scoreboard well formed: ordered dictionaries inside and out, and digit-only inning keys |
| Board.RunWellFormed | Main.py:141-170 | the whole fold keeps the scoreboard well formed |
| Board.AccumulatedWellFormed | Main.py:137-170 | the accumulated scoreboard is well formed |
| Board.CaughtRunnerAsWrittenAgrees | Main.py:166-170 | the as-written caught-stealing lookup agrees with the corrected one for a runner who is not a pinch hitter |
| Board.CaughtPinchHitterCrashes | Main.py:168-169 | a pinch hitter caught stealing stops the program as written (NameError before any steal, KeyError after an ordinary runner's steal), while the corrected lookup files the CS under the replaced batter |
| Grid.DigitChar | Main.py:179 | the digit of a value below ten is a digit character of that value |
| Grid.NatToString | Main.py:179 | `str(n)` is a non-empty string of digits |
| Grid.IntOfNatToString | Main.py:179-184 | `int(str(n)) == n`, so column labels name their own inning |
| Grid.NatToStringInjective | Main.py:179 | different columns have different labels |
| Grid.IntOfDigits | Main.py:174-178 | a digit string has a non-negative value |
| Grid.InningsWithinColumns | Main.py:178-179 | on an accumulated scoreboard every inning number lies between 0 and the column count |
| Grid.InsertMultiset | Main.py:174 | inserting adds exactly that key |
| Grid.InsertSorted | Main.py:174 | inserting into a sorted list keeps it sorted by value |
| Grid.InsertFacts | Main.py:174 | both of the above together |
| Grid.SortByValueFacts | Main.py:174 | the sorted innings are ascending by numeric value and are a permutation of the keys |
| Grid.FirstIndex | Main.py:176-177 | the first occurrence of a name: it holds the name, and no earlier position does |
| Grid.DedupMembers | Main.py:175-177 | a name is in the batter order exactly when it appears |
| Grid.DedupFacts | Main.py:173-177 | the batter order has no repeats, names exactly the batters that appear, and lists them by first appearance |
| Grid.DedupSnoc | Main.py:176-177 | one more name is appended exactly when it is new |
| Grid.FirstIndexPrefix | Main.py:173-177 | a first appearance stays first when more names follow |
| Grid.AppearancesMembers | Main.py:174-175 | a name appears exactly when some inning's cells hold it |
| Grid.AddNew | Main.py:175-177 | the inner loop extends the order to the first appearances of the names seen so far plus this inning's |
| Grid.OrderBatters | Main.py:173-177 | the batter-order loop builds exactly the first appearances over the innings in the given order |
| Grid.MaxInning | Main.py:178 | the column count is at least 9 |
| Grid.MaxInningSpan | Main.py:178 | the column count covers every inning and is 9 or some inning's number |
| Grid.InningColumns | Main.py:179 | there are n column labels, "1" to "n" |
| Grid.InningColumnValue | Main.py:179 | column i is labelled with the number i+1 |
| Grid.BuildRows | Main.py:180-185 | the row loop builds one row per batter, of their name and the cell of each column |
| Grid.SortByValue | Main.py:174 | `sorted(keys, key=int)`; stated by `SortByValueFacts` |
| Grid.Dedup | Main.py:175-177 | first occurrences in order; stated by `DedupFacts` |
| Grid.Appearances | Main.py:174-175 | the names of each inning's cells, inning by inning; stated by `AppearancesMembers` |
| Grid.BattersOrder | Main.py:173-177 | the batter order; stated by `BattersOrderFacts` |
| Grid.GridRow | Main.py:181-185 | one batter's row; stated by `TableShape` |
| Grid.TableOf | Main.py:178-186 | the header and rows of the table; stated by `TableShape` |
| Grid.BuildTable | Main.py:173-186 | for an accumulated scoreboard (inning keys of digits only), the layout fails with the int("") ValueError exactly when an inning has no digits; otherwise it is `TableOf(b)` |
| Grid.TableShape | Main.py:178-186 | the header is "Batter" and the labels 1..n; each row holds the batter and, for every column c, the batter's cell of inning `str(c)` or "" |
| Grid.BattersOrderFacts | Main.py:173-177 | the innings are visited in ascending order and each exactly once; the batter order has no repeats, names exactly the batters of some inning, and follows their first appearances |
| Scorebook.ScorebookOf | Main.py:93-186 | the stages chained; stated by `Run`, `HeaderColumns` and `FailuresUnderHeader` |
| Scorebook.Run | Main.py:93-186 | the script's stages run in sequence and compute exactly `ScorebookOf(lines, rows)` |
| Scorebook.HeaderColumns | Main.py:117-140 | the fixed header filters to Inn, @Bat, Batter, Play Description, where the three looked-up columns are 0, 2 and 3 |
| Scorebook.StripBatterHeader | Main.py:124-128 | the header's "Batter" field is not stripped |
| Scorebook.FailuresUnderHeader | Main.py:107-186 | under the fixed header, the model, with both corrections of "## Findings", fails only with the runner IndexError or the int("") ValueError; the code as written also stops at the two places listed there |
| Text.Upper | Main.py:95 | upper-casing keeps the length and upper-cases each character |
| Text.IndexOf | Main.py:96 | a found index is a position where the text occurs |
| Text.IndexOfFirst | Main.py:96-97 | no earlier position starts the text, and none at all when not found |
| Text.ContainsIff | Main.py:35 | `sub in s` holds exactly when `sub` occurs at some position |
| Text.ContainsChar | Main.py:45 | `"-" in word` is membership of the character |
| Text.SplitCount | Main.py:148-150 | `s.split(sep)` has `s.count(sep) + 1` pieces |
| Text.SplitHead | Main.py:147 | without the separator the split is the whole text; otherwise its first piece is the text before the first occurrence, and there are at least two pieces |
| Text.SplitWs | Main.py:99-101 | `split()` yields non-empty words without whitespace |
| Text.SplitJoin | Main.py:128 | splitting words joined with " " gives back the words |
| Text.SplitWsWordThenSpace | Main.py:128 | a word followed by a blank splits off as the first token |
| Text.SplitWsChars | Main.py:125 | every character of a word comes from the text |
| Text.SplitWsToken | Main.py:125-126 | a text without whitespace is one word, or none when empty |
| Text.RepeatSnoc | Main.py:160 | one more copy at the end is one more repetition |
| Text.Digits | Main.py:144 | the kept characters are digits, never more than the input, and none exactly when the input has no digit |
| Text.LastToken | Main.py:162 | `split()[-1]` is missing exactly when there is no word, and is otherwise the last word |

## Left out

- Reading `input.txt` (Main.py:86-90) is outside the model. The model takes the stripped, non-blank lines as a parameter.
- Searching for the header line and exiting (Main.py:107-111) is outside the model. So is `csv.reader` (Main.py:113-115). The model takes the parsed rows that begin at the header line, so `Filtered` and `FilterRows` require at least one row.
- Printing with `tabulate` (Main.py:187-188) and the clipboard copy (Main.py:190-197) are output only; the model ends at the table's header and rows.
- Text is ASCII only. Python's `upper`, `isupper`, `isdigit` and `split()` also treat non-ASCII letters, digits and spaces. The model upper-cases only a-z, treats only 0-9 as digits, and treats only the ASCII whitespace characters (9-13, 28-32) as spaces.
- Grid.SortByValueFacts: states sorted and a permutation, but does not state stability for keys of equal value, such as "1" and "01". `Insert` places a key after every key of no greater value, as Python's stable sort does.
- `int()` is modelled on digit strings only (`IntOf`). Inning keys hold only digits (`Board.WellFormed`), and the only failing key is "", which is modelled as `Err`.
- Pinch.Entry: models the corrected behaviour, where a line with nothing before the phrase is skipped. `Pinch.EntryAsWritten` models the line as written (see Findings).
- Board.Runners: resolves a caught runner through their own pinch-map entry. `Board.CaughtRunnerAsWritten` models the lookup as written, which needs the name `sb_player` last held, possibly from an earlier row. That name is a parameter there, not tracked through the fold.
- "SMITH PINCH HITS FOR JONES IN THE 7TH" maps SMITH to IN, because Main.py:101 takes the second word after the phrase; the model does the same (`Pinch.SentenceShape`).
- "STRIKES OUT LOOKING" does not contain "STRIKEOUT" (Main.py:68), so it yields "" unless a later rule matches; the model does the same (`Classifier.StrikeoutRule`).
- Only the team filter is idempotent (`Rows.KeepTeamIdempotent`); projecting a row again leaves only its first field (`Rows.ProjectTwice`).

## Findings

| source | as written | input that shows it | evidently intended | confidence | as-written member | corrected member |
|---|---|---|---|---|---|---|
| Main.py:98-104 | `words[0].split()[-1]` raises IndexError when nothing precedes the phrase, and the handler catches only ValueError, so the program stops | the line "Pinch hits for Jones" | skip the line, as the `try`/`continue` intends | not executed | Pinch.LeadingPhraseCrashes | Pinch.EntryShape |
| Main.py:168-169 | a pinch hitter caught stealing is replaced by `pinch_map[sb_player]`: NameError when no steal has been read yet, KeyError (or the wrong batter) after one | pinch map {WINKER: PERKINS} and a row "WINKER CAUGHT STEALING 2B" with no earlier steal | `pinch_map[cs_player]`, filing the CS under PERKINS | not executed | Board.CaughtPinchHitterCrashes | Board.RunnersShape |
