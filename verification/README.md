# Lichess profile statistics: a Dafny model

This project models the logic of a small Lichess profile viewer. That logic is the
`analyzeGames` aggregation on the player page (`src/pages/PlayerStats.jsx`) and the mapping
of its result to win percentages. It also covers two handlers of the home page's search
form (`src/pages/Home.jsx`).

`analyzeGames` reads the decoded game records of one player, in the order given:

- It skips a record unless both player names are present and non-empty.
- It attributes the record to the first colour, white before black, whose lower-cased name
  equals the lower-cased target.
- It skips the record if that side is provisional.
- It files the record under its opening name, or under `"Unknown Opening"` when there is none.
- Per colour, it counts games, wins and losses for each opening, plus wins and losses overall.
- It keeps the five most played openings per colour. The sort is stable, so ties stay in
  the order their openings first appeared.

The page then shows `Math.round((wins / count) * 100)` for every kept opening.

The home page toggles a time control in or out of the selected list. It navigates to
`/player/<name>?games=<n>`, followed by `&time=` and the comma-joined time controls when some
are selected, and only when the typed name is not blank.

The model is functional:

- A record is an immutable datatype with optional fields (`Games`).
- The per-colour object keyed by opening name is an association list in insertion order
  (`Tallies`).
- The `forEach` is a left fold (`Analysis.Fold`).
- The `sort`/`slice` pair is a stable insertion sort followed by a cut at five (`Ranking`).
- The percentage is exact integer round-half-up (`Percentages`).

Every opening tally and colour total is proved equal to a count over an independent
reference: the list of plays attributed to a colour (`Analysis.Plays`).

Files: `wrappers.dfy` (Option), `strings.dfy` (lower-casing, `trim`, `join`/`split`),
`games.dfy`, `tallies.dfy`, `analysis.dfy`, `ranking.dfy`, `winrate.dfy`, `summary.dfy`,
`home.dfy`, `scenarios.dfy` (worked single-record examples).

## Model

| member | source | states |
|---|---|---|
| Games.Attribution | src/pages/PlayerStats.jsx:60-98 | A record counts for white exactly when both names are present and non-empty, white's lower-cased name equals the lower-cased target and white is not provisional. It counts for black exactly when the same holds for black and white does not match. Otherwise it is skipped. |
| Games.OpeningKey | src/pages/PlayerStats.jsx:73 | The bucket is the opening name when it is present and non-empty, else "Unknown Opening"; it is never empty. |
| Games.OutcomeFor | src/pages/PlayerStats.jsx:88-111 | A win exactly when `winner` names the player's colour, a loss exactly when it names the other colour, otherwise neither. |
| Games.SelfPlayCountsAsWhite | src/pages/PlayerStats.jsx:78-95 | A record naming the target on both sides never counts for black, and counts for white unless white is provisional. |
| Games.OtherSideProvisionalIrrelevant | src/pages/PlayerStats.jsx:78-98 | For every record with players, counted or skipped: when white is the target, changing black's provisional flag leaves the attribution as it was; when white is not the target, changing white's flag leaves it as it was. |
| Games.AttributionIgnoresTargetCase | src/pages/PlayerStats.jsx:60 | Lower-casing the target first changes nothing. |
| Games.EmptyTargetMatchesNothing | src/pages/PlayerStats.jsx:65-78 | An empty target matches no record, because a usable record has two non-empty names. |
| Tallies.Credit | src/pages/PlayerStats.jsx:87-94 | One game adds 1 to the count, 1 to wins only for a win and 1 to losses only for a loss, so wins + losses <= count is kept. |
| Tallies.Lookup | src/pages/PlayerStats.jsx:83 | A key has an entry exactly when it is among the list's names, and the entry found carries that name. |
| Tallies.Bump | src/pages/PlayerStats.jsx:83-111 | A known key keeps its position and a new key is appended last. The count, win and loss sums each move by exactly the one game. |
| Tallies.BumpLookup | src/pages/PlayerStats.jsx:83-94 | After one game, its key reads as the old entry (or a zero entry) credited once, and every other key reads as before. |
| Tallies.BumpWellFormed | src/pages/PlayerStats.jsx:83-87 | Keys stay distinct, and every entry keeps count >= 1 and wins + losses <= count. |
| Analysis.Record | src/pages/PlayerStats.jsx:88-93 | A colour total gains a win only for a win and a loss only for a loss. |
| Analysis.Step | src/pages/PlayerStats.jsx:62-113 | A skipped record changes nothing. An attributed record changes only its own colour. Each colour's totals remain the sums of its opening tallies. |
| Analysis.Fold | src/pages/PlayerStats.jsx:50-113 | After the whole pass each colour's tally is well formed, and its win and loss totals equal the sums over its openings. |
| Analysis.FirstSeen | src/pages/PlayerStats.jsx:83-85 | The reference key order holds each key once, and exactly the keys that occur. |
| Analysis.FoldLookup | src/pages/PlayerStats.jsx:62-113 | The entry stored under any key of either colour holds exactly the number of that colour's games, wins and losses with that opening. It is absent exactly when there is no such game. |
| Analysis.FoldStats | src/pages/PlayerStats.jsx:55-111 | Each colour's win and loss totals count exactly that colour's won and lost games. |
| Analysis.FoldSumCount | src/pages/PlayerStats.jsx:83-104 | The opening counts of a colour add up to the number of games attributed to it. |
| Analysis.FoldOrder | src/pages/PlayerStats.jsx:83-102 | A colour's keys are its opening keys in order of first appearance. |
| Analysis.SkippedRecordChangesNothing | src/pages/PlayerStats.jsx:65-98 | Appending a skipped record (unusable, unmatched, or provisional on the matching side) leaves the whole result unchanged. |
| Analysis.EmptyTargetYieldsEmpty | src/pages/PlayerStats.jsx:60-113 | With an empty target every record is skipped, so both colours stay empty and zero. |
| Ranking.SortByCount | src/pages/PlayerStats.jsx:115-116 | The result is a permutation of the input, non-increasing in count, and for every count lists the entries with that count in input order (stability). |
| Ranking.InsertWithCount | src/pages/PlayerStats.jsx:116 | An inserted entry goes ahead of the entries it ties with, and the order among the others is kept. |
| Ranking.StableSortUnique | src/pages/PlayerStats.jsx:115-116 | Two lists that are both non-increasing and agree on the entries of every count, in order, are equal. So every stable sort by descending count gives what `SortByCount` gives. |
| Ranking.Top | src/pages/PlayerStats.jsx:115-123 | The result has min(5, n) entries drawn from the input, most played first, with no name twice when the input has none twice. Each kept entry is played at least as often as every dropped one. For each count, the kept entries are the first ones of the input with that count. |
| Ranking.TopOfSorted | src/pages/PlayerStats.jsx:115-117 | The ranking of a list already in non-increasing order is its first five entries. |
| Ranking.DroppedCanOutrankDropped | src/pages/PlayerStats.jsx:115-117 | With counts 9, 9, 9, 9, 9, 8, 7 both the 8 and the 7 are dropped. So a count above some dropped count does not guarantee a place; only "at least every dropped count" holds. |
| Percentages.WinRate | src/pages/PlayerStats.jsx:180 | The rate is the integer nearest to 100 * wins / count, with halves rounded up, and lies in [0, 100]. It is 100 exactly when 200 * wins >= 199 * count, and 0 exactly when 200 * wins < count. |
| Percentages.WinRateExtremes | src/pages/PlayerStats.jsx:185 | Winning every game shows 100 and winning none shows 0. |
| Percentages.NearSweepShowsHundred | src/pages/PlayerStats.jsx:180 | 199 wins out of 200 also show 100. |
| Percentages.WinRateMonotonic | src/pages/PlayerStats.jsx:180 | More wins over the same count never show a lower rate. |
| Summary.FoldTopOutranks | src/pages/PlayerStats.jsx:115-123 | Every kept opening of a colour was played at least as often as each of that colour's openings left out. |
| Summary.FoldReportsColor | src/pages/PlayerStats.jsx:49-130 | For each colour, the ranking of the fold's tally satisfies `ReportsColor` against the colour's plays. |
| Summary.AnalyzeGames | src/pages/PlayerStats.jsx:49-130 | Per colour, the report satisfies the following against the colour's plays. It lists min(5, distinct openings) openings, no name twice, most played first. Each kept opening has exactly its games, wins and losses, with count >= 1 and wins + losses <= count. Each kept opening outranks every opening left out. The colour totals count every won and lost game. |
| Summary.Rates | src/pages/PlayerStats.jsx:177-186 | The same openings with the same names and counts, in the same order, each with its rounded win rate in [0, 100]. |
| Summary.Summarize | src/pages/PlayerStats.jsx:175-186 | Each colour's displayed openings are the ranked openings of `Summary.AnalyzeGames` in their order, each mapped by `Summary.Rates` to its name, its count and its rounded win rate; so at most five per colour, each with count >= 1 and a rate in [0, 100]. The stored totals are the analysis totals. |
| Summary.EmptyTargetEmptyReport | src/pages/PlayerStats.jsx:49-130 | An empty target gives empty opening lists and zero totals for both colours. |
| Scenarios.BasicAttribution | src/pages/PlayerStats.jsx:78-94 | Alice winning with white in the Sicilian gives one white opening (1 game, 1 win), totals 1-0 for white and nothing for black. |
| Scenarios.ProvisionalExcluded | src/pages/PlayerStats.jsx:79-81 | The same game with Alice provisional gives empty lists and zero totals. |
| Scenarios.MissingOpeningName | src/pages/PlayerStats.jsx:73 | Bob winning with black and no opening name gives one black "Unknown Opening" entry with 1 game and 1 win. |
| Scenarios.DrawCountsOnly | src/pages/PlayerStats.jsx:87-94 | A game without a winner raises the opening count only; wins, losses and totals stay 0. |
| Strings.Lower | src/pages/PlayerStats.jsx:60-76 | Same length; each ASCII capital becomes its lower-case letter and every other character is kept; `Strings.LowerIdempotent` shows lower-casing twice changes nothing more. |
| Strings.Trim | src/pages/Home.jsx:13 | `trim` yields a slice of the string with only whitespace before and after it, starting and ending with non-whitespace, and empty exactly when the string is blank. |
| Strings.TrimIdempotent | src/pages/Home.jsx:13 | Trimming twice removes nothing more. |
| Strings.Join | src/pages/Home.jsx:14 | `timeControls.join(',')`: the empty list joins to "" and one part joins to itself; `Strings.SplitJoin` splits any join of a non-empty list of separator-free parts back into exactly those parts. |
| Strings.SplitJoin | src/pages/Home.jsx:14 | Splitting a comma-joined non-empty list of comma-free parts at the commas gives the list back. |
| Home.RemoveSpec | src/pages/Home.jsx:22 | The filter drops every occurrence of the value and keeps every other value with its multiplicity. |
| Home.RemoveConcat | src/pages/Home.jsx:22 | The filter distributes over concatenation, so the kept elements stay in order. |
| Home.RemoveAbsent | src/pages/Home.jsx:22 | Filtering out an absent value changes nothing. |
| Home.Toggle | src/pages/Home.jsx:19-25 | The value ends up selected exactly when it was not. An absent value is appended after the unchanged list. A present value is filtered out: the result is `Home.Remove` of the list, which keeps the other values in order. Every other value keeps its multiplicity. |
| Home.ToggleKeepsNoDup | src/pages/Home.jsx:19-25 | A duplicate-free selection stays duplicate-free. |
| Home.ToggleTwiceFromAbsent | src/pages/Home.jsx:19-25 | Selecting an absent value and toggling it again restores the selection. |
| Home.ToggleTwiceFromPresent | src/pages/Home.jsx:19-25 | Unselecting a present value and toggling it again moves it to the end. |
| Home.TimeParam | src/pages/Home.jsx:14 | Empty exactly when no time control is selected. Otherwise it is "&time=" followed by text that splits at the commas back into the selection. |
| Home.SearchPath | src/pages/Home.jsx:11-17 | No navigation exactly when the typed name is blank. Otherwise the path is "/player/", the name as typed (untrimmed), "?games=" and the count, followed by the time parameter. |
| Home.SearchPathWithoutTimeControls | src/pages/Home.jsx:14-15 | Without time controls the path ends after the game count. |

## Left out

- Fetching the profile and the games, the authorisation header, and splitting the NDJSON
  body and `JSON.parse` (`src/pages/PlayerStats.jsx:134-201`): network I/O and foreign
  parsing. The model starts from an already decoded sequence of records.
- React state, effects, routing and rendering. `navigate` is modelled by returning the path
  (`Home.SearchPath`) and `setTimeControls` by returning the new list (`Home.Toggle`).
  `e.preventDefault()` has no counterpart.
- The canned `mockData`. The page reads `stats.*.draws`, but `analyzeGames` never produces
  it, and no draws counter is modelled.
- Strings.Lower: lower-cases ASCII letters only. JavaScript's `toLowerCase` follows full
  Unicode case mapping, which is not modelled. The same function is applied to both sides
  of every comparison.
- Percentages.WinRate: uses exact rational round-half-up, `(200 * wins + count) / (2 * count)`.
  `Math.round((wins / count) * 100)` works in IEEE doubles. There, a product whose exact
  value ends in .5 can be represented slightly below it and round down. For 23 wins in 40
  games, `(23 / 40) * 100` is 57.49999999999999 in doubles, so the page shows 57 where the
  model gives 58.
- The per-colour object is modelled as an insertion-ordered list.
  `Object.entries` lists integer-like keys first in ascending order, and an opening named
  like an integer would change the tie order; this is not modelled. For an opening named
  like an inherited member (`constructor`, `toString`, `__proto__`), the lookup finds that
  truthy member, so no own entry is created and `Object.entries` never lists the opening,
  while `winLossStats` still counts its wins and losses. In the program the totals then
  exceed the sums over the listed openings and `Analysis.FoldLookup` fails for such a name;
  this is not modelled.
- Summary.AnalyzeGames: states that the kept openings outrank the dropped ones in terms of
  the plays. The tie order among equal counts is stated by `Ranking.Top` on the fold's tally,
  and `Analysis.FoldOrder` gives that tally's key order; the two are not restated as one
  clause.
- Invariance of the totals under reordering of the records is not stated. The model proves
  the per-key counts from the list of plays, which already fixes them for any order of the
  same plays.
- An empty or blank target: `analyzeGames` has no check for it and simply compares names;
  the model follows the code. An empty target matches nothing (`Analysis.EmptyTargetYieldsEmpty`), and a whitespace-only
  target is compared as typed.
- The home page writes the selection as `&time=...` (`src/pages/Home.jsx:14`), but the player
  page reads a `timeControls` parameter (`src/pages/PlayerStats.jsx:44`). The selection
  therefore never reaches the games request. This is URL plumbing outside the model.
- Fields of a record that `analyzeGames` does not read are not modelled. A missing
  `players.white`, `user` or `name` is folded into `Side.name == None`, and a missing
  `provisional` into `false`. A non-boolean truthy `provisional` is not modelled.
