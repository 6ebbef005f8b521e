# Round-robin tournament scheduler, modelled in Dafny

The program builds a round-robin schedule for a list of players. It writes
the schedule to a spreadsheet with three sheets:

- Schedule: one column per round, one row per table.
- Points: one row per round, one column per player, with every cell empty.
- Standings: each player with a formula that totals their Points column.

Pairings use the circle method:

- The first player stays fixed.
- The other players rotate one place to the right after every round.
- Each round pairs the left half of the lineup against the reversed right half.

A double round-robin adds a second copy of the schedule with home and away swapped.

The project models these parts in Dafny:

- the pairing algorithm;
- the doubling;
- the two data tables, including pandas' two construction errors;
- the rows of the Standings sheet;
- the column-width rule.

It proves the properties a tournament organiser relies on:

- each round seats every player exactly once;
- every two players meet exactly once in the single schedule;
- every player hosts every other player exactly once in the double schedule;
- nobody is paired with themselves;
- the tables have the promised shapes and labels;
- every Standings formula sums exactly the player's own points column;
- column widths stay between 12 and 40.

Modules:

- `Wrappers`: `Option` and `Result`.
- `Decimal`: decimal rendering of naturals, used in labels and formulas, with its parser.
- `Rotation`: reversal and right rotation of sequences.
- `CircleMethod`: the circle method on player indices. With `n` players and `m = n - 1` rotating places, the `CircleMethod.Seat` function names the one round and table at which two players meet.
- `Pairing`: `round_robin_pairings`, and the matching and meeting properties.
- `DoubleRound`: `double_round_robin` and its home/away properties.
- `Tables`: `build_schedule_df`, `build_points_df`, and the pipeline `main` runs before writing.
- `Workbook`: the Standings rows and their formulas, the value of those formulas, and the width rule.
- `Scenarios`: the 4-player schedule, and the first round of the 6-player double schedule.

## Model

| member | source | states |
|---|---|---|
| Rotation.Reverse | main.py:17 | the result has the same length, and element `i` is element `|s|-1-i` of the input |
| Rotation.RotateRight | main.py:20 | one rotation keeps the length, brings the last element to the front and shifts every other element one place right |
| Rotation.RotateRightIndex | main.py:20 | one rotation moves every element one place right, cyclically; the last element comes to the front |
| Rotation.RotateTimesIndex | main.py:13-20 | after `k` rotations, position `j` holds the element from position `(j-k) mod |s|` |
| Rotation.RotateTimesPermutes | main.py:13-20 | any number of rotations keeps the same multiset of players |
| CircleMethod.PosMod | main.py:13-20 | the closed-form seat of a player in round `r` is the rotation of the non-fixed players by `r` places, modulo `n-1` |
| CircleMethod.SlotOfPos | main.py:14-18 | the slot a player occupies and the player at a slot are inverse maps in every round |
| CircleMethod.MeetFixed | main.py:14-20 | the fixed player meets rotating player `b` in round `m-b` and in no other round |
| CircleMethod.MeetingRound | main.py:13-20 | two distinct players face each other in some round, and in no other round, when the number of rounds is odd |
| CircleMethod.Seat | main.py:14-18 | two distinct players sit in mirrored slots at the returned round and table |
| CircleMethod.SeatedOnlyAt | main.py:14-18 | wherever two distinct players face each other, it is at their seat, so the round and table are unique |
| Pairing.PairUp | main.py:14-18 | a lineup of length `L` gives `L/2` tables; table `i` pairs slot `i` with slot `L-1-i` |
| Pairing.Rounds | main.py:12-21 | the loop produces `count` rounds of `(L+1)/2` tables, each headed by the fixed player |
| Pairing.RoundRobinPairings | main.py:7-21 | there are `n-1` rounds of `n/2` tables, and the first player hosts table 1 of every round |
| Pairing.RoundsAt | main.py:13-20 | round `r` pairs up the fixed player followed by the others rotated `r` times |
| Pairing.PairAt | main.py:14-20 | table `i` of round `r` seats the players whose indices the circle method puts in slots `i` and `n-1-i` |
| Pairing.PairUpPermutes | main.py:15-18 | pairing an even lineup lists each lineup entry exactly once |
| Pairing.PairUpSkipsMiddle | main.py:15-18 | pairing an odd lineup lists every entry except the middle one |
| Pairing.RoundIsPerfectMatching | main.py:13-19 | every round of an even roster seats exactly the roster; with distinct names, each player sits exactly once |
| Pairing.OddRosterSitsOneOut | main.py:9-18 | with an odd roster, each round seats everyone except one roster player, who gets no bye entry |
| Pairing.NoSelfPairs | main.py:18 | with distinct names, no table pairs a player with themselves |
| Pairing.EveryPairMeetsOnce | main.py:7-21 | any two distinct players of a valid roster meet at exactly one (round, table) |
| DoubleRound.MirrorRound | main.py:25 | a mirrored round keeps every table and swaps home and away at each |
| DoubleRound.MirrorAll | main.py:25 | every round is mirrored, in the original order |
| DoubleRound.DoubleRoundRobin | main.py:23-26 | the double schedule is twice as long, its first half is the single schedule, and round `|single|+k` mirrors round `k` |
| DoubleRound.MirrorRoundInvolution | main.py:25 | mirroring twice gives back the original round |
| DoubleRound.MirrorRoundSamePlayers | main.py:25 | a mirrored round seats the same multiset of players |
| DoubleRound.DoubleAt | main.py:23-26 | table `i` of double round `r` is single round `r`'s table, or the swap of single round `r-(n-1)`'s table |
| DoubleRound.DoubleRoundIsPerfectMatching | main.py:23-26 | every round of the double schedule seats exactly the roster |
| DoubleRound.DoubleHostsEachPairOnce | main.py:23-26 | for two distinct players `p` and `q`, exactly one (round, table) has `p` at home against `q` |
| Decimal.NatToString | main.py:35 | the rendering is non-empty, all digits, and has no leading zero unless the number is 0 |
| Decimal.ParseNatToString | main.py:62 | reading back the decimal rendering of a row number gives that number |
| Decimal.NatToStringInjective | main.py:35 | different numbers render differently, so "Round k" labels never collide |
| Tables.Labels | main.py:37 | there are `count` labels, and label `i` is the prefix followed by `i+1` in decimal |
| Tables.LabelsDistinct | main.py:35 | labels with different numbers differ, so no round's dict entry overwrites another's |
| Tables.MatchLabel | main.py:32 | a cell reads as the home name, then " vs ", then the away name, with nothing else around them |
| Tables.MatchCells | main.py:32 | each table of a round gives one cell, "home vs away", in table order |
| Tables.PadTo | main.py:33-34 | the cells are kept and padded with empty strings up to the table count, never truncated |
| Tables.ScheduleColumn | main.py:32-34 | cell `i` of a round's column is the match at table `i`, or empty past the round's last table |
| Tables.BuildSchedule | main.py:28-38 | the frame builds exactly when no round exceeds `n/2` tables and some round exists (or `n/2 = 0`); it then has columns Round 1.., index Table 1.., and the match or blank cells |
| Tables.BuildPoints | main.py:40-45 | rows are Round 1..`num_rounds` and columns are the players, with every cell empty |
| Tables.ScheduledRounds | main.py:74-76 | `main` schedules the single round robin, followed by its mirror image when doubling, so there are `n-1` or `2(n-1)` rounds |
| Tables.ScheduledRoundsFull | main.py:74-76 | `main` schedules `n-1` rounds, or `2(n-1)` when doubling, each of `n/2` tables |
| Tables.TournamentNeverFails | main.py:73-78 | for any non-empty roster, both frames build; the schedule's round labels are the points frame's row labels |
| Tables.SeatedPlayersFromRoster | main.py:7-21 | every seated player comes from the roster, and the two players at a table differ |
| Tables.ScheduleCellsNamePlayers | main.py:73-77 | for a valid roster, single or doubled, the schedule builds and every cell reads "p vs q" for two different roster players |
| Workbook.StandingsRows | main.py:57-64 | the Standings sheet has a header, then one row per points column in order, holding the player and the SUM over that player's letter |
| Workbook.SumFormula | main.py:61-63 | for a valid column name, the formula parses back as a SUM over that column of the Points sheet, rows 2 to `rounds+1` |
| Workbook.StandingsSumRoundRows | main.py:58-64 | each Standings formula sums exactly the data rows of its own player's column on the Points sheet |
| Workbook.StandingsTotalIsColumnSum | main.py:63 | the formula over rows 2..`rounds+1` evaluates to the sum of the player's round points |
| Workbook.StandingsRowTotalsPlayer | main.py:58-64 | evaluated on a player's Points column, that player's Standings formula gives the sum of all their round points |
| Workbook.WidthFor | main.py:70 | the width is at least 12 and at most 40, and equals text length plus 2 in between |
| Workbook.WidthMonotone | main.py:70 | longer text never gives a narrower column |
| Workbook.TextLength | main.py:69 | an empty cell and an empty text both count as length 0; any other text counts its characters |
| Workbook.LongestText | main.py:69 | the result bounds every cell's text length and is reached by some cell |
| Workbook.ColumnWidth | main.py:69-70 | the width is the clamped width of the column's longest cell: at least each cell's clamped width, and equal to one of them |
| Workbook.SheetWidths | main.py:66-70 | each column of a sheet gets its own column width, in the range 12..40 |
| Scenarios.FourPlayers | main.py:7-21 | players A B C D give the rounds (A-D, B-C), (A-C, D-B), (A-B, C-D) |
| Scenarios.SixPlayersDouble | main.py:23-26 | six players give 10 rounds of 3 tables, and round 6 mirrors round 1 |

## Left out

- Spreadsheet I/O is not modelled. This covers ExcelWriter, load_workbook, saving, removing an old Standings sheet, and writing cells (main.py:47-57, 66-71). The model stops at the values that would be written.
- Column letters are not computed. openpyxl's `column_letter` and `get_column_letter` are library code, so the letters are a parameter of `Workbook.StandingsRows`. `Workbook.StandingsSumRoundRows` assumes each letter is a valid column name.
- Cell text is given, not derived. In `Workbook.TextLength` a cell is an optional string. Rendering non-string values with `str` is library behaviour.
- The console messages and the `__main__` block are not modelled (main.py:80-91). They have no effect on the schedule.
- Pairing.RoundRobinPairings: requires a non-empty roster. Python raises IndexError at `players[0]` on an empty list, and that error path is not modelled.
- Pairing.EveryPairMeetsOnce: assumes an even roster of distinct names, the input the source documents. With odd rosters one player per round has no table, as `Pairing.OddRosterSitsOneOut` states.
- Tables.Tournament: computes what `main` does before writing the workbook. It carries no contract of its own; its properties are stated by `Tables.TournamentNeverFails` and `Tables.ScheduleCellsNamePlayers`.
- The Standings formulas are evaluated with `Workbook.SumRows` on a column of integer scores. Spreadsheet evaluation of text cells is simplified to 0, which is what SUM does with blanks and the header.
