# Word clock — a Dafny model

The word clock shows the time as lit words on a fixed 10 × 11 letter grid ("IT IS
TWENTY FIVE PAST TWO"), plus four dots for the minutes past the last multiple of five.
This project models its core, `word_clock.py`:

- **The face** (module `WordGrid`, `word_grid.dfy`): the ten rows of letters and the
  `word_positions` table giving every start coordinate of every word (FIVE and TEN occur
  twice).
- **The translator** (module `TimeWords`, `time_words.dfy`): `get_time_representation`,
  from an hour and a minute to the list of words to light. `TimeRepresentation` is a
  reference definition that finds the five-minute bucket directly as `minute / 5`.
  `GetTimeRepresentation` is the code as written: it seeds IT IS OCLOCK at minute 0, scans
  the minute table in order and breaks at the first matching range, replaces the words by
  that bucket's phrase unless the minute is 0, and applies the "TO" rule. It then looks the
  hour name up (a missing key is the `KeyError` result) and appends it only when absent.
  The method is proved equal to the reference definition. `NormalizeHour` is the hour
  normalization that `update_clock` applies on both the specified-time and the wall-clock
  path.
- **The display** (module `Display`, `display.dfy`): class `WordClock`. It holds one
  `Cell` (letter, lit flag) per label in a 2-D array and a 4-element `bool` array for the
  dots. `ResetLabels`, `HighlightWord` and the tick `UpdateClock` change them in place.
  The lit state after each is specified with ghost predicates: `Covers`/`LitBy`/`Lights`
  say which cells the code lights. `OnRunOf` says which cells lie on a word's runs in the
  table.

Where the code and its tests disagree, the model follows the code:

- `TimeRepresentation(4, 55)` is `FIVE TO` and `(5, 5)` is `FIVE PAST`. The hour name FIVE
  is already among the words, so it is not appended again. The test at
  `tests/test_word_clock.py:38` expects `FIVE TO FIVE`. The face shows no difference:
  highlighting FIVE lights both of its runs, (2, 6) and (6, 4), so `FIVE TO` lights the
  same cells that `FIVE TO FIVE` would (`RepeatedWordLightsNothingNew`,
  `FourFiftyFiveOnFace`). The only visible fault at 4:55 is that TO lights nothing (below).
- An hour of 13 to 23 passed to the translator unnormalized fails the hour-name lookup for
  every minute below 35 (`UnnormalizedHour`). So `(14, 25)` and `(15, 0)` fail, although
  `tests/test_word_clock.py:19` and `:28` expect words. After `NormalizeHour` the lookup
  never fails (`NormalizedNeverFails`), and the tick always normalizes first.
- Minutes 1 to 4 fall in the first range of the minute table, whose phrase is `OCLOCK`, so
  they give `OCLOCK` and the hour name.
- The table entry for TO starts at (3, 8), where row `HALFUTENSTO` reads `ST`. Because
  highlighting only lights a cell that shows the expected letter, highlighting TO lights
  nothing (`ToLightsNothing`). Every other entry spells its word (`TableSpellsItsWords`).
- A minute outside 0 to 59 matches no bucket. The words are then just the hour name when the
  lookup succeeds (hour 0 to 12), and `KeyError` otherwise.

## Model

| member | source | states |
|---|---|---|
| WordGrid.TableSpellsItsWords | word_clock.py:29-55 | every start position of every table word spells that word on the grid, except TO's single entry (3, 8), which reads "ST" (TO is spelled at (3, 9)) |
| WordGrid.PositionsOnFace | word_clock.py:43-55 | every start coordinate in the table lies on the 10 × 11 grid |
| WordGrid.RowsRectangular | word_clock.py:29-40 | the grid has 10 rows of 11 letters each |
| TimeWords.GetTimeRepresentation | word_clock.py:100-152 | the seed-then-scan-then-append translator returns exactly the reference result: bucket phrase found by `minute / 5`, hour from the "TO" rule, `KeyError` when the hour is not 1..12, hour name appended only when absent |
| TimeWords.BucketOf | word_clock.py:110-127 | a minute lies in range k of the minute table iff 0 <= minute < 60 and k == minute / 5 |
| TimeWords.NormalizeHour | word_clock.py:158-168 | the normalized hour lies in 1..12, is congruent to the raw hour mod 12, and is 12 exactly for raw hours divisible by 12 (0, 12) |
| TimeWords.OnTheHourWords | word_clock.py:106-150 | at minute 0 with hour 0..12 the words are exactly IT IS OCLOCK and the name of the hour (0 read as 12), four words |
| TimeWords.ToBuckets | word_clock.py:110-123 | for minutes 0..59, the phrase contains TO iff the minute is 35 or more |
| TimeWords.MinutePhraseLeads | word_clock.py:110-130 | for minutes 1..59 the words start with the bucket's phrase (OCLOCK alone for 1..4) and never contain IT or IS: the phrase replaces the seed |
| TimeWords.ToRule | word_clock.py:139-150 | for hour 0..12 and minute 0..59 the translation succeeds, and the hour named is (hour % 12) + 1 iff the minute is 35 or more, else the hour itself (0 read as 12); that name is among the words |
| TimeWords.NoDuplicateWords | word_clock.py:148-150 | whenever the translation succeeds, no token occurs twice |
| TimeWords.WordsOnFace | word_clock.py:110-150 | for hour 0..12 and minute 0..59 the translation succeeds with 2 to 4 words, each a key of the position table |
| TimeWords.UnnormalizedHour | word_clock.py:139-150 | for hour 13..23, minutes below 35 fail with `KeyError(hour)` and minutes 35..59 succeed |
| TimeWords.NormalizedNeverFails | word_clock.py:158-174 | after normalization the translation succeeds for every hour and minute, every word is a key of the position table, and hour h and h + 12 give the same words |
| TimeWords.PhraseOnFace | word_clock.py:110-123 | every word of every minute phrase (and of the seed) is a key of the position table |
| TimeWords.Examples | tests/test_word_clock.py:14-38 | the translator's results for the tests' raw inputs: 3:00, 23:59 and 17:55 as the tests expect; 15:00 is `KeyError(15)` and 14:25 is `KeyError(14)`; 4:55 is FIVE TO and 5:05 is FIVE PAST; 14:75 is `KeyError(14)` and 3:75 is THREE alone |
| TimeWords.NormalizedExamples | tests/test_update_clock_specified_time.py:15-25 | with the hour normalized first: 15:00 gives IT IS OCLOCK THREE, 23:59 FIVE TO TWELVE, 17:55 FIVE TO SIX, 13:15 QUARTER PAST ONE, 14:25 TWENTY FIVE PAST TWO |
| TimeWords.NoSeedWords | word_clock.py:108-137 | IT and IS are in no minute phrase and name no hour |
| Display.WordClock.constructor | word_clock.py:57-74 | one cell per grid letter showing that letter, four dots, everything unlit |
| Display.WordClock.ResetLabels | word_clock.py:90-98 | every cell and every dot is unlit afterwards; the letters are unchanged |
| Display.WordClock.LightRun | word_clock.py:82-88 | along one start position, lights exactly the cells within the row whose letter equals the word's letter at that offset; all other cells keep their state |
| Display.WordClock.HighlightWord | word_clock.py:76-88 | a cell's new lit state is its old state or-ed with whether some start position of the word lights it; an unknown word changes nothing; letters unchanged |
| Display.WordClock.ShowExtraMinutes | word_clock.py:180-186 | dot i is lit iff i < minute % 5, so exactly minute % 5 dots are lit |
| Display.WordClock.UpdateClock | word_clock.py:154-186 | after a tick for any raw hour and minute the translation of the normalized hour has succeeded, a cell is lit iff it lies on a table run of one of the words other than TO, and exactly the first minute % 5 dots are lit |
| Display.LitByRuns | word_clock.py:82-88 | when all the given start positions spell the word, highlighting from them lights exactly the cells on their runs |
| Display.SpelledWordLightsItsRuns | word_clock.py:76-88 | highlighting any table word other than TO lights exactly the cells on its runs, at all of its occurrences |
| Display.ToLightsNothing | word_clock.py:76-88 | highlighting TO lights no cell |
| Display.LightsOnRun | word_clock.py:76-88 | for every table word, the cells highlighting lights are exactly those on its runs, none for TO |
| Display.LitByWordsOnRuns | word_clock.py:176-178 | highlighting a list of table words in turn lights exactly the cells on a run of one of them |
| Display.RepeatedWordLightsNothingNew | word_clock.py:148-150 | adding a word already among the words lights no further cell, so skipping a repeated hour name leaves the face unchanged |
| Display.FourFiftyFiveOnFace | word_clock.py:46 | at 4:55 the words FIVE TO light exactly the two FIVE runs, (2, 6) and (6, 4) |
| Display.CountLitPrefix | word_clock.py:181-186 | when exactly the first n dots are lit, the number of lit dots is n |

## Left out

- Window, label and frame construction, fonts, colours and geometry (`__init__`, `setup_ui`, the widget parts of `setup_word_grid` and `setup_dots`). A label is abstracted to its letter and a lit flag; white is lit, grey is unlit.
- The first tick that `__init__` runs. The constructor only builds the grid and the dots, and a caller runs `UpdateClock` next.
- Reading the wall clock with `time.localtime()`. `UpdateClock` takes the hour and minute as parameters. The specified-time and wall-clock branches normalize the hour the same way, so one method stands for both.
- Parsing the `HH:MM` string with `split` and `int`, and its `ValueError` paths. The specified time arrives as a pair of integers.
- Rescheduling with `after`, `mainloop` and command-line handling. These are event-loop and process I/O, so a one-shot tick and a repeating tick are the same `UpdateClock`.
- The `words_to_highlight` attribute that `get_time_representation` writes on the object. It is only scratch for the returned list, so it is modelled as a local sequence.
- The `IndexError` that `highlight_word` would raise for a start row beyond the grid. No table entry has one (`PositionsOnFace`), so it cannot occur.
