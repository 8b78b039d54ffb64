# Verified models of four small Python programs

This project models the computational core of four programs from a
collection of small Python projects, and proves properties of the models.

- **Decision tree** (`decision_tree.dfy`, module `DecisionTree`). This is the
  split machinery of a CART-style learner:
  - `Question.match` and `Question.__repr__`;
  - `partition` and `class_counts`;
  - Gini impurity and information gain;
  - the exhaustive `find_best_split`.

  Rows are sequences of `int`/`str` values whose last element is the label.
  Python's exceptions (IndexError, TypeError) are a `Result`. The impurity
  arithmetic is exact, in `real`.
- **Game of life** (`game_of_life.dfy`, module `GameOfLife`). This is a class
  over an `array2<int>` N x N torus:
  - `update_grid` computes one synchronous generation from a copy of the
    grid and writes it back in place;
  - `add_glider` is numpy's slice assignment of the 3 x 3 glider, including
    its ValueError when a slice is not three long.

  Each method is proved against a function on `seq<seq<int>>`.
- **Tetris coordinates** (`tetrominos.dfy`, module `Tetrominos`). `Coordinate`
  is a class whose three property setters keep `id == y * width + x`, with
  Python's floor division. `IShape` is the I tetromino's drop / move /
  rotate state.
- **Alien invasion** has three modules:
  - `alien_settings.dfy` (`AlienSettings`) holds the integer settings;
  - `game_stats.dfy` (`GameStatistics`) holds the `GameStats` class;
  - `game_functions.dfy` (`GameFunctions`) holds:
    - the fleet layout arithmetic and `create_fleet`;
    - the key-down and key-up state machine;
    - firing against the bullet cap;
    - scoring, the highest score and levelling up;
    - the fleet's drop-and-turn;
    - the loss of a ship.

  Sprite groups are sequences of integer rect positions.

## Model

| member | source | states |
|---|---|---|
| DecisionTree.PyIndex | decision_tree/decision_tree.py:31 | an index is valid exactly in -len..len-1; a negative one counts from the end |
| DecisionTree.MatchSemantics | decision_tree/decision_tree.py:20-35 | `match` depends only on the example's value at the column. A numeric value is compared with `>=`, and a string threshold then raises TypeError. A string value is compared for equality. A numeric match is monotone in the example's value |
| DecisionTree.MatchOutOfRange | decision_tree/decision_tree.py:31 | a column outside the example raises IndexError |
| DecisionTree.NatToStringRoundTrip | decision_tree/decision_tree.py:45 | the decimal text of a natural number reads back to it |
| DecisionTree.IntToStringRoundTrip | decision_tree/decision_tree.py:45 | `str(i)` starts with `-` exactly for negative `i` and reads back to `i` |
| DecisionTree.Repr | decision_tree/decision_tree.py:37-45 | `__repr__` fails exactly when headers are given and the column is outside them. Otherwise it is `Is <name> <op> <value>?`, with `>=` for a numeric value and `==` otherwise |
| DecisionTree.GreenQuestion | decision_tree/test_decision_tree.py:22-32 | `Question(0, 'Green', headers)` prints as `Is color == Green?` and matches `['Green', 3, 'Apple']` |
| DecisionTree.PartitionSucceeds | decision_tree/decision_tree.py:69-76 | `partition` succeeds iff every row can be answered |
| DecisionTree.PartitionContents | decision_tree/decision_tree.py:69-76 | the true side holds exactly the rows that match, and the false side the rest. Together the two sides are a permutation of the rows |
| DecisionTree.KeepSnoc | decision_tree/decision_tree.py:70-74 | the order-preserving filter of a list with one more row is the old filter, followed by that row when its answer is the one kept |
| DecisionTree.PartitionKeeps | decision_tree/decision_tree.py:69-76 | when every row can be answered, the true side is the matching rows and the false side the others, each in the rows' original relative order. This is an independent head-recursive filter |
| DecisionTree.PartitionFailure | decision_tree/decision_tree.py:70-71 | a failing partition raises the error of the first row that cannot be answered |
| DecisionTree.PartitionFailurePersists | decision_tree/decision_tree.py:70-71 | once a prefix fails, the whole partition fails with that error |
| DecisionTree.Partition | decision_tree/decision_tree.py:53-76 | the loop computes the partition function |
| DecisionTree.FruitPartition | decision_tree/test_decision_tree.py:35-58 | the Red question splits the fruit rows into the two Grape rows and the other three |
| DecisionTree.Distinct | decision_tree/decision_tree.py:175 | the value set has exactly the elements of the column, without duplicates |
| DecisionTree.CountsKeys | decision_tree/decision_tree.py:98-103 | the dict's key order and its key set agree; the dict is empty iff the rows are |
| DecisionTree.CountsOfTally | decision_tree/decision_tree.py:98-103 | the dict built row by row equals the reference tally: keys in their order of first occurrence, each mapped to its multiplicity |
| DecisionTree.ClassCounts | decision_tree/decision_tree.py:79-103 | the loop builds that dict, whose keys are the labels and whose values are their multiplicities |
| DecisionTree.ClassCountsCorrect | decision_tree/decision_tree.py:98-103 | a label is a key iff some row carries it. Each count is its multiplicity, between 1 and the number of rows. The keys have no duplicates, and the counts sum to the number of rows |
| DecisionTree.SumOfCounts | decision_tree/decision_tree.py:98-103 | the counts over the distinct labels sum to the number of labels |
| DecisionTree.FruitCounts | decision_tree/test_decision_tree.py:61-73 | the fruit rows count `{Apple: 2, Grape: 2, Lemon: 1}`, in that key order |
| DecisionTree.Gini | decision_tree/decision_tree.py:106-129 | the loop over the dict's keys computes the impurity `1 - sum of (count/n)^2` |
| DecisionTree.SumSquaresBounds | decision_tree/decision_tree.py:126-127 | the squared fractions sum to at most the fractions' sum, and to more than 0 when there is a key |
| DecisionTree.GiniBounds | decision_tree/decision_tree.py:123-129 | on a non-empty list the impurity lies in [0, 1) |
| DecisionTree.GiniOfNoRows | decision_tree/decision_tree.py:123-129 | the impurity of no rows is 1 (the loop never divides) |
| DecisionTree.GiniPure | decision_tree/test_decision_tree.py:78-80 | rows that all carry one label have impurity 0 |
| DecisionTree.GiniTwoLabels | decision_tree/test_decision_tree.py:82-84 | two rows with distinct labels have impurity 1/2 |
| DecisionTree.InfoGainOneSided | decision_tree/decision_tree.py:150-151 | when one side is empty and the current impurity is that of all the rows, the gain is exactly 0 |
| DecisionTree.InfoGainNoTrues | decision_tree/decision_tree.py:150-151 | the gain of a split with no true rows is 0 |
| DecisionTree.InfoGainNoFalses | decision_tree/decision_tree.py:150-151 | the gain of a split with no false rows is 0 |
| DecisionTree.FruitGini | decision_tree/test_decision_tree.py:86-97 | the fruit rows have impurity 16/25 |
| DecisionTree.FruitFalsesGini | decision_tree/test_decision_tree.py:86-97 | the false side of the Red split has impurity 4/9 |
| DecisionTree.FruitInfoGain | decision_tree/test_decision_tree.py:86-97 | the Red split of the fruit rows gains exactly 28/75 |
| DecisionTree.Column | decision_tree/decision_tree.py:175 | the column list holds row k's value at the column, in row order |
| DecisionTree.ColumnQuestions | decision_tree/decision_tree.py:176-177 | one question per distinct value of the column, in the set's order |
| DecisionTree.ColumnQuestionsCover | decision_tree/decision_tree.py:175-177 | a question is asked for a column iff it has that column and headers and a value from the column |
| DecisionTree.UniformAnswerable | decision_tree/decision_tree.py:175-178 | in a column that is all ints or all strings, every question can be answered by every row |
| DecisionTree.MixedUnanswerable | decision_tree/decision_tree.py:175-178 | in a column that mixes ints and strings, some question raises TypeError on some row |
| DecisionTree.PresentColumnFailure | decision_tree/decision_tree.py:31-35 | on a column that every row has, a failing partition fails with TypeError |
| DecisionTree.ColumnAnswerable | decision_tree/decision_tree.py:175-178 | every question over a uniform column can be answered |
| DecisionTree.ScanColumns | decision_tree/decision_tree.py:174-178 | every question the search asks can be answered |
| DecisionTree.ScanColumnsSucceeds | decision_tree/decision_tree.py:174-178 | the search raises nothing iff every feature column is present in every row and uniform |
| DecisionTree.ScanColumnsAsks | decision_tree/decision_tree.py:174-177 | the questions asked are exactly those with a feature column, the given headers and a value from that column |
| DecisionTree.ScanColumnsFailure | decision_tree/decision_tree.py:174-178 | a failing search fails at the first bad column. The error is IndexError if that column is missing from some row, and TypeError if it is mixed |
| DecisionTree.ScanFailurePersists | decision_tree/decision_tree.py:174-178 | once a column fails, the later columns are never reached |
| DecisionTree.Gains | decision_tree/decision_tree.py:177-179 | one gain per question asked |
| DecisionTree.Best | decision_tree/decision_tree.py:169-184 | the kept gain is at least 0, and it is 0 when no question has been kept |
| DecisionTree.BestIsLargest | decision_tree/decision_tree.py:181-182 | the kept gain is at least every candidate's gain. Nothing is kept iff every gain is negative. A kept question is the last one that attains the kept gain |
| DecisionTree.BestSnoc | decision_tree/decision_tree.py:181-182 | a new candidate replaces the best one when `best_gain <= gain` |
| DecisionTree.FindBestSplitSucceeds | decision_tree/decision_tree.py:154-184 | `find_best_split` succeeds iff the rows are non-empty and every feature column is present and uniform |
| DecisionTree.FindBestSplitBest | decision_tree/decision_tree.py:169-184 | on success the gain is at least 0. A returned question is a candidate whose gain it is. No candidate gains more |
| DecisionTree.FindBestSplitFailure | decision_tree/decision_tree.py:172-178 | on non-empty rows a failure names the first missing column (IndexError) or the first mixed column (TypeError) |
| DecisionTree.DistinctColumn | decision_tree/decision_tree.py:175 | the value set of a column, or IndexError exactly when some row lacks the column |
| DecisionTree.ValueFails | decision_tree/decision_tree.py:175-178 | a question on a value of a present column fails only with TypeError, and only on a mixed column |
| DecisionTree.ColumnDone | decision_tree/decision_tree.py:174-182 | a column whose questions were all answered extends the search by exactly those questions |
| DecisionTree.AnsweredColumnUniform | decision_tree/decision_tree.py:175-179 | a column whose questions can all be answered is uniform |
| DecisionTree.QuestionGain | decision_tree/decision_tree.py:177-179 | partition then gain: it succeeds iff the question can be answered, and then it returns the question's gain. Otherwise it returns the partition's error |
| DecisionTree.SearchColumn | decision_tree/decision_tree.py:176-182 | the inner loop succeeds iff the column is uniform. Otherwise it raises TypeError. On success it extends the running best over exactly the column's questions |
| DecisionTree.SearchStep | decision_tree/decision_tree.py:181-182 | one more candidate updates the running best as `best_gain <= gain` says |
| DecisionTree.SearchStops | decision_tree/decision_tree.py:174-178 | when the search fails at a column, `find_best_split` raises that error |
| DecisionTree.FindBestSplit | decision_tree/decision_tree.py:154-184 | the nested loops compute the search function, including its errors |
| DecisionTree.SingleRowSplit | decision_tree/decision_tree.py:169-184 | a single row `[x, l]` yields the question `Question(0, x)` with gain 0, because the empty side is not skipped |
| GameOfLife.WrapIsModulo | game_of_life/game_of_life.py:72-79 | the wrapped neighbour indices are Python's `(k-1) % N` and `(k+1) % N` and lie in the grid |
| GameOfLife.Neighbours | game_of_life/game_of_life.py:72-79 | the eight-neighbour total of a 0/1 grid lies in 0..8 |
| GameOfLife.Zero | game_of_life/game_of_life.py:24-25 | the all-OFF grid is square and 0/1 |
| GameOfLife.Step | game_of_life/game_of_life.py:66-87 | a generation keeps the grid N x N |
| GameOfLife.StepBinary | game_of_life/game_of_life.py:81-87 | a generation keeps a 0/1 grid a 0/1 grid |
| GameOfLife.Rules | game_of_life/game_of_life.py:81-87 | in a 0/1 grid a live cell survives iff it has 2 or 3 live neighbours. A dead cell is born iff it has exactly 3 |
| GameOfLife.StepIsLocal | game_of_life/game_of_life.py:68-79 | a new cell depends only on its old value and its eight old neighbours, all read from the copy |
| GameOfLife.ZeroIsFixed | game_of_life/game_of_life.py:81-87 | a dead grid stays dead |
| GameOfLife.SliceBound | game_of_life/game_of_life.py:62 | a normalised slice bound lies within the axis |
| GameOfLife.FitsExactly | game_of_life/game_of_life.py:62 | `r:r+3` is three long iff it lies within the axis, counted from the front or, for a start of -4 or less, from the end |
| GameOfLife.StampProperties | game_of_life/game_of_life.py:62-64 | the glider lands on the 3 x 3 block and nothing else changes. A 0/1 grid stays 0/1, and stamping twice is stamping once |
| GameOfLife.GliderCells | game_of_life/game_of_life.py:62-64 | the glider's five live cells |
| GameOfLife.Life.Cells | game_of_life/game_of_life.py:37 | the array seen as an N x N grid |
| GameOfLife.Life.constructor | game_of_life/game_of_life.py:28-38 | a new simulator holds the given N x N grid |
| GameOfLife.Life.AddGlider | game_of_life/game_of_life.py:52-64 | it raises (and changes nothing) iff a slice is not three long. Otherwise the grid becomes the stamp at the slices' normalised starts |
| GameOfLife.Life.UpdateGrid | game_of_life/game_of_life.py:66-87 | the grid in place becomes one generation of the old grid |
| GameOfLife.Life.UpdateRow | game_of_life/game_of_life.py:71-87 | the inner loop writes row i's next generation, from the copy, and changes no other row |
| Tetrominos.FloorDiv | tetris/tetrominos.py:94 | `math.floor(a / b)`: the quotient brackets the dividend from below for b > 0 and from above for b < 0 |
| Tetrominos.DecodeBounds | tetris/tetrominos.py:90-95 | the id setter's column and row re-encode to the id. With a positive width the column lies in 0..width-1, and with a negative one in width+1..0 |
| Tetrominos.EncodeDecode | tetris/tetrominos.py:90-116 | a cell whose column is within the width decodes back from its id |
| Tetrominos.NegativeIdFloors | tetris/tetrominos.py:205-207 | `Coordinate(12, -11)` is row -1, column 1 |
| Tetrominos.DecodeAll | tetris/tetrominos.py:187 | each block id decodes on its own |
| Tetrominos.FlatCells | tetris/tetrominos.py:31 | the ids 0..3 on the 12-wide matrix are columns 0..3 of row 0, a straight line |
| Tetrominos.StandingCells | tetris/tetrominos.py:32 | the ids -11, 1, 13, 25 are rows -1..2 of column 1, a straight line |
| Tetrominos.Coordinate.constructor | tetris/tetrominos.py:73-84 | a new coordinate holds the index and its decoding, consistently |
| Tetrominos.Coordinate.SetId | tetris/tetrominos.py:90-95 | the id setter stores the id together with its floor-decoded row and column |
| Tetrominos.Coordinate.SetX | tetris/tetrominos.py:101-106 | the x setter keeps the row, sets an unchecked column and re-encodes the id |
| Tetrominos.Coordinate.SetY | tetris/tetrominos.py:112-116 | the y setter keeps the column and re-encodes the id |
| Tetrominos.NextShapeId | tetris/tetrominos.py:48-50 | a rotation yields 0 or 1, never the old parity |
| Tetrominos.RotateTwice | tetris/tetrominos.py:48-50 | two rotations restore a shape id in {0, 1} |
| Tetrominos.IShape.constructor | tetris/tetrominos.py:27-38 | a new I starts standing (shape 1), static, at column 4 of row 0 (id 4) |
| Tetrominos.IShape.Drop | tetris/tetrominos.py:40-42 | it moves one row down, keeps the column, and the id grows by the width |
| Tetrominos.IShape.Move | tetris/tetrominos.py:44-46 | it moves `moving_direction` columns across and keeps the row |
| Tetrominos.IShape.Rotate | tetris/tetrominos.py:48-50 | it switches between shapes 0 and 1 |
| AlienSettings.TruncDiv | alien_invasion/game_functions.py:195 | `int(a / b)` truncates toward zero: bounds on its magnitude and its sign |
| AlienSettings.ScaledPoints | alien_invasion/settings.py:90 | `int(points * 1.5)` lies between the points and one and a half times them |
| AlienSettings.PointsProgression | alien_invasion/settings.py:83-90 | an alien is worth 50, then 75, 112 and 168 points |
| AlienSettings.Settings.constructor | alien_invasion/settings.py:47-72 | the integer settings: 900 x 600 screen, 3 ships, 3 bullets, a drop of 10, direction 1, 50 points |
| AlienSettings.Settings.InitializeDynamicSettings | alien_invasion/settings.py:74-83 | the direction is back to right and an alien is worth 50 |
| AlienSettings.Settings.IncreaseSpeed | alien_invasion/settings.py:85-90 | the points are scaled by 1.5, truncated |
| GameStatistics.ResetFields | alien_invasion/game_stats.py:41-45 | a reset restores all ships, score 0 and level 1, and keeps the highest score and the active and paused flags |
| GameStatistics.ResetIdempotent | alien_invasion/game_stats.py:41-45 | resetting twice is resetting once |
| GameStatistics.GameStats.constructor | alien_invasion/game_stats.py:25-39 | the initial state is reset, inactive and not paused, with highest score 0 |
| GameStatistics.GameStats.ResetStats | alien_invasion/game_stats.py:41-45 | the reset state |
| GameFunctions.PressAndRelease | alien_invasion/game_functions.py:28-35 | an arrow key raises or lowers its own flag and no other, another key changes no flag, and releasing after pressing is just releasing |
| GameFunctions.FireWithinCap | alien_invasion/game_functions.py:66-71 | a bullet is added iff fewer than the cap fly, so a group within the cap stays within it |
| GameFunctions.FireBullet | alien_invasion/game_functions.py:66-71 | the bullets after a shot |
| GameFunctions.TruncDivPositive | alien_invasion/game_functions.py:195 | for a positive divisor, truncation is the floor on a non-negative dividend and at most 0 on a negative one |
| GameFunctions.NumAliensXFits | alien_invasion/game_functions.py:192-196 | the row's width fits in the screen less two alien widths, one alien more would not, and a narrow screen gives no aliens |
| GameFunctions.NumRowsFit | alien_invasion/game_functions.py:199-204 | the rows' height fits above three alien heights and the ship, and one row more would not |
| GameFunctions.FleetRow | alien_invasion/game_functions.py:226-227 | row r has `num_aliens_x` aliens, and alien i sits at `x = w + 2*w*i` |
| GameFunctions.FleetSize | alien_invasion/game_functions.py:225-227 | `create_fleet` adds rows times columns aliens |
| GameFunctions.FleetMembers | alien_invasion/game_functions.py:207-227 | the fleet is exactly the aliens of rows 0..rows-1 and columns 0..cols-1 |
| GameFunctions.AlienAtInjective | alien_invasion/game_functions.py:211-213 | with nonzero sizes, distinct (id, row) pairs have distinct positions |
| GameFunctions.FleetDistinct | alien_invasion/game_functions.py:207-227 | no two aliens of a fleet share a position |
| GameFunctions.FleetOnScreen | alien_invasion/game_functions.py:192-227 | every alien lies at least one width from the left edge and at least two widths from the right. Vertically it lies at least one height from the top, and at least three heights plus the ship's height from the bottom |
| GameFunctions.CreateAlien | alien_invasion/game_functions.py:207-214 | one alien is added at its place |
| GameFunctions.CreateFleet | alien_invasion/game_functions.py:217-227 | the nested loops add the whole fleet, row by row, to the group |
| GameFunctions.CheckHighestScore | alien_invasion/game_functions.py:59-63 | the highest score becomes the larger of itself and the score; nothing else changes |
| GameFunctions.SumAtLeastLength | alien_invasion/game_functions.py:177-178 | each colliding bullet destroyed at least one alien |
| GameFunctions.AddScore | alien_invasion/game_functions.py:176-178 | the score grows by `alien_points` for every destroyed alien |
| GameFunctions.LastAliensShotNoLevelUp | alien_invasion/game_functions.py:177-182 | as written, a frame with collisions never levels up, even when it empties the fleet |
| GameFunctions.OneBulletLastAlien | alien_invasion/game_functions.py:177-182 | one bullet destroying the last alien: the written test does not fire, the intended one does |
| GameFunctions.CheckBulletAlienCollisions | alien_invasion/game_functions.py:170-189 | the scoring and the highest score. With the intended test, an empty group gives exactly one level more, no bullets, scaled points and a fresh fleet |
| GameFunctions.DroppedShape | alien_invasion/game_functions.py:240-241 | a drop keeps the aliens, their order and their columns, lowers each by d, and two drops add up |
| GameFunctions.FlipTwice | alien_invasion/game_functions.py:242 | two flips restore the direction, and right and left swap |
| GameFunctions.ChangeFleetDirection | alien_invasion/game_functions.py:238-242 | every alien drops by `fleet_drop_speed`, then the direction flips |
| GameFunctions.ResetShipMissing | alien_invasion/ship.py:4-67 | `Ship` defines `center_ship` but no `reset_ship`, so calling `ship.reset_ship()` raises AttributeError |
| GameFunctions.StartNewGameAsWritten | alien_invasion/game_functions.py:117-125 | as written: the groups are emptied and the fleet rebuilt, and then the call raises AttributeError for `reset_ship` |
| GameFunctions.StartNewGame | alien_invasion/game_functions.py:117-125 | as intended: no bullets, a fresh fleet and the ship back at its birthplace, with its flags kept |
| GameFunctions.RestartGame | alien_invasion/game_functions.py:43-56 | statistics reset and active, dynamic settings at their start, no bullets, a fresh fleet and the ship recentred |
| GameFunctions.ShipHit | alien_invasion/game_functions.py:245-257 | one ship fewer. While ships remain a new game starts with the ship recentred. Otherwise the game stops, and the groups and the ship stay |
| GameFunctions.CheckKeydownEvent | alien_invasion/game_functions.py:19-40 | q quits and changes nothing. RETURN toggles the pause only while the game is active. Arrows and SPACE act only while it is active and not paused, and never move the ship's centre. p restarts only while it is inactive |
| GameFunctions.CheckKeyupEvent | alien_invasion/game_functions.py:74-84 | while the game is active an arrow's release clears its flag, paused or not; otherwise nothing changes |
| GameFunctions.Group.constructor | alien_invasion/alien_invasion.py:29-30 | a new group is empty |
| GameFunctions.Ship.constructor | alien_invasion/ship.py:6-32 | a new ship stands at its birthplace with every movement flag off |
| GameFunctions.Ship.CenterShip | alien_invasion/ship.py:64-67 | `center_ship` puts the ship's centre back at its birthplace and keeps its flags |

## Left out

- Floating-point values. Decision-tree feature values are `int` or `str` only. The float branch of `is_numeric` and float formatting in `__repr__` are not modelled.
- Floating-point arithmetic:
  - `gini` and `info_gain` are exact rationals in `real`. The test's `0.37333333333333324` is what the float evaluation of `0.64 - 0.6 * 0.444...` rounds to. It is two units in the last place below the double nearest the exact 28/75 proved here.
  - `math.floor(num / width)` and `int(a / b)` are exact integer floor and truncation. Python's float division agrees only for magnitudes below 2^53.
- Python's `set` iteration order is hash-dependent. The distinct values of a column are enumerated in order of first occurrence. Only ties between equal gains can depend on this order.
- Rows are non-empty by type. Python's `row[-1]` raises IndexError on an empty row, and `class_counts` on a list containing one is not modelled.
- `is_numeric` in `match` tests the example's value, not the question's. The model follows the code.
- `find_best_split` does not skip candidates with an empty side. The model follows the code, and `SingleRowSplit` shows the consequence.
- `GameOfLife.set_grid` draws a random grid; the initial grid is a constructor parameter instead. `show_grid`, `_update`, `show` and the argument parsing are plotting and I/O.
- Tetris drawing (`Block.draw`, `Shape.draw`, `IShape.draw`), the colours, and the tetris game loop and settings are rendering.
- Tetrominos.Coordinate.SetId, Tetrominos.Coordinate.constructor, Tetrominos.IShape.constructor: a width of 0 raises ZeroDivisionError in Python, in the id setter. These members require a nonzero width instead.
- Alien invasion pygame plumbing:
  - `check_events`, `check_play_button` and `update_screen` are not modelled;
  - the scoreboard's `prep_*` calls, `sleep` and the mouse visibility are not modelled;
  - `sys.exit` is the `quit` result of `CheckKeydownEvent`.
- `pygame.sprite.groupcollide` is an input to `CheckBulletAlienCollisions`. Its inputs are the per-bullet hit counts and the groups it leaves.
- The rest of the alien-invasion motion code is float positions clamped through pygame rects:
  - `check_fleet_edges`, `check_aliens_bottom` and `update_aliens`;
  - `update_bullets`, `Ship.update`, `Alien.update` and `Bullet.update`.

  The new bullet's position is a parameter of `FireBullet`.
- The alien and ship rect sizes come from image files, so they are parameters (`Sizes`). A zero alien size raises ZeroDivisionError in Python; the model requires nonzero sizes.
- AlienSettings.Settings.IncreaseSpeed: only the integer alien points are modelled; the float speed factors are not.
- `counter` only prints.

- The ship's birthplace comes from the screen's and the image's rects, so it is a constructor parameter of `Ship`.
- StartNewGame: this is the intended half of the second finding. It recentres the ship, where the code as written raises AttributeError after rebuilding the fleet. `StartNewGameAsWritten` models that behaviour.
- RestartGame: it starts the new game through the intended `StartNewGame`. As written, every restart (the `p` key and the play button) ends in the AttributeError of `StartNewGameAsWritten`, after the reset and the new fleet.
- ShipHit: while ships remain it starts the new game through the intended `StartNewGame`. As written, that path ends in the AttributeError of `StartNewGameAsWritten`.
- CheckKeydownEvent: its `p` branch restarts through the intended `RestartGame`. As written, that branch ends in the AttributeError of `StartNewGameAsWritten`.

## Findings

| source | as written | input that shows it | evidently intended | confidence | as-written member | corrected member |
|---|---|---|---|---|---|---|
| alien_invasion/game_functions.py:177-182 | the loop `for aliens in collisions.values()` rebinds `aliens`, so after a frame with collisions `len(aliens) == 0` tests the last bullet's hit list, which is never empty | one bullet destroys the last alien: the collisions are `{bullet: [alien]}` and the group is left empty, yet the level, the bullets and the fleet are unchanged until a later frame without collisions | level up, clear the bullets and build a new fleet whenever the alien group is empty after the collisions | not executed | GameFunctions.LastAliensShotNoLevelUp | GameFunctions.CheckBulletAlienCollisions |
| alien_invasion/game_functions.py:125 | `start_new_game` ends with `ship.reset_ship()`, but `Ship` (alien_invasion/ship.py:4-67) defines only `__init__`, `blitme`, `update` and `center_ship` | any restart, or a ship hit with ships left: the groups are emptied and the fleet rebuilt, then the call raises AttributeError, through `restart_game` (line 56) or `ship_hit` (line 252) | centre the ship with `center_ship()`, as the comment at line 123 says, and return normally | not executed | GameFunctions.StartNewGameAsWritten | GameFunctions.StartNewGame |
