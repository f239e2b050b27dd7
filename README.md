# Simon game logic for the MSP430 board, in Dafny

This project models the game logic of `simon.c`, a "Simon says" memory game
for an MSP430 board with five capacitive touch pads, each with an LED. The
program loops forever and switches on an integer `state` with five values:
WELCOME, PLAYSEQ, CHECSEQ, ERROR and CONGRATS. Across phases it keeps two
things: a 64-slot buffer `givenSeq` and a difficulty counter `diff`.

- **WELCOME** reads buttons until the player presses X. The countdown then
  moves the game to PLAYSEQ.
- **PLAYSEQ** (`playSequence`) writes a new pad index, `rand() % 5`, into
  slot `diff`. It then flashes slots `0..diff` in order, at a delay tier
  chosen by `getSpeed`, and moves to CHECSEQ.
- **CHECSEQ** (`checkSequence`) reads one button per slot and stops at the
  first wrong one, which leads to ERROR. If every button is right, it either
  raises the difficulty and goes back to PLAYSEQ, or goes to CONGRATS.
- **ERROR** and **CONGRATS** show a message and go back to WELCOME.
- **`getButton`** polls the touch library until it reports one of the five
  pads, and returns that pad's index.

The files:

- `simon_defs.dfy` (module `SimonDefs`): the constants, the phases, the
  speed tiers, the LED trace of one playback and the matching prefix of a
  replay.
- `simon_input.dfy` (module `SimonInput`): the `getButton` poll loop and the
  WELCOME wait for X, as methods with loops.
- `simon_rules.dfy` (module `SimonRules`): one pass of the game loop as a
  function `Next` on a value `Snapshot` (phase, difficulty, buffer), a series
  of passes `Run`, and the lemmas about them.
- `simon_game.dfy` (module `SimonGame`): class `Game`. It holds `state`,
  `diff`, the buffer as an `array<int>` updated in place, and a ghost trace
  of LED events. It has one method per phase function, and `Step`, which is
  proved to make exactly the pass that `Next` describes.

The foreign calls become inputs. For `rand()` the model takes its
(non-negative) value as a parameter. The touch library becomes a sequence of
poll answers. The player becomes the sequence of buttons pressed during a
pass.

Two points of the code as written matter:

- The code never resets the difficulty or the sequence when a game ends
  (`GameOverKeepsProgress`). A new game after a loss resumes at the old
  difficulty and sequence.
- The comments at simon.c:475 ("Is this the max level?") and simon.c:482-484
  ("the player beat the game") say that the player wins at the last level.
  The guard is `level < MAX_SEQ_LENGTH`, so a correct round at level 63
  raises `diff` to 64 instead. CONGRATS can then be reached only after a
  correct round at level 64, whose PLAYSEQ pass has already written
  `sequence[64]` past the buffer (see Findings).

## Model

| member | source | states |
|---|---|---|
| `SimonDefs.GetSpeed` | simon.c:400-418 | the delay tier is always 0, 1 or 2: 2 exactly below difficulty 13, 1 exactly for 13..25, 0 exactly from 26 on |
| `SimonDefs.GetSpeedNonIncreasing` | simon.c:400-418 | the delay tier never rises as the difficulty grows |
| `SimonDefs.Flashes` | simon.c:387-394 | playing `n` pads gives exactly `n` on/off pairs; pair `k` switches pad `k` on and then off, both at the same delay, in index order |
| `SimonDefs.MatchLength` | simon.c:433-458 | the matched prefix of a replay: every earlier slot agrees, and the slot at the result is the first mismatch |
| `SimonDefs.MatchLengthFull` | simon.c:454-465 | the whole sequence is matched exactly when the replay starts with the sequence |
| `SimonInput.GetButton` | simon.c:270-310 | the poll loop returns only an index `i` in [0, 5) with `address_list[i]` equal to the last element polled; every earlier poll named no pad (null or unknown) and was skipped without error; the null button comes back only when every poll was such a poll (still waiting) |
| `SimonInput.AwaitStart` | simon.c:156-161 | WELCOME starts the game exactly when X is pressed; it reads the buttons up to and including the first X, and any other button keeps it waiting |
| `SimonGame.CompareReplay` | simon.c:433-460 | the check loop reports a correct replay exactly when buttons `0..level` equal the sequence; it reads `i+1` buttons when slot `i` is the first mismatch, and `level+1` buttons otherwise; presses after the first wrong one need not exist |
| `SimonGame.Game.constructor` | simon.c:137-140 | the game starts in WELCOME, at difficulty 0, with a zeroed 64-slot buffer and no LED events |
| `SimonGame.Game.CountDown` | simon.c:312-348 | the countdown sets the state to PLAYSEQ, keeps the game's invariant and changes nothing else |
| `SimonGame.Game.PlaySequence` | simon.c:351-398 | writes `rnd % 5` into slot `diff` and leaves every other slot and `diff` unchanged; appends the flashes of slots `0..diff` at `getSpeed(diff)` to the LED trace; moves to CHECSEQ; requires `diff < 64` |
| `SimonGame.Game.CheckSequence` | simon.c:420-494 | never writes the buffer; a wrong replay gives ERROR with `diff` unchanged, after reading the buttons up to the first wrong one; a correct one gives PLAYSEQ with `diff + 1`; since the slots it reads lie in the buffer (`diff < 64`), it never enters CONGRATS, and after a correct round at 63 it leaves `diff` at 64 |
| `SimonGame.Game.ErrorMsg` | simon.c:524-541 | the loss message sets the state to WELCOME, keeps the game's invariant and changes nothing else |
| `SimonGame.Game.CongratsMsg` | simon.c:543-560 | the victory message sets the state to WELCOME, keeps the game's invariant and changes nothing else |
| `SimonGame.Game.Step` | simon.c:146-188 | one pass of the `switch` changes the state exactly as `Next` says for the code as written; it keeps the buffer's invariants; only a PLAYSEQ pass adds to the playback trace; it reads the buttons up to the first X in WELCOME, up to the first wrong one (or all `diff + 1`) in CHECSEQ, and none otherwise |
| `SimonRules.Initial` | simon.c:137-140 | the power-on state is WELCOME at difficulty 0 with an all-zero 64-slot buffer, and `diff` is a valid slot |
| `SimonRules.AfterCheck` | simon.c:465-491 | the end of the check gives ERROR exactly for a wrong replay, CONGRATS exactly for a correct one at or past the guard, and PLAYSEQ otherwise; only PLAYSEQ raises the level, by one |
| `SimonRules.Next` | simon.c:149-186 | one pass of the `switch`, defined only for the passes `CanStep` allows (in-bounds slots, presses that decide the check); only PLAYSEQ writes the buffer, and only a CHECSEQ pass into PLAYSEQ changes the difficulty, by one |
| `SimonRules.Run` | simon.c:146-188 | a series of passes of the `while (1)`, stopping where a pass is not allowed; along it the difficulty never goes down and grows by at most one per pass, and the buffer keeps its size |
| `SimonRules.NextWellFormed` | simon.c:137-188 | every pass keeps a 64-slot buffer of pad indices in [0, 5) and `diff` in 0..64, with `diff < 64` whenever the state is CHECSEQ |
| `SimonRules.WelcomeWaitsForX` | simon.c:150-162 | WELCOME moves to PLAYSEQ if and only if X is pressed; otherwise it stays; the difficulty and the buffer are unchanged either way |
| `SimonRules.PlayWritesOneSlot` | simon.c:364-397 | a PLAYSEQ pass writes a pad index into slot `diff` only, keeps `diff` and moves to CHECSEQ |
| `SimonRules.CheckJudges` | simon.c:433-491 | CHECSEQ goes to ERROR if and only if some pressed button among `0..diff` differs from the sequence, with `diff` unchanged; PLAYSEQ comes with `diff + 1`; the buffer is unchanged in every case |
| `SimonRules.GameOverKeepsProgress` | simon.c:524-560 | ERROR and CONGRATS go to WELCOME with the same difficulty and buffer: nothing is reset |
| `SimonRules.CorrectReplayAdvances` | simon.c:465-480 | as written, a correct replay at level `d` leads to PLAYSEQ at level `d + 1` with the buffer unchanged, for every `d` including 63 |
| `SimonRules.RunAppend` | simon.c:146-188 | running two series of passes one after the other is the same as running them joined together |
| `SimonRules.StartFromPowerOn` | simon.c:137-161 | from power-on, pressing X reaches PLAYSEQ at difficulty 0 |
| `SimonRules.PerfectRoundsAdvance` | simon.c:164-174 | with a zeroed buffer and `rand()` returning 0, `n` perfect rounds from level `d` reach PLAYSEQ at level `d + n`, while `d + n` stays within the guard |
| `SimonRules.AsWrittenOverflowReachable` | simon.c:476-478 | as written, power-on, X and 64 perfect rounds reach PLAYSEQ at difficulty 64; that pass writes `sequence[64]`, past the buffer |
| `SimonRules.AsWrittenNeverCongratulates` | simon.c:476-486 | as written, no pass that stays inside the buffer enters CONGRATS |
| `SimonRules.AsWrittenRunNeverWins` | simon.c:146-188 | as written, no in-bounds series of passes that starts outside CONGRATS ever reaches it (the program can reach it only after writing past the buffer) |
| `SimonRules.CorrectedNextBounded` | simon.c:476-486 | with the guard `level < 63`, every pass keeps `diff` a valid slot of the buffer |
| `SimonRules.CorrectedRunBounded` | simon.c:146-188 | with the guard `level < 63`, every series of passes that completes ends with `diff < 64`; a series in which every pass has at least 64 presses always completes, so it never leaves the buffer |
| `SimonRules.CorrectedWinsAtLastRound` | simon.c:476-486 | with the guard `level < 63`, CHECSEQ enters CONGRATS if and only if the level is 63 and the replay is correct |
| `SimonRules.CorrectedPerfectGameWins` | simon.c:476-486 | with the guard `level < 63`, power-on, X, 63 perfect rounds and a perfect 64th replay end in CONGRATS at difficulty 63 |

## Findings

| source | as written | input that shows it | evidently intended | confidence | as-written member | corrected member |
|---|---|---|---|---|---|---|
| simon.c:476 | `level < MAX_SEQ_LENGTH` lets a correct replay at level 63 raise `diff` to 64. The next PLAYSEQ then writes `sequence[64]` and reads it back, past the 64-slot buffer. CONGRATS (simon.c:485) can only be reached after that overflow. | power-on, X, then 64 rounds in which `rand()` returns a multiple of 5 and the player presses X for every slot | the last round is round 63: a correct replay at level 63 wins, so `level < MAX_SEQ_LENGTH - 1` | high; not executed | `SimonRules.AsWrittenOverflowReachable` | `SimonRules.CorrectedRunBounded` |

The class `Game` keeps the guard as written, because it models the program.
Its `CheckSequence` therefore cannot promise `diff < 64` afterwards. The
next `PlaySequence` needs that bound, and the class cannot call it after a
correct round at 63. The corrected guard is the `Corrected` rule of
`SimonRules`. `CorrectedRunBounded`, `CorrectedWinsAtLastRound` and
`CorrectedPerfectGameWins` are proved about it.

## Left out

- Hardware set-up is not modelled: the watchdog stop, `initSys`,
  `configTouchPadLEDs` and the touch library's baseline calls. They only
  write registers.
- The graphics library is not modelled: `configDisplay`, `dispWelcome`,
  `displayButton` and every screen drawn by the countdown, the check and the
  messages. They are presentation only.
- `swDelay` is not modelled. The LED trace records only the delay value that
  `getSpeed` chooses.
- Port writes are left out: the LED masks and `P1OUT`, the clearing of the
  LEDs at the start of `playSequence` and in every poll of `getButton`, and
  the LED that `getButton` lights for a pressed pad. The playback trace
  records pad indices instead.
- `rand()` and `TI_CAPT_Buttons` are foreign calls. They become inputs: the
  non-negative value `rand()` returns, and a sequence of poll answers whose
  elements are identities (0 for null, 1..5 for PAD1..PAD5).
- The endless `while (1)` of `main` is not modelled as one loop. It becomes
  one `Step` per pass, and `Run` for a finite series of passes.
- `SimonInput.GetButton`: the poll answers are a finite sequence, while the
  program polls forever. When the answers run out without naming a pad, the
  model returns the null button to mean "still polling". The program never
  returns it.
- `SimonGame.Game.CheckSequence` requires presses that decide the check:
  one for every slot `0..diff`, or a wrong press before they run out. Short
  of that, the program would wait in `getButton` for the next press. The
  buttons pressed during a pass are given per pass, not as one shared
  stream.
- `SimonGame.Game.Step` uses the as-written guard. The corrected guard exists
  only in `SimonRules`, as the `Corrected` rule.
