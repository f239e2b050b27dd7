/**
  The game loop as a transition system on values: one `Next` per pass of
  the loop's `switch`, and `Run` for a series of passes. The class in
  SimonGame is proved to take exactly these steps.

  The decision that ends a correct round is parameterised by a `Rule`:
  `AsWritten` is the guard `level < MAX_SEQ_LENGTH` of the program, and
  `Corrected` is the guard `level < MAX_SEQ_LENGTH - 1`, under which the
  last round is round 63 and the buffer is never written past its end.
*/
module SimonRules {
  import opened SimonDefs

  /** What the game loop keeps between passes: the phase, `diff` and `givenSeq`. */
  datatype Snapshot = Snapshot(phase: Phase, diff: int, given: seq<int>)

  /**
    What the outside world supplies to one pass: the value `rand()` returns
    (never negative) and the buttons the player presses during the pass.
  */
  datatype Input = Input(rnd: nat, presses: seq<int>)

  datatype Rule = AsWritten | Corrected

  /** The highest level from which a correct replay still leads to another round (exclusive). */
  function LastRoundGuard(rule: Rule): int
  {
    match rule
    case AsWritten => MaxSeqLength
    case Corrected => MaxSeqLength - 1
  }

  /** The power-on state: WELCOME, difficulty 0, a zeroed buffer. */
  function Initial(): (s: Snapshot)
    ensures s.phase == Welcome && s.diff == 0
    ensures Bounded(s) && forall i :: 0 <= i < |s.given| ==> s.given[i] == 0
  {
    Snapshot(Welcome, 0, Zeros(MaxSeqLength))
  }

  function Zeros(n: nat): (z: seq<int>)
    ensures |z| == n && forall i :: 0 <= i < n ==> z[i] == 0
  {
    seq(n, _ => 0)
  }

  /**
    A pass the program can make without indexing outside the buffer: the
    PLAYSEQ write and the CHECSEQ reads stay inside it, and the player's
    presses decide the check (a press per slot, or a wrong one).
  */
  predicate CanStep(s: Snapshot, input: Input)
  {
    |s.given| == MaxSeqLength &&
    (s.phase == PlaySeq ==> 0 <= s.diff < MaxSeqLength) &&
    (s.phase == ChecSeq ==>
      0 <= s.diff < MaxSeqLength && ReplayDecides(s.given[..s.diff + 1], input.presses))
  }

  /** The pending PLAYSEQ pass would write `sequence[level]` outside the buffer. */
  predicate Overflows(s: Snapshot)
  {
    s.phase == PlaySeq && !(0 <= s.diff < |s.given|)
  }

  /** State change at the end of CHECSEQ, from the level and whether the replay was correct. */
  function AfterCheck(rule: Rule, level: int, correct: bool): (r: (Phase, int))
    ensures r.0 == Error <==> !correct
    ensures r.0 == Congrats <==> correct && level >= LastRoundGuard(rule)
    ensures r.0 == PlaySeq ==> r.1 == level + 1
    ensures r.0 != PlaySeq ==> r.1 == level
  {
    if !correct then (Error, level)
    else if level < LastRoundGuard(rule) then (PlaySeq, level + 1)
    else (Congrats, level)
  }

  /**
    One pass of the game loop. Only PLAYSEQ writes the buffer, and only a
    CHECSEQ pass that goes on to PLAYSEQ changes the difficulty, by one.
  */
  function Next(rule: Rule, s: Snapshot, input: Input): (t: Snapshot)
    requires CanStep(s, input)
    ensures |t.given| == |s.given|
    ensures s.phase != PlaySeq ==> t.given == s.given
    ensures t.diff == s.diff || (s.phase == ChecSeq && t.phase == PlaySeq && t.diff == s.diff + 1)
  {
    match s.phase
    case Welcome =>
      if X in input.presses then s.(phase := PlaySeq) else s
    case PlaySeq =>
      s.(phase := ChecSeq, given := s.given[s.diff := input.rnd % NumKeys])
    case ChecSeq =>
      var correct := MatchLength(s.given[..s.diff + 1], input.presses) == s.diff + 1;
      var (phase, diff) := AfterCheck(rule, s.diff, correct);
      s.(phase := phase, diff := diff)
    case Error =>
      s.(phase := Welcome)
    case Congrats =>
      s.(phase := Welcome)
  }

  /**
    A series of passes. `None` when some pass cannot be made: its slot is
    outside the buffer, or the player's presses do not decide a check.
    Along a run the difficulty never goes down and grows by at most one per pass.
  */
  function Run(rule: Rule, s: Snapshot, inputs: seq<Input>): (r: Option<Snapshot>)
    ensures r.Some? ==> s.diff <= r.value.diff <= s.diff + |inputs|
    ensures r.Some? ==> |r.value.given| == |s.given|
    decreases |inputs|
  {
    if inputs == [] then Some(s)
    else if !CanStep(s, inputs[0]) then None
    else Run(rule, Next(rule, s, inputs[0]), inputs[1..])
  }

  /** What every state of the program satisfies: the buffer holds pad indices and `diff` is at most 64. */
  predicate WellFormed(s: Snapshot)
  {
    |s.given| == MaxSeqLength &&
    0 <= s.diff <= MaxSeqLength &&
    (s.phase == ChecSeq ==> s.diff < MaxSeqLength) &&
    forall i :: 0 <= i < |s.given| ==> 0 <= s.given[i] < NumKeys
  }

  /** WellFormed and, besides, `diff` a valid slot of the buffer. */
  predicate Bounded(s: Snapshot)
  {
    WellFormed(s) && s.diff < MaxSeqLength
  }

  // ---------------------------------------------------------------------
  // One pass

  /** Every pass keeps the buffer full of pad indices and `diff` within 0..64. */
  lemma NextWellFormed(rule: Rule, s: Snapshot, input: Input)
    requires WellFormed(s) && CanStep(s, input)
    ensures WellFormed(Next(rule, s, input))
  {
  }

  /**
    WELCOME is left only for PLAYSEQ and only when X is pressed; otherwise the
    game keeps waiting. Neither case touches the difficulty or the buffer.
  */
  lemma WelcomeWaitsForX(rule: Rule, s: Snapshot, input: Input)
    requires s.phase == Welcome && CanStep(s, input)
    ensures Next(rule, s, input).phase == PlaySeq <==> X in input.presses
    ensures Next(rule, s, input).phase in {Welcome, PlaySeq}
    ensures Next(rule, s, input).diff == s.diff && Next(rule, s, input).given == s.given
  {
  }

  /**
    A PLAYSEQ pass writes a pad index into slot `diff` and nothing else,
    keeps the difficulty and moves to CHECSEQ.
  */
  lemma PlayWritesOneSlot(rule: Rule, s: Snapshot, input: Input)
    requires s.phase == PlaySeq && CanStep(s, input)
    ensures var t := Next(rule, s, input);
      t.phase == ChecSeq && t.diff == s.diff &&
      |t.given| == |s.given| && 0 <= t.given[s.diff] < NumKeys &&
      forall i :: 0 <= i < |s.given| && i != s.diff ==> t.given[i] == s.given[i]
  {
  }

  /**
    The judge: the replay is wrong exactly when some slot 0..level differs,
    and then the game goes to ERROR with the difficulty and buffer unchanged.
    A correct replay never changes the buffer either.
  */
  lemma CheckJudges(rule: Rule, s: Snapshot, input: Input)
    requires s.phase == ChecSeq && CanStep(s, input)
    ensures var t := Next(rule, s, input);
      t.given == s.given &&
      (t.phase == Error <==>
        exists i :: 0 <= i <= s.diff && i < |input.presses| && input.presses[i] != s.given[i]) &&
      (t.phase == Error ==> t.diff == s.diff) &&
      (t.phase == PlaySeq ==> t.diff == s.diff + 1) &&
      (t.phase == Congrats ==> t.diff == s.diff)
  {
  }

  /**
    The end of a game keeps the game's progress: ERROR and CONGRATS go back
    to WELCOME without resetting the difficulty or the buffer.
  */
  lemma GameOverKeepsProgress(rule: Rule, s: Snapshot, input: Input)
    requires s.phase in {Error, Congrats} && CanStep(s, input)
    ensures Next(rule, s, input) == Snapshot(Welcome, s.diff, s.given)
  {
  }

  /** Replaying the whole sequence correctly at level `diff` advances to PLAYSEQ at `diff + 1` (as written). */
  lemma CorrectReplayAdvances(s: Snapshot, input: Input)
    requires s.phase == ChecSeq && CanStep(s, input)
    requires |input.presses| > s.diff && input.presses[..s.diff + 1] == s.given[..s.diff + 1]
    ensures Next(AsWritten, s, input) == Snapshot(PlaySeq, s.diff + 1, s.given)
  {
  }

  // ---------------------------------------------------------------------
  // Series of passes

  /** Running two series one after the other is running their concatenation. */
  lemma {:induction false} RunAppend(rule: Rule, s: Snapshot, a: seq<Input>, b: seq<Input>)
    ensures Run(rule, s, a + b) ==
      match Run(rule, s, a)
      case None => None
      case Some(t) => Run(rule, t, b)
    decreases |a|
  {
    if a == [] {
      assert a + b == b;
    } else {
      assert (a + b)[0] == a[0];
      assert (a + b)[1..] == a[1..] + b;
      if CanStep(s, a[0]) {
        RunAppend(rule, Next(rule, s, a[0]), a[1..], b);
      }
    }
  }

  /** Inputs that play `n` perfect rounds from level `d` when `rand()` keeps returning 0: the player presses X for every slot. */
  function PerfectRounds(d: nat, n: nat): (inputs: seq<Input>)
    ensures |inputs| == 2 * n
    decreases n
  {
    if n == 0 then []
    else [Input(0, []), Input(0, Zeros(d + 1))] + PerfectRounds(d + 1, n - 1)
  }

  /** Power-on, X to start, then `n` perfect rounds. */
  function PerfectGame(n: nat): seq<Input>
  {
    [Input(0, [X])] + PerfectRounds(0, n)
  }

  /** With an all-zero buffer, `n` perfect rounds from PLAYSEQ at level `d` reach PLAYSEQ at level `d + n`. */
  lemma {:induction false} PerfectRoundsAdvance(rule: Rule, d: nat, n: nat)
    requires d + n <= LastRoundGuard(rule)
    ensures Run(rule, Snapshot(PlaySeq, d, Zeros(MaxSeqLength)), PerfectRounds(d, n))
      == Some(Snapshot(PlaySeq, d + n, Zeros(MaxSeqLength)))
    decreases n
  {
    if n > 0 {
      var z := Zeros(MaxSeqLength);
      var s := Snapshot(PlaySeq, d, z);
      var inputs := PerfectRounds(d, n);
      var s1 := Next(rule, s, inputs[0]);
      assert z[d := 0] == z;
      assert s1 == Snapshot(ChecSeq, d, z);
      assert inputs[1..][0] == Input(0, Zeros(d + 1));
      assert z[..d + 1] == Zeros(d + 1);
      MatchLengthFull(z[..d + 1], Zeros(d + 1));
      var s2 := Next(rule, s1, inputs[1..][0]);
      assert s2 == Snapshot(PlaySeq, d + 1, z);
      assert inputs[1..][1..] == PerfectRounds(d + 1, n - 1);
      PerfectRoundsAdvance(rule, d + 1, n - 1);
    }
  }

  /** Pressing X at power-on reaches PLAYSEQ at level 0. */
  lemma StartFromPowerOn(rule: Rule)
    ensures Run(rule, Initial(), [Input(0, [X])]) == Some(Snapshot(PlaySeq, 0, Zeros(MaxSeqLength)))
  {
  }

  // ---------------------------------------------------------------------
  // The round-64 overflow, as written, and the corrected last round

  /**
    As written, 64 perfect rounds from power-on reach PLAYSEQ at difficulty
    64, whose pass would write `sequence[64]` past the 64-slot buffer.
  */
  lemma AsWrittenOverflowReachable()
    ensures Run(AsWritten, Initial(), PerfectGame(MaxSeqLength))
      == Some(Snapshot(PlaySeq, MaxSeqLength, Zeros(MaxSeqLength)))
    ensures Overflows(Snapshot(PlaySeq, MaxSeqLength, Zeros(MaxSeqLength)))
  {
    RunAppend(AsWritten, Initial(), [Input(0, [X])], PerfectRounds(0, MaxSeqLength));
    StartFromPowerOn(AsWritten);
    PerfectRoundsAdvance(AsWritten, 0, MaxSeqLength);
  }

  /** As written, no pass that stays inside the buffer ever enters CONGRATS. */
  lemma AsWrittenNeverCongratulates(s: Snapshot, input: Input)
    requires CanStep(s, input) && s.phase != Congrats
    ensures Next(AsWritten, s, input).phase != Congrats
  {
  }

  /**
    Hence, as written, a run that does not start in CONGRATS never reaches it
    while every pass stays inside the buffer.
  */
  lemma {:induction false} AsWrittenRunNeverWins(s: Snapshot, inputs: seq<Input>)
    requires s.phase != Congrats
    ensures Run(AsWritten, s, inputs).Some? ==> Run(AsWritten, s, inputs).value.phase != Congrats
    decreases |inputs|
  {
    if inputs != [] && CanStep(s, inputs[0]) {
      AsWrittenNeverCongratulates(s, inputs[0]);
      AsWrittenRunNeverWins(Next(AsWritten, s, inputs[0]), inputs[1..]);
    }
  }

  /** Under the corrected guard every pass keeps `diff` a valid slot of the buffer. */
  lemma CorrectedNextBounded(s: Snapshot, input: Input)
    requires Bounded(s) && CanStep(s, input)
    ensures Bounded(Next(Corrected, s, input))
    ensures !Overflows(Next(Corrected, s, input))
  {
  }

  /**
    Under the corrected guard a run never overflows: every run that completes
    ends with `diff` a valid slot, and a run stops early only at a check whose
    presses do not decide it, which needs fewer than 64 presses in some pass.
  */
  lemma {:induction false} CorrectedRunBounded(s: Snapshot, inputs: seq<Input>)
    requires Bounded(s)
    ensures Run(Corrected, s, inputs).Some? ==> Bounded(Run(Corrected, s, inputs).value)
    ensures (forall i :: 0 <= i < |inputs| ==> |inputs[i].presses| >= MaxSeqLength)
      ==> Run(Corrected, s, inputs).Some?
    decreases |inputs|
  {
    if inputs != [] {
      if |inputs[0].presses| >= MaxSeqLength {
        assert CanStep(s, inputs[0]);
      }
      if CanStep(s, inputs[0]) {
        CorrectedNextBounded(s, inputs[0]);
        assert forall i :: 0 <= i < |inputs[1..]| ==> inputs[1..][i] == inputs[i + 1];
        CorrectedRunBounded(Next(Corrected, s, inputs[0]), inputs[1..]);
      }
    }
  }

  /** Under the corrected guard CONGRATS is entered exactly after a correct replay at level 63. */
  lemma CorrectedWinsAtLastRound(s: Snapshot, input: Input)
    requires s.phase == ChecSeq && CanStep(s, input)
    ensures Next(Corrected, s, input).phase == Congrats
      <==> s.diff == MaxSeqLength - 1 && |input.presses| > s.diff &&
           input.presses[..s.diff + 1] == s.given[..s.diff + 1]
  {
  }

  /** Under the corrected guard, 63 perfect rounds and a perfect 64th replay win the game. */
  lemma CorrectedPerfectGameWins()
    ensures Run(Corrected, Initial(),
                PerfectGame(MaxSeqLength - 1) + [Input(0, []), Input(0, Zeros(MaxSeqLength))])
      == Some(Snapshot(Congrats, MaxSeqLength - 1, Zeros(MaxSeqLength)))
  {
    var z := Zeros(MaxSeqLength);
    var last := [Input(0, []), Input(0, z)];
    RunAppend(Corrected, Initial(), [Input(0, [X])], PerfectRounds(0, MaxSeqLength - 1));
    StartFromPowerOn(Corrected);
    PerfectRoundsAdvance(Corrected, 0, MaxSeqLength - 1);
    RunAppend(Corrected, Initial(), PerfectGame(MaxSeqLength - 1), last);
    var s := Snapshot(PlaySeq, MaxSeqLength - 1, z);
    assert z[MaxSeqLength - 1 := 0] == z;
    var s1 := Next(Corrected, s, last[0]);
    assert s1 == Snapshot(ChecSeq, MaxSeqLength - 1, z);
    assert z[..MaxSeqLength] == z;
    MatchLengthFull(z, z);
    var s2 := Next(Corrected, s1, last[1..][0]);
    assert s2 == Snapshot(Congrats, MaxSeqLength - 1, z);
    assert last[1..][1..] == [];
    assert Run(Corrected, s1, last[1..]) == Run(Corrected, s2, []);
    assert Run(Corrected, s, last) == Some(s2);
  }
}
