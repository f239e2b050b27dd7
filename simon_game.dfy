/**
  The game loop's session state and its phase functions, as the program
  runs them: `givenSeq` is updated in place, `state` and `diff` are
  assigned by the phase functions, and the LEDs switched during playback
  are recorded as a ghost trace.
*/
module SimonGame {
  import opened SimonDefs
  import opened SimonInput
  import opened SimonRules

  /**
    The comparison loop of `checkSequence`: buttons are read one per slot
    from slot 0 and the loop stops at the first button that differs from
    the sequence. `pressed` is the number of buttons read; presses after
    the first wrong one need not exist.
  */
  method CompareReplay(sequence: seq<int>, level: int, presses: seq<int>)
    returns (isSeqCorrect: bool, pressed: nat)
    requires 0 <= level < |sequence| && ReplayDecides(sequence[..level + 1], presses)
    ensures isSeqCorrect <==> level < |presses| && presses[..level + 1] == sequence[..level + 1]
    ensures 0 < pressed <= level + 1 && pressed <= |presses|
    ensures forall j :: 0 <= j < pressed - 1 ==> presses[j] == sequence[j]
    ensures isSeqCorrect ==> pressed == level + 1 && presses[level] == sequence[level]
    ensures !isSeqCorrect ==> presses[pressed - 1] != sequence[pressed - 1]
    ensures pressed == if isSeqCorrect then level + 1
                     else MatchLength(sequence[..level + 1], presses) + 1
  {
    isSeqCorrect := true;
    pressed := 0;
    var currentButton := 0;
    while currentButton <= level
      invariant 0 <= currentButton <= level + 1 && currentButton <= |presses|
      invariant pressed == currentButton
      invariant forall j :: 0 <= j < currentButton ==> presses[j] == sequence[j]
    {
      assert currentButton < |presses| by {
        var k := MatchLength(sequence[..level + 1], presses);
        if k < |presses| && k < level + 1 {
          assert presses[k] != sequence[k];
        }
      }
      var button := presses[currentButton];
      pressed := pressed + 1;
      if button != sequence[currentButton] {
        isSeqCorrect := false;
        break;
      }
      currentButton := currentButton + 1;
    }
    MatchLengthFull(sequence[..level + 1], presses);
    if isSeqCorrect {
      assert presses[..level + 1] == sequence[..level + 1];
    } else {
      assert presses[pressed - 1] != sequence[..level + 1][pressed - 1];
    }
  }

  class Game {
    var state: Phase
    var diff: int
    var givenSeq: array<int>
    /** LED events issued by the playback so far. */
    ghost var leds: seq<LedEvent>

    /** The state the program keeps: a 64-slot buffer of pad indices and `diff` in 0..64. */
    ghost predicate Valid()
      reads this, givenSeq
    {
      WellFormed(Abs())
    }

    /** The game's state as a value. */
    ghost function Abs(): Snapshot
      reads this, givenSeq
    {
      Snapshot(state, diff, givenSeq[..])
    }

    /** The variables of `main` as initialised: WELCOME, difficulty 0, a zeroed buffer. */
    constructor ()
      ensures Valid() && fresh(givenSeq)
      ensures Abs() == Initial() && leds == []
    {
      state := Welcome;
      diff := 0;
      givenSeq := new int[MaxSeqLength](_ => 0);
      leds := [];
      new;
      assert givenSeq[..] == Zeros(MaxSeqLength);
    }

    /** The countdown ends in PLAYSEQ; nothing else changes. */
    method CountDown()
      requires Valid()
      modifies this`state
      ensures Valid()
      ensures state == PlaySeq
    {
      state := PlaySeq;
    }

    /**
      Plays one round: writes the new pad `rnd % NumKeys` into slot `diff`,
      flashes slots 0..diff in order at the speed of the level, and moves to
      CHECSEQ. The difficulty and every other slot are unchanged.
    */
    method PlaySequence(rnd: nat)
      requires Valid() && diff < MaxSeqLength
      modifies this`state, this`leds, givenSeq
      ensures Valid()
      ensures state == ChecSeq && diff == old(diff)
      ensures givenSeq[..] == old(givenSeq[..])[diff := rnd % NumKeys]
      ensures leds == old(leds) + Flashes(givenSeq[..diff + 1], GetSpeed(diff))
    {
      var level := diff;
      var randPad := rnd % NumKeys;
      givenSeq[level] := randPad;
      ghost var played := givenSeq[..];
      forall i | 0 <= i < givenSeq.Length ensures 0 <= givenSeq[i] < NumKeys {
        if i != level {
          assert givenSeq[i] == old(givenSeq[i]);
        }
      }
      var playLED := 0;
      while playLED <= level
        invariant 0 <= playLED <= level + 1
        invariant givenSeq[..] == played
        invariant leds == old(leds) + Flashes(givenSeq[..playLED], GetSpeed(level))
      {
        leds := leds + [LedOn(givenSeq[playLED], GetSpeed(level))];
        leds := leds + [LedOff(givenSeq[playLED], GetSpeed(level))];
        assert givenSeq[..playLED + 1][..playLED] == givenSeq[..playLED];
        playLED := playLED + 1;
      }
      state := ChecSeq;
    }

    /**
      Judges the player's replay of slots 0..diff. On the first wrong button
      the game goes to ERROR and the difficulty stays; if all are right and
      `diff < MAX_SEQ_LENGTH` the difficulty grows by one and the game goes
      to PLAYSEQ, else to CONGRATS. The buffer is never written. Since the
      slots read here must lie in the buffer, `diff < MAX_SEQ_LENGTH` holds,
      so this call never enters CONGRATS, and a correct replay at level 63
      leaves `diff` at 64, past the last slot.
    */
    method CheckSequence(presses: seq<int>) returns (pressed: nat)
      requires Valid() && diff < MaxSeqLength && ReplayDecides(givenSeq[..diff + 1], presses)
      modifies this`state, this`diff
      ensures Valid()
      ensures (state, diff) ==
        AfterCheck(AsWritten, old(diff),
                   old(diff) < |presses| && presses[..old(diff) + 1] == givenSeq[..old(diff) + 1])
      ensures state != Congrats
      ensures state == PlaySeq ==> diff == old(diff) + 1 && diff <= MaxSeqLength
      ensures pressed <= |presses|
      ensures pressed == if MatchLength(givenSeq[..old(diff) + 1], presses) == old(diff) + 1
                         then old(diff) + 1
                         else MatchLength(givenSeq[..old(diff) + 1], presses) + 1
    {
      var level := diff;
      var isSeqCorrect;
      isSeqCorrect, pressed := CompareReplay(givenSeq[..], level, presses);
      assert givenSeq[..][..level + 1] == givenSeq[..level + 1];
      if isSeqCorrect {
        if level < MaxSeqLength {
          level := level + 1;
          diff := level;
          state := PlaySeq;
        } else {
          // The program sets CONGRATS here, but `level` is a valid slot of
          // the 64-slot buffer, so this branch is never taken.
          assert false;
        }
      } else {
        state := Error;
      }
    }

    /** After the loss message the game is back at WELCOME; difficulty and buffer are kept. */
    method ErrorMsg()
      requires Valid()
      modifies this`state
      ensures Valid()
      ensures state == Welcome
    {
      state := Welcome;
    }

    /** After the victory message the game is back at WELCOME; difficulty and buffer are kept. */
    method CongratsMsg()
      requires Valid()
      modifies this`state
      ensures Valid()
      ensures state == Welcome
    {
      state := Welcome;
    }

    /**
      One pass of the game loop's `switch`. `used` is the number of buttons
      read: in WELCOME those up to the first X, in CHECSEQ those up to the
      first wrong one, in the other phases none. The new state is the one
      `Next` gives for the program as written, and only the PLAYSEQ pass
      adds to the playback trace.
    */
    method Step(input: Input) returns (used: nat)
      requires Valid() && CanStep(Abs(), input)
      modifies this, givenSeq
      ensures Valid()
      ensures givenSeq == old(givenSeq)
      ensures Abs() == Next(AsWritten, old(Abs()), input)
      ensures old(state) != PlaySeq ==> leds == old(leds)
      ensures old(state) == PlaySeq ==>
        leds == old(leds) + Flashes(givenSeq[..diff + 1], GetSpeed(diff))
      ensures used <= |input.presses|
      ensures old(state) == Welcome && X in input.presses ==>
        0 < used && input.presses[used - 1] == X && X !in input.presses[..used - 1]
      ensures old(state) == Welcome && X !in input.presses ==> used == |input.presses|
      ensures old(state) == ChecSeq ==>
        var k := MatchLength(old(givenSeq[..diff + 1]), input.presses);
        used == if k == old(diff) + 1 then k else k + 1
      ensures old(state) in {PlaySeq, Error, Congrats} ==> used == 0
    {
      used := 0;
      match state
      case Welcome =>
        var started;
        started, used := AwaitStart(input.presses);
        if started {
          CountDown();
        }
      case PlaySeq =>
        PlaySequence(input.rnd);
      case ChecSeq =>
        used := CheckSequence(input.presses);
        assert givenSeq[..][..old(diff) + 1] == givenSeq[..old(diff) + 1];
        MatchLengthFull(givenSeq[..old(diff) + 1], input.presses);
      case Error =>
        ErrorMsg();
      case Congrats =>
        CongratsMsg();
    }
  }
}
