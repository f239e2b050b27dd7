/**
  Constants, phases and the pure helpers of the Simon game: the speed tiers
  of the playback, the LED flash trace of one playback, and the length of
  the prefix of a replay that agrees with the generated sequence.
*/
module SimonDefs {

  /** Number of touch pads (and LEDs) on the board. */
  const NumKeys: int := 5

  /** Capacity of the sequence buffer held by the game loop. */
  const MaxSeqLength: int := 64

  /** Button indices, positions in the pad address list. */
  const NullButton: int := -1
  const X: int := 0
  const Square: int := 1
  const Octogon: int := 2
  const Triangle: int := 3
  const Circle: int := 4

  /** The five values of the game loop's integer `state`. */
  datatype Phase = Welcome | PlaySeq | ChecSeq | Error | Congrats

  datatype Option<T> = None | Some(value: T)

  /**
    One LED event of the playback: the LED of `pad` is switched on (or off)
    and the program then waits `delay` delay loops.
  */
  datatype LedEvent = LedOn(pad: int, delay: int) | LedOff(pad: int, delay: int)

  /**
    Delay tier of the playback for a difficulty: slow (2) below 13,
    medium (1) from 13 to 25, fast (0) from 26 on.
  */
  function GetSpeed(difficulty: int): (speed: int)
    ensures speed in {0, 1, 2}
    ensures speed == 2 <==> difficulty < 13
    ensures speed == 1 <==> 13 <= difficulty < 26
    ensures speed == 0 <==> 26 <= difficulty
  {
    if difficulty < 13 then 2
    else if difficulty >= 13 && difficulty < 26 then 1
    else 0
  }

  /** The game never slows down as the difficulty grows. */
  lemma GetSpeedNonIncreasing(d: int, e: int)
    requires d <= e
    ensures GetSpeed(e) <= GetSpeed(d)
  {
  }

  /**
    The LED trace of playing `pads` in order at one delay: every pad is
    switched on and then off, one on/off pair per pad, in index order.
  */
  function Flashes(pads: seq<int>, delay: int): (t: seq<LedEvent>)
    ensures |t| == 2 * |pads|
    ensures forall k :: 0 <= k < |pads| ==>
      t[2 * k] == LedOn(pads[k], delay) && t[2 * k + 1] == LedOff(pads[k], delay)
  {
    if pads == [] then []
    else
      var n := |pads| - 1;
      Flashes(pads[..n], delay) + [LedOn(pads[n], delay), LedOff(pads[n], delay)]
  }

  /**
    Length of the longest prefix on which `presses` agrees with `expected`:
    every earlier slot agrees, and if both go on, the slot at the result is
    the first mismatch.
  */
  function MatchLength(expected: seq<int>, presses: seq<int>): (k: nat)
    ensures k <= |expected| && k <= |presses|
    ensures forall j :: 0 <= j < k ==> presses[j] == expected[j]
    ensures k < |expected| && k < |presses| ==> presses[k] != expected[k]
  {
    if expected == [] || presses == [] || presses[0] != expected[0] then 0
    else 1 + MatchLength(expected[1..], presses[1..])
  }

  /**
    The presses decide the check of `expected`: either there is a press for
    every slot, or a wrong press comes before the presses run out. Presses
    after the first wrong one are never read.
  */
  predicate ReplayDecides(expected: seq<int>, presses: seq<int>)
  {
    |expected| <= |presses| || MatchLength(expected, presses) < |presses|
  }

  /** All of `expected` is matched exactly when the replay starts with it. */
  lemma MatchLengthFull(expected: seq<int>, presses: seq<int>)
    ensures MatchLength(expected, presses) == |expected|
      <==> |expected| <= |presses| && presses[..|expected|] == expected
  {
  }
}
