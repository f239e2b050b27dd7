/**
  The two input loops of the game: the poll loop that turns the element
  reported by the capacitive-touch library into a button index, and the
  WELCOME wait that lets the game start only when X is pressed.

  The touch library and the player are outside the model: what they
  report is given as a finite sequence. When that sequence runs out before
  the loop may stop, the loop is still waiting (the board would go on
  polling); this is reported as a result, never as an error.
*/
module SimonInput {
  import opened SimonDefs

  /** The null element pointer: no key is pressed. */
  const NoKey: int := 0

  /** Identities of the elements PAD1 .. PAD5, in the order X, Square, Octogon, Triangle, Circle. */
  const AddressList: seq<int> := [1, 2, 3, 4, 5]

  /**
    The poll loop of `getButton`. Each entry of `polls` is one answer of
    the touch library (`NoKey` or an element). The loop stops at the first
    answer that is one of the five pads and returns that pad's index;
    answers that name no pad are skipped. `used` is the number of polls made.
    `NullButton` with every poll used means the game is still polling.
  */
  method GetButton(polls: seq<int>) returns (button: int, used: nat)
    ensures used <= |polls|
    ensures forall j :: 0 <= j < used - 1 ==> polls[j] !in AddressList
    ensures button == NullButton ==>
      used == |polls| && forall j :: 0 <= j < |polls| ==> polls[j] !in AddressList
    ensures button != NullButton ==>
      0 < used && 0 <= button < NumKeys && AddressList[button] == polls[used - 1]
  {
    var buttonPressed := NullButton;
    used := 0;
    while buttonPressed == NullButton && used < |polls|
      invariant used <= |polls|
      invariant forall j :: 0 <= j < used - 1 ==> polls[j] !in AddressList
      invariant buttonPressed == NullButton ==> forall j :: 0 <= j < used ==> polls[j] !in AddressList
      invariant buttonPressed != NullButton ==>
        0 < used && 0 <= buttonPressed < NumKeys && AddressList[buttonPressed] == polls[used - 1]
    {
      var keypressed := polls[used];
      used := used + 1;
      if keypressed != NoKey {
        var i := 0;
        while i < NumKeys
          invariant 0 <= i <= NumKeys
          invariant buttonPressed == NullButton ==> keypressed !in AddressList[..i]
          invariant buttonPressed != NullButton ==>
            0 <= buttonPressed < i && AddressList[buttonPressed] == keypressed
        {
          if keypressed == AddressList[i] {
            buttonPressed := i;
          }
          i := i + 1;
        }
        assert AddressList[..NumKeys] == AddressList;
      }
    }
    button := buttonPressed;
  }

  /**
    The WELCOME wait: buttons are read one at a time until one is X.
    The game starts exactly when X is among the buttons, and then the
    buttons read are those up to and including the first X.
  */
  method AwaitStart(buttons: seq<int>) returns (started: bool, used: nat)
    ensures used <= |buttons|
    ensures started <==> X in buttons
    ensures started ==> 0 < used && buttons[used - 1] == X && X !in buttons[..used - 1]
    ensures !started ==> used == |buttons|
  {
    var button := NullButton;
    used := 0;
    while (button == NullButton || button != X) && used < |buttons|
      invariant used <= |buttons|
      invariant button == X ==> 0 < used && buttons[used - 1] == X
      invariant X !in buttons[..if button == X then used - 1 else used]
    {
      button := buttons[used];
      used := used + 1;
      assert buttons[..used] == buttons[..used - 1] + [button];
    }
    started := button == X;
    if !started {
      assert buttons[..used] == buttons;
    } else {
      assert buttons == buttons[..used - 1] + [X] + buttons[used..];
    }
  }
}
