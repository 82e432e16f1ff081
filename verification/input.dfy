/** The input manager: the keys held down, the keys pressed since the last
    frame, the last reported state of every key seen, the mouse position, and
    for each of the three mouse buttons whether it is down and whether it went
    down since the last frame. Mouse buttons are numbered from 1. */
module InputManager {
  import opened Common

  /** The number of mouse buttons tracked: left, right and middle. */
  const MouseButtonCount: nat := 3

  class InputManager {
    var pressedKeys: set<int>
    var justPressedKeys: set<int>
    var keyStates: map<int, bool>
    var mousePosition: Vec2
    const mouseButtons: array<bool>
    const mouseButtonsJustPressed: array<bool>

    /** Two distinct arrays of three flags, and a key is held down exactly when
        its last reported state is "down". */
    ghost predicate Valid()
      reads this
    {
      mouseButtons.Length == MouseButtonCount && mouseButtonsJustPressed.Length == MouseButtonCount
      && mouseButtons != mouseButtonsJustPressed
      && forall k :: k in pressedKeys <==> k in keyStates && keyStates[k]
    }

    /** The button's index in the flag arrays, when it is one of the three. */
    predicate TrackedButton(button: int)
    {
      0 <= button - 1 < MouseButtonCount
    }

    /** The single instance `getInstance` creates on first use: nothing held,
        nothing pressed, the mouse at the origin. */
    constructor()
      ensures Valid() && fresh(mouseButtons) && fresh(mouseButtonsJustPressed)
      ensures pressedKeys == {} && justPressedKeys == {} && keyStates == map[]
      ensures mousePosition == Vec2(0.0, 0.0)
      ensures forall i :: 0 <= i < MouseButtonCount ==> !mouseButtons[i] && !mouseButtonsJustPressed[i]
    {
      pressedKeys := {};
      justPressedKeys := {};
      keyStates := map[];
      mousePosition := Vec2(0.0, 0.0);
      mouseButtons := new bool[MouseButtonCount](i => false);
      mouseButtonsJustPressed := new bool[MouseButtonCount](i => false);
    }

    /** `update`, once per frame: nothing counts as just pressed any more; what
        is held down stays held down. */
    method Update()
      requires Valid()
      modifies this, mouseButtonsJustPressed
      ensures Valid()
      ensures justPressedKeys == {} && forall i :: 0 <= i < MouseButtonCount ==> !mouseButtonsJustPressed[i]
      ensures pressedKeys == old(pressedKeys) && keyStates == old(keyStates) && mousePosition == old(mousePosition)
      ensures mouseButtons[..] == old(mouseButtons[..])
    {
      justPressedKeys := {};
      var i := 0;
      while i < mouseButtonsJustPressed.Length
        invariant 0 <= i <= mouseButtonsJustPressed.Length
        invariant forall j :: 0 <= j < i ==> !mouseButtonsJustPressed[j]
        invariant mouseButtons[..] == old(mouseButtons[..])
        modifies mouseButtonsJustPressed
      {
        mouseButtonsJustPressed[i] := false;
        i := i + 1;
      }
    }

    /** `onKeyPressed`: the key is held down, and it is just pressed only if it
        was not already held (a key repeat adds nothing). */
    method OnKeyPressed(keyCode: int)
      requires Valid()
      modifies this
      ensures Valid()
      ensures pressedKeys == old(pressedKeys) + {keyCode}
      ensures justPressedKeys == if keyCode in old(pressedKeys) then old(justPressedKeys)
                                 else old(justPressedKeys) + {keyCode}
      ensures keyStates == old(keyStates)[keyCode := true] && mousePosition == old(mousePosition)
    {
      if keyCode !in pressedKeys {
        justPressedKeys := justPressedKeys + {keyCode};
      }
      pressedKeys := pressedKeys + {keyCode};
      keyStates := keyStates[keyCode := true];
    }

    /** `onKeyReleased`: the key is no longer held; whether it was just pressed
        this frame is unaffected. */
    method OnKeyReleased(keyCode: int)
      requires Valid()
      modifies this
      ensures Valid()
      ensures pressedKeys == old(pressedKeys) - {keyCode} && justPressedKeys == old(justPressedKeys)
      ensures keyStates == old(keyStates)[keyCode := false] && mousePosition == old(mousePosition)
    {
      pressedKeys := pressedKeys - {keyCode};
      keyStates := keyStates[keyCode := false];
    }

    method OnMouseMoved(x: real, y: real)
      requires Valid()
      modifies this
      ensures Valid() && mousePosition == Vec2(x, y)
      ensures pressedKeys == old(pressedKeys) && justPressedKeys == old(justPressedKeys) && keyStates == old(keyStates)
    {
      mousePosition := Vec2(x, y);
    }

    /** `onMousePressed`: a tracked button is down afterwards, and just pressed
        if it went from up to down; any other button is ignored. */
    method OnMousePressed(button: int)
      requires Valid()
      modifies mouseButtons, mouseButtonsJustPressed
      ensures Valid()
      ensures !TrackedButton(button) ==>
                mouseButtons[..] == old(mouseButtons[..]) && mouseButtonsJustPressed[..] == old(mouseButtonsJustPressed[..])
      ensures TrackedButton(button) ==>
                mouseButtons[..] == old(mouseButtons[..])[button - 1 := true]
                && mouseButtonsJustPressed[..] == if old(mouseButtons[button - 1]) then old(mouseButtonsJustPressed[..])
                                                  else old(mouseButtonsJustPressed[..])[button - 1 := true]
    {
      var index := button - 1;
      if 0 <= index < mouseButtons.Length {
        if !mouseButtons[index] {
          mouseButtonsJustPressed[index] := true;
        }
        mouseButtons[index] := true;
      }
    }

    /** `onMouseReleased`: a tracked button is up afterwards; any other button is ignored. */
    method OnMouseReleased(button: int)
      requires Valid()
      modifies mouseButtons
      ensures Valid()
      ensures !TrackedButton(button) ==> mouseButtons[..] == old(mouseButtons[..])
      ensures TrackedButton(button) ==> mouseButtons[..] == old(mouseButtons[..])[button - 1 := false]
    {
      var index := button - 1;
      if 0 <= index < mouseButtons.Length {
        mouseButtons[index] := false;
      }
    }

    predicate IsKeyPressed(keyCode: int)
      reads this
    {
      keyCode in pressedKeys
    }

    predicate IsKeyJustPressed(keyCode: int)
      reads this
    {
      keyCode in justPressedKeys
    }

    /** `isMouseButtonPressed`: false for an untracked button. */
    function IsMouseButtonPressed(button: int): (r: bool)
      requires Valid()
      reads this, mouseButtons
      ensures r ==> TrackedButton(button)
      ensures TrackedButton(button) ==> r == mouseButtons[button - 1]
    {
      var index := button - 1;
      if 0 <= index < mouseButtons.Length then mouseButtons[index] else false
    }

    /** `isMouseButtonJustPressed`: false for an untracked button. */
    function IsMouseButtonJustPressed(button: int): (r: bool)
      requires Valid()
      reads this, mouseButtonsJustPressed
      ensures r ==> TrackedButton(button)
      ensures TrackedButton(button) ==> r == mouseButtonsJustPressed[button - 1]
    {
      var index := button - 1;
      if 0 <= index < mouseButtonsJustPressed.Length then mouseButtonsJustPressed[index] else false
    }

    /** `getJustPressedKeysSnapshot`: a copy of the just-pressed keys. */
    method JustPressedKeysSnapshot() returns (keys: set<int>)
      ensures keys == justPressedKeys
    {
      keys := justPressedKeys;
    }
  }

  /** A key held down over several frames is just pressed only in the frame it
      went down: pressing it again while held, even after a frame boundary,
      does not make it just pressed. */
  method KeyRepeatNotJustPressed(input: InputManager, keyCode: int)
    requires input.Valid()
    modifies input, input.mouseButtonsJustPressed
    ensures input.Valid()
    ensures input.IsKeyPressed(keyCode) && !input.IsKeyJustPressed(keyCode)
  {
    input.OnKeyPressed(keyCode);
    input.Update();
    input.OnKeyPressed(keyCode);
  }
}
