// The input snapshot (src/input.rs): one state record per keyboard scancode
// and per mouse button, in fixed-size tables, plus the mouse position. The
// engine fills the tables from SDL events; here a snapshot is simply a value.

module Inputs {

  /** Number of SDL scancodes (`Scancode::Num`), the length of the key table. */
  const SCANCODE_NUM: nat := 512

  /** Length of the mouse table (`NUM_MOUSE_BUTTONS`). */
  const NUM_MOUSE_BUTTONS: nat := 8

  // The SDL scancodes the systems read.
  const SCANCODE_SPACE: nat := 44
  const SCANCODE_RIGHT: nat := 79
  const SCANCODE_LEFT: nat := 80
  const SCANCODE_DOWN: nat := 81
  const SCANCODE_UP: nat := 82

  /** An SDL scancode; every value indexes the key table. */
  type Scancode = c: nat | c < 512

  /** SDL's mouse buttons; `btn as usize` is the index below. */
  datatype MouseButton = Unknown | LeftButton | MiddleButton | RightButton | X1 | X2
  {
    function Index(): (i: nat)
      ensures i < NUM_MOUSE_BUTTONS
    {
      match this
      case Unknown => 0
      case LeftButton => 1
      case MiddleButton => 2
      case RightButton => 3
      case X1 => 4
      case X2 => 5
    }
  }

  datatype ButtonState = ButtonState(pressed: bool, released: bool, held: bool)

  datatype MouseState = MouseState(held: bool)

  const RELEASED: ButtonState := ButtonState(false, false, false)

  /** `[ButtonState; Scancode::Num]`. */
  type KeyTable = s: seq<ButtonState> | |s| == 512 witness seq(512, _ => ButtonState(false, false, false))

  /** `[MouseState; NUM_MOUSE_BUTTONS]`. */
  type MouseTable = s: seq<MouseState> | |s| == 8 witness seq(8, _ => MouseState(false))

  datatype Input = Input(keyState: KeyTable, mouseState: MouseTable, mousePos: (int, int))
  {
    /** `Input::default`: no key or button touched, the mouse at the origin. */
    static function Default(): (r: Input)
      ensures forall c :: 0 <= c < |r.keyState| ==> r.keyState[c] == RELEASED
      ensures forall b :: 0 <= b < |r.mouseState| ==> !r.mouseState[b].held
      ensures r.mousePos == (0, 0)
    {
      var button := ButtonState(false, false, false);
      var mouse := MouseState(false);
      Input(seq(SCANCODE_NUM, _ => button), seq(NUM_MOUSE_BUTTONS, _ => mouse), (0, 0))
    }

    /** `Input::new`, built the same way as `default`. */
    static function New(): (r: Input)
      ensures forall c :: 0 <= c < |r.keyState| ==> r.keyState[c] == RELEASED
      ensures forall b :: 0 <= b < |r.mouseState| ==> !r.mouseState[b].held
      ensures r.mousePos == (0, 0)
    {
      var button := ButtonState(false, false, false);
      var mouse := MouseState(false);
      Input(seq(SCANCODE_NUM, _ => button), seq(NUM_MOUSE_BUTTONS, _ => mouse), (0, 0))
    }

    /** `get_key`: the state of one key. */
    function GetKey(code: Scancode): (r: ButtonState)
      ensures r in keyState
    {
      keyState[code]
    }

    /** `get_mouse_button`: the state of one mouse button. */
    function GetMouseButton(button: MouseButton): (r: MouseState)
      ensures r in mouseState
    {
      mouseState[button.Index()]
    }
  }

  /** A button query reads only that button's entry of the mouse table, and
      key queries ignore the mouse table. */
  lemma GetMouseButtonReadsOneEntry(input: Input, button: MouseButton, other: MouseButton, state: MouseState, code: Scancode)
    requires button != other
    ensures input.(mouseState := input.mouseState[other.Index() := state]).GetMouseButton(other) == state
    ensures input.(mouseState := input.mouseState[other.Index() := state]).GetMouseButton(button) == input.GetMouseButton(button)
    ensures input.(mouseState := input.mouseState[other.Index() := state]).GetKey(code) == input.GetKey(code)
  {
    MouseButtonsAreDistinct(button, other);
  }

  /** `default` and `new` build the same snapshot. */
  lemma DefaultIsNew()
    ensures Input.Default() == Input.New()
  {
  }

  /** In a fresh snapshot every key reads as untouched and no button as held,
      whichever key or button is asked for. */
  lemma FreshInputIsQuiet(code: Scancode, button: MouseButton)
    ensures Input.New().GetKey(code) == RELEASED
    ensures !Input.New().GetMouseButton(button).held
  {
  }

  /** The lookups read the table entry and nothing else: a snapshot that
      differs from `input` only in key `other` reads the same for every other
      key, and the same for every mouse button. */
  lemma GetKeyReadsOneEntry(input: Input, code: Scancode, other: Scancode, state: ButtonState, button: MouseButton)
    requires code != other
    ensures input.(keyState := input.keyState[other := state]).GetKey(code) == input.GetKey(code)
    ensures input.(keyState := input.keyState[other := state]).GetKey(other) == state
    ensures input.(keyState := input.keyState[other := state]).GetMouseButton(button) == input.GetMouseButton(button)
  {
  }

  /** Distinct mouse buttons read distinct table entries. */
  lemma MouseButtonsAreDistinct(a: MouseButton, b: MouseButton)
    ensures a != b ==> a.Index() != b.Index()
  {
  }
}
