/**
 * The key events that the handlers of src/ui.rs tell apart: crossterm's
 * `KeyCode` together with the modifier bits the handlers test (Ctrl on
 * Enter; Ctrl and Alt on a printable character).
 */
module Keys {

  datatype Key =
    | Esc
    | Tab
    | BackTab
    | Left
    | Right
    | Up
    | Down
    | Backspace
    | Enter(ctrl: bool)
    | Char(c: char, ctrl: bool, alt: bool)
    | Other
}
