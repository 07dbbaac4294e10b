/** The keys the screens react to; `Char(c)` is a key whose `KeyValue` is the character `c`. */
module Keys {
  datatype Key =
    | Enter
    | Esc
    | Tab
    | CursorLeft
    | CursorRight
    | CursorUp
    | CursorDown
    | PageUp
    | PageDown
    | Char(c: char)
    | OtherKey

  /** The task list's navigation keys: Enter, down/`j`, up/`k`, `g` and `G`. */
  predicate NavigationKey(key: Key) {
    || key == Enter || key == CursorDown || key == CursorUp
    || key == Char('j') || key == Char('k') || key == Char('g') || key == Char('G')
  }
}
