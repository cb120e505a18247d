/**
 * The keyboard events both keydown handlers look at.
 */
module Keys {

  /** The parts of a keydown event the handler looks at; `inEditor` says that
      the event target is the editor or lies inside it. */
  datatype KeyEvent = KeyEvent(key: string, shiftKey: bool, ctrlKey: bool, altKey: bool, metaKey: bool, inEditor: bool)

  /** Enter with no Shift, Ctrl, Alt or Meta. */
  predicate PlainEnter(e: KeyEvent) {
    e.key == "Enter" && !e.shiftKey && !e.ctrlKey && !e.altKey && !e.metaKey
  }
}
