/**
 * The part of a windowing-system event that the game reads: whether it is
 * keyboard input, whether the key went down, and which physical key it is.
 */
module Events {

  /** Arrow keys and WASD, and every other key or unidentified key code. */
  datatype KeyCode = ArrowUp | ArrowLeft | ArrowRight | ArrowDown | KeyW | KeyA | KeyS | KeyD | OtherKey

  /** A key transition; auto-repeat arrives as a pressed transition too. */
  datatype KeyEvent = KeyEvent(pressed: bool, physicalKey: KeyCode)

  datatype WindowEvent = KeyboardInput(event: KeyEvent) | OtherEvent
}
