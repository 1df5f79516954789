/** Grid and buffer dimensions of a keypad, as fixed at compile time by the library. */
module KeypadConfig {
  /** Presses, releases or long-presses each event buffer holds before the oldest is overwritten. */
  const BufferLen: nat := 16
  /** Row lines of the keypad. */
  const NumRows: nat := 4
  /** Column lines of the keypad. */
  const NumCols: nat := 4
}
