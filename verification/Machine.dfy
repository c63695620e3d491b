/** The unsigned machine integers of the source whose bounds matter. */
module Machine {
  /** uint8_t: queue indices and counters. */
  newtype uint8 = x: int | 0 <= x < 256

  /** unsigned short: the cost of a card. */
  newtype uint16 = x: int | 0 <= x < 65536
}
