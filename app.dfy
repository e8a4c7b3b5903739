/** The outcome a crawl step reports to the application (the `Download` enum). */
module App {

  newtype byte = x: int | 0 <= x < 256

  /**
   * `Progress` carries the stage marker (1, 10 or 20); the source uses an `f32`
   * percentage, modelled here as the integer it always holds.
   */
  datatype Download = Progress(percent: int) | Error(message: string) | Done(bytes: seq<byte>, url: string)

  /** `Done` and `Error` end a gated cycle; `Progress` does not. */
  predicate IsTerminal(d: Download)
  {
    d.Error? || d.Done?
  }
}
