/** What the forkable containers share: the error raised by a handle that has been
    forked. */
module Forkable {
  /** AlreadyForkedException. */
  datatype ForkError = AlreadyForked
}
