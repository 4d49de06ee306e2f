/** Values the browser host supplies or accepts: optional props and timer requests. */
module Host {

  /** An optional value, as for a prop that may be left `undefined`. */
  datatype Option<+T> = None | Some(value: T)

  /** A request to the host to run a callback keyed by `id` once, `delayMs` milliseconds later
      (a `setTimeout`). The model never runs the clock: the callback reaches the model as an
      explicit event carrying `id`. */
  datatype Timer<+I> = Timer(id: I, delayMs: nat)
}
