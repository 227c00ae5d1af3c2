/**
 * The process-wide abort signal: the `abort` channel together with the
 * `sync.Once` that guards closing it. The channel goes from open to closed
 * at most once per reset; polling it never blocks.
 */
module Abort {

  class Signal {
    /** The `abort` channel has been closed. */
    var closed: bool
    /** The `once` guard has run its function. */
    var onceDone: bool

    /** The guard has fired exactly when the channel is closed. */
    ghost predicate Valid()
      reads this
    {
      onceDone == closed
    }

    constructor ()
      ensures Valid() && !closed
    {
      closed := false;
      onceDone := false;
    }

    /** `close(abort)`: closing an already-closed channel panics, so the
        channel must be open. */
    method Close()
      requires !closed
      modifies this`closed
      ensures closed
    {
      closed := true;
    }

    /** `closeOnce`: runs `close(abort)` through the guard, so that any number
        of calls close the channel exactly once and never panic. */
    method CloseOnce()
      requires Valid()
      modifies this
      ensures Valid() && closed && onceDone
      ensures old(closed) ==> unchanged(this)
    {
      if !onceDone {
        onceDone := true;
        Close();
      }
    }

    /** `select { case <-abort: ... default: }`: reports whether the channel
        is closed, without changing anything. */
    method Poll() returns (aborted: bool)
      requires Valid()
      ensures aborted <==> closed
      ensures aborted <==> onceDone
    {
      aborted := closed;
    }

    /** `ResetGlobalState`: a fresh open channel and a fresh guard. */
    method ResetGlobalState()
      modifies this
      ensures Valid() && !closed && !onceDone
    {
      closed := false;
      onceDone := false;
    }
  }
}
