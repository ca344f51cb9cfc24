/** The library's data semaphore as its users see it: a held metric under a limit. */
module Semaphores {

  datatype Metric = Metric(num: nat, size: nat)

  const ZERO := Metric(0, 0)

  /** `warnings` counts the inconsistency warnings the semaphore has raised. */
  datatype Semaphore = Semaphore(limit: Metric, held: Metric, terminated: bool, warnings: nat) {

    predicate Fits(w: Metric) {
      !terminated && held.num + w.num <= limit.num && held.size + w.size <= limit.size
    }

    function Acquire(w: Metric): Semaphore
      requires Fits(w)
    {
      this.(held := Metric(held.num + w.num, held.size + w.size))
    }

    /** Releasing more than is held raises the warning and clears the ledger. */
    function Release(w: Metric): Semaphore {
      if held.num < w.num || held.size < w.size then
        this.(held := ZERO, warnings := warnings + 1)
      else
        this.(held := Metric(held.num - w.num, held.size - w.size))
    }

    function Terminate(): Semaphore {
      this.(terminated := true)
    }
  }

  function New(limit: Metric): Semaphore {
    Semaphore(limit, ZERO, false, 0)
  }
}
