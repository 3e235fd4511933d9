/**
 * The scale-down damper: what `applyCooldown` does to one metric series, and to the table of all
 * series.
 */
module Damper {
  import opened Wrappers
  import opened Clock

  /** The state kept for one series; a zero `lastScaleDownAt` means no scale-down so far. */
  datatype Cell = Cell(lastValue: real, lastScaleDownAt: Instant)

  /** A cooldown that switches damping on. */
  type Window = d: Duration | d > 0 witness 1

  /** One positive-cooldown call: the fresh value, its own cooldown, the clock inside the lock. */
  datatype Reading = Reading(measured: real, cooldown: Window, now: Instant)

  datatype Outcome = Outcome(cell: Cell, reported: real)

  /** One call on one series, `None` when the series has never been seen. */
  function Apply(before: Option<Cell>, r: Reading): Outcome {
    match before
    case None => Outcome(Cell(r.measured, ZERO_INSTANT), r.measured)
    case Some(st) =>
      if r.measured >= st.lastValue then
        Outcome(st.(lastValue := r.measured), r.measured)
      else if st.lastScaleDownAt != ZERO_INSTANT && Sub(r.now, st.lastScaleDownAt) < r.cooldown then
        Outcome(st, st.lastValue)
      else
        Outcome(Cell(r.measured, r.now), r.measured)
  }

  /** The state of a series after a whole history of calls. */
  function State(h: seq<Reading>): Option<Cell> {
    if h == [] then None else
      var last := |h| - 1;
      Some(Apply(State(h[..last]), h[last]).cell)
  }

  /** What a history of calls reported, call by call. */
  function Reports(h: seq<Reading>): (rs: seq<real>)
    ensures |rs| == |h|
  {
    if h == [] then [] else
      var last := |h| - 1;
      Reports(h[..last]) + [Apply(State(h[..last]), h[last]).reported]
  }

  /** One call as the service makes it: any key, any cooldown. */
  datatype Commit<K> = Commit(key: K, measured: real, cooldown: Duration, now: Instant)

  predicate Damped<K>(c: Commit<K>) { c.cooldown > 0 }

  function ReadingOf<K>(c: Commit<K>): Reading
    requires Damped(c)
  {
    Reading(c.measured, c.cooldown, c.now)
  }

  function Lookup<K, V>(table: map<K, V>, key: K): Option<V> {
    if key in table then Some(table[key]) else None
  }

  /** The table of all series after one call; a non-positive cooldown leaves it alone. */
  function TableStep<K>(table: map<K, Cell>, c: Commit<K>): map<K, Cell> {
    if !Damped(c) then table
    else table[c.key := Apply(Lookup(table, c.key), ReadingOf(c)).cell]
  }

  /** The value one call returns. */
  function Reply<K>(table: map<K, Cell>, c: Commit<K>): real {
    if !Damped(c) then c.measured
    else Apply(Lookup(table, c.key), ReadingOf(c)).reported
  }

  /** The table after all calls of a log, in the order in which they took the lock. */
  function Table<K>(log: seq<Commit<K>>): map<K, Cell> {
    if log == [] then map[] else
      TableStep(Table(log[..|log| - 1]), log[|log| - 1])
  }

  lemma TableAppend<K>(log: seq<Commit<K>>, c: Commit<K>)
    ensures Table(log + [c]) == TableStep(Table(log), c)
  {
    assert (log + [c])[..|log|] == log;
  }

  lemma UndampedReply<K>(table: map<K, Cell>, c: Commit<K>)
    requires !Damped(c)
    ensures Reply(table, c) == c.measured
  {
  }

  lemma FirstCall(r: Reading)
    ensures Apply(None, r) == Outcome(Cell(r.measured, ZERO_INSTANT), r.measured)
  {
  }
}
