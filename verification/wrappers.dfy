/** Absent values and failures, used by every other module of the model. */
module Wrappers {

  /** A value that may be missing: Java's `Optional` and the `null` a getter may return. */
  datatype Option<+T> = None | Some(value: T) {

    /** The value when present, `default` otherwise (`Optional.orElse`). */
    function GetOr(default: T): T {
      match this
      case Some(v) => v
      case None => default
    }
  }

  /** The outcome of a computation that either returns a value or throws. */
  datatype Result<+T, +E> = Success(value: T) | Failure(error: E)
}

/**
 * A `CompletableFuture` reduced to what the handlers use of it: a slot that
 * starts empty and that `complete` fills at most once.
 */
module OneShot {
  import opened Wrappers

  /** `future.complete(v)`: fills an empty slot with `v`; a filled slot keeps its value. */
  function Complete<T>(slot: Option<T>, v: T): (r: Option<T>)
    ensures r.Some?
    ensures slot.Some? ==> r == slot
    ensures slot.None? ==> r.value == v
  {
    if slot.Some? then slot else Some(v)
  }

  /** Completing twice leaves the value of the first completion. */
  lemma FirstWriteWins<T>(slot: Option<T>, first: T, second: T)
    ensures Complete(Complete(slot, first), second) == Complete(slot, first)
    ensures slot.None? ==> Complete(Complete(slot, first), second) == Some(first)
  {
  }
}

/** Facts about map updates the handlers' proofs share. */
module Maps {

  /** Adding a key the map lacks and then removing it gives the map back. */
  lemma RemoveAdded<K, V>(m: map<K, V>, k: K, v: V)
    requires k !in m
    ensures m[k := v] - {k} == m
  {
    assert (m[k := v] - {k}).Keys == m.Keys;
  }

  /** A second update of the same key overrides the first. */
  lemma UpdateTwice<K, V>(m: map<K, V>, k: K, v: V, w: V)
    ensures m[k := v][k := w] == m[k := w]
  {
    assert m[k := v][k := w].Keys == m[k := w].Keys;
  }
}
