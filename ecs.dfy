// What the model keeps of the entity-component store: entity ids and the
// queue of deferred creations. A storage is a map from entity to component;
// `Entities::create` hands out the next id at once, while the components of
// the new entity wait in a queue (`LazyUpdate`) until the end of the frame.

module Ecs {

  /** An entity id. The allocator hands them out in increasing order; the
      generation counter that detects stale ids is not modelled. */
  type Entity = nat

  /** Queue entries for `records` created one after another, the first one
      receiving the id `first`. */
  function Numbered<T>(first: Entity, records: seq<T>): (r: seq<(Entity, T)>)
    ensures |r| == |records|
    decreases |records|
  {
    if records == [] then [] else [(first, records[0])] + Numbered(first + 1, records[1..])
  }

  /** The i-th queued record gets the i-th id after `first`. */
  lemma {:induction false} NumberedAt<T>(first: Entity, records: seq<T>, i: nat)
    requires i < |records|
    ensures Numbered(first, records)[i] == (first + i, records[i])
    decreases i
  {
    if i > 0 {
      NumberedAt(first + 1, records[1..], i - 1);
    }
  }

  /** Numbering two batches in turn numbers their concatenation. */
  lemma {:induction false} NumberedConcat<T>(first: Entity, a: seq<T>, b: seq<T>)
    ensures Numbered(first, a + b) == Numbered(first, a) + Numbered(first + |a|, b)
    decreases |a|
  {
    if a == [] {
      assert a + b == b;
    } else {
      assert (a + b)[1..] == a[1..] + b;
      NumberedConcat(first + 1, a[1..], b);
    }
  }

  /** The time elapsed over a run of frames, each frame's time step in turn. */
  function Sum(deltas: seq<real>): real {
    if deltas == [] then 0.0 else deltas[0] + Sum(deltas[1..])
  }

  /** A slice of a queue grows by one element at a time. */
  lemma SliceExtend<T>(s: seq<T>, i: nat, j: nat)
    requires i <= j < |s|
    ensures s[i..j + 1] == s[i..j] + [s[j]]
  {
  }
}
