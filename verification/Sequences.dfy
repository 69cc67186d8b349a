/** Sequences with one element put in, taken out, or two exchanged. */
module Sequences {
  function Inserted<T>(q: seq<T>, k: nat, x: T): seq<T>
    requires k <= |q|
  {
    q[..k] + [x] + q[k..]
  }

  function Dropped<T>(q: seq<T>, k: nat): seq<T>
    requires k < |q|
  {
    q[..k] + q[k + 1..]
  }

  function Swapped<T>(q: seq<T>, i: nat, j: nat): seq<T>
    requires i < |q| && j < |q|
  {
    q[i := q[j]][j := q[i]]
  }

  lemma InsertedAt<T>(q: seq<T>, k: nat, x: T, i: nat)
    requires k <= |q| && i <= |q|
    ensures |Inserted(q, k, x)| == |q| + 1
    ensures Inserted(q, k, x)[i] == if i < k then q[i] else if i == k then x else q[i - 1]
  {
  }

  lemma DroppedAt<T>(q: seq<T>, k: nat, i: nat)
    requires k < |q| && i + 1 < |q|
    ensures |Dropped(q, k)| == |q| - 1
    ensures Dropped(q, k)[i] == if i < k then q[i] else q[i + 1]
  {
  }
}
