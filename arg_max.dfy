/** The index of the largest element of an output tensor, as both MaxOutputNode
    variants compute it with `tensor.iter().enumerate().max_by(total_cmp)`.
    Tensor elements are modelled as reals under their usual order. */
module ArgMax {
  import opened Flow

  /** i is the last position of a largest element of t. */
  ghost predicate IsLastMax(t: seq<real>, i: int) {
    && 0 <= i < |t|
    && (forall j :: 0 <= j < |t| ==> t[j] <= t[i])
    && (forall j :: i < j < |t| ==> t[j] < t[i])
  }

  /** `Iterator::max_by` is a left fold that keeps the later element whenever the
      comparison says "less or equal"; so the candidate is replaced by each
      element that is at least as large as it. None for an empty tensor. */
  function MaxBy(t: seq<real>): (r: Option<nat>)
    ensures r.None? <==> t == []
    ensures r.Some? ==> IsLastMax(t, r.value)
    decreases |t|
  {
    if t == [] then None
    else
      var last := |t| - 1;
      match MaxBy(t[..last])
      case None => Some(last)
      case Some(best) => if t[best] <= t[last] then Some(last) else Some(best)
  }

  /** At most one position is the last maximum, so MaxBy's result is determined
      by its specification. */
  lemma LastMaxIsUnique(t: seq<real>, i: int, k: int)
    requires IsLastMax(t, i) && IsLastMax(t, k)
    ensures i == k
  {
    assert t[i] == t[k];
  }
}
