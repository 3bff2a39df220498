/** Value wrappers shared by the whole model, and the notion of a selection:
    one sequence obtained from another by keeping some of its elements, in order. */
module Prelude {

  /** A JavaScript value that may be `null` or `undefined` (None). */
  datatype Option<+T> = None | Some(value: T)

  /** The outcome of an expression that may throw: the thrown error's message in `Err`. */
  datatype Result<+T> = Ok(value: T) | Err(message: string)

  /** `r` is the subsequence of `s` at the strictly increasing positions `idx`. */
  ghost predicate SelectedBy<T>(r: seq<T>, s: seq<T>, idx: seq<int>)
  {
    && |idx| == |r|
    && (forall k :: 0 <= k < |idx| ==> 0 <= idx[k] < |s| && r[k] == s[idx[k]])
    && (forall k, l :: 0 <= k < l < |idx| ==> idx[k] < idx[l])
  }

  /** A selection from a prefix of `s` is a selection from `s`, and it
      extends by the element that follows the prefix. */
  lemma SelectedBySnoc<T>(r: seq<T>, s: seq<T>, idx: seq<int>, n: int)
    requires 0 <= n < |s| && SelectedBy(r, s[..n], idx)
    ensures SelectedBy(r, s, idx)
    ensures SelectedBy(r + [s[n]], s, idx + [n])
    ensures forall k :: 0 <= k < |idx| ==> idx[k] < n
  {
    var idx' := idx + [n];
    assert forall k :: 0 <= k < |idx| ==> idx'[k] == idx[k] && s[..n][idx[k]] == s[idx[k]];
  }
}
