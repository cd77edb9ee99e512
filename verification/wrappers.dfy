/** Optional values, used wherever the Python code may raise. */
module Wrappers {

  datatype Option<+T> = None | Some(value: T)

  /**
   `f` applied to every element in order, as a loop that raises at the first
   failing element does: `None` exactly when some application fails.
   */
  function MapAll<A, B>(xs: seq<A>, f: A -> Option<B>): (r: Option<seq<B>>)
    ensures r.Some? <==> forall i :: 0 <= i < |xs| ==> f(xs[i]).Some?
    ensures r.Some? ==> |r.value| == |xs| && forall i :: 0 <= i < |xs| ==> f(xs[i]) == Some(r.value[i])
  {
    if |xs| == 0 then Some([])
    else match f(xs[0])
      case None => None
      case Some(y) =>
        match MapAll(xs[1..], f)
        case None =>
          assert exists i :: 0 <= i < |xs| && f(xs[i]).None? by {
            var i :| 0 <= i < |xs[1..]| && f(xs[1..][i]).None?;
            assert xs[1..][i] == xs[i + 1];
          }
          None
        case Some(rest) => Some([y] + rest)
  }

  /** The values of `cells` from `from` on, up to the first `None`: a loop that stops at its first failure. */
  function TakeSome<T>(cells: seq<Option<T>>, from: nat): (xs: seq<T>)
    requires from <= |cells|
    ensures from + |xs| <= |cells|
    ensures forall k :: 0 <= k < |xs| ==> cells[from + k] == Some(xs[k])
    ensures from + |xs| < |cells| ==> cells[from + |xs|].None?
    decreases |cells| - from
  {
    if from == |cells| then []
    else match cells[from]
      case None => []
      case Some(x) => [x] + TakeSome(cells, from + 1)
  }
}
