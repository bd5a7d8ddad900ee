/** Value types shared by every component of the ingestion model. */
module Common {

  /** A value that may be absent: Python's `None` against a present value. */
  datatype Option<+T> = None | Some(value: T) {

    /** The present value, or `default` when absent (`dict.get(key, default)`). */
    function GetOr(default: T): T {
      match this
      case Some(v) => v
      case None => default
    }
  }

  /** One octet of a byte string. */
  type byte = x: int | 0 <= x < 256

  /** Concatenation of a sequence of strings, like Python's `"".join(parts)`. */
  function Join(parts: seq<string>): string {
    if |parts| == 0 then "" else Join(parts[..|parts| - 1]) + parts[|parts| - 1]
  }

  /** The smaller of two integers. */
  function Min(a: int, b: int): int {
    if a <= b then a else b
  }

  /**
   * The indices of the elements of `xs` that satisfy `keep`, in increasing
   * order: the positions a list comprehension with an `if` filter keeps.
   */
  function Positions<T>(xs: seq<T>, keep: T -> bool): (pos: seq<nat>)
    ensures forall k :: 0 <= k < |pos| ==> pos[k] < |xs| && keep(xs[pos[k]])
    ensures forall k, l :: 0 <= k < l < |pos| ==> pos[k] < pos[l]
    ensures forall j :: 0 <= j < |xs| && keep(xs[j]) ==> j in pos
  {
    if |xs| == 0 then []
    else
      var init := xs[..|xs| - 1];
      var rest := Positions(init, keep);
      assert forall j :: 0 <= j < |init| ==> init[j] == xs[j];
      rest + (if keep(xs[|xs| - 1]) then [|xs| - 1] else [])
  }

  /** Sequence concatenation regroups freely. */
  lemma ConcatAssoc<T>(a: seq<T>, b: seq<T>, c: seq<T>)
    ensures a + b + c == a + (b + c)
  {
  }
}
