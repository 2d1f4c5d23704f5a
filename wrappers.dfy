/** The optional value shared by all modules (Python's None and JavaScript's null/undefined), and
    the first-match scan the Python code writes as `next(x for x in xs if p(x))`. */
module Wrappers {
  datatype Option<T> = None | Some(value: T) {
    function GetOr(default: T): T {
      if Some? then value else default
    }
  }

  /** The position of the first element at or after `i` that satisfies `p`; |xs| when there is none. */
  function FirstWhere<T>(xs: seq<T>, p: T -> bool, i: nat): (r: nat)
    requires i <= |xs|
    ensures i <= r <= |xs|
    ensures r < |xs| ==> p(xs[r])
    ensures forall j :: i <= j < r ==> !p(xs[j])
    decreases |xs| - i
  {
    if i == |xs| || p(xs[i]) then i else FirstWhere(xs, p, i + 1)
  }
}
