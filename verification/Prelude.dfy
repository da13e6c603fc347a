/** The result types and the reading of runs that the models below share. */
module Prelude {

  datatype Option<+T> = None | Some(value: T) {
    function GetOr(default: T): T {
      if Some? then value else default
    }
  }

  datatype Result<+T, +E> = Ok(value: T) | Err(error: E)

  /** A run without its last step, and that step. */
  function Init<T>(run: seq<T>): seq<T>
    requires run != []
  {
    run[..|run| - 1]
  }

  function Last<T>(run: seq<T>): T
    requires run != []
  {
    run[|run| - 1]
  }

  lemma {:induction false} BoundOf(ids: set<nat>) returns (bound: nat)
    ensures forall i :: i in ids ==> i < bound
    decreases |ids|
  {
    if ids == {} {
      bound := 0;
    } else {
      var i :| i in ids;
      var rest := BoundOf(ids - {i});
      bound := if i < rest then rest else i + 1;
      forall j | j in ids ensures j < bound {
        assert j == i || j in ids - {i};
      }
    }
  }

  lemma SubsetIsSmaller<T>(a: set<T>, b: set<T>)
    requires a <= b
    ensures |a| <= |b|
  {
    assert b == a + (b - a);
  }
}
