/** Values shared by every component of the model. */
module Basics {

  /** A nullable column or an optional argument. */
  datatype Option<+T> = None | Some(value: T)

  /** A write that either happened or was refused with the error code the client gets. */
  datatype Result<+T, +E> = Ok(value: T) | Err(error: E)

  function Min(a: int, b: int): (m: int)
    ensures m <= a && m <= b && (m == a || m == b)
  {
    if a < b then a else b
  }

  function Max(a: int, b: int): (m: int)
    ensures a <= m && b <= m && (m == a || m == b)
  {
    if a < b then b else a
  }

  /** A loop that takes one element after another. */
  lemma OneFewerLeft<T>(all: set<T>, todo: set<T>, x: T)
    requires x in todo && todo <= all
    ensures all - (todo - {x}) == all - todo + {x}
  {
  }

  ghost function Pick(ids: set<nat>): (id: nat)
    requires ids != {}
    ensures id in ids
  {
    var id :| id in ids;
    id
  }

  lemma AboveAll(ids: set<nat>) returns (above: nat)
    ensures above !in ids && forall id :: id in ids ==> id < above
    decreases |ids|
  {
    if ids == {} {
      above := 0;
    } else {
      var x := Pick(ids);
      above := AboveAll(ids - {x});
      forall id | id in ids && id != x ensures id < above {
        assert id in ids - {x};
      }
      above := Max(above, x + 1);
    }
  }

  lemma {:induction false} SubsetIsNoLarger(a: set<nat>, b: set<nat>)
    requires a <= b
    ensures |a| <= |b|
  {
    if a != {} {
      SubsetIsNoLarger(a - {Pick(a)}, b - {Pick(a)});
    }
  }
}
