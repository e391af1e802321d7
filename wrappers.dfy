/** Small general-purpose definitions shared by the other modules. */
module Wrappers {

  /** An optional value, used where the modelled code can produce no value. */
  datatype Option<+T> = None | Some(value: T)

  /** Names an element of a nonempty set, so that a `:|` choice over it can be shown to exist. */
  lemma ElementOf<T>(s: set<T>) returns (x: T)
    requires s != {}
    ensures x in s
  {
    x :| x in s;
  }

  /** The one element of a set of size one. */
  lemma SingletonElement<T>(s: set<T>)
    requires |s| == 1
    ensures exists x :: s == {x}
  {
    var x :| x in s;
    assert |s - {x}| == 0;
  }
}
