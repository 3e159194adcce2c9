/** What several of the models share. */
module Basics {

  /** The unsigned machine words of the sources count modulo 2^32. */
  const WORD: nat := 0x1_0000_0000

  datatype Option<T> = None | Some(value: T)

  lemma {:induction false} SubsetSize<T>(a: set<T>, b: set<T>)
    requires a <= b
    ensures |a| <= |b|
  {
    if a != {} {
      var x :| x in a;
      SubsetSize(a - {x}, b - {x});
    }
  }
}
