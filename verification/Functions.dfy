/** What is asked of the hash functions and codecs that the model takes as parameters. */
module Functions {

  ghost predicate IsInjective<A(!new), B(!new)>(f: A -> B) {
    forall x, y :: f(x) == f(y) ==> x == y
  }
}
