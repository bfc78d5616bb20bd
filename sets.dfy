/** Choosing an element of a set, as iterating over a table's keys does. */
module Sets {

  /** Some member of a set that is not empty. */
  method Pick<T>(s: set<T>) returns (x: T)
    requires s != {}
    ensures x in s
  {
    x :| x in s;
  }

}
