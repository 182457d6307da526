/** The optional value used for SQL NULL and for lookups that may find nothing. */
module Wrappers {
  datatype Option<+T> = None | Some(value: T)

  lemma SomeMember<T>(s: set<T>) returns (x: T)
    requires |s| > 0
    ensures x in s
  {
    x :| x in s;
  }
}
