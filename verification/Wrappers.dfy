/** Stock types and facts shared by the other modules. */
module Wrappers {
  datatype Option<+T> = None | Some(value: T)

  lemma Member<T>(s: set<T>) returns (t: T)
    requires s != {}
    ensures t in s
  {
    t :| t in s;
  }
}
