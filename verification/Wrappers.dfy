/** What the models share: the failure-carrying datatypes, and how a loop picks from a set. */
module Wrappers {
  datatype Option<+T> = None | Some(value: T)

  datatype Result<+T> = Ok(value: T) | Err(reason: string)

  lemma Inhabited<T>(s: set<T>)
    ensures s == {} <==> forall x :: x !in s
  {
    if forall x :: x !in s { assert s == {}; }
  }

  /** A non-empty set has an element to iterate over next. */
  lemma Pick<T>(s: set<T>) returns (x: T)
    requires s != {}
    ensures x in s
  {
    Inhabited(s);
    x :| x in s;
  }
}
