/** Small datatypes shared by the models. */
module Common {
  datatype Option<+T> = None | Some(value: T)

  datatype Result<+T> = Ok(value: T) | Err

  /** Which calls into the host fail, by their number. */
  type Failures = nat -> bool

  ghost predicate FailsOnceAtMost(fails: Failures) {
    forall m: nat, n: nat :: fails(m) && fails(n) ==> m == n
  }

  ghost predicate Fails(fails: Failures) {
    exists n: nat :: fails(n)
  }
}
