/** Definitions and facts that several modules use. */
module Common {
  datatype Option<+T> = None | Some(value: T) {
    predicate IsFailure() { None? }
    function PropagateFailure<U>(): Option<U>
      requires None?
    {
      None
    }
    function Extract(): T
      requires Some?
    {
      value
    }
  }

  lemma Assoc<T>(a: seq<T>, b: seq<T>, c: seq<T>)
    ensures (a + b) + c == a + (b + c)
  {
  }

  /** A non-zero multiple of `n` is at least `n` away from zero. */
  lemma MultipleOutOfRange(x: int, n: nat)
    ensures x >= 1 ==> x * n >= n
    ensures x <= -1 ==> x * n <= 0 - n
  {
  }
}
