/** Machine integer widths and the failure-carrying datatypes shared by every
    other module of the crash-dump model. */
module Common {

  /** Unsigned integers of the widths the dump formats use. */
  type u8 = x: int | 0 <= x < 0x100
  type u16 = x: int | 0 <= x < 0x1_0000
  type u32 = x: int | 0 <= x < 0x1_0000_0000
  type u64 = x: int | 0 <= x < 0x1_0000_0000_0000_0000

  /** A value that may be absent (Rust `Option`, Python `None`). */
  datatype Option<+T> = None | Some(value: T) {
    function GetOr(default: T): T {
      match this
      case Some(v) => v
      case None => default
    }
  }

  /** A success value or a typed error (Rust `Result`, a raised Python exception). */
  datatype Result<+R, +E> = Success(value: R) | Failure(error: E) {
    predicate IsFailure() {
      Failure?
    }

    function PropagateFailure<U>(): Result<U, E>
      requires Failure?
    {
      Failure(error)
    }

    function Extract(): R
      requires Success?
    {
      value
    }
  }

  /** Position of the first entry whose key (first component) is `key`, or
      |entries| when there is none: Rust's `iter().find(|e| e.0 == key)`. */
  function FindKey<K(==), V>(entries: seq<(K, V)>, key: K): (k: nat)
    ensures k <= |entries|
    ensures k < |entries| ==> entries[k].0 == key
    ensures forall j :: 0 <= j < k ==> entries[j].0 != key
  {
    if |entries| == 0 then 0
    else if entries[0].0 == key then 0
    else 1 + FindKey(entries[1..], key)
  }

  /** A key present at some position is found at or before it. */
  lemma FindKeyFound<K, V>(entries: seq<(K, V)>, key: K, j: nat)
    requires j < |entries| && entries[j].0 == key
    ensures FindKey(entries, key) <= j
  {
  }
}
