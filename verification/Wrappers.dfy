/** Small types that several modules share. */
module Wrappers {
  datatype Option<T> = None | Some(value: T)

  type byte = x: int | 0 <= x < 256
}

/** A way to keep a definition out of proofs that do not need it: the body of a predicate is put
    under a quantifier over Peek, or over Used for blocks of bytes, which is true of everything but
    is used only where it is named. */
module Hiding {
  ghost predicate Peek(i: nat) { true }

  ghost predicate Used(s: seq<bv8>) { true }
}

/** Numbers written in decimal digits. */
module Decimals {
  predicate IsDigits(s: string) {
    forall i :: 0 <= i < |s| ==> '0' <= s[i] <= '9'
  }

  predicate IsDecimalInteger(s: string) {
    s != "" && IsDigits(s)
  }

  // A number written without leading zeros.
  function Decimal(n: nat): (s: string)
    ensures IsDecimalInteger(s)
  {
    var digit := ["0123456789"[n % 10]];
    if n < 10 then digit else Decimal(n / 10) + digit
  }
}
