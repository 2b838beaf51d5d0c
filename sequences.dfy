/** Facts about sequence concatenation that the proofs cite explicitly. */
module Sequences {
  lemma Associative<T>(a: seq<T>, b: seq<T>, c: seq<T>)
    ensures (a + b) + c == a + (b + c)
  {
  }

  /** A slice of the middle part of `h + b + f` is a slice of `b`. */
  lemma MiddleSlice<T>(h: seq<T>, b: seq<T>, f: seq<T>, i: nat, len: nat)
    requires i + len <= |b|
    ensures (h + b + f)[|h| + i..|h| + i + len] == b[i..i + len]
  {
  }

  /** `h + b + f` starts with `h` and ends with the last element of `f`. */
  lemma Ends<T>(h: seq<T>, b: seq<T>, f: seq<T>)
    requires f != []
    ensures (h + b + f)[..|h|] == h && (h + b + f)[|h + b + f| - 1] == f[|f| - 1]
  {
  }
}
