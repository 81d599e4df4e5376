/** Small facts about sequences, stated once so that proofs name the one they need. */
module Sequences {
  lemma {:induction false} ConcatTail<T>(a: seq<T>, b: seq<T>)
    requires a != []
    ensures (a + b)[1..] == a[1..] + b
  {
  }

  lemma {:induction false} ConcatAssociates<T>(a: seq<T>, b: seq<T>, c: seq<T>)
    ensures a + (b + c) == (a + b) + c
  {
  }

  /** Cutting out place `k` is cutting out place `k - 1` behind the first element. */
  lemma {:induction false} CutBehindFirst<T>(f: seq<T>, k: nat)
    requires 0 < k < |f|
    ensures [f[0]] + (f[1..][..k - 1] + f[1..][k..]) == f[..k] + f[k + 1..]
  {
  }

  /** Putting `x` in at place `k` is putting it in at place `k - 1` behind the first element. */
  lemma {:induction false} PutBehindFirst<T>(f: seq<T>, k: nat, x: T)
    requires 0 < k <= |f|
    ensures [f[0]] + (f[1..][..k - 1] + [x] + f[1..][k - 1..]) == f[..k] + [x] + f[k..]
  {
  }
}
