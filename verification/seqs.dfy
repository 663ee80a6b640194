/** Small facts about gluing sequences together that the longer proofs
    lean on. */
module Seqs {

  lemma Associate<T>(a: seq<T>, b: seq<T>, c: seq<T>)
    ensures a + (b + c) == (a + b) + c
  {
  }

  lemma ConsAppend<T>(x: T, a: seq<T>, b: seq<T>)
    ensures ([x] + a) + b == [x] + (a + b)
  {
  }

  lemma TakeSnoc<T>(s: seq<T>, i: nat)
    requires i < |s|
    ensures s[..i + 1] == s[..i] + [s[i]]
  {
  }

  lemma IndexAfter<T>(a: seq<T>, b: seq<T>, n: nat)
    requires n < |b|
    ensures |a| + n < |a + b| && (a + b)[|a| + n] == b[n]
  {
  }
}
