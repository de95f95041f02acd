/** Facts about sequences that several modules share. */
module Seqs {

  lemma Associate<T>(a: seq<T>, b: seq<T>, c: seq<T>)
    ensures a + b + c == a + (b + c)
  {
  }

  /** The pieces of a prefix of b, followed by x. */
  lemma CutTwice<T>(b: seq<T>, i: nat, j: nat, n: nat, x: seq<T>)
    requires i <= j <= n <= |b|
    ensures b[..n] + x == b[..i] + (b[i..n] + x)
    ensures (b[..n] + x)[i..] == b[i..][..j - i] + (b[j..n] + x)
    ensures (b[..n] + x)[j..] == b[j..][..n - j] + x
  {
  }
}
