/** The bitset the dump and the merge mark repeated rows in, 64 rows a word. A
    word is the set of its bits that are 1: `|= 1 << k` adds k, `& (1 << k)`
    tests it. */
module Bitset {

  type Word = set<nat>

  /** How many words n rows take. */
  function Words(n: nat): (w: nat)
    ensures n <= 64 * w < n + 64
  {
    (n + 63) / 64
  }

  predicate Bit(words: seq<Word>, i: nat)
    requires i < 64 * |words|
  {
    i % 64 in words[i / 64]
  }

  /** words with row i's bit set: that row's alone changes. */
  function WithBit(words: seq<Word>, i: nat): (w: seq<Word>)
    requires i < 64 * |words|
    ensures |w| == |words|
    ensures forall j: nat :: j < 64 * |words| ==> (Bit(w, j) <==> j == i || Bit(words, j))
  {
    words[i / 64 := words[i / 64] + {i % 64}]
  }
}
