/** A bitmap in 32-bit words, as fs/fs.c keeps the free blocks and kern/env.c the ASIDs in use.
    A word is its 32 bits, lowest first. */
module Bitmaps {
  type Word32 = w: seq<bool> | |w| == 32 witness seq(32, _ => false)

  /** Bit `n`: `words[n / 32] & (1 << (n % 32))`. */
  predicate Bit(words: seq<Word32>, n: nat) {
    n / 32 < |words| && words[n / 32][n % 32]
  }

  /** `words[n / 32] |= 1 << (n % 32)`, or `&= ~(1 << (n % 32))`. */
  function Put(words: seq<Word32>, n: nat, b: bool): (r: seq<Word32>)
    requires n / 32 < |words|
    ensures |r| == |words|
    ensures forall m: nat :: Bit(r, m) <==> if m == n then b else Bit(words, m)
  {
    OtherBit(n);
    words[n / 32 := words[n / 32][n % 32 := b]]
  }

  lemma OtherBit(n: nat)
    ensures forall m: nat :: m / 32 == n / 32 && m % 32 == n % 32 ==> m == n
  {
  }
}
