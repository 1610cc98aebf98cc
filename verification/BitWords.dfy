// Bitmap words as sequences of their bits, the lowest first.
module BitWords {

  const WORD_BITS: nat := 64

  type Word = w: seq<bool> | |w| == WORD_BITS witness seq(WORD_BITS, _ => false)

  function ZeroWord(): Word {
    seq(WORD_BITS, _ => false)
  }

  function Bit(masks: seq<Word>, i: nat): bool
    requires i < WORD_BITS * |masks|
  {
    masks[i / WORD_BITS][i % WORD_BITS]
  }

  function Ones(w: seq<bool>): nat {
    if w == [] then 0 else (if w[|w| - 1] then 1 else 0) + Ones(w[..|w| - 1])
  }

  lemma BitsOfWord(masks: seq<Word>, word: nat)
    requires word < |masks|
    ensures forall i :: WORD_BITS * word <= i < WORD_BITS * (word + 1) ==>
              Bit(masks, i) == masks[word][i - WORD_BITS * word]
  {
  }
}
