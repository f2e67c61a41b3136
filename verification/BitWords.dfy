/** The 32-bit words a bitmap is packed into, and the sequence of bits they stand for.

    A `Word` is an unsigned 32-bit integer given by its bits, least significant first.
    The bitmap routines only ever test, set or clear one bit of a word with the mask
    `1 << n` and compare a word with 0 and with 0xFFFFFFFF.
 */
module BitWords {

  type Word = w: seq<bool> | |w| == 32 witness seq(32, i => false)

  predicate IsZero(w: Word) {
    forall j :: 0 <= j < 32 ==> !w[j]
  }

  predicate IsAllOnes(w: Word) {
    forall j :: 0 <= j < 32 ==> w[j]
  }

  const ZERO: Word := seq(32, i => false)
  const ALL_BITS_SET: Word := seq(32, i => true)

  /** `w & (1 << n)`; the shift count is taken modulo the word size. */
  function TestMask(w: Word, n: nat): bool {
    w[n % 32]
  }

  /** `w | (1 << n)` */
  function OrMask(w: Word, n: nat): Word {
    w[n % 32 := true]
  }

  /** `w & ~(1 << n)` */
  function AndNotMask(w: Word, n: nat): Word {
    w[n % 32 := false]
  }

  /** The bits of a buffer, bit 0 of word 0 first, padding bits included. */
  ghost function Raw(words: seq<Word>): (raw: seq<bool>)
    ensures |raw| == 32 * |words|
  {
    if words == [] then [] else Raw(words[..|words| - 1]) + words[|words| - 1]
  }

  /** Word `w` of the buffer holds bits `32 * w .. 32 * w + 32` of `raw`, complemented when `flip`. */
  ghost predicate WordAt(raw: seq<bool>, w: nat, word: Word, flip: bool) {
    32 * w + 32 <= |raw| && forall k :: 32 * w <= k < 32 * w + 32 ==> raw[k] == (word[k - 32 * w] != flip)
  }

  /** Bits `start .. start + n` become `v`, every other bit keeps its value. */
  ghost function Fill(raw: seq<bool>, start: nat, n: nat, v: bool): (filled: seq<bool>)
  {
    seq(|raw|, k requires 0 <= k < |raw| => if start <= k < start + n then v else raw[k])
  }

  ghost function Invert(raw: seq<bool>): (inverted: seq<bool>)
  {
    seq(|raw|, k requires 0 <= k < |raw| => !raw[k])
  }

  ghost function CountTrue(bits: seq<bool>): nat
  {
    if bits == [] then 0 else CountTrue(bits[..|bits| - 1]) + if bits[|bits| - 1] then 1 else 0
  }

  lemma {:induction false} RawWords(words: seq<Word>)
    ensures forall w :: 0 <= w < |words| ==> WordAt(Raw(words), w, words[w], false)
  {
    if words != [] {
      var front := words[..|words| - 1];
      RawWords(front);
      forall w | 0 <= w < |words| ensures WordAt(Raw(words), w, words[w], false) {
        if w < |front| {
          assert WordAt(Raw(front), w, front[w], false);
        }
      }
    }
  }

  lemma InvertedWords(words: seq<Word>)
    ensures forall w :: 0 <= w < |words| ==> WordAt(Invert(Raw(words)), w, words[w], true)
  {
    RawWords(words);
    forall w | 0 <= w < |words| ensures WordAt(Invert(Raw(words)), w, words[w], true) {
      assert WordAt(Raw(words), w, words[w], false);
    }
  }

  /** `raw` is determined by its words. */
  lemma RawDetermined(words: seq<Word>, raw: seq<bool>)
    requires |raw| == 32 * |words| && forall w :: 0 <= w < |words| ==> WordAt(raw, w, words[w], false)
    ensures Raw(words) == raw
  {
    RawWords(words);
    forall k | 0 <= k < |raw| ensures Raw(words)[k] == raw[k] {
      assert WordAt(raw, k / 32, words[k / 32], false) && WordAt(Raw(words), k / 32, words[k / 32], false);
    }
  }

  /** Complementing a buffer word by word complements its bits. */
  lemma RawComplement(words: seq<Word>, flipped: seq<Word>)
    requires |flipped| == |words|
    requires forall w, j :: 0 <= w < |words| && 0 <= j < 32 ==> flipped[w][j] == !words[w][j]
    ensures Raw(flipped) == Invert(Raw(words))
  {
    InvertedWords(words);
    forall w | 0 <= w < |words| ensures WordAt(Invert(Raw(words)), w, flipped[w], false) {
      assert WordAt(Invert(Raw(words)), w, words[w], true);
    }
    RawDetermined(flipped, Invert(Raw(words)));
  }

  /** Two buffers that differ, word by word, only inside a range differ by a `Fill` of that range. */
  lemma RawFill(before: seq<Word>, after: seq<Word>, start: nat, n: nat, v: bool)
    requires |after| == |before|
    requires forall w, j :: 0 <= w < |before| && 0 <= j < 32 ==>
               after[w][j] == if start <= 32 * w + j < start + n then v else before[w][j]
    ensures Raw(after) == Fill(Raw(before), start, n, v)
  {
    RawWords(before);
    forall w | 0 <= w < |before| ensures WordAt(Fill(Raw(before), start, n, v), w, after[w], false) {
      assert WordAt(Raw(before), w, before[w], false);
    }
    RawDetermined(after, Fill(Raw(before), start, n, v));
  }
}
