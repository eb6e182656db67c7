/**
 * `WordList`: packs many small unsigned values ("nibbles" of a fixed bit
 * width) side by side into `usize` machine words. Nibble `i` lives in word
 * `i / nibbles_num`, at bit position `(i % nibbles_num) * nibbles_size`.
 *
 * A 64-bit `usize` is modelled as its 64 bits, least significant first, so
 * that the source's `&`, `|`, `!`, `<<` and `>>` are the bitwise operations
 * they are on the machine; `ToNat` gives the number a word stands for.
 */
module Words {

  const WORD_BITS: nat := 64

  /** A 64-bit `usize`; bit `i` has weight `2^i`. */
  type Word = w: seq<bool> | |w| == WORD_BITS witness seq(WORD_BITS, _ => false)

  function Pow2(k: nat): (p: nat)
    ensures p >= 1
  {
    if k == 0 then 1 else 2 * Pow2(k - 1)
  }

  /** The number a bit sequence stands for, least significant bit first. */
  function ToNat(s: seq<bool>): (v: nat)
    ensures v < Pow2(|s|)
  {
    if |s| == 0 then 0 else (if s[0] then 1 else 0) + 2 * ToNat(s[1..])
  }

  /** The low `len` bits of `v`. */
  function FromNat(v: nat, len: nat): (s: seq<bool>)
    ensures |s| == len
  {
    if len == 0 then [] else [v % 2 == 1] + FromNat(v / 2, len - 1)
  }

  /** A `usize` holding `v`, wrapped to 64 bits as `as usize` does. */
  function WordOf(v: nat): Word
  {
    FromNat(v, WORD_BITS)
  }

  function And(a: Word, b: Word): (r: Word)
  {
    seq(WORD_BITS, i requires 0 <= i < WORD_BITS => a[i] && b[i])
  }

  function Or(a: Word, b: Word): (r: Word)
  {
    seq(WORD_BITS, i requires 0 <= i < WORD_BITS => a[i] || b[i])
  }

  function Not(a: Word): (r: Word)
  {
    seq(WORD_BITS, i requires 0 <= i < WORD_BITS => !a[i])
  }

  /** `a << k`; shifting by the word width or more is an overflow panic in the source. */
  function Shl(a: Word, k: nat): (r: Word)
    requires k < WORD_BITS
  {
    seq(WORD_BITS, i requires 0 <= i < WORD_BITS => k <= i && a[i - k])
  }

  /** `a >> k`, a logical shift. */
  function Shr(a: Word, k: nat): (r: Word)
    requires k < WORD_BITS
  {
    seq(WORD_BITS, i requires 0 <= i < WORD_BITS => i + k < WORD_BITS && a[i + k])
  }

  /** How a word is cut up: its width, how many nibbles it holds and how wide each is. */
  datatype WordSize = WordSize(wordSize: nat, nibblesNum: nat, nibblesSize: nat)

  /**
   * A size built the way the creation macro builds it: the nibble count is
   * `nibbles_in_word` of the word and nibble widths, at least one nibble
   * fits, and the word is no wider than a `usize`.
   */
  predicate ValidSize(size: WordSize)
  {
    0 < size.nibblesSize && size.wordSize <= WORD_BITS &&
    size.nibblesNum == size.wordSize / size.nibblesSize && 0 < size.nibblesNum
  }

  /** How many whole nibbles fit in a word (rounded down). */
  function NibblesInWord(wordSize: nat, nibsSize: nat): (n: nat)
    requires nibsSize > 0
    ensures n * nibsSize <= wordSize < (n + 1) * nibsSize
  {
    wordSize / nibsSize
  }

  /** How many words are needed for `nibsNum` nibbles (rounded up). */
  function ArraySize(wordSize: nat, nibsSize: nat, nibsNum: nat): (words: nat)
    requires nibsSize > 0 && NibblesInWord(wordSize, nibsSize) > 0
    ensures var n := NibblesInWord(wordSize, nibsSize);
      nibsNum <= words * n && (words == 0 || (words - 1) * n < nibsNum)
  {
    var n := NibblesInWord(wordSize, nibsSize);
    (nibsNum + n - 1) / n
  }

  /**
   * The `n` lowest bits set: `(1 << n) - 1` below the word width, `usize::MAX`
   * from there on. On bits, both are "bit i is set iff i < n".
   */
  function FirstNBits(n: nat): (r: Word)
    ensures forall i :: 0 <= i < WORD_BITS ==> (r[i] <==> i < n)
  {
    seq(WORD_BITS, i requires 0 <= i < WORD_BITS => i < n)
  }

  /** `(1 << n) - 1` when `n` is below the word width, `usize::MAX` otherwise. */
  lemma FirstNBitsValue(n: nat)
    ensures ToNat(FirstNBits(n)) == if n < WORD_BITS then Pow2(n) - 1 else Pow2(WORD_BITS) - 1
  {
    LowOnesValue(FirstNBits(n), if n < WORD_BITS then n else WORD_BITS);
  }

  /** A sequence whose first `k` bits are set and the rest clear stands for `2^k - 1`. */
  lemma {:induction false} LowOnesValue(s: seq<bool>, k: nat)
    requires k <= |s|
    requires forall i :: 0 <= i < |s| ==> (s[i] <==> i < k)
    ensures ToNat(s) == Pow2(k) - 1
  {
    if |s| > 0 {
      if k > 0 {
        LowOnesValue(s[1..], k - 1);
      } else {
        LowOnesValue(s[1..], 0);
      }
    }
  }

  /** The `n`-bit field at bit `pos` of `word`, moved down to bit 0. */
  function GetField(word: Word, pos: nat, n: nat): (v: Word)
    requires pos < WORD_BITS
    ensures forall i :: n <= i < WORD_BITS ==> !v[i]
  {
    And(Shr(word, pos), FirstNBits(n))
  }

  /** `word` with its `n`-bit field at `pos` cleared and then filled with the low bits of `value`. */
  function SetField(word: Word, pos: nat, n: nat, value: Word): Word
    requires pos < WORD_BITS
  {
    var bits := FirstNBits(n);
    Or(And(word, Not(Shl(bits, pos))), Shl(And(value, bits), pos))
  }

  /** The nibble at `index` of `word`, moved down to bit 0. */
  function WordGet(word: Word, index: nat, size: WordSize): (v: Word)
    requires ValidSize(size) && index < size.nibblesNum
    ensures forall i :: size.nibblesSize <= i < WORD_BITS ==> !v[i]
  {
    NibbleBound(index, size);
    GetField(word, index * size.nibblesSize, size.nibblesSize)
  }

  /** `word` with its nibble at `index` replaced by the low bits of `value`. */
  function WordSet(word: Word, index: nat, size: WordSize, value: Word): Word
    requires ValidSize(size) && index < size.nibblesNum
  {
    NibbleBound(index, size);
    SetField(word, index * size.nibblesSize, size.nibblesSize, value)
  }

  /** Every nibble ends inside the word, so no shift reaches the word width. */
  lemma NibbleBound(index: nat, size: WordSize)
    requires ValidSize(size) && index < size.nibblesNum
    ensures index * size.nibblesSize + size.nibblesSize <= WORD_BITS
  {
    var n := size.nibblesSize;
    assert size.nibblesNum * n <= size.wordSize;
    assert (index + 1) * n <= size.nibblesNum * n;
  }

  /** Reading the nibble just written gives back the written value, cut to the nibble width. */
  lemma WordGetSet(word: Word, index: nat, size: WordSize, value: Word)
    requires ValidSize(size) && index < size.nibblesNum
    ensures WordGet(WordSet(word, index, size, value), index, size) == And(value, FirstNBits(size.nibblesSize))
  {
    NibbleBound(index, size);
    FieldGetSet(word, index * size.nibblesSize, size.nibblesSize, value);
  }

  /** Writing one nibble leaves every other nibble of the word as it was. */
  lemma WordSetOther(word: Word, index: nat, other: nat, size: WordSize, value: Word)
    requires ValidSize(size) && index < size.nibblesNum && other < size.nibblesNum && other != index
    ensures WordGet(WordSet(word, index, size, value), other, size) == WordGet(word, other, size)
  {
    NibbleBound(index, size);
    NibbleBound(other, size);
    var n := size.nibblesSize;
    if other < index {
      SlotsApart(other, index, n);
    } else {
      SlotsApart(index, other, n);
    }
    FieldSetOther(word, index * n, other * n, n, value);
  }

  /** Nibble slots `lo < hi` of width `n` do not overlap. */
  lemma SlotsApart(lo: nat, hi: nat, n: nat)
    requires lo < hi
    ensures lo * n + n <= hi * n
  {
    var d := hi - lo - 1;
    assert hi * n == lo * n + n + d * n;
    assert 0 <= d * n;
  }

  lemma FieldGetSet(word: Word, pos: nat, n: nat, value: Word)
    requires pos + n <= WORD_BITS && pos < WORD_BITS
    ensures GetField(SetField(word, pos, n, value), pos, n) == And(value, FirstNBits(n))
  {
    var got := GetField(SetField(word, pos, n, value), pos, n);
    var want := And(value, FirstNBits(n));
    forall i | 0 <= i < WORD_BITS ensures got[i] == want[i] {
    }
  }

  lemma FieldSetOther(word: Word, pos: nat, other: nat, n: nat, value: Word)
    requires pos + n <= WORD_BITS && other + n <= WORD_BITS && pos < WORD_BITS && other < WORD_BITS
    requires pos + n <= other || other + n <= pos
    ensures GetField(SetField(word, pos, n, value), other, n) == GetField(word, other, n)
  {
    var got := GetField(SetField(word, pos, n, value), other, n);
    var want := GetField(word, other, n);
    forall i | 0 <= i < WORD_BITS ensures got[i] == want[i] {
    }
  }

  /** The number held in the low `n` bits of `WordOf(v)` is `v` modulo `2^n`. */
  lemma NibbleValue(v: nat, n: nat)
    requires n <= WORD_BITS
    ensures ToNat(And(WordOf(v), FirstNBits(n))) == v % Pow2(n)
  {
    LowBitsValue(WordOf(v), And(WordOf(v), FirstNBits(n)), n);
    FromNatPrefix(v, WORD_BITS, n);
    ToNatFromNat(v, n);
  }

  /** Clearing every bit from `n` up keeps the value of the low `n` bits. */
  lemma {:induction false} LowBitsValue(s: seq<bool>, t: seq<bool>, n: nat)
    requires n <= |s| == |t|
    requires forall i :: 0 <= i < |s| ==> (t[i] <==> s[i] && i < n)
    ensures ToNat(t) == ToNat(s[..n])
  {
    if n == 0 {
      ZeroValue(t);
    } else {
      LowBitsValue(s[1..], t[1..], n - 1);
      assert s[..n][1..] == s[1..][..n - 1];
    }
  }

  lemma {:induction false} ZeroValue(t: seq<bool>)
    requires forall i :: 0 <= i < |t| ==> !t[i]
    ensures ToNat(t) == 0
  {
    if |t| > 0 {
      ZeroValue(t[1..]);
    }
  }

  lemma {:induction false} FromNatPrefix(v: nat, len: nat, n: nat)
    requires n <= len
    ensures FromNat(v, len)[..n] == FromNat(v, n)
  {
    if n > 0 {
      FromNatPrefix(v / 2, len - 1, n - 1);
    }
  }

  /** Reading back the low bits of `v` gives `v` modulo the matching power of two. */
  lemma {:induction false} ToNatFromNat(v: nat, len: nat)
    ensures ToNat(FromNat(v, len)) == v % Pow2(len)
  {
    if len > 0 {
      ToNatFromNat(v / 2, len - 1);
      var s := FromNat(v, len);
      assert s[1..] == FromNat(v / 2, len - 1);
      ModTwice(v, Pow2(len - 1));
    }
  }

  /** `v mod 2p` from its lowest bit and `(v / 2) mod p`. */
  lemma ModTwice(v: nat, p: nat)
    requires p >= 1
    ensures v % (2 * p) == v % 2 + 2 * ((v / 2) % p)
  {
    var q := (v / 2) / p;
    var r := (v / 2) % p;
    assert v / 2 == q * p + r;
    assert v == 2 * (v / 2) + v % 2;
    assert q * (2 * p) == 2 * (q * p);
    ModUnique(v, 2 * p, q, 2 * r + v % 2);
  }

  /** Division with remainder has only one answer. */
  lemma ModUnique(x: int, m: int, k: int, r: int)
    requires m > 0 && 0 <= r < m && x == k * m + r
    ensures x % m == r
  {
    var q := x / m;
    var d := k - q;
    assert x == q * m + x % m;
    assert d * m == k * m - q * m;
    assert d * m == x % m - r;
    if d >= 1 {
      MulAtLeast(d, m);
      assert false;
    } else if d <= -1 {
      MulAtLeast(-d, m);
      assert false;
    }
  }

  lemma MulAtLeast(d: int, m: int)
    requires d >= 1 && m > 0
    ensures d * m >= m
  {
    assert d * m == (d - 1) * m + m;
    assert (d - 1) * m >= 0;
  }

  /** The packed list: nibble `i` is stored in `words[i / nibblesNum]`. */
  class WordList {
    var words: array<Word>
    var size: WordSize

    ghost predicate Valid()
      reads this
    {
      ValidSize(size)
    }

    /** How many nibbles the backing array can hold. */
    function Capacity(): (n: nat)
      reads this
      requires Valid()
      ensures n == words.Length * size.nibblesNum
    {
      words.Length * size.nibblesNum
    }

    /** The creation macro: enough zeroed words for `nibsNum` nibbles of `nibsSize` bits. */
    constructor (wordSize: nat, nibsSize: nat, nibsNum: nat)
      requires 0 < nibsSize && wordSize <= WORD_BITS && NibblesInWord(wordSize, nibsSize) > 0
      ensures Valid() && fresh(words)
      ensures size == WordSize(wordSize, NibblesInWord(wordSize, nibsSize), nibsSize)
      ensures words.Length == ArraySize(wordSize, nibsSize, nibsNum)
      ensures nibsNum <= Capacity()
      ensures forall i :: 0 <= i < words.Length ==> words[i] == WordOf(0)
    {
      size := WordSize(wordSize, NibblesInWord(wordSize, nibsSize), nibsSize);
      words := new Word[ArraySize(wordSize, nibsSize, nibsNum)](_ => WordOf(0));
    }

    /** The nibble at `index`, moved down to bit 0. */
    function Get(index: nat): (v: Word)
      reads this, words
      requires Valid() && index < Capacity()
      ensures forall i :: size.nibblesSize <= i < WORD_BITS ==> !v[i]
    {
      IndexBound(index, size.nibblesNum, words.Length);
      WordGet(words[WordIndex(index, size.nibblesNum)], SlotIndex(index, size.nibblesNum), size)
    }

    /**
     * Replaces the nibble at `index` with the low bits of `value`; only the
     * word holding that nibble is written.
     */
    method Set(index: nat, value: Word)
      requires Valid() && index < Capacity()
      modifies words
      ensures Valid()
      ensures forall k :: 0 <= k < words.Length && k != WordIndex(index, size.nibblesNum) ==> words[k] == old(words[k])
      ensures Get(index) == And(value, FirstNBits(size.nibblesSize))
      ensures forall j :: 0 <= j < Capacity() && j != index ==> Get(j) == old(Get(j))
    {
      IndexBound(index, size.nibblesNum, words.Length);
      var indexArr := WordIndex(index, size.nibblesNum);
      var slot := SlotIndex(index, size.nibblesNum);
      var word := words[indexArr];
      word := WordSet(word, slot, size, value);
      words[indexArr] := word;
      WordGetSet(old(words[indexArr]), slot, size, value);
      forall j | 0 <= j < Capacity() && j != index
        ensures Get(j) == old(Get(j))
      {
        IndexBound(j, size.nibblesNum, words.Length);
        if WordIndex(j, size.nibblesNum) == indexArr {
          SameWordOtherSlot(index, j, size.nibblesNum);
          WordSetOther(old(words[indexArr]), slot, SlotIndex(j, size.nibblesNum), size, value);
        }
      }
    }
  }

  /** The word that holds nibble `index` when each word holds `perWord` nibbles. */
  function WordIndex(index: nat, perWord: nat): nat
    requires 0 < perWord
  {
    index / perWord
  }

  /** The slot of nibble `index` inside its word. */
  function SlotIndex(index: nat, perWord: nat): (slot: nat)
    requires 0 < perWord
    ensures slot < perWord
  {
    index % perWord
  }

  /** The word holding a nibble in range is inside the array. */
  lemma IndexBound(index: nat, perWord: nat, words: nat)
    requires 0 < perWord && index < words * perWord
    ensures WordIndex(index, perWord) < words
  {
  }

  /** Two distinct nibbles in the same word sit in distinct slots of it. */
  lemma SameWordOtherSlot(i: nat, j: nat, perWord: nat)
    requires 0 < perWord && i != j && WordIndex(i, perWord) == WordIndex(j, perWord)
    ensures SlotIndex(i, perWord) != SlotIndex(j, perWord)
  {
  }
}
