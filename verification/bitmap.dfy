/** The 256-bit stream-ID bitmap kept in four 64-bit words. */
module Bitmap {
  import opened Prelude

  type StreamId = id: int | 0 <= id < 256

  // ------------------------------------- the bit operators of unsigned words

  function And(a: nat, b: nat): nat {
    if a == 0 || b == 0 then 0
    else 2 * And(a / 2, b / 2) + if a % 2 == 1 && b % 2 == 1 then 1 else 0
  }

  function Or(a: nat, b: nat): nat
    decreases a + b
  {
    if a == 0 then b else if b == 0 then a
    else 2 * Or(a / 2, b / 2) + if a % 2 == 1 || b % 2 == 1 then 1 else 0
  }

  /** a &^ b */
  function AndNot(a: nat, b: nat): nat {
    if a == 0 then 0
    else 2 * AndNot(a / 2, b / 2) + if a % 2 == 1 && b % 2 == 0 then 1 else 0
  }

  /** The n-th binary digit, the lowest one being digit 0. */
  predicate Digit(a: nat, n: nat) {
    if n == 0 then a % 2 == 1 else Digit(a / 2, n - 1)
  }

  lemma {:induction false} DigitOfZero(n: nat)
    ensures !Digit(0, n)
  {
    if n > 0 { DigitOfZero(n - 1); }
  }

  lemma {:induction false} DigitOfPow2(k: nat, n: nat)
    ensures Digit(Pow2(k), n) <==> k == n
  {
    if k == 0 {
      if n > 0 { DigitOfZero(n - 1); }
    } else if n > 0 {
      DigitOfPow2(k - 1, n - 1);
    }
  }

  lemma {:induction false} DigitOfOr(a: nat, b: nat, n: nat)
    ensures Digit(Or(a, b), n) <==> Digit(a, n) || Digit(b, n)
    decreases n
  {
    DigitOfZero(n);
    if a != 0 && b != 0 && n > 0 {
      DigitOfOr(a / 2, b / 2, n - 1);
    }
  }

  lemma {:induction false} DigitOfAndNot(a: nat, b: nat, n: nat)
    ensures Digit(AndNot(a, b), n) <==> Digit(a, n) && !Digit(b, n)
    decreases n
  {
    DigitOfZero(n);
    if a != 0 && n > 0 {
      DigitOfAndNot(a / 2, b / 2, n - 1);
    }
  }

  lemma {:induction false} AndPow2(a: nat, k: nat)
    ensures And(a, Pow2(k)) == if Digit(a, k) then Pow2(k) else 0
    decreases k
  {
    DigitOfZero(k);
    if a != 0 && k > 0 {
      AndPow2(a / 2, k - 1);
    } else if a != 0 {
      assert And(a / 2, 0) == 0;
    }
  }

  lemma {:induction false} OrWidth(a: nat, b: nat, k: nat)
    requires a < Pow2(k) && b < Pow2(k)
    ensures Or(a, b) < Pow2(k)
  {
    if a != 0 && b != 0 {
      OrWidth(a / 2, b / 2, k - 1);
    }
  }

  lemma {:induction false} AndNotShrinks(a: nat, b: nat)
    ensures AndNot(a, b) <= a
  {
    if a != 0 { AndNotShrinks(a / 2, b / 2); }
  }

  lemma {:induction false} Pow2Grows(m: nat, n: nat)
    requires m < n
    ensures Pow2(m) < Pow2(n)
  {
    if m < n - 1 { Pow2Grows(m, n - 1); }
  }

  // ------------------------------------------------------------- four words

  type Words = words: seq<nat> | |words| == 4 witness [0, 0, 0, 0]

  const EMPTY: Words := [0, 0, 0, 0]

  predicate IsBitSet(words: Words, id: StreamId) {
    And(words[id / 64], Pow2(id % 64)) != 0
  }

  function SetBit(words: Words, id: StreamId): Words {
    words[id / 64 := Or(words[id / 64], Pow2(id % 64))]
  }

  function ClearBit(words: Words, id: StreamId): Words {
    words[id / 64 := AndNot(words[id / 64], Pow2(id % 64))]
  }

  /** Setting a bit adds exactly that ID to the set the words stand for. */
  lemma SetBitAddsOne(words: Words, id: StreamId, other: StreamId)
    ensures IsBitSet(SetBit(words, id), other) <==> id == other || IsBitSet(words, other)
  {
    var word, mask := words[id / 64], Pow2(id % 64);
    if id / 64 == other / 64 {
      AndPow2(Or(word, mask), other % 64);
      AndPow2(word, other % 64);
      DigitOfOr(word, mask, other % 64);
      DigitOfPow2(id % 64, other % 64);
    }
  }

  /** Clearing a bit removes exactly that ID. */
  lemma ClearBitRemovesOne(words: Words, id: StreamId, other: StreamId)
    ensures IsBitSet(ClearBit(words, id), other) <==> id != other && IsBitSet(words, other)
  {
    var word, mask := words[id / 64], Pow2(id % 64);
    if id / 64 == other / 64 {
      AndPow2(AndNot(word, mask), other % 64);
      AndPow2(word, other % 64);
      DigitOfAndNot(word, mask, other % 64);
      DigitOfPow2(id % 64, other % 64);
    }
  }

  const WORD_RANGE := 0x1_0000_0000_0000_0000

  lemma WordHas64Bits()
    ensures Pow2(64) == WORD_RANGE
  {
    hide Pow2;
    Pow2One();
    Pow2Twice(1, 2); Pow2Twice(2, 4); Pow2Twice(4, 16); Pow2Twice(8, 256); Pow2Twice(16, 65536);
    Pow2Twice(32, 4294967296);
  }

  lemma Pow2One()
    ensures Pow2(1) == 2
  {
  }

  lemma Pow2Twice(k: nat, v: nat)
    requires Pow2(k) == v
    ensures Pow2(2 * k) == v * v
  {
    hide Pow2;
    Pow2Add(k, k);
  }

  lemma {:induction false} Pow2Add(m: nat, n: nat)
    ensures Pow2(m + n) == Pow2(m) * Pow2(n)
  {
    if n > 0 {
      hide Pow2;
      Pow2Add(m, n - 1);
      Pow2Next(m + n - 1);
      Pow2Next(n - 1);
      TwiceRight(Pow2(m), Pow2(n - 1));
    }
  }

  lemma Pow2Next(k: nat)
    ensures Pow2(k + 1) == 2 * Pow2(k)
  {
  }

  lemma TwiceRight(x: int, y: int)
    ensures x * (2 * y) == 2 * (x * y)
  {
  }

  /** The words fit in 64 bits each, and their bits are exactly the set `ids`. */
  ghost predicate Represents(words: Words, ids: set<StreamId>) {
    && (forall i :: 0 <= i < 4 ==> words[i] < WORD_RANGE)
    && (forall id: StreamId {:trigger IsBitSet(words, id)} :: IsBitSet(words, id) <==> id in ids)
  }

  lemma SetBitRefinesInsert(words: Words, ids: set<StreamId>, id: StreamId)
    requires Represents(words, ids)
    ensures Represents(SetBit(words, id), ids + {id})
  {
    forall other: StreamId ensures IsBitSet(SetBit(words, id), other) <==> other in ids + {id} {
      SetBitAddsOne(words, id, other);
    }
    WordHas64Bits();
    Pow2Grows(id % 64, 64);
    OrWidth(words[id / 64], Pow2(id % 64), 64);
  }

  lemma ClearBitRefinesRemove(words: Words, ids: set<StreamId>, id: StreamId)
    requires Represents(words, ids)
    ensures Represents(ClearBit(words, id), ids - {id})
  {
    forall other: StreamId ensures IsBitSet(ClearBit(words, id), other) <==> other in ids - {id} {
      ClearBitRemovesOne(words, id, other);
    }
    AndNotShrinks(words[id / 64], Pow2(id % 64));
  }

  lemma EmptyRefinesEmpty()
    ensures Represents(EMPTY, {})
  {
    forall id: StreamId ensures !IsBitSet(EMPTY, id) {
      assert EMPTY[id / 64] == 0;
    }
  }
}
