/**
 The set of operations linearized, as 64-bit words (linearize/linearize.go, bitset), and the
 set of indices those words stand for. A word is an unsigned integer below 2^64.
 */
module Bitset {

  const WORD: nat := 0x1_0000_0000_0000_0000

  type Word = w: nat | w < WORD

  type Words = seq<Word>

  function Pow2(k: nat): nat {
    if k == 0 then 1 else 2 * Pow2(k - 1)
  }

  /** `w & (1 << k) != 0`. */
  predicate Bit(w: nat, k: nat) {
    if k == 0 then w % 2 == 1 else Bit(w / 2, k - 1)
  }

  /** `w | 1 << k`. */
  function SetBit(w: nat, k: nat): nat {
    if k == 0 then w / 2 * 2 + 1 else 2 * SetBit(w / 2, k - 1) + w % 2
  }

  /** `w &^ 1 << k`. */
  function ClearBit(w: nat, k: nat): (r: nat)
    ensures r <= w
  {
    if k == 0 then w / 2 * 2 else 2 * ClearBit(w / 2, k - 1) + w % 2
  }

  function New(n: nat): Words {
    seq((n + 63) / 64, _ => 0)
  }

  predicate Has(b: Words, i: nat)
    requires i / 64 < |b|
  {
    Bit(b[i / 64], i % 64)
  }

  function Set(b: Words, i: nat): (r: Words)
    requires i / 64 < |b|
    ensures |r| == |b|
  {
    SetFits(b[i / 64], i % 64);
    b[i / 64 := SetBit(b[i / 64], i % 64)]
  }

  function Clear(b: Words, i: nat): Words
    requires i / 64 < |b|
  {
    b[i / 64 := ClearBit(b[i / 64], i % 64)]
  }

  /** The indices below `n` whose bits are set. */
  ghost function Members(b: Words, n: nat): set<nat>
    requires n <= 64 * |b|
  {
    set i: nat | i < n && Has(b, i)
  }

  // ----- Words

  lemma {:induction false} SetWithin(w: nat, k: nat, n: nat)
    requires k < n && w < Pow2(n)
    ensures SetBit(w, k) < Pow2(n)
  {
    if k != 0 {
      SetWithin(w / 2, k - 1, n - 1);
    }
  }

  lemma {:induction false} Pow2Sum(a: nat, b: nat)
    ensures Pow2(a + b) == Pow2(a) * Pow2(b)
  {
    if a != 0 {
      Pow2Sum(a - 1, b);
      assert Pow2(a + b) == 2 * (Pow2(a - 1) * Pow2(b));
      assert 2 * (Pow2(a - 1) * Pow2(b)) == 2 * Pow2(a - 1) * Pow2(b);
    }
  }

  lemma Pow64()
    ensures Pow2(64) == WORD
  {
    assert Pow2(8) == 256 by { assert Pow2(4) == 16; }
    Pow2Sum(8, 8);
    Pow2Sum(16, 16);
    Pow2Sum(32, 32);
  }

  lemma SetFits(w: Word, k: nat)
    requires k < 64
    ensures SetBit(w, k) < WORD
  {
    Pow64();
    SetWithin(w, k, 64);
  }

  lemma {:induction false} BitAfterSet(w: nat, j: nat, k: nat)
    ensures Bit(SetBit(w, j), k) <==> j == k || Bit(w, k)
  {
    if j != 0 && k != 0 {
      BitAfterSet(w / 2, j - 1, k - 1);
    }
  }

  lemma {:induction false} ClearAfterSet(w: nat, k: nat)
    requires !Bit(w, k)
    ensures ClearBit(SetBit(w, k), k) == w
  {
    if k != 0 {
      ClearAfterSet(w / 2, k - 1);
    }
  }

  lemma {:induction false} ZeroBit(k: nat)
    ensures !Bit(0, k)
  {
    if k != 0 {
      ZeroBit(k - 1);
    }
  }

  // ----- What the operations mean

  lemma NewIsEmpty(n: nat)
    ensures n <= 64 * |New(n)|
    ensures Members(New(n), n) == {}
  {
    forall i: nat | i < n ensures !Has(New(n), i) {
      ZeroBit(i % 64);
    }
  }

  lemma HasAfterSet(b: Words, i: nat, j: nat)
    requires i / 64 < |b| && j / 64 < |b|
    ensures Has(Set(b, i), j) <==> i == j || Has(b, j)
  {
    assert i == 64 * (i / 64) + i % 64 && j == 64 * (j / 64) + j % 64;
    BitAfterSet(b[i / 64], i % 64, j % 64);
  }

  lemma MembersAfterSet(b: Words, i: nat, n: nat)
    requires i < n <= 64 * |b|
    ensures Members(Set(b, i), n) == Members(b, n) + {i}
  {
    forall j: nat | j < n ensures Has(Set(b, i), j) <==> i == j || Has(b, j) {
      HasAfterSet(b, i, j);
    }
  }

  /** Clearing the bit just set gives back the very words there were. */
  lemma ClearUndoesSet(b: Words, i: nat)
    requires i / 64 < |b| && !Has(b, i)
    ensures Clear(Set(b, i), i) == b
  {
    ClearAfterSet(b[i / 64], i % 64);
  }

  /** Words with the same bits are the same. */
  lemma {:induction false} SameBits(w: nat, v: nat, n: nat)
    requires w < Pow2(n) && v < Pow2(n) && forall k: nat :: k < n ==> (Bit(w, k) <==> Bit(v, k))
    ensures w == v
  {
    if n > 0 {
      assert Bit(w, 0) <==> Bit(v, 0);
      forall k: nat | k < n - 1 ensures Bit(w / 2, k) <==> Bit(v / 2, k) {
        assert Bit(w, k + 1) <==> Bit(v, k + 1);
      }
      SameBits(w / 2, v / 2, n - 1);
    }
  }

  lemma SameWords(b: Words, c: Words)
    requires |b| == |c| && forall i: nat :: i < 64 * |b| ==> (Has(b, i) <==> Has(c, i))
    ensures b == c
  {
    forall j | 0 <= j < |b| ensures b[j] == c[j] {
      Pow64();
      forall k: nat | k < 64 ensures Bit(b[j], k) <==> Bit(c[j], k) {
        assert Has(b, 64 * j + k) <==> Has(c, 64 * j + k);
        assert (64 * j + k) / 64 == j && (64 * j + k) % 64 == k;
      }
      SameBits(b[j], c[j], 64);
    }
  }
}
