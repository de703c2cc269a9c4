/** Bitboards as the engine stores them: two 64-bit words, squares 0 to 62 in the first and
    63 to 80 in the second, with the word operations the slider effects need. */
module Bitboards {
  import opened Arithmetic
  import opened Shogi

  const BB_SPLIT: nat := 63

  /** A word lists its 64 bits, least significant first. */
  type Word = seq<bool>

  predicate IsWord(w: Word) { |w| == 64 }

  datatype Bitboard = Bitboard(p0: Word, p1: Word)
  {
    predicate Valid() { IsWord(p0) && IsWord(p1) }
  }

  // ----- words as numbers -----

  predicate IsZero(w: Word) { forall i: nat | i < |w| :: !w[i] }

  lemma {:induction false} ValueRange(w: Word)
    ensures Value(w) < Pow2(|w|) && (Value(w) == 0 <==> IsZero(w))
  {
    if w != [] {
      ValueRange(w[1..]);
      assert IsZero(w) <==> !w[0] && IsZero(w[1..]) by {
        assert forall i: nat | i < |w| - 1 :: w[i + 1] == w[1..][i];
        if !w[0] && IsZero(w[1..]) {
          forall i: nat | i < |w|
            ensures !w[i]
          {
            assert i > 0 ==> w[i] == w[1..][i - 1];
          }
        }
      }
    }
  }

  /** Subtracts one, borrowing through the zeros at the low end. */
  function Dec(w: Word): (r: Word)
    ensures |r| == |w|
  {
    if w == [] then [] else if w[0] then [false] + w[1..] else [true] + Dec(w[1..])
  }

  /** The machine's decrement: one less, and all ones after zero. */
  lemma {:induction false} DecIsMinusOne(w: Word)
    ensures Value(Dec(w)) == if Value(w) == 0 then Pow2(|w|) - 1 else Value(w) - 1
  {
    if w != [] {
      if w[0] {
        assert ([false] + w[1..])[1..] == w[1..];
      } else {
        DecIsMinusOne(w[1..]);
        assert ([true] + Dec(w[1..]))[1..] == Dec(w[1..]);
      }
    }
  }

  /** No bit below position `i`. */
  predicate NoneBelow(w: Word, i: nat)
    requires i <= |w|
  {
    forall j: nat | j < i :: !w[j]
  }

  /** A decrement flips exactly the lowest set bit and what is below it. */
  lemma {:induction false} DecFlips(w: Word, i: nat)
    requires i < |w|
    ensures Dec(w)[i] != w[i] <==> NoneBelow(w, i)
  {
    if i > 0 {
      if !w[0] {
        DecFlips(w[1..], i - 1);
        assert NoneBelow(w, i) <==> NoneBelow(w[1..], i - 1) by {
          if NoneBelow(w[1..], i - 1) {
            forall j: nat | j < i
              ensures !w[j]
            {
              assert j > 0 ==> w[j] == w[1..][j - 1];
            }
          }
          assert forall j: nat | j < i - 1 :: w[1..][j] == w[j + 1];
        }
      }
    }
  }

  function AndWord(a: Word, b: Word): (r: Word)
    requires |a| == |b|
    ensures |r| == |a|
  {
    seq(|a|, (i: nat) requires i < |a| && |a| == |b| => a[i] && b[i])
  }

  function XorWord(a: Word, b: Word): (r: Word)
    requires |a| == |b|
    ensures |r| == |a|
  {
    seq(|a|, (i: nat) requires i < |a| && |a| == |b| => a[i] != b[i])
  }

  function OrWord(a: Word, b: Word): (r: Word)
    requires |a| == |b|
    ensures |r| == |a|
  {
    seq(|a|, (i: nat) requires i < |a| && |a| == |b| => a[i] || b[i])
  }

  // ----- bitboards -----

  function And(a: Bitboard, b: Bitboard): (r: Bitboard)
    requires a.Valid() && b.Valid()
    ensures r.Valid()
  {
    Bitboard(AndWord(a.p0, b.p0), AndWord(a.p1, b.p1))
  }

  function Xor(a: Bitboard, b: Bitboard): (r: Bitboard)
    requires a.Valid() && b.Valid()
    ensures r.Valid()
  {
    Bitboard(XorWord(a.p0, b.p0), XorWord(a.p1, b.p1))
  }

  function Or(a: Bitboard, b: Bitboard): (r: Bitboard)
    requires a.Valid() && b.Valid()
    ensures r.Valid()
  {
    Bitboard(OrWord(a.p0, b.p0), OrWord(a.p1, b.p1))
  }

  /** The two words as one list of 128 bits. */
  function Bits(b: Bitboard): (r: seq<bool>)
    requires b.Valid()
    ensures |r| == 128
  {
    b.p0 + b.p1
  }

  /** Reverses the eight bytes of a word. */
  function SwapBytes(w: Word): (r: Word)
    requires IsWord(w)
    ensures IsWord(r)
  {
    seq(64, (i: nat) requires i < 64 && IsWord(w) => w[(7 - i / 8) * 8 + i % 8])
  }

  /** Reverses the sixteen bytes of a bitboard. */
  function ByteReverse(b: Bitboard): (r: Bitboard)
    requires b.Valid()
    ensures r.Valid()
  {
    Bitboard(SwapBytes(b.p1), SwapBytes(b.p0))
  }

  /** Where byte reversal takes bit `j`. */
  function Rev(j: nat): (r: nat)
    requires j < 128
    ensures r < 128
  {
    (15 - j / 8) * 8 + j % 8
  }

  lemma RevTwice(j: nat)
    requires j < 128
    ensures Rev(Rev(j)) == j
  {
    assert Rev(j) / 8 == 15 - j / 8 && Rev(j) % 8 == j % 8;
  }

  /** Bits at least a byte apart change their order. */
  lemma {:induction false} RevReverses(i: nat, j: nat)
    requires i + 8 <= j < 128
    ensures Rev(j) < Rev(i)
  {
  }

  lemma ReversedBits(b: Bitboard, j: nat)
    requires b.Valid() && j < 128
    ensures Bits(ByteReverse(b))[j] == Bits(b)[Rev(j)]
  {
    if j < 64 {
      assert (7 - j / 8) * 8 + j % 8 + 64 == Rev(j);
    } else {
      var i := j - 64;
      assert i / 8 == j / 8 - 8 && i % 8 == j % 8;
    }
  }

  /** Brings the first words of both inputs together, and the second words. */
  function Unpack(hiIn: Bitboard, loIn: Bitboard): (r: (Bitboard, Bitboard))
    requires hiIn.Valid() && loIn.Valid()
    ensures r.0.Valid() && r.1.Valid()
  {
    (Bitboard(loIn.p1, hiIn.p1), Bitboard(loIn.p0, hiIn.p0))
  }

  /** Decrements two 128-bit numbers, each split over a low and a high word. */
  function Decrement(hiIn: Bitboard, loIn: Bitboard): (r: (Bitboard, Bitboard))
    requires hiIn.Valid() && loIn.Valid()
    ensures r.0.Valid() && r.1.Valid()
  {
    (Bitboard(if IsZero(loIn.p0) then Dec(hiIn.p0) else hiIn.p0, if IsZero(loIn.p1) then Dec(hiIn.p1) else hiIn.p1),
     Bitboard(Dec(loIn.p0), Dec(loIn.p1)))
  }

  // ----- squares -----

  /** The bit of a square among the 128. */
  function Pos(s: nat): nat { if s < BB_SPLIT then s else s + 1 }

  predicate Test(b: Bitboard, s: nat)
    requires b.Valid() && s < SQUARE_NB
  {
    if s < BB_SPLIT then b.p0[s] else b.p1[s - BB_SPLIT]
  }

  lemma TestIsBit(b: Bitboard, s: nat)
    requires b.Valid() && s < SQUARE_NB
    ensures Test(b, s) == Bits(b)[Pos(s)]
  {
  }

  function Squares(b: Bitboard): set<nat>
    requires b.Valid()
  {
    set s: nat | s < SQUARE_NB && Test(b, s)
  }

  /** Only squares have bits. */
  ghost predicate IsClean(b: Bitboard)
    requires b.Valid()
  {
    !Bits(b)[63] && forall j: nat | 82 <= j < 128 :: !Bits(b)[j]
  }


  function ZeroBoard(): (b: Bitboard)
    ensures b.Valid() && Squares(b) == {}
    ensures forall j: nat | j < 128 :: !Bits(b)[j]
  {
    Bitboard(seq(64, _ => false), seq(64, _ => false))
  }

  function SetSquare(b: Bitboard, s: nat): (r: Bitboard)
    requires b.Valid() && s < SQUARE_NB
    ensures r.Valid() && Bits(r) == Bits(b)[Pos(s) := true]
  {
    if s < BB_SPLIT then Bitboard(b.p0[s := true], b.p1) else Bitboard(b.p0, b.p1[s - BB_SPLIT := true])
  }
}
