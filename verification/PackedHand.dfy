/** Pieces in hand as one 32-bit word: a field of bits for every kind, with gaps between. */
module PackedHand {
  import opened Shogi

  const WORD: nat := 0x1_0000_0000

  /** What one piece of a kind adds to the word, and how many values its field has. */
  const ONE: seq<nat> := [0, 0x1, 0x100, 0x1000, 0x1_0000, 0x10_0000, 0x100_0000, 0x1000_0000]
  const FIELD: seq<nat> := [1, 32, 8, 8, 8, 4, 4, 8]

  function Add(word: nat, raw: PieceType): nat
    requires raw < 8
  {
    (word + ONE[raw]) % WORD
  }

  /** The count a field shows. */
  function Count(word: nat, raw: PieceType): nat
    requires 1 <= raw < 8
  {
    word / ONE[raw] % FIELD[raw]
  }

  function Total(hand: seq<nat>): nat
    requires |hand| == 8
  {
    hand[1] * ONE[1] + hand[2] * ONE[2] + hand[3] * ONE[3] + hand[4] * ONE[4] + hand[5] * ONE[5] + hand[6] * ONE[6] + hand[7] * ONE[7]
  }

  /** The word after adding this many pieces of each kind; too many run over into other fields. */
  function Packed(hand: seq<nat>): nat
    requires |hand| == 8
  {
    Total(hand) % WORD
  }

  /** The counts a word shows. */
  function Shown(word: nat): (hand: seq<nat>)
    ensures |hand| == 8 && hand[0] == 0
  {
    seq(8, (raw: nat) requires raw < 8 => if raw == 0 then 0 else Count(word, raw))
  }

  lemma AddPacks(hand: seq<nat>, raw: PieceType)
    requires |hand| == 8 && 1 <= raw < 8
    ensures Packed(hand[raw := hand[raw] + 1]) == Add(Packed(hand), raw)
  {
    assert Total(hand[raw := hand[raw] + 1]) == Total(hand) + ONE[raw];
  }

  /** Counts that fit their fields are shown as they are. */
  lemma {:induction false} FittingHandIsShown(hand: seq<nat>)
    requires |hand| == 8 && hand[0] == 0 && forall raw: nat | 1 <= raw < 8 :: hand[raw] < FIELD[raw]
    ensures Shown(Packed(hand)) == hand
  {
    var w := Packed(hand);
    assert w == Total(hand);
    forall raw: nat | 1 <= raw < 8
      ensures Count(w, raw) == hand[raw]
    {
      FieldShows(hand, raw);
    }
  }

  lemma FieldShows(hand: seq<nat>, raw: PieceType)
    requires |hand| == 8 && (forall r: nat | 1 <= r < 8 :: hand[r] < FIELD[r]) && 1 <= raw < 8
    ensures Count(Total(hand), raw) == hand[raw]
  {
    var a, b, c, d, e, f, g := hand[1], hand[2], hand[3], hand[4], hand[5], hand[6], hand[7];
    assert a < 32 && b < 8 && c < 8 && d < 8 && e < 4 && f < 4 && g < 8;
    assert Total(hand) == a + 0x100 * b + 0x1000 * c + 0x1_0000 * d + 0x10_0000 * e + 0x100_0000 * f + 0x1000_0000 * g;
    Fields(a, b, c, d, e, f, g);
  }

  lemma Fields(a: nat, b: nat, c: nat, d: nat, e: nat, f: nat, g: nat)
    requires a < 32 && b < 8 && c < 8 && d < 8 && e < 4 && f < 4 && g < 8
    ensures var w := a + 0x100 * b + 0x1000 * c + 0x1_0000 * d + 0x10_0000 * e + 0x100_0000 * f + 0x1000_0000 * g;
            && w / 0x1 % 32 == a && w / 0x100 % 8 == b && w / 0x1000 % 8 == c && w / 0x1_0000 % 8 == d
            && w / 0x10_0000 % 4 == e && w / 0x100_0000 % 4 == f && w / 0x1000_0000 % 8 == g
  {
    var w := a + 0x100 * b + 0x1000 * c + 0x1_0000 * d + 0x10_0000 * e + 0x100_0000 * f + 0x1000_0000 * g;
    var w2 := b + 0x10 * c + 0x100 * d + 0x1000 * e + 0x1_0000 * f + 0x10_0000 * g;
    var w3 := c + 0x10 * d + 0x100 * e + 0x1000 * f + 0x1_0000 * g;
    var w4 := d + 0x10 * e + 0x100 * f + 0x1000 * g;
    var w5 := e + 0x10 * f + 0x100 * g;
    var w6 := f + 0x10 * g;
    assert w == a + 0x100 * w2 && w / 0x100 == w2;
    assert w == (a + 0x100 * b) + 0x1000 * w3 && w / 0x1000 == w3;
    assert w == (a + 0x100 * b + 0x1000 * c) + 0x1_0000 * w4 && w / 0x1_0000 == w4;
    assert w / 0x10_0000 == w5;
    assert w / 0x100_0000 == w6;
    assert w / 0x1000_0000 == g;
    assert w2 % 8 == b && w3 % 8 == c && w4 % 8 == d && w5 % 4 == e && w6 % 4 == f;
  }
}
