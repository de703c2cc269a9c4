/** Playout credits as minimax over the reals: what the mover into a node is credited turns
    over from edge to edge and is largest for the best reply. */
module MctsCredits {
  import opened MctsGame
  import opened MctsFlags
  import MctsCounts

  /** What a playout that ends proven at a node credits the player who moved into it. */
  ghost function Credit(g: Game, p: Path): real { MoverValue(SearchValue(g, p), g.drawValue(p)) }

  /** To the side to move the node is worth the largest credit among its replies. */
  ghost predicate IsMaximum(g: Game, p: Path) {
    && (exists i: nat :: i < g.childNum(p) && Credit(g, p + [i]) == 1.0 - Credit(g, p))
    && (forall i: nat | i < g.childNum(p) :: Credit(g, p + [i]) <= 1.0 - Credit(g, p))
  }

  /** A draw is worth something between a loss and a win, the same to a mover whatever the move. */
  ghost predicate DrawIsWorth(g: Game, p: Path, d: real) {
    0.0 <= d <= 1.0 && forall i: nat | i < g.childNum(p) :: g.drawValue(p + [i]) == d
  }

  lemma SearchValueBelow(g: Game, p: Path)
    requires GoesOn(g, p)
    ensures SearchValue(g, p) == Win <==> exists i: nat :: i < g.childNum(p) && SearchValue(g, p + [i]) == Loss
    ensures SearchValue(g, p) == Draw <==>
            && (exists i: nat :: i < g.childNum(p) && SearchValue(g, p + [i]) == Draw)
            && (forall i: nat | i < g.childNum(p) :: SearchValue(g, p + [i]) != Loss)
  {
    hide Adjudicated, HasMateWithin;
  }

  /** Credits are minimax at every node the search goes on from, except at a drawn one where the
      draw values of the two sides do not add up to one. */
  lemma {:induction false} CreditsAreMinimax(g: Game, p: Path, d: real)
    requires GoesOn(g, p) && g.childNum(p) > 0 && DrawIsWorth(g, p, d)
    ensures IsMaximum(g, p) <==> (SearchValue(g, p) == Draw ==> d + g.drawValue(p) == 1.0)
  {
    hide SearchValue, GoesOn;
    SearchValueBelow(g, p);
    if i: nat :| i < g.childNum(p) && SearchValue(g, p + [i]) == Loss {
      assert Credit(g, p + [i]) == 1.0 - Credit(g, p);
    } else if i: nat :| i < g.childNum(p) && SearchValue(g, p + [i]) == Draw {
      assert Credit(g, p + [i]) == d;
    } else {
      assert SearchValue(g, p + [0]) == Win;
      assert Credit(g, p + [0]) == 1.0 - Credit(g, p);
    }
  }

  /** No node credits the mover less than a declared win or more than a mate. */
  lemma {:induction false} CreditsAreBounded(g: Game, p: Path, q: Path)
    requires WellFormed(g) && 0.0 <= g.drawValue(q) <= 1.0
    ensures g.declares(p) ==> Credit(g, p) == 0.0 <= Credit(g, q)
    ensures IsMated(g, p) ==> Credit(g, q) <= 1.0 == Credit(g, p)
  {
    hide SearchValue;
    if g.declares(p) {
      VerdictIsValue(g, p);
    }
    if IsMated(g, p) {
      MatedIsLoss(g, p);
    }
  }

  lemma MatedIsLoss(g: Game, p: Path)
    requires WellFormed(g) && IsMated(g, p)
    ensures SearchValue(g, p) == Loss
  {
    NoMateByTheMated(g, p);
  }

  lemma NoMateByTheMated(g: Game, p: Path)
    requires WellFormed(g) && IsMated(g, p)
    ensures !MateReported(g, p)
  {
    forall d: nat
      ensures !OddMate(g, p, d)
    {
    }
  }

  /** Turned over on the way up, the credit of the best reply is the node's own, and no reply
      gives the mover into the node less. */
  lemma {:induction false} BestReplyBacksUp(g: Game, p: Path, d: real)
    requires GoesOn(g, p) && g.childNum(p) > 0 && DrawIsWorth(g, p, d) && d + g.drawValue(p) == 1.0 && p != []
    ensures exists i: nat :: i < g.childNum(p) && MctsCounts.Backed(p + [i], Credit(g, p + [i])) == MctsCounts.BackingUp(p, Credit(g, p))
    ensures forall i: nat | i < g.childNum(p) ::
              var up := MctsCounts.Backed(p + [i], Credit(g, p + [i])); up.BackingUp? && up.p == p && up.value >= Credit(g, p)
  {
    hide Credit, GoesOn, SearchValue;
    CreditsAreMinimax(g, p, d);
    forall i: nat
      ensures MctsCounts.Parent(p + [i]) == p
    {
    }
    var i: nat :| i < g.childNum(p) && Credit(g, p + [i]) == 1.0 - Credit(g, p);
    assert MctsCounts.Backed(p + [i], Credit(g, p + [i])) == MctsCounts.BackingUp(p, Credit(g, p));
  }
}
