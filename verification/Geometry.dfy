/** Lines on the board: which squares lie between two others, and the tables of both. */
module Geometry {
  import opened Shogi
  import opened Qugiy

  // ----- directions -----

  function Abs(x: int): nat { if x < 0 then -x else x }

  function Sign(x: int): int { if x < 0 then -1 else if x > 0 then 1 else 0 }

  function Files(a: nat, b: nat): int { FileOf(b) - FileOf(a) }

  function Ranks(a: nat, b: nat): int { RankOf(b) - RankOf(a) }

  /** Two different squares on one rank, file or diagonal. */
  predicate Aligned(a: nat, b: nat) {
    a != b && (Files(a, b) == 0 || Ranks(a, b) == 0 || Abs(Files(a, b)) == Abs(Ranks(a, b)))
  }

  function Dist(a: nat, b: nat): nat {
    if Abs(Files(a, b)) > Abs(Ranks(a, b)) then Abs(Files(a, b)) else Abs(Ranks(a, b))
  }

  /** Seen from a, both squares lie in the same direction. */
  predicate SameWay(a: nat, s: nat, b: nat) {
    && Aligned(a, s) && Aligned(a, b)
    && Sign(Files(a, s)) == Sign(Files(a, b)) && Sign(Ranks(a, s)) == Sign(Ranks(a, b))
  }

  predicate OppositeWay(a: nat, s: nat, b: nat) {
    && Aligned(a, s) && Aligned(a, b)
    && Sign(Files(a, s)) == -Sign(Files(a, b)) && Sign(Ranks(a, s)) == -Sign(Ranks(a, b))
  }

  predicate IsBetween(a: nat, s: nat, b: nat) { SameWay(a, s, b) && Dist(a, s) < Dist(a, b) }

  /** On the full line through a and b. */
  predicate OnLine(a: nat, s: nat, b: nat) {
    Aligned(a, b) && (s == a || SameWay(a, s, b) || OppositeWay(a, s, b))
  }

  function Between(a: nat, b: nat): set<nat> { set s: nat | s < SQUARE_NB && IsBetween(a, s, b) }

  function Line(a: nat, b: nat): set<nat> { set s: nat | s < SQUARE_NB && OnLine(a, s, b) }

  /** Nothing stands between the two squares. */
  ghost predicate Clear(a: nat, b: nat, occ: set<nat>) { forall s | s in occ :: !IsBetween(a, s, b) }

  // ----- facts about three squares -----

  lemma SameSquare(a: nat, b: nat)
    ensures Files(a, b) == 0 && Ranks(a, b) == 0 <==> a == b
  {
  }

  /** Being between does not depend on the end one starts from. */
  lemma BetweenBack(a: nat, s: nat, b: nat)
    ensures IsBetween(a, s, b) == IsBetween(b, s, a)
  {
    hide FileOf, RankOf;
    if IsBetween(a, s, b) {
      BetweenOneWay(a, s, b);
    }
    if IsBetween(b, s, a) {
      BetweenOneWay(b, s, a);
    }
  }

  lemma BetweenOneWay(a: nat, s: nat, b: nat)
    requires IsBetween(a, s, b)
    ensures IsBetween(b, s, a) && Dist(a, s) + Dist(s, b) == Dist(a, b)
  {
    hide FileOf, RankOf;
    SameSquare(b, s);
  }

  /** Of two squares in the same direction one hides the other. */
  lemma OneIsNearer(a: nat, s: nat, b: nat)
    requires SameWay(a, s, b) && s != b
    ensures IsBetween(a, s, b) || IsBetween(a, b, s)
  {
    hide FileOf, RankOf;
    SameSquare(s, b);
  }

  /** Walking away from a, whatever lies past x has x in between, also seen from an earlier
      square s. */
  lemma PastTheNearer(a: nat, s: nat, x: nat, b: nat)
    requires IsBetween(a, s, x) && IsBetween(a, x, b)
    ensures IsBetween(s, x, b)
  {
    hide FileOf, RankOf;
    SameSquare(s, x);
    SameSquare(s, b);
    SameSquare(x, b);
  }

  /** Going from one side of a to the other passes a. */
  lemma AcrossPasses(a: nat, s: nat, b: nat)
    requires OppositeWay(a, s, b)
    ensures IsBetween(s, a, b)
  {
    hide FileOf, RankOf;
    SameSquare(s, b);
    SameSquare(a, s);
  }

  /** The line through two squares is the same from either. */
  lemma LineBack(a: nat, s: nat, b: nat)
    ensures OnLine(a, s, b) == OnLine(b, s, a)
  {
    hide FileOf, RankOf;
    LineOneWay(a, s, b);
    LineOneWay(b, s, a);
  }

  lemma LineOneWay(a: nat, s: nat, b: nat)
    ensures OnLine(a, s, b) ==> OnLine(b, s, a)
  {
    hide FileOf, RankOf;
    SameSquare(b, s);
    SameSquare(a, s);
    SameSquare(a, b);
  }

  // ----- rays -----

  /** The (k+1)-th square of a ray is k+1 steps away in its direction. */
  lemma {:induction false} RayAt(f: int, r: int, df: int, dr: int, k: nat)
    requires InBoard(f, r) && IsDirection(df, dr) && k < |Ray(f, r, df, dr)|
    ensures InBoard(f + Along(df, k + 1), r + Along(dr, k + 1))
    ensures Ray(f, r, df, dr)[k] == (f + Along(df, k + 1)) * 9 + (r + Along(dr, k + 1))
    decreases k
  {
    if k > 0 {
      RayAt(f + df, r + dr, df, dr, k - 1);
    }
  }

  function Along(d: int, k: int): int { if d > 0 then k else if d < 0 then -k else 0 }

  lemma {:induction false} RayIsLong(f: int, r: int, df: int, dr: int, k: nat)
    requires InBoard(f, r) && IsDirection(df, dr) && k > 0 && InBoard(f + Along(df, k), r + Along(dr, k))
    ensures k <= |Ray(f, r, df, dr)|
    decreases k
  {
    if k > 1 {
      RayIsLong(f + df, r + dr, df, dr, k - 1);
    }
  }

  /** The square lies on the ray, and how far. */
  predicate InDirection(a: nat, b: nat, df: int, dr: int) {
    Aligned(a, b) && Sign(Files(a, b)) == df && Sign(Ranks(a, b)) == dr
  }

  lemma OnRay(a: nat, df: int, dr: int, k: nat)
    requires a < SQUARE_NB && IsDirection(df, dr) && k < |RayFrom(a, df, dr)|
    ensures InDirection(a, RayFrom(a, df, dr)[k], df, dr) && Dist(a, RayFrom(a, df, dr)[k]) == k + 1
  {
    hide Ray;
    RayAt(FileOf(a), RankOf(a), df, dr, k);
    var b := RayFrom(a, df, dr)[k];
    assert FileOf(b) == FileOf(a) + Along(df, k + 1) && RankOf(b) == RankOf(a) + Along(dr, k + 1);
  }

  lemma ReachedOnRay(a: nat, b: nat, df: int, dr: int)
    requires a < SQUARE_NB && b < SQUARE_NB && InDirection(a, b, df, dr)
    ensures IsDirection(df, dr) && 1 <= Dist(a, b) <= |RayFrom(a, df, dr)| && RayFrom(a, df, dr)[Dist(a, b) - 1] == b
  {
    hide Ray;
    var k := Dist(a, b);
    SameSquare(a, b);
    assert FileOf(b) == FileOf(a) + Along(df, k) && RankOf(b) == RankOf(a) + Along(dr, k);
    RayIsLong(FileOf(a), RankOf(a), df, dr, k);
    RayAt(FileOf(a), RankOf(a), df, dr, k - 1);
  }

  /** Walking a ray reaches the squares in its direction with nothing in between. */
  lemma {:induction false} WalkIsClear(a: nat, b: nat, df: int, dr: int, occ: set<nat>)
    requires a < SQUARE_NB && b < SQUARE_NB && IsDirection(df, dr) && forall s | s in occ :: s < SQUARE_NB
    ensures b in Walk(RayFrom(a, df, dr), occ) <==> InDirection(a, b, df, dr) && Clear(a, b, occ)
  {
    hide Walk, RayFrom, Aligned, Dist, FreeBefore;
    var ray := RayFrom(a, df, dr);
    WalkReaches(ray, occ, b);
    if k: nat :| k < |ray| && ray[k] == b && FreeBefore(ray, occ, k) {
      OnRay(a, df, dr, k);
      FreeIsClear(a, b, df, dr, occ, k);
    }
    if InDirection(a, b, df, dr) && Clear(a, b, occ) {
      ReachedOnRay(a, b, df, dr);
      FreeIsClear(a, b, df, dr, occ, Dist(a, b) - 1);
    }
  }

  lemma FreeIsClear(a: nat, b: nat, df: int, dr: int, occ: set<nat>, k: nat)
    requires a < SQUARE_NB && b < SQUARE_NB && IsDirection(df, dr) && forall s | s in occ :: s < SQUARE_NB
    requires k < |RayFrom(a, df, dr)| && RayFrom(a, df, dr)[k] == b
    ensures FreeBefore(RayFrom(a, df, dr), occ, k) <==> Clear(a, b, occ)
  {
    hide RayFrom, Aligned, Dist;
    var ray := RayFrom(a, df, dr);
    OnRay(a, df, dr, k);
    if FreeBefore(ray, occ, k) {
      forall s | s in occ
        ensures !IsBetween(a, s, b)
      {
        if IsBetween(a, s, b) {
          ReachedOnRay(a, s, df, dr);
          assert false;
        }
      }
    }
    if Clear(a, b, occ) {
      forall i: nat | i < k
        ensures ray[i] !in occ
      {
        OnRay(a, df, dr, i);
        assert IsBetween(a, ray[i], b);
      }
    }
  }
}
