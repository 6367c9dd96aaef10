/**
 * Where the search of `exploreMoves` is guaranteed to stop: the straight phase before any budget
 * is spent, and sources whose top value is 1. Here the result no longer depends on the fuel once
 * it exceeds the length of a ray across the board.
 */
module MoveTermination {
  import opened Types
  import opened Accessors
  import opened MoveSearch
  import opened MoveWalks

  /** The search depends on the visited path only through its head, the source. */
  lemma {:induction false} ExploreHeadOnly(b: Board, pos: Position, remaining: nat, path: seq<Position>, path': seq<Position>,
                                           last: Option<Direction>, single: bool, fuel: nat)
    requires InBounds(pos) && |path| > 0 && InBounds(path[0]) && |path'| > 0 && path'[0] == path[0]
    ensures Explore(b, pos, remaining, path, last, single, fuel) == Explore(b, pos, remaining, path', last, single, fuel)
    decreases fuel, 5
  {
    if remaining > 0 && fuel > 0 {
      DirectionsHeadOnly(b, pos, remaining, path, path', last, single, fuel, 4);
    }
  }

  lemma {:induction false} DirectionsHeadOnly(b: Board, pos: Position, remaining: nat, path: seq<Position>, path': seq<Position>,
                                              last: Option<Direction>, single: bool, fuel: nat, k: nat)
    requires InBounds(pos) && |path| > 0 && InBounds(path[0]) && |path'| > 0 && path'[0] == path[0]
    requires remaining > 0 && fuel > 0 && k <= 4
    ensures ExploreDirections(b, pos, remaining, path, last, single, fuel, k)
         == ExploreDirections(b, pos, remaining, path', last, single, fuel, k)
    decreases fuel, k
  {
    if k > 0 {
      DirectionsHeadOnly(b, pos, remaining, path, path', last, single, fuel, k - 1);
      StepHeadOnly(b, pos, remaining, path, path', last, single, fuel, DIRECTIONS[k - 1]);
    }
  }

  lemma {:induction false} StepHeadOnly(b: Board, pos: Position, remaining: nat, path: seq<Position>, path': seq<Position>,
                                        last: Option<Direction>, single: bool, fuel: nat, dir: Direction)
    requires InBounds(pos) && |path| > 0 && InBounds(path[0]) && |path'| > 0 && path'[0] == path[0]
    requires remaining > 0 && fuel > 0
    ensures ExploreStep(b, pos, remaining, path, last, single, fuel, dir)
         == ExploreStep(b, pos, remaining, path', last, single, fuel, dir)
    decreases fuel, 0
  {
    assert BudgetUnspent(b, path, remaining) == BudgetUnspent(b, path', remaining);
    var next := Next(pos, dir);
    if InBounds(next) {
      HeadOfExtended(path, next);
      HeadOfExtended(path', next);
      ExploreHeadOnly(b, next, Spend(b, next, remaining), path + [next], path' + [next], Some(dir), single, fuel - 1);
    }
  }

  /** With budget and fuel left, the search is the four direction steps in order. */
  lemma {:induction false} ExploreUnfold(b: Board, pos: Position, remaining: nat, path: seq<Position>,
                      last: Option<Direction>, single: bool, fuel: nat)
    requires InBounds(pos) && |path| > 0 && InBounds(path[0]) && remaining > 0 && fuel > 0
    ensures Explore(b, pos, remaining, path, last, single, fuel)
         == ExploreStep(b, pos, remaining, path, last, single, fuel, DIRECTIONS[0])
          + ExploreStep(b, pos, remaining, path, last, single, fuel, DIRECTIONS[1])
          + ExploreStep(b, pos, remaining, path, last, single, fuel, DIRECTIONS[2])
          + ExploreStep(b, pos, remaining, path, last, single, fuel, DIRECTIONS[3])
  {
    var s0 := ExploreStep(b, pos, remaining, path, last, single, fuel, DIRECTIONS[0]);
    var s1 := ExploreStep(b, pos, remaining, path, last, single, fuel, DIRECTIONS[1]);
    var s2 := ExploreStep(b, pos, remaining, path, last, single, fuel, DIRECTIONS[2]);
    var s3 := ExploreStep(b, pos, remaining, path, last, single, fuel, DIRECTIONS[3]);
    var e1 := ExploreDirections(b, pos, remaining, path, last, single, fuel, 1);
    var e2 := ExploreDirections(b, pos, remaining, path, last, single, fuel, 2);
    var e3 := ExploreDirections(b, pos, remaining, path, last, single, fuel, 3);
    assert e1 == s0 by {
      assert ExploreDirections(b, pos, remaining, path, last, single, fuel, 0) == [];
    }
    assert e2 == e1 + s1;
    assert e3 == e2 + s2;
    assert Explore(b, pos, remaining, path, last, single, fuel) == e3 + s3;
  }

  /**
   * The straight phase of the search: while the budget is unspent, only the current direction is
   * explored; the search runs along the ray to the nearest occupied cell, spending one fuel per
   * cell, and continues from there with one unit of budget spent. A ray with no occupied cell
   * before the edge yields nothing.
   */
  lemma {:induction false} ExploreStraight(b: Board, pos: Position, remaining: nat, path: seq<Position>,
                                           d: Direction, single: bool, fuel: nat)
    requires InBounds(pos) && |path| > 0 && InBounds(path[0]) && d in DIRECTIONS
    requires remaining > 0 && BudgetUnspent(b, path, remaining)
    ensures Explore(b, pos, remaining, path, Some(d), single, fuel) ==
            match Nearest(b, pos, d)
            case None => []
            case Some((q, k)) => if k <= fuel then Explore(b, q, remaining - 1, [path[0]], Some(d), single, fuel - k) else []
    decreases fuel, 1
  {
    var next := Next(pos, d);
    if fuel > 0 && InBounds(next) {
      HeadOfExtended(path, next);
      if |CellAt(b, next)| == 0 {
        StraightOverEmpty(b, pos, remaining, path, d, single, fuel);
      } else {
        StraightHit(b, pos, remaining, path, d, single, fuel);
      }
    } else if fuel > 0 {
      ExploreOnlyStraight(b, pos, remaining, path, d, single, fuel);
    }
  }

  /** The straight phase over an empty neighbour: the search goes on from the neighbour, one fuel less. */
  lemma {:induction false} StraightOverEmpty(b: Board, pos: Position, remaining: nat, path: seq<Position>,
                                             d: Direction, single: bool, fuel: nat)
    requires InBounds(pos) && |path| > 0 && InBounds(path[0]) && d in DIRECTIONS
    requires remaining > 0 && BudgetUnspent(b, path, remaining) && fuel > 0
    requires InBounds(Next(pos, d)) && |CellAt(b, Next(pos, d))| == 0
    ensures Explore(b, pos, remaining, path, Some(d), single, fuel) ==
            match Nearest(b, pos, d)
            case None => []
            case Some((q, k)) => if k <= fuel then Explore(b, q, remaining - 1, [path[0]], Some(d), single, fuel - k) else []
    decreases fuel, 0
  {
    var next := Next(pos, d);
    assert Spend(b, next, remaining) == remaining;
    ExploreOnlyStraight(b, pos, remaining, path, d, single, fuel);
    HeadOfExtended(path, next);
    ExploreStraight(b, next, remaining, path + [next], d, single, fuel - 1);
    NearestSkipsEmpty(b, pos, d);
    match Nearest(b, next, d)
    case None =>
    case Some((q, k)) => assert fuel - 1 - k == fuel - (k + 1);
  }

  /** The straight phase next to an occupied cell: that cell is the nearest, one step away. */
  lemma StraightHit(b: Board, pos: Position, remaining: nat, path: seq<Position>,
                    d: Direction, single: bool, fuel: nat)
    requires InBounds(pos) && |path| > 0 && InBounds(path[0]) && d in DIRECTIONS
    requires remaining > 0 && BudgetUnspent(b, path, remaining) && fuel > 0
    requires InBounds(Next(pos, d)) && |CellAt(b, Next(pos, d))| > 0
    ensures Nearest(b, pos, d) == Some((Next(pos, d), 1))
    ensures Explore(b, pos, remaining, path, Some(d), single, fuel) ==
            Explore(b, Next(pos, d), remaining - 1, [path[0]], Some(d), single, fuel - 1)
  {
    var next := Next(pos, d);
    ExploreOnlyStraight(b, pos, remaining, path, d, single, fuel);
    HeadOfExtended(path, next);
    ExploreHeadOnly(b, next, remaining - 1, path + [next], [path[0]], Some(d), single, fuel - 1);
  }

  /** Past an empty neighbour, the nearest occupied cell along `d` is one step further than from that neighbour. */
  lemma NearestSkipsEmpty(b: Board, pos: Position, d: Direction)
    requires InBounds(pos) && d in DIRECTIONS && InBounds(Next(pos, d)) && |CellAt(b, Next(pos, d))| == 0
    ensures Nearest(b, pos, d) == match Nearest(b, Next(pos, d), d)
                                  case None => None
                                  case Some((q, k)) => Some((q, k + 1))
  {
  }

  /** While the budget is unspent, a search with fuel left only tries the current direction. */
  lemma ExploreOnlyStraight(b: Board, pos: Position, remaining: nat, path: seq<Position>,
                            d: Direction, single: bool, fuel: nat)
    requires InBounds(pos) && |path| > 0 && InBounds(path[0]) && d in DIRECTIONS
    requires remaining > 0 && fuel > 0 && BudgetUnspent(b, path, remaining)
    ensures Explore(b, pos, remaining, path, Some(d), single, fuel) ==
            var next := Next(pos, d);
            if !InBounds(next) then []
            else Explore(b, next, Spend(b, next, remaining), path + [next], Some(d), single, fuel - 1)
  {
    DirectionsAreUnitSteps(d);
    ExploreUnfold(b, pos, remaining, path, Some(d), single, fuel);
    forall dir | dir in DIRECTIONS && dir != d
      ensures ExploreStep(b, pos, remaining, path, Some(d), single, fuel, dir) == []
    {
    }
  }

  /** The destination found along direction `d` by a source of top value 1, if any. */
  function RayHit(b: Board, from: Position, d: Direction, single: bool): (r: seq<Position>)
    requires InBounds(from) && d in DIRECTIONS
    ensures |r| <= 1 && forall q :: q in r ==> OnRay(from, d, q)
  {
    match Nearest(b, from, d)
    case None => []
    case Some((q, _)) => if (|CellAt(b, q)| == 1) == single then [q] else []
  }

  lemma {:induction false} TopValueOneStep(b: Board, from: Position, single: bool, fuel: nat, d: Direction)
    requires InBounds(from) && TopValue(CellAt(b, from)) == Some(1) && fuel >= 5 && d in DIRECTIONS
    ensures ExploreStep(b, from, 1, [from], None, single, fuel, d) == RayHit(b, from, d, single)
  {
    var next := Next(from, d);
    StepStaysOnBoard(from, d);
    if InBounds(next) && |CellAt(b, next)| == 0 {
      StepStaysOnBoard(next, d);
      assert BudgetUnspent(b, [from, next], 1);
      assert [from] + [next] == [from, next];
      ExploreStraight(b, next, 1, [from, next], d, single, fuel - 1);
    }
  }

  function SetOf(x: seq<Position>): (r: set<Position>)
    ensures forall q :: q in r <==> q in x
  {
    if x == [] then {} else {x[0]} + SetOf(x[1..])
  }

  lemma {:induction false} DedupKeepsFresh(x: seq<Position>, rest: seq<Position>, from: Position, seen: set<Position>)
    requires |x| <= 1 && forall q :: q in x ==> q != from && q !in seen
    ensures Dedup(x + rest, from, seen) == x + Dedup(rest, from, seen + SetOf(x))
  {
    if x == [] {
      assert x + rest == rest;
      assert seen + SetOf(x) == seen;
    } else {
      assert (x + rest)[0] == x[0] && (x + rest)[1..] == rest;
      assert seen + SetOf(x) == seen + {x[0]};
    }
  }

  /** Four sequences of at most one position each, none repeating an earlier one or `from`, pass the filter unchanged. */
  lemma {:induction false} DedupKeepsFour(h0: seq<Position>, h1: seq<Position>, h2: seq<Position>, h3: seq<Position>, from: Position)
    requires |h0| <= 1 && |h1| <= 1 && |h2| <= 1 && |h3| <= 1
    requires forall q :: q in h0 ==> q != from
    requires forall q :: q in h1 ==> q != from && q !in h0
    requires forall q :: q in h2 ==> q != from && q !in h0 && q !in h1
    requires forall q :: q in h3 ==> q != from && q !in h0 && q !in h1 && q !in h2
    ensures Dedup(h0 + h1 + h2 + h3, from, {}) == h0 + h1 + h2 + h3
  {
    var s1 := {} + SetOf(h0);
    var s2 := s1 + SetOf(h1);
    var s3 := s2 + SetOf(h2);
    assert Dedup(h3, from, s3) == h3 by {
      forall q | q in h3 ensures q != from && q !in s3 {
      }
      DedupKeepsFresh(h3, [], from, s3);
      assert h3 + [] == h3;
    }
    assert Dedup(h2 + h3, from, s2) == h2 + h3 by {
      forall q | q in h2 ensures q != from && q !in s2 {
      }
      DedupKeepsFresh(h2, h3, from, s2);
    }
    assert Dedup(h1 + (h2 + h3), from, s1) == h1 + (h2 + h3) by {
      forall q | q in h1 ensures q != from && q !in s1 {
      }
      DedupKeepsFresh(h1, h2 + h3, from, s1);
    }
    assert Dedup(h0 + (h1 + (h2 + h3)), from, {}) == h0 + (h1 + (h2 + h3)) by {
      DedupKeepsFresh(h0, h1 + (h2 + h3), from, {});
    }
    FourAssociate(h0, h1, h2, h3);
  }

  lemma FourAssociate(h0: seq<Position>, h1: seq<Position>, h2: seq<Position>, h3: seq<Position>)
    ensures h0 + h1 + h2 + h3 == h0 + (h1 + (h2 + h3))
  {
    assert h0 + h1 + h2 == h0 + (h1 + h2);
    assert h0 + (h1 + h2) + h3 == h0 + (h1 + h2 + h3);
    assert h1 + h2 + h3 == h1 + (h2 + h3);
  }

  lemma RaysAreDisjoint(from: Position, d: Direction, e: Direction, q: Position)
    requires d in DIRECTIONS && e in DIRECTIONS && d != e && OnRay(from, d, q)
    ensures !OnRay(from, e, q) && q != from
  {
  }

  /** The four ray hits of a source are distinct and none of them is the source. */
  lemma {:induction false} RayHitsAreKept(b: Board, from: Position, single: bool)
    requires InBounds(from)
    ensures var h0, h1, h2, h3 := RayHit(b, from, DIRECTIONS[0], single), RayHit(b, from, DIRECTIONS[1], single),
                                  RayHit(b, from, DIRECTIONS[2], single), RayHit(b, from, DIRECTIONS[3], single);
            Dedup(h0 + h1 + h2 + h3, from, {}) == h0 + h1 + h2 + h3
  {
    var h0 := RayHit(b, from, DIRECTIONS[0], single);
    var h1 := RayHit(b, from, DIRECTIONS[1], single);
    var h2 := RayHit(b, from, DIRECTIONS[2], single);
    var h3 := RayHit(b, from, DIRECTIONS[3], single);
    forall q | q in h0 ensures q != from {
      RaysAreDisjoint(from, DIRECTIONS[0], DIRECTIONS[1], q);
    }
    forall q | q in h1 ensures q != from && q !in h0 {
      RaysAreDisjoint(from, DIRECTIONS[1], DIRECTIONS[0], q);
    }
    forall q | q in h2 ensures q != from && q !in h0 && q !in h1 {
      RaysAreDisjoint(from, DIRECTIONS[2], DIRECTIONS[0], q);
      RaysAreDisjoint(from, DIRECTIONS[2], DIRECTIONS[1], q);
    }
    forall q | q in h3 ensures q != from && q !in h0 && q !in h1 && q !in h2 {
      RaysAreDisjoint(from, DIRECTIONS[3], DIRECTIONS[0], q);
      RaysAreDisjoint(from, DIRECTIONS[3], DIRECTIONS[1], q);
      RaysAreDisjoint(from, DIRECTIONS[3], DIRECTIONS[2], q);
    }
    DedupKeepsFour(h0, h1, h2, h3, from);
  }

  /**
   * A source whose top value is 1 moves exactly onto the nearest occupied cell in each of the four
   * directions, in the order up, down, left, right, keeping those whose single/stack status
   * matches the source's. This holds for every fuel of at least 5, so the result no longer depends
   * on the fuel; MoveCycles.TopValueOneCallsBounded bounds the depth of the recursion itself.
   */
  lemma {:induction false} TopValueOneMoves(b: Board, from: Position, fuel: nat)
    requires InBounds(from) && TopValue(CellAt(b, from)) == Some(1) && fuel >= 5
    ensures var single := |CellAt(b, from)| == 1;
            LegalMoves(b, from, fuel) == RayHit(b, from, DIRECTIONS[0], single) + RayHit(b, from, DIRECTIONS[1], single)
                                       + RayHit(b, from, DIRECTIONS[2], single) + RayHit(b, from, DIRECTIONS[3], single)
  {
    var single := |CellAt(b, from)| == 1;
    ExploreUnfold(b, from, 1, [from], None, single, fuel);
    TopValueOneStep(b, from, single, fuel, DIRECTIONS[0]);
    TopValueOneStep(b, from, single, fuel, DIRECTIONS[1]);
    TopValueOneStep(b, from, single, fuel, DIRECTIONS[2]);
    TopValueOneStep(b, from, single, fuel, DIRECTIONS[3]);
    RayHitsAreKept(b, from, single);
  }

  /** For a source of top value 1 the result no longer depends on the fuel once it is at least 5. */
  lemma {:induction false} TopValueOneFuelSuffices(b: Board, from: Position, fuel: nat, fuel': nat)
    requires InBounds(from) && TopValue(CellAt(b, from)) == Some(1) && fuel >= 5 && fuel' >= 5
    ensures LegalMoves(b, from, fuel) == LegalMoves(b, from, fuel')
  {
    TopValueOneMoves(b, from, fuel);
    TopValueOneMoves(b, from, fuel');
  }
}
