/**
 * The move generator (src/gameLogic.ts, lines 77-193).
 *
 * The search of the source is a recursion that is not guaranteed to stop: once budget has been
 * spent it may turn on empty cells, which cost nothing, and so circle for ever. The model bounds
 * the depth with `fuel`: a call that still has budget but no fuel left contributes nothing.
 * Every property of the result below holds for every fuel value.
 */
module MoveSearch {
  import opened Types
  import opened Accessors

  /** A cell where a path may end: occupied, and single exactly when the source is single. */
  predicate Accepts(b: Board, p: Position, sourceSingle: bool)
    requires InBounds(p)
  {
    |CellAt(b, p)| > 0 && (|CellAt(b, p)| == 1) == sourceSingle
  }

  /**
   * The turning restriction of line 116: the remaining budget still equals the top value of the
   * cell at the head of the visited path (the source), i.e. nothing has been spent yet.
   */
  predicate BudgetUnspent(b: Board, path: seq<Position>, remaining: nat)
    requires |path| > 0 && InBounds(path[0])
  {
    var top := TopValue(CellAt(b, path[0]));
    top.Some? && top.value == remaining
  }

  /** `exploreMoves`: every destination reachable from `pos` with `remaining` budget. */
  function Explore(b: Board, pos: Position, remaining: nat, path: seq<Position>,
                   last: Option<Direction>, sourceSingle: bool, fuel: nat): (r: seq<Position>)
    requires InBounds(pos) && |path| > 0 && InBounds(path[0])
    decreases fuel, 5
  {
    if remaining == 0 then
      var cell := CellAt(b, pos);
      if |cell| == 0 then []
      else if sourceSingle && |cell| == 1 then [pos]
      else if !sourceSingle && |cell| != 1 then [pos]
      else []
    else if fuel == 0 then []
    else ExploreDirections(b, pos, remaining, path, last, sourceSingle, fuel, 4)
  }

  /** The results of the first `k` iterations of the loop over DIRECTIONS, concatenated in order. */
  function ExploreDirections(b: Board, pos: Position, remaining: nat, path: seq<Position>,
                             last: Option<Direction>, sourceSingle: bool, fuel: nat, k: nat): (r: seq<Position>)
    requires InBounds(pos) && |path| > 0 && InBounds(path[0])
    requires remaining > 0 && fuel > 0 && k <= 4
    decreases fuel, k
  {
    if k == 0 then []
    else ExploreDirections(b, pos, remaining, path, last, sourceSingle, fuel, k - 1)
         + ExploreStep(b, pos, remaining, path, last, sourceSingle, fuel, DIRECTIONS[k - 1])
  }

  /** One iteration of the loop over DIRECTIONS: the destinations found by first stepping in `dir`. */
  function ExploreStep(b: Board, pos: Position, remaining: nat, path: seq<Position>,
                       last: Option<Direction>, sourceSingle: bool, fuel: nat, dir: Direction): (r: seq<Position>)
    requires InBounds(pos) && |path| > 0 && InBounds(path[0])
    requires remaining > 0 && fuel > 0
    decreases fuel, 0
  {
    if last.Some? && IsOpposite(dir, last.value) then []
    else if last.Some? && dir != last.value && BudgetUnspent(b, path, remaining) then []
    else
      var next := Next(pos, dir);
      if !InBounds(next) then []
      else if |CellAt(b, next)| == 0 then
        Explore(b, next, remaining, path + [next], Some(dir), sourceSingle, fuel - 1)
      else
        Explore(b, next, remaining - 1, path + [next], Some(dir), sourceSingle, fuel - 1)
  }

  /** Every position the search returns is on the board, occupied, and single exactly when the source is. */
  lemma {:induction false} ExploreAccepts(b: Board, pos: Position, remaining: nat, path: seq<Position>,
                                          last: Option<Direction>, sourceSingle: bool, fuel: nat, p: Position)
    requires InBounds(pos) && |path| > 0 && InBounds(path[0])
    requires p in Explore(b, pos, remaining, path, last, sourceSingle, fuel)
    ensures InBounds(p) && Accepts(b, p, sourceSingle)
    decreases fuel, 5
  {
    if remaining > 0 {
      DirectionsAccept(b, pos, remaining, path, last, sourceSingle, fuel, 4, p);
    }
  }

  lemma {:induction false} DirectionsAccept(b: Board, pos: Position, remaining: nat, path: seq<Position>,
                                            last: Option<Direction>, sourceSingle: bool, fuel: nat, k: nat, p: Position)
    requires InBounds(pos) && |path| > 0 && InBounds(path[0]) && remaining > 0 && fuel > 0 && k <= 4
    requires p in ExploreDirections(b, pos, remaining, path, last, sourceSingle, fuel, k)
    ensures InBounds(p) && Accepts(b, p, sourceSingle)
    decreases fuel, k
  {
    if p in ExploreStep(b, pos, remaining, path, last, sourceSingle, fuel, DIRECTIONS[k - 1]) {
      StepAccepts(b, pos, remaining, path, last, sourceSingle, fuel, DIRECTIONS[k - 1], p);
    } else {
      DirectionsAccept(b, pos, remaining, path, last, sourceSingle, fuel, k - 1, p);
    }
  }

  /** Every position found by first stepping in `dir` is on the board and accepts the source. */
  lemma {:induction false} StepAccepts(b: Board, pos: Position, remaining: nat, path: seq<Position>,
                                       last: Option<Direction>, sourceSingle: bool, fuel: nat, dir: Direction, p: Position)
    requires InBounds(pos) && |path| > 0 && InBounds(path[0]) && remaining > 0 && fuel > 0
    requires p in ExploreStep(b, pos, remaining, path, last, sourceSingle, fuel, dir)
    ensures InBounds(p) && Accepts(b, p, sourceSingle)
    decreases fuel, 0
  {
    var next := Next(pos, dir);
    HeadOfExtended(path, next);
    if |CellAt(b, next)| == 0 {
      ExploreAccepts(b, next, remaining, path + [next], Some(dir), sourceSingle, fuel - 1, p);
    } else {
      ExploreAccepts(b, next, remaining - 1, path + [next], Some(dir), sourceSingle, fuel - 1, p);
    }
  }

  lemma ExploreAcceptsAll(b: Board, pos: Position, remaining: nat, path: seq<Position>,
                          last: Option<Direction>, sourceSingle: bool, fuel: nat)
    requires InBounds(pos) && |path| > 0 && InBounds(path[0])
    ensures forall p :: p in Explore(b, pos, remaining, path, last, sourceSingle, fuel) ==> InBounds(p) && Accepts(b, p, sourceSingle)
  {
    forall p | p in Explore(b, pos, remaining, path, last, sourceSingle, fuel) ensures InBounds(p) && Accepts(b, p, sourceSingle) {
      ExploreAccepts(b, pos, remaining, path, last, sourceSingle, fuel, p);
    }
  }

  /** `exploreMoves` as the source writes it: a loop over DIRECTIONS collecting the recursive results. */
  method ExploreMoves(b: Board, pos: Position, remaining: nat, path: seq<Position>,
                      last: Option<Direction>, sourceSingle: bool, fuel: nat) returns (r: seq<Position>)
    requires InBounds(pos) && |path| > 0 && InBounds(path[0])
    ensures r == Explore(b, pos, remaining, path, last, sourceSingle, fuel)
    decreases fuel, 1
  {
    if remaining == 0 {
      var cell := CellAt(b, pos);
      if |cell| == 0 {
        return [];
      }
      var isDestSingle := |cell| == 1;
      if sourceSingle && isDestSingle {
        return [pos];
      } else if !sourceSingle && !isDestSingle {
        return [pos];
      }
      return [];
    }
    if fuel == 0 {
      return [];
    }
    r := [];
    for k := 0 to 4
      invariant r == ExploreDirections(b, pos, remaining, path, last, sourceSingle, fuel, k)
    {
      var found := ExploreDirection(b, pos, remaining, path, last, sourceSingle, fuel, DIRECTIONS[k]);
      r := r + found;
    }
  }

  /**
   * The body of the loop over DIRECTIONS in `exploreMoves` for one direction: the checks that skip
   * it, then the recursive call over an empty or an occupied neighbour.
   */
  method ExploreDirection(b: Board, pos: Position, remaining: nat, path: seq<Position>,
                          last: Option<Direction>, sourceSingle: bool, fuel: nat, dir: Direction) returns (found: seq<Position>)
    requires InBounds(pos) && |path| > 0 && InBounds(path[0]) && remaining > 0 && fuel > 0
    ensures found == ExploreStep(b, pos, remaining, path, last, sourceSingle, fuel, dir)
    decreases fuel, 0
  {
    if last.Some? {
      if IsOpposite(dir, last.value) {
        return [];
      }
      if dir != last.value && BudgetUnspent(b, path, remaining) {
        return [];
      }
    }
    var next := Next(pos, dir);
    if !InBounds(next) {
      return [];
    }
    HeadOfExtended(path, next);
    if |CellAt(b, next)| == 0 {
      found := ExploreMoves(b, next, remaining, path + [next], Some(dir), sourceSingle, fuel - 1);
    } else {
      found := ExploreMoves(b, next, remaining - 1, path + [next], Some(dir), sourceSingle, fuel - 1);
    }
  }

  /**
   * The duplicate filter of lines 180-190: keeps the first occurrence of every position other
   * than `from` that is not in `seen`, in order.
   */
  function Dedup(dests: seq<Position>, from: Position, seen: set<Position>): (r: seq<Position>)
    ensures forall p :: p in r <==> p in dests && p != from && p !in seen
    ensures forall i, j :: 0 <= i < j < |r| ==> r[i] != r[j]
  {
    if dests == [] then []
    else if dests[0] !in seen && dests[0] != from then
      [dests[0]] + Dedup(dests[1..], from, seen + {dests[0]})
    else
      Dedup(dests[1..], from, seen)
  }

  /** `getLegalMoves`: the distinct destinations of the stack at `from`, never `from` itself. */
  function LegalMoves(b: Board, from: Position, fuel: nat): (r: seq<Position>)
    requires InBounds(from)
    ensures |CellAt(b, from)| == 0 ==> r == []
    ensures forall p :: p in r ==> InBounds(p) && p != from && Accepts(b, p, |CellAt(b, from)| == 1)
    ensures forall i, j :: 0 <= i < j < |r| ==> r[i] != r[j]
  {
    var cell := CellAt(b, from);
    if |cell| == 0 then []
    else
      var top := TopValue(cell);
      if top.None? then []
      else
        ExploreAcceptsAll(b, from, top.value, [from], None, |cell| == 1, fuel);
        Dedup(Explore(b, from, top.value, [from], None, |cell| == 1, fuel), from, {})
  }

  /** `getLegalMoves` as the source writes it: the search, then a loop with a set of seen keys. */
  method GetLegalMoves(b: Board, from: Position, fuel: nat) returns (moves: seq<Position>)
    requires InBounds(from)
    ensures moves == LegalMoves(b, from, fuel)
  {
    var cell := CellAt(b, from);
    if |cell| == 0 {
      return [];
    }
    var topValue := TopValue(cell);
    if topValue.None? {
      return [];
    }
    var isSourceSingle := |cell| == 1;
    var destinations := ExploreMoves(b, from, topValue.value, [from], None, isSourceSingle, fuel);
    moves := [];
    var seen: set<Position> := {};
    for i := 0 to |destinations|
      invariant moves + Dedup(destinations[i..], from, seen) == Dedup(destinations, from, {})
    {
      var dest := destinations[i];
      assert destinations[i..][0] == dest && destinations[i..][1..] == destinations[i + 1..];
      if dest !in seen && dest != from {
        seen := seen + {dest};
        moves := moves + [dest];
      }
    }
    assert destinations[|destinations|..] == [];
  }
}
