/**
 * A declarative statement of the movement rules, as walks: a walk is the list of directions of the
 * steps a stack takes. The search of module MoveSearch finds exactly the end cells of the legal
 * walks that it has fuel for; the lemmas here state this and derive the shape of the walks.
 */
module MoveWalks {
  import opened Types
  import opened Accessors
  import opened MoveSearch

  /**
   * The direction rule: never reverse the last step, and keep going straight while the remaining
   * budget still equals `top`, the top value of the source stack.
   */
  predicate MayStep(top: Option<Value>, last: Option<Direction>, dir: Direction, remaining: nat) {
    dir in DIRECTIONS &&
    match last
    case None => true
    case Some(l) => !IsOpposite(dir, l) && (dir == l || !(top.Some? && top.value == remaining))
  }

  /** The budget left after stepping onto `next`: empty cells are free, occupied ones cost 1. */
  function Spend(b: Board, next: Position, remaining: nat): nat
    requires InBounds(next) && remaining > 0
  {
    if |CellAt(b, next)| == 0 then remaining else remaining - 1
  }

  /**
   * `ds` is a legal walk from `pos` with `remaining` budget, the previous step being `last`:
   * every step obeys the direction rule and stays on the board, the budget is positive before each
   * step, and the walk ends with no budget left on a cell that accepts the source stack.
   */
  predicate LegalWalk(b: Board, top: Option<Value>, sourceSingle: bool, pos: Position,
                      remaining: nat, last: Option<Direction>, ds: seq<Direction>)
    requires InBounds(pos)
    decreases |ds|
  {
    if ds == [] then remaining == 0 && Accepts(b, pos, sourceSingle)
    else
      remaining > 0 && MayStep(top, last, ds[0], remaining) && InBounds(Next(pos, ds[0])) &&
      LegalWalk(b, top, sourceSingle, Next(pos, ds[0]), Spend(b, Next(pos, ds[0]), remaining), Some(ds[0]), ds[1..])
  }

  /** Where a walk ends. */
  function WalkEnd(pos: Position, ds: seq<Direction>): Position
    decreases |ds|
  {
    if ds == [] then pos else WalkEnd(Next(pos, ds[0]), ds[1..])
  }

  lemma {:induction false} ExploreDirectionsMember(b: Board, pos: Position, remaining: nat, path: seq<Position>,
                                                   last: Option<Direction>, single: bool, fuel: nat, k: nat, p: Position)
    requires InBounds(pos) && |path| > 0 && InBounds(path[0]) && remaining > 0 && fuel > 0 && k <= 4
    ensures p in ExploreDirections(b, pos, remaining, path, last, single, fuel, k) <==>
            exists j :: 0 <= j < k && p in ExploreStep(b, pos, remaining, path, last, single, fuel, DIRECTIONS[j])
    decreases k
  {
    if k > 0 {
      ExploreDirectionsMember(b, pos, remaining, path, last, single, fuel, k - 1, p);
    }
  }

  /** Soundness of the search: each position it returns ends a legal walk no longer than the fuel. */
  lemma {:induction false} ExploreSound(b: Board, pos: Position, remaining: nat, path: seq<Position>,
                                        last: Option<Direction>, single: bool, fuel: nat, p: Position)
    requires InBounds(pos) && |path| > 0 && InBounds(path[0])
    requires p in Explore(b, pos, remaining, path, last, single, fuel)
    ensures exists ds :: |ds| <= fuel && LegalWalk(b, TopValue(CellAt(b, path[0])), single, pos, remaining, last, ds)
                         && WalkEnd(pos, ds) == p
    decreases fuel, 1
  {
    if remaining == 0 {
      assert LegalWalk(b, TopValue(CellAt(b, path[0])), single, pos, remaining, last, []) && WalkEnd(pos, []) == p;
    } else {
      ExploreDirectionsMember(b, pos, remaining, path, last, single, fuel, 4, p);
      var j :| 0 <= j < 4 && p in ExploreStep(b, pos, remaining, path, last, single, fuel, DIRECTIONS[j]);
      StepSound(b, pos, remaining, path, last, single, fuel, DIRECTIONS[j], p);
    }
  }

  /** Soundness of one iteration: what stepping first in `dir` finds ends a legal walk that starts with `dir`. */
  lemma {:induction false} StepSound(b: Board, pos: Position, remaining: nat, path: seq<Position>,
                                     last: Option<Direction>, single: bool, fuel: nat, dir: Direction, p: Position)
    requires InBounds(pos) && |path| > 0 && InBounds(path[0]) && remaining > 0 && fuel > 0 && dir in DIRECTIONS
    requires p in ExploreStep(b, pos, remaining, path, last, single, fuel, dir)
    ensures exists ds :: |ds| <= fuel && LegalWalk(b, TopValue(CellAt(b, path[0])), single, pos, remaining, last, ds)
                         && WalkEnd(pos, ds) == p
    decreases fuel, 0
  {
    var top := TopValue(CellAt(b, path[0]));
    var next := Next(pos, dir);
    assert InBounds(next);
    var remaining' := Spend(b, next, remaining);
    HeadOfExtended(path, next);
    assert p in Explore(b, next, remaining', path + [next], Some(dir), single, fuel - 1);
    ExploreSound(b, next, remaining', path + [next], Some(dir), single, fuel - 1, p);
    var ds' :| |ds'| <= fuel - 1 && LegalWalk(b, top, single, next, remaining', Some(dir), ds') && WalkEnd(next, ds') == p;
    var ds := [dir] + ds';
    assert ds[0] == dir && ds[1..] == ds';
    assert LegalWalk(b, top, single, pos, remaining, last, ds);
  }

  /** Completeness of the search: the end of every legal walk the fuel covers is returned. */
  lemma {:induction false} ExploreComplete(b: Board, pos: Position, remaining: nat, path: seq<Position>,
                                           last: Option<Direction>, single: bool, fuel: nat, ds: seq<Direction>)
    requires InBounds(pos) && |path| > 0 && InBounds(path[0])
    requires LegalWalk(b, TopValue(CellAt(b, path[0])), single, pos, remaining, last, ds) && |ds| <= fuel
    ensures WalkEnd(pos, ds) in Explore(b, pos, remaining, path, last, single, fuel)
    decreases |ds|
  {
    if ds != [] {
      var dir := ds[0];
      var next := Next(pos, dir);
      var remaining' := Spend(b, next, remaining);
      HeadOfExtended(path, next);
      ExploreComplete(b, next, remaining', path + [next], Some(dir), single, fuel - 1, ds[1..]);
      var j :| 0 <= j < 4 && DIRECTIONS[j] == dir;
      assert WalkEnd(pos, ds) in ExploreStep(b, pos, remaining, path, last, single, fuel, DIRECTIONS[j]);
      ExploreDirectionsMember(b, pos, remaining, path, last, single, fuel, 4, WalkEnd(pos, ds));
    }
  }

  /** The search returns exactly the ends of the legal walks of length at most `fuel`. */
  lemma ExploreFindsWalkEnds(b: Board, pos: Position, remaining: nat, path: seq<Position>,
                             last: Option<Direction>, single: bool, fuel: nat, p: Position)
    requires InBounds(pos) && |path| > 0 && InBounds(path[0])
    ensures p in Explore(b, pos, remaining, path, last, single, fuel) <==>
            exists ds :: |ds| <= fuel && LegalWalk(b, TopValue(CellAt(b, path[0])), single, pos, remaining, last, ds)
                         && WalkEnd(pos, ds) == p
  {
    if p in Explore(b, pos, remaining, path, last, single, fuel) {
      ExploreSound(b, pos, remaining, path, last, single, fuel, p);
    }
    if exists ds :: |ds| <= fuel && LegalWalk(b, TopValue(CellAt(b, path[0])), single, pos, remaining, last, ds)
                    && WalkEnd(pos, ds) == p {
      var ds :| |ds| <= fuel && LegalWalk(b, TopValue(CellAt(b, path[0])), single, pos, remaining, last, ds)
                && WalkEnd(pos, ds) == p;
      ExploreComplete(b, pos, remaining, path, last, single, fuel, ds);
    }
  }

  /** A legal walk of the stack at `from`: budget its top value, no previous step. */
  predicate MoveWalk(b: Board, from: Position, ds: seq<Direction>)
    requires InBounds(from) && |CellAt(b, from)| > 0
  {
    var top := TopValue(CellAt(b, from));
    LegalWalk(b, top, |CellAt(b, from)| == 1, from, top.value, None, ds)
  }

  /**
   * `getLegalMoves` returns exactly the cells other than `from` at which some legal walk of the
   * stack at `from`, of at most `fuel` steps, ends.
   */
  lemma LegalMovesAreWalkEnds(b: Board, from: Position, fuel: nat, p: Position)
    requires InBounds(from) && |CellAt(b, from)| > 0
    ensures p in LegalMoves(b, from, fuel) <==>
            p != from && exists ds :: |ds| <= fuel && MoveWalk(b, from, ds) && WalkEnd(from, ds) == p
  {
    var cell := CellAt(b, from);
    ExploreFindsWalkEnds(b, from, TopValue(cell).value, [from], None, |cell| == 1, fuel, p);
  }

  /** More fuel only adds legal moves: the bound of the model cuts the search off, it never changes what it finds. */
  lemma LegalMovesGrowWithFuel(b: Board, from: Position, fuel: nat, fuel': nat, p: Position)
    requires InBounds(from) && fuel <= fuel' && p in LegalMoves(b, from, fuel)
    ensures p in LegalMoves(b, from, fuel')
  {
    LegalMovesAreWalkEnds(b, from, fuel, p);
    LegalMovesAreWalkEnds(b, from, fuel', p);
  }

  /** A legal walk never steps back in the direction it came from. */
  lemma {:induction false} WalkNeverReverses(b: Board, top: Option<Value>, single: bool, pos: Position,
                                             remaining: nat, last: Option<Direction>, ds: seq<Direction>)
    requires InBounds(pos) && LegalWalk(b, top, single, pos, remaining, last, ds)
    ensures last.Some? && |ds| > 0 ==> !IsOpposite(ds[0], last.value)
    ensures forall i :: 0 < i < |ds| ==> !IsOpposite(ds[i], ds[i - 1])
    decreases |ds|
  {
    if ds != [] {
      var next := Next(pos, ds[0]);
      WalkNeverReverses(b, top, single, next, Spend(b, next, remaining), Some(ds[0]), ds[1..]);
      forall i | 1 < i < |ds| ensures !IsOpposite(ds[i], ds[i - 1]) {
        assert ds[i] == ds[1..][i - 1] && ds[i - 1] == ds[1..][i - 2];
      }
    }
  }

  /** `q` lies strictly beyond `pos` on the straight line that leaves `pos` in direction `d`. */
  predicate OnRay(pos: Position, d: Direction, q: Position) {
    (d.dr == 0 ==> q.row == pos.row) && (d.dc == 0 ==> q.col == pos.col) &&
    (d.dr > 0 ==> q.row > pos.row) && (d.dr < 0 ==> q.row < pos.row) &&
    (d.dc > 0 ==> q.col > pos.col) && (d.dc < 0 ==> q.col < pos.col)
  }

  /** The nearest occupied cell from `pos` in direction `d`, with its distance; None if there is none. */
  function Nearest(b: Board, pos: Position, d: Direction): (r: Option<(Position, nat)>)
    requires InBounds(pos) && d in DIRECTIONS
    ensures r.Some? ==> InBounds(r.value.0) && |CellAt(b, r.value.0)| > 0 && OnRay(pos, d, r.value.0)
    ensures r.Some? ==> 1 <= r.value.1 <= Reach(pos, d)
    decreases Reach(pos, d)
  {
    var next := Next(pos, d);
    if !InBounds(next) then None
    else if |CellAt(b, next)| > 0 then Some((next, 1))
    else
      match Nearest(b, next, d)
      case None => None
      case Some((q, k)) => Some((q, k + 1))
  }

  /** The cell `i` steps from `pos` in direction `d`. */
  function Along(pos: Position, d: Direction, i: nat): Position
    decreases i
  {
    if i == 0 then pos else Along(Next(pos, d), d, i - 1)
  }

  /**
   * `Nearest` finds the nearest occupied cell: it lies `k` steps along `d`, and every cell strictly
   * before it is on the board and empty; None means every cell of the ray up to the edge is empty.
   */
  lemma {:induction false} NearestIsNearest(b: Board, pos: Position, d: Direction)
    requires InBounds(pos) && d in DIRECTIONS
    ensures match Nearest(b, pos, d)
            case None =>
              forall i :: 1 <= i <= Reach(pos, d) ==> InBounds(Along(pos, d, i)) && |CellAt(b, Along(pos, d, i))| == 0
            case Some((q, k)) =>
              q == Along(pos, d, k) &&
              forall i :: 1 <= i < k ==> InBounds(Along(pos, d, i)) && |CellAt(b, Along(pos, d, i))| == 0
    decreases Reach(pos, d)
  {
    var next := Next(pos, d);
    StepStaysOnBoard(pos, d);
    if InBounds(next) && |CellAt(b, next)| == 0 {
      NearestIsNearest(b, next, d);
      forall i | 1 <= i
        ensures Along(pos, d, i) == Along(next, d, i - 1)
      {
      }
      assert Along(pos, d, 1) == next;
    } else if InBounds(next) {
      assert Along(pos, d, 1) == Along(next, d, 0);
    }
  }

  /**
   * While nothing is spent the walk must keep direction `d`: it runs straight to the nearest
   * occupied cell in that direction (there must be one), and that is where it first spends budget.
   */
  lemma {:induction false} StraightRun(b: Board, top: Option<Value>, single: bool, pos: Position,
                                       remaining: nat, d: Direction, ds: seq<Direction>)
    requires InBounds(pos) && d in DIRECTIONS && remaining > 0 && top.Some? && top.value == remaining
    requires LegalWalk(b, top, single, pos, remaining, Some(d), ds)
    ensures Nearest(b, pos, d).Some?
    ensures var (q, k) := Nearest(b, pos, d).value;
            k <= |ds| && (forall i :: 0 <= i < k ==> ds[i] == d) && WalkEnd(pos, ds[..k]) == q
    decreases |ds|
  {
    var next := Next(pos, d);
    assert ds[0] == d;
    if |CellAt(b, next)| > 0 {
      assert ds[..1] == [d];
      assert WalkEnd(pos, ds[..1]) == WalkEnd(next, []);
    } else {
      StraightRun(b, top, single, next, remaining, d, ds[1..]);
      var (q, k) := Nearest(b, next, d).value;
      assert ds[..k + 1][1..] == ds[1..][..k];
      forall i | 0 <= i < k + 1 ensures ds[i] == d {
        if i > 0 {
          assert ds[i] == ds[1..][i - 1];
        }
      }
    }
  }

  /**
   * Every legal walk of a stack starts with a straight run along its first direction to the nearest
   * occupied cell in that direction: no turn is possible before budget is spent, and a direction
   * with only empty cells up to the edge of the board yields nothing.
   */
  lemma WalkStartsStraight(b: Board, from: Position, ds: seq<Direction>)
    requires InBounds(from) && |CellAt(b, from)| > 0 && MoveWalk(b, from, ds)
    ensures |ds| > 0 && ds[0] in DIRECTIONS && Nearest(b, from, ds[0]).Some?
    ensures var (q, k) := Nearest(b, from, ds[0]).value;
            k <= |ds| && (forall i :: 0 <= i < k ==> ds[i] == ds[0]) && WalkEnd(from, ds[..k]) == q
  {
    var top := TopValue(CellAt(b, from));
    var single := |CellAt(b, from)| == 1;
    FirstStepIsStraight(b, top, single, from, top.value, ds);
    StraightRun(b, top, single, from, top.value, ds[0], ds);
  }

  /** A walk with no previous step is also legal when its first direction is taken as the previous one. */
  lemma FirstStepIsStraight(b: Board, top: Option<Value>, single: bool, pos: Position, remaining: nat, ds: seq<Direction>)
    requires InBounds(pos) && LegalWalk(b, top, single, pos, remaining, None, ds)
    ensures remaining > 0 ==> |ds| > 0 && ds[0] in DIRECTIONS && LegalWalk(b, top, single, pos, remaining, Some(ds[0]), ds)
  {
    if ds != [] {
      DirectionsAreUnitSteps(ds[0]);
    }
  }
}
