/**
 * The search of `exploreMoves` as a transition system. A state is the current cell, the remaining
 * budget and the previous direction; one step is a recursive call. Stepping onto an empty cell costs
 * nothing, and once some budget has been spent turns are allowed, so a walk can circle over empty
 * cells and come back to a state it has already been in: the search as written then recurses
 * without end. The fuel of the model bounds the depth of that recursion.
 */
module MoveCycles {
  import opened Types
  import opened Accessors
  import opened MoveSearch
  import opened MoveWalks
  import opened MoveTermination

  /** The arguments of one call of `exploreMoves` that matter: the visited path only counts through its head. */
  datatype SearchState = SearchState(pos: Position, remaining: nat, last: Option<Direction>)

  /** One step of the walk rules from `s` in direction `dir`, if the rules allow it. */
  function Advance(b: Board, top: Option<Value>, s: SearchState, dir: Direction): (r: Option<SearchState>)
    requires InBounds(s.pos)
    ensures r.Some? ==> InBounds(r.value.pos) && r.value.pos == Next(s.pos, dir) && r.value.last == Some(dir)
    ensures r.Some? ==> r.value.remaining <= s.remaining && s.remaining > 0
  {
    var next := Next(s.pos, dir);
    if s.remaining > 0 && MayStep(top, s.last, dir, s.remaining) && InBounds(next)
    then Some(SearchState(next, Spend(b, next, s.remaining), Some(dir)))
    else None
  }

  /** The state reached by taking the steps `ds` in turn; None as soon as one is not allowed. */
  function AdvanceAll(b: Board, top: Option<Value>, s: SearchState, ds: seq<Direction>): (r: Option<SearchState>)
    requires InBounds(s.pos)
    ensures r.Some? ==> InBounds(r.value.pos) && r.value.pos == WalkEnd(s.pos, ds)
    decreases |ds|
  {
    if ds == [] then Some(s)
    else match Advance(b, top, s, ds[0])
      case None => None
      case Some(s') => AdvanceAll(b, top, s', ds[1..])
  }

  /**
   * The loop body of `exploreMoves` for direction `dir` makes exactly the recursive call that
   * `Advance` describes, and contributes nothing when `Advance` refuses the step.
   */
  lemma AdvanceIsStep(b: Board, pos: Position, remaining: nat, path: seq<Position>,
                      last: Option<Direction>, single: bool, fuel: nat, dir: Direction)
    requires InBounds(pos) && |path| > 0 && InBounds(path[0]) && remaining > 0 && fuel > 0 && dir in DIRECTIONS
    ensures match Advance(b, TopValue(CellAt(b, path[0])), SearchState(pos, remaining, last), dir)
            case None => ExploreStep(b, pos, remaining, path, last, single, fuel, dir) == []
            case Some(s) => ExploreStep(b, pos, remaining, path, last, single, fuel, dir)
                            == Explore(b, s.pos, s.remaining, path + [s.pos], s.last, single, fuel - 1)
  {
  }

  /** A legal walk is a run of allowed steps that ends with no budget left on a cell that accepts the source. */
  lemma {:induction false} WalkIsAdvance(b: Board, top: Option<Value>, single: bool, s: SearchState, ds: seq<Direction>)
    requires InBounds(s.pos)
    ensures LegalWalk(b, top, single, s.pos, s.remaining, s.last, ds) <==>
            var r := AdvanceAll(b, top, s, ds);
            r.Some? && r.value.remaining == 0 && Accepts(b, r.value.pos, single)
    decreases |ds|
  {
    if ds != [] {
      match Advance(b, top, s, ds[0])
      case None =>
      case Some(s') => WalkIsAdvance(b, top, single, s', ds[1..]);
    }
  }

  /**
   * If the steps `ds` lead from `s` to `t`, the search started in `s` makes, |ds| calls deep, the
   * search started in `t`: everything found from `t` with the fuel left is found from `s`.
   */
  lemma {:induction false} ExploreReaches(b: Board, s: SearchState, t: SearchState, ds: seq<Direction>,
                                          path: seq<Position>, single: bool, fuel: nat, p: Position)
    requires InBounds(s.pos) && |path| > 0 && InBounds(path[0]) && |ds| <= fuel
    requires forall i :: 0 <= i < |ds| ==> ds[i] in DIRECTIONS
    requires AdvanceAll(b, TopValue(CellAt(b, path[0])), s, ds) == Some(t)
    requires p in Explore(b, t.pos, t.remaining, [path[0]], t.last, single, fuel - |ds|)
    ensures p in Explore(b, s.pos, s.remaining, path, s.last, single, fuel)
    decreases |ds|
  {
    var top := TopValue(CellAt(b, path[0]));
    if ds == [] {
      ExploreHeadOnly(b, s.pos, s.remaining, path, [path[0]], s.last, single, fuel);
    } else {
      var s' := Advance(b, top, s, ds[0]).value;
      var path' := path + [s'.pos];
      HeadOfExtended(path, s'.pos);
      forall i | 0 <= i < |ds[1..]| ensures ds[1..][i] in DIRECTIONS {
        assert ds[1..][i] == ds[i + 1];
      }
      ExploreReaches(b, s', t, ds[1..], path', single, fuel - 1, p);
      AdvanceIsStep(b, s.pos, s.remaining, path, s.last, single, fuel, ds[0]);
      assert ds[0] in DIRECTIONS;
      var j :| 0 <= j < 4 && DIRECTIONS[j] == ds[0];
      ExploreDirectionsMember(b, s.pos, s.remaining, path, s.last, single, fuel, 4, p);
    }
  }

  /** Taking `ds` and then `es` is taking `ds + es`. */
  lemma {:induction false} AdvanceAppend(b: Board, top: Option<Value>, s: SearchState, ds: seq<Direction>, es: seq<Direction>)
    requires InBounds(s.pos)
    ensures AdvanceAll(b, top, s, ds + es) ==
            match AdvanceAll(b, top, s, ds)
            case None => None
            case Some(t) => AdvanceAll(b, top, t, es)
    decreases |ds|
  {
    if ds == [] {
      assert ds + es == es;
    } else {
      assert (ds + es)[0] == ds[0] && (ds + es)[1..] == ds[1..] + es;
      match Advance(b, top, s, ds[0])
      case None =>
      case Some(s') => AdvanceAppend(b, top, s', ds[1..], es);
    }
  }

  /**
   * A trace of states each reached from the one before by the matching step of `ds` shows that
   * `ds` leads from the first state to the last.
   */
  lemma {:induction false} FollowTrace(b: Board, top: Option<Value>, states: seq<SearchState>, ds: seq<Direction>)
    requires |states| == |ds| + 1 && InBounds(states[0].pos)
    requires forall i :: 0 <= i < |ds| ==> InBounds(states[i].pos) && Advance(b, top, states[i], ds[i]) == Some(states[i + 1])
    ensures AdvanceAll(b, top, states[0], ds) == Some(states[|ds|])
    decreases |ds|
  {
    if ds != [] {
      forall i | 0 <= i < |ds[1..]|
        ensures InBounds(states[1..][i].pos) && Advance(b, top, states[1..][i], ds[1..][i]) == Some(states[1..][i + 1])
      {
        assert states[1..][i] == states[i + 1] && ds[1..][i] == ds[i + 1] && states[1..][i + 1] == states[i + 2];
      }
      FollowTrace(b, top, states[1..], ds[1..]);
    }
  }

  /** `ds` repeated `k` times. */
  function Repeat(ds: seq<Direction>, k: nat): (r: seq<Direction>)
    ensures |r| == k * |ds|
    ensures forall i :: 0 <= i < |r| ==> r[i] in ds
  {
    if k == 0 then [] else ds + Repeat(ds, k - 1)
  }

  /** A cycle of steps that returns to its starting state can be taken any number of times. */
  lemma {:induction false} CycleRepeats(b: Board, top: Option<Value>, s: SearchState, ds: seq<Direction>, k: nat)
    requires InBounds(s.pos) && AdvanceAll(b, top, s, ds) == Some(s)
    ensures AdvanceAll(b, top, s, Repeat(ds, k)) == Some(s)
  {
    if k > 0 {
      CycleRepeats(b, top, s, ds, k - 1);
      AdvanceAppend(b, top, s, ds, Repeat(ds, k - 1));
    }
  }

  /**
   * Steps `pre` that lead from `s` to a state `c` that the cycle `cyc` leads back to give calls
   * of the search at every depth |pre| + k|cyc|, and whatever such a call finds is found from `s`.
   */
  lemma CycleReachedForever(b: Board, s: SearchState, c: SearchState, pre: seq<Direction>, cyc: seq<Direction>,
                            k: nat, source: Position, single: bool, fuel: nat, p: Position)
    requires InBounds(s.pos) && InBounds(c.pos) && InBounds(source)
    requires forall i :: 0 <= i < |pre| ==> pre[i] in DIRECTIONS
    requires forall i :: 0 <= i < |cyc| ==> cyc[i] in DIRECTIONS
    requires AdvanceAll(b, TopValue(CellAt(b, source)), s, pre) == Some(c)
    requires AdvanceAll(b, TopValue(CellAt(b, source)), c, cyc) == Some(c)
    ensures AdvanceAll(b, TopValue(CellAt(b, source)), s, pre + Repeat(cyc, k)) == Some(c)
    ensures |pre| + k * |cyc| <= fuel &&
            p in Explore(b, c.pos, c.remaining, [source], c.last, single, fuel - (|pre| + k * |cyc|))
            ==> p in Explore(b, s.pos, s.remaining, [source], s.last, single, fuel)
  {
    var top := TopValue(CellAt(b, source));
    var ds := pre + Repeat(cyc, k);
    CycleRepeats(b, top, c, cyc, k);
    AdvanceAppend(b, top, s, pre, Repeat(cyc, k));
    if |pre| + k * |cyc| <= fuel && p in Explore(b, c.pos, c.remaining, [source], c.last, single, fuel - (|pre| + k * |cyc|)) {
      StepsOfCycle(pre, cyc, k);
      assert |ds| == |pre| + k * |cyc|;
      assert [source][0] == source;
      ExploreReaches(b, s, c, ds, [source], single, fuel, p);
    }
  }

  /** Steps in DIRECTIONS followed by repetitions of a cycle of steps in DIRECTIONS are all in DIRECTIONS. */
  lemma StepsOfCycle(pre: seq<Direction>, cyc: seq<Direction>, k: nat)
    requires forall i :: 0 <= i < |pre| ==> pre[i] in DIRECTIONS
    requires forall i :: 0 <= i < |cyc| ==> cyc[i] in DIRECTIONS
    ensures forall i :: 0 <= i < |pre + Repeat(cyc, k)| ==> (pre + Repeat(cyc, k))[i] in DIRECTIONS
  {
    var ds := pre + Repeat(cyc, k);
    forall i | 0 <= i < |ds| ensures ds[i] in DIRECTIONS {
      if i >= |pre| {
        assert ds[i] == Repeat(cyc, k)[i - |pre|];
        var j :| 0 <= j < |cyc| && cyc[j] == ds[i];
      }
    }
  }

  /** Taking steps never adds to the budget. */
  lemma {:induction false} AdvanceAllSpends(b: Board, top: Option<Value>, s: SearchState, ds: seq<Direction>)
    requires InBounds(s.pos) && AdvanceAll(b, top, s, ds).Some?
    ensures AdvanceAll(b, top, s, ds).value.remaining <= s.remaining
    decreases |ds|
  {
    if ds != [] {
      AdvanceAllSpends(b, top, Advance(b, top, s, ds[0]).value, ds[1..]);
    }
  }

  /**
   * The straight phase ends: while the budget `v` of a source with top value `v` is unspent, every
   * nested call continues in direction `d`, so there are at most as many as the ray has cells.
   */
  lemma {:induction false} UnspentCallsBounded(b: Board, v: Value, pos: Position, d: Direction, ds: seq<Direction>)
    requires InBounds(pos) && d in DIRECTIONS
    requires var r := AdvanceAll(b, Some(v), SearchState(pos, v, Some(d)), ds);
             r.Some? && r.value.remaining == v
    ensures |ds| <= Reach(pos, d)
    decreases |ds|
  {
    if ds != [] {
      StepStaysOnBoard(pos, d);
      var s' := Advance(b, Some(v), SearchState(pos, v, Some(d)), ds[0]).value;
      assert ds[0] == d;
      AdvanceAllSpends(b, Some(v), s', ds[1..]);
      UnspentCallsBounded(b, v, s'.pos, d, ds[1..]);
    }
  }

  /**
   * From a cell reached with one unit of a top value of 1 left, the search only goes straight on
   * until it spends that unit, and stops there: at most as many nested calls as the ray has cells.
   */
  lemma {:induction false} LastUnitCallsBounded(b: Board, pos: Position, d: Direction, ds: seq<Direction>)
    requires InBounds(pos) && d in DIRECTIONS
    requires AdvanceAll(b, Some(1), SearchState(pos, 1, Some(d)), ds).Some?
    ensures |ds| <= Reach(pos, d)
    decreases |ds|
  {
    if ds != [] {
      StepStaysOnBoard(pos, d);
      var s' := Advance(b, Some(1), SearchState(pos, 1, Some(d)), ds[0]).value;
      assert ds[0] == d;
      if s'.remaining == 1 {
        LastUnitCallsBounded(b, s'.pos, d, ds[1..]);
      }
    }
  }

  /**
   * The search for a source of top value 1 terminates: every chain of nested calls that the rules
   * allow is at most 5 deep, the length of the longest ray of the board.
   */
  lemma {:induction false} TopValueOneCallsBounded(b: Board, from: Position, ds: seq<Direction>)
    requires InBounds(from) && AdvanceAll(b, Some(1), SearchState(from, 1, None), ds).Some?
    ensures |ds| <= 5
  {
    if ds != [] {
      var d := ds[0];
      var s' := Advance(b, Some(1), SearchState(from, 1, None), d).value;
      StepStaysOnBoard(from, d);
      StepStaysOnBoard(s'.pos, d);
      if s'.remaining == 1 {
        LastUnitCallsBounded(b, s'.pos, d, ds[1..]);
      }
    }
  }
}
