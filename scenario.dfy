/**
 * A small board: a single black 2 at (2,2), single white 1s at (2,4) and (0,2), every other cell
 * empty. What the search as written does from (2,2) there: which cells end a legal walk, and why
 * the recursion of `getLegalMoves` does not end on this board.
 */
module Scenario {
  import opened Types
  import opened Accessors
  import opened MoveSearch
  import opened MoveWalks
  import opened MoveCycles

  const Up := Direction(-1, 0)
  const Down := Direction(1, 0)
  const Left := Direction(0, -1)
  const Right := Direction(0, 1)

  /** What the example board holds at row `r`, column `c`. */
  function ExampleCell(r: int, c: int): Cell {
    if r == 2 && c == 2 then [Piece(Black, 2)]
    else if (r == 2 && c == 4) || (r == 0 && c == 2) then [Piece(White, 1)]
    else []
  }

  function ExampleBoard(): Board {
    seq(6, r => seq(6, c => ExampleCell(r, c)))
  }

  lemma ExampleCellAt(p: Position)
    requires InBounds(p)
    ensures CellAt(ExampleBoard(), p) == ExampleCell(p.row, p.col)
  {
  }

  /** One step on the example board, for a black 2 at the source, in terms of the cells. */
  lemma ExampleStep(s: SearchState, dir: Direction)
    requires InBounds(s.pos)
    ensures var next := Next(s.pos, dir);
            Advance(ExampleBoard(), Some(2), s, dir) ==
            if s.remaining > 0 && MayStep(Some(2), s.last, dir, s.remaining) && InBounds(next)
            then Some(SearchState(next, if ExampleCell(next.row, next.col) == [] then s.remaining else s.remaining - 1, Some(dir)))
            else None
  {
    var next := Next(s.pos, dir);
    if InBounds(next) {
      ExampleCellAt(next);
    }
  }

  const Source := Position(2, 2)

  /** The search state of the first call: the whole budget of 2, no previous direction. */
  function Start(): SearchState {
    SearchState(Source, 2, None)
  }

  /** The top value that governs every turn of this search: that of the black 2. */
  function SourceTop(): (top: Option<Value>)
    ensures top == Some(2)
  {
    ExampleCellAt(Source);
    TopValue(CellAt(ExampleBoard(), Source))
  }

  /** Straight right from the source: (2,3) is free, (2,4) costs one unit. */
  lemma StraightRightTrace()
    ensures AdvanceAll(ExampleBoard(), Some(2), SearchState(Position(2, 2), 2, None), [Right, Right])
            == Some(SearchState(Position(2, 4), 1, Some(Right)))
  {
    var ds := [Right, Right];
    var states := [SearchState(Position(2, 2), 2, None),
                 SearchState(Position(2, 3), 2, Some(Right)),
                 SearchState(Position(2, 4), 1, Some(Right))];
    forall i | 0 <= i < |ds|
      ensures InBounds(states[i].pos) && Advance(ExampleBoard(), Some(2), states[i], ds[i]) == Some(states[i + 1])
    {
      if i == 0 {
        ExampleStep(states[0], ds[0]);
      } else if i == 1 {
        ExampleStep(states[1], ds[1]);
      }
    }
    FollowTrace(ExampleBoard(), Some(2), states, ds);
  }

  /** Right onto (2,4), up to (0,4), left onto (0,2). */
  lemma TurnedWalkTrace()
    ensures AdvanceAll(ExampleBoard(), Some(2), SearchState(Position(2, 2), 2, None), [Right, Right, Up, Up, Left, Left])
            == Some(SearchState(Position(0, 2), 0, Some(Left)))
  {
    var ds := [Right, Right, Up, Up, Left, Left];
    var states := [SearchState(Position(2, 2), 2, None),
                 SearchState(Position(2, 3), 2, Some(Right)),
                 SearchState(Position(2, 4), 1, Some(Right)),
                 SearchState(Position(1, 4), 1, Some(Up)),
                 SearchState(Position(0, 4), 1, Some(Up)),
                 SearchState(Position(0, 3), 1, Some(Left)),
                 SearchState(Position(0, 2), 0, Some(Left))];
    forall i | 0 <= i < |ds|
      ensures InBounds(states[i].pos) && Advance(ExampleBoard(), Some(2), states[i], ds[i]) == Some(states[i + 1])
    {
      if i == 0 {
        ExampleStep(states[0], ds[0]);
      } else if i == 1 {
        ExampleStep(states[1], ds[1]);
      } else if i == 2 {
        ExampleStep(states[2], ds[2]);
      } else if i == 3 {
        ExampleStep(states[3], ds[3]);
      } else if i == 4 {
        ExampleStep(states[4], ds[4]);
      } else if i == 5 {
        ExampleStep(states[5], ds[5]);
      }
    }
    FollowTrace(ExampleBoard(), Some(2), states, ds);
  }

  /** Up onto (0,2), right to (0,4), down onto (2,4). */
  lemma RoundaboutWalkTrace()
    ensures AdvanceAll(ExampleBoard(), Some(2), SearchState(Position(2, 2), 2, None), [Up, Up, Right, Right, Down, Down])
            == Some(SearchState(Position(2, 4), 0, Some(Down)))
  {
    var ds := [Up, Up, Right, Right, Down, Down];
    var states := [SearchState(Position(2, 2), 2, None),
                 SearchState(Position(1, 2), 2, Some(Up)),
                 SearchState(Position(0, 2), 1, Some(Up)),
                 SearchState(Position(0, 3), 1, Some(Right)),
                 SearchState(Position(0, 4), 1, Some(Right)),
                 SearchState(Position(1, 4), 1, Some(Down)),
                 SearchState(Position(2, 4), 0, Some(Down))];
    forall i | 0 <= i < |ds|
      ensures InBounds(states[i].pos) && Advance(ExampleBoard(), Some(2), states[i], ds[i]) == Some(states[i + 1])
    {
      if i == 0 {
        ExampleStep(states[0], ds[0]);
      } else if i == 1 {
        ExampleStep(states[1], ds[1]);
      } else if i == 2 {
        ExampleStep(states[2], ds[2]);
      } else if i == 3 {
        ExampleStep(states[3], ds[3]);
      } else if i == 4 {
        ExampleStep(states[4], ds[4]);
      } else if i == 5 {
        ExampleStep(states[5], ds[5]);
      }
    }
    FollowTrace(ExampleBoard(), Some(2), states, ds);
  }

  /** Right onto (2,4), down to (3,4), left to (3,2). */
  lemma ToRowThreeTrace()
    ensures AdvanceAll(ExampleBoard(), Some(2), SearchState(Position(2, 2), 2, None), [Right, Right, Down, Left, Left])
            == Some(SearchState(Position(3, 2), 1, Some(Left)))
  {
    var ds := [Right, Right, Down, Left, Left];
    var states := [SearchState(Position(2, 2), 2, None),
                 SearchState(Position(2, 3), 2, Some(Right)),
                 SearchState(Position(2, 4), 1, Some(Right)),
                 SearchState(Position(3, 4), 1, Some(Down)),
                 SearchState(Position(3, 3), 1, Some(Left)),
                 SearchState(Position(3, 2), 1, Some(Left))];
    forall i | 0 <= i < |ds|
      ensures InBounds(states[i].pos) && Advance(ExampleBoard(), Some(2), states[i], ds[i]) == Some(states[i + 1])
    {
      if i == 0 {
        ExampleStep(states[0], ds[0]);
      } else if i == 1 {
        ExampleStep(states[1], ds[1]);
      } else if i == 2 {
        ExampleStep(states[2], ds[2]);
      } else if i == 3 {
        ExampleStep(states[3], ds[3]);
      } else if i == 4 {
        ExampleStep(states[4], ds[4]);
      }
    }
    FollowTrace(ExampleBoard(), Some(2), states, ds);
  }

  /** On from (3,2): left to (3,0), up to the corner (0,0). */
  lemma RowThreeToCornerTrace()
    ensures AdvanceAll(ExampleBoard(), Some(2), SearchState(Position(3, 2), 1, Some(Left)), [Left, Left, Up, Up, Up])
            == Some(SearchState(Position(0, 0), 1, Some(Up)))
  {
    var ds := [Left, Left, Up, Up, Up];
    var states := [SearchState(Position(3, 2), 1, Some(Left)),
                 SearchState(Position(3, 1), 1, Some(Left)),
                 SearchState(Position(3, 0), 1, Some(Left)),
                 SearchState(Position(2, 0), 1, Some(Up)),
                 SearchState(Position(1, 0), 1, Some(Up)),
                 SearchState(Position(0, 0), 1, Some(Up))];
    forall i | 0 <= i < |ds|
      ensures InBounds(states[i].pos) && Advance(ExampleBoard(), Some(2), states[i], ds[i]) == Some(states[i + 1])
    {
      if i == 0 {
        ExampleStep(states[0], ds[0]);
      } else if i == 1 {
        ExampleStep(states[1], ds[1]);
      } else if i == 2 {
        ExampleStep(states[2], ds[2]);
      } else if i == 3 {
        ExampleStep(states[3], ds[3]);
      } else if i == 4 {
        ExampleStep(states[4], ds[4]);
      }
    }
    FollowTrace(ExampleBoard(), Some(2), states, ds);
  }

  /** Right onto (2,4), down to (3,4), left to (3,0), up to the corner (0,0). */
  lemma ToCornerTrace()
    ensures AdvanceAll(ExampleBoard(), Some(2), Start(), ToCorner) == Some(Corner())
  {
    ToRowThreeTrace();
    RowThreeToCornerTrace();
    AdvanceAppend(ExampleBoard(), Some(2), Start(), ToRowThree, RowThreeToCorner);
  }

  /** Round the empty square at the corner, back to the same state. */
  lemma AroundCornerTrace()
    ensures AdvanceAll(ExampleBoard(), Some(2), SearchState(Position(0, 0), 1, Some(Up)), [Right, Down, Left, Up])
            == Some(SearchState(Position(0, 0), 1, Some(Up)))
  {
    var ds := [Right, Down, Left, Up];
    var states := [SearchState(Position(0, 0), 1, Some(Up)),
                 SearchState(Position(0, 1), 1, Some(Right)),
                 SearchState(Position(1, 1), 1, Some(Down)),
                 SearchState(Position(1, 0), 1, Some(Left)),
                 SearchState(Position(0, 0), 1, Some(Up))];
    forall i | 0 <= i < |ds|
      ensures InBounds(states[i].pos) && Advance(ExampleBoard(), Some(2), states[i], ds[i]) == Some(states[i + 1])
    {
      if i == 0 {
        ExampleStep(states[0], ds[0]);
      } else if i == 1 {
        ExampleStep(states[1], ds[1]);
      } else if i == 2 {
        ExampleStep(states[2], ds[2]);
      } else if i == 3 {
        ExampleStep(states[3], ds[3]);
      }
    }
    FollowTrace(ExampleBoard(), Some(2), states, ds);
  }

  /**
   * Going straight right does not land on (2,4): the empty cell (2,3) is free, so reaching (2,4)
   * spends only one of the two units, and the walk must go on from there.
   */
  lemma StraightRightSpendsOne()
    ensures AdvanceAll(ExampleBoard(), SourceTop(), Start(), [Right, Right]) == Some(SearchState(Position(2, 4), 1, Some(Right)))
    ensures !MoveWalk(ExampleBoard(), Source, [Right, Right])
  {
    StraightRightTrace();
    ExampleCellAt(Source);
    WalkIsAdvance(ExampleBoard(), SourceTop(), true, Start(), [Right, Right]);
  }

  /**
   * (0,2) ends a legal walk of the black 2, and so is in `LegalMoves` for every fuel of at least 6:
   * right over (2,3) onto (2,4), which spends one unit and so allows the turn up, then over (1,4)
   * and (0,4) and left over (0,3) onto (0,2). (`getLegalMoves` itself does not return on this
   * board; see SearchNeverEnds.)
   */
  lemma TurnedWalkReachesTopCell(fuel: nat)
    requires fuel >= 6
    ensures Position(0, 2) in LegalMoves(ExampleBoard(), Source, fuel)
  {
    TurnedWalkLegal();
    ExampleCellAt(Source);
    LegalMovesAreWalkEnds(ExampleBoard(), Source, fuel, Position(0, 2));
  }

  lemma TurnedWalkLegal()
    ensures var ds := [Right, Right, Up, Up, Left, Left];
            MoveWalk(ExampleBoard(), Source, ds) && WalkEnd(Source, ds) == Position(0, 2)
  {
    TurnedWalkTrace();
    ExampleCellAt(Source);
    ExampleCellAt(Position(0, 2));
    WalkIsAdvance(ExampleBoard(), SourceTop(), true, Start(), [Right, Right, Up, Up, Left, Left]);
  }

  /**
   * (2,4) ends a legal walk of the black 2 too, and so is in `LegalMoves` for every fuel of at
   * least 6, but not by the straight line: up over (1,2) onto (0,2), which spends one unit, right
   * over (0,3) and (0,4), and down over (1,4) onto (2,4).
   */
  lemma RoundaboutWalkReachesRightCell(fuel: nat)
    requires fuel >= 6
    ensures Position(2, 4) in LegalMoves(ExampleBoard(), Source, fuel)
  {
    RoundaboutWalkLegal();
    ExampleCellAt(Source);
    LegalMovesAreWalkEnds(ExampleBoard(), Source, fuel, Position(2, 4));
  }

  lemma RoundaboutWalkLegal()
    ensures var ds := [Up, Up, Right, Right, Down, Down];
            MoveWalk(ExampleBoard(), Source, ds) && WalkEnd(Source, ds) == Position(2, 4)
  {
    RoundaboutWalkTrace();
    ExampleCellAt(Source);
    ExampleCellAt(Position(2, 4));
    WalkIsAdvance(ExampleBoard(), SourceTop(), true, Start(), [Up, Up, Right, Right, Down, Down]);
  }

  /** The state at the corner (0,0) with one unit left, having arrived upwards. */
  function Corner(): SearchState {
    SearchState(Position(0, 0), 1, Some(Up))
  }

  /** From (2,2): right onto (2,4), down, left along row 3 to (3,0), and up to the corner (0,0). */
  const ToRowThree := [Right, Right, Down, Left, Left]
  const RowThreeToCorner := [Left, Left, Up, Up, Up]
  const ToCorner := ToRowThree + RowThreeToCorner

  /** Round the empty square (0,0), (0,1), (1,1), (1,0) and back to the corner with the same state. */
  const AroundCorner := [Right, Down, Left, Up]

  /**
   * The search from (2,2) on this board never ends: for every k, the recursion reaches the corner
   * state again after 10 + 4k nested calls, so it has calls at every depth. With the fuel of the
   * model, whatever the corner search finds with the fuel left is in the result.
   */
  lemma SearchNeverEnds(k: nat, fuel: nat, p: Position)
    ensures AdvanceAll(ExampleBoard(), SourceTop(), Start(), ToCorner + Repeat(AroundCorner, k)) == Some(Corner())
    ensures fuel >= 10 + 4 * k &&
            p in Explore(ExampleBoard(), Corner().pos, 1, [Source], Corner().last, true, fuel - (10 + 4 * k))
            ==> p in Explore(ExampleBoard(), Source, 2, [Source], None, true, fuel)
  {
    CornerPremises();
    CycleReachedForever(ExampleBoard(), Start(), Corner(), ToCorner, AroundCorner, k, Source, true, fuel, p);
    assert |ToCorner| + k * |AroundCorner| == 10 + 4 * k;
  }

  /** The walk to the corner and the cycle round it, as the general cycle lemma needs them. */
  lemma CornerPremises()
    ensures forall i :: 0 <= i < |ToCorner| ==> ToCorner[i] in DIRECTIONS
    ensures forall i :: 0 <= i < |AroundCorner| ==> AroundCorner[i] in DIRECTIONS
    ensures AdvanceAll(ExampleBoard(), TopValue(CellAt(ExampleBoard(), Source)), Start(), ToCorner) == Some(Corner())
    ensures AdvanceAll(ExampleBoard(), TopValue(CellAt(ExampleBoard(), Source)), Corner(), AroundCorner) == Some(Corner())
  {
    ToCornerTrace();
    AroundCornerTrace();
    assert SourceTop() == Some(2);
  }
}
