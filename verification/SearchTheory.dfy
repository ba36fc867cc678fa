/**
 * What the lowest-scoring-paths search of Sources/MazeSolver/Maze.swift keeps true from one
 * dequeued entry to the next, and why that makes its answer right and its loop finite.
 *
 * The search keeps, in `visited`, the best score with which each state was queued. The
 * invariant has three parts:
 *  - every queued entry is a walk from the start whose score is its cost, that passes through
 *    no state twice, and whose states all have a stored score no larger than the entry's;
 *  - every state with a stored score is "covered": an entry for it with that score is still
 *    queued, or it was expanded with that score, or it is on the end with a lowest score found
 *    that is no larger, or a strictly lower score has already been found;
 *  - every path collected reaches the end and costs exactly the lowest score.
 * When the queue is empty every stored state is covered without the first option, and
 * following any walk state by state shows that no walk to the end costs less than the lowest
 * score. The entry order of the queue does not matter for any of this.
 */
module SearchTheory {
  import opened Wrappers
  import opened Directions
  import opened Positions
  import opened Squares
  import opened Settings
  import opened StateSpace
  import opened PriorityQueues

  /** The queue's element: the path walked so far and the state it ends in. */
  datatype Node = Node(path: seq<Position>, state: State)

  /** One search: the grid, the start and end positions and the settings. */
  datatype Problem = Problem(grid: Grid, start: Position, end: Position, settings: MazeSettings)

  function InitialState(P: Problem): State
  {
    State(P.start, P.settings.initialDirection)
  }

  function InitialEntry(P: Problem): Scored<Node>
  {
    Scored(0, Node([P.start], InitialState(P)))
  }

  /** Some walk leads from the start to the end. */
  ghost predicate Reachable(P: Problem)
  {
    exists p :: WalkTo(P.grid, P.start, P.end, p)
  }

  /** `lowest <= v`, where a missing lowest score stands for `Int.max`, above every score. */
  ghost predicate AtMost(lowest: Option<int>, v: int)
  {
    lowest.Some? && lowest.value <= v
  }

  /** `lowest < v`, where a missing lowest score stands for `Int.max`. */
  ghost predicate Below(lowest: Option<int>, v: int)
  {
    lowest.Some? && lowest.value < v
  }

  /** A queued entry: a duplicate-free walk scored by its cost, each of its states stored no higher. */
  ghost predicate EntryOk(P: Problem, visited: map<State, int>, e: Scored<Node>)
  {
    var path := e.element.path;
    var trajectory := Trajectory(path, P.settings.initialDirection);
    && ValidWalk(P.grid, P.start, path)
    && e.element.state == State(Last(path), Heading(path, P.settings.initialDirection))
    && e.score == PathCost(path, P.settings)
    && Distinct(trajectory)
    && (forall X :: X in trajectory ==> X in visited && visited[X] <= e.score)
  }

  /** Each open move from `X` leads to a state stored no higher than `X`'s score plus the move. */
  ghost predicate Expanded(P: Problem, visited: map<State, int>, X: State)
    requires X in visited
  {
    && X.position != P.end
    && forall d :: Open(P.grid, X.position, d) ==>
      var Y := State(Neighbour(X.position, d), d);
      Y in visited && visited[Y] <= visited[X] + EdgeCost(X.direction, d, P.settings)
  }

  /** A stored state whose score has been, or is still to be, fully dealt with. */
  ghost predicate Covered(P: Problem, items: multiset<Scored<Node>>, visited: map<State, int>, lowest: Option<int>, X: State)
    requires X in visited
  {
    || (exists e :: e in items && e.element.state == X && e.score == visited[X])
    || Expanded(P, visited, X)
    || (X.position == P.end && AtMost(lowest, visited[X]))
    || Below(lowest, visited[X])
  }

  /** The collected paths: present exactly when a lowest score is, each a walk to the end costing it. */
  ghost predicate FoundOk(P: Problem, lowest: Option<int>, found: seq<seq<Position>>)
  {
    && (lowest.None? <==> found == [])
    && forall p :: p in found ==>
      WalkTo(P.grid, P.start, P.end, p) && lowest.Some? && PathCost(p, P.settings) == lowest.value
  }

  /** The loop invariant of the search, at the top of each iteration. */
  ghost predicate Invariant(P: Problem, items: multiset<Scored<Node>>, visited: map<State, int>, lowest: Option<int>, found: seq<seq<Position>>)
  {
    && InitialState(P) in visited && visited[InitialState(P)] <= 0
    && (forall e {:trigger EntryOk(P, visited, e)} :: e in items ==> EntryOk(P, visited, e))
    && (forall X {:trigger Covered(P, items, visited, lowest, X)} :: X in visited ==> Covered(P, items, visited, lowest, X))
    && FoundOk(P, lowest, found)
  }

  /**
   * The invariant while entry `e`, just dequeued, is dealt with: `e`'s state, if stored with
   * `e`'s score, is the one state that may not be covered yet.
   */
  ghost predicate Pending(P: Problem, items: multiset<Scored<Node>>, visited: map<State, int>, lowest: Option<int>, found: seq<seq<Position>>, e: Scored<Node>)
  {
    && InitialState(P) in visited && visited[InitialState(P)] <= 0
    && EntryOk(P, visited, e)
    && (forall e' {:trigger EntryOk(P, visited, e')} :: e' in items ==> EntryOk(P, visited, e'))
    && (forall X {:trigger Covered(P, items, visited, lowest, X)} :: X in visited ==>
         (X == e.element.state && visited[X] == e.score) || Covered(P, items, visited, lowest, X))
    && FoundOk(P, lowest, found)
  }

  /** The first `n` moves of `AllCases` out of `e`'s state have been relaxed. */
  ghost predicate RelaxedAll(P: Problem, visited: map<State, int>, e: Scored<Node>, n: int)
  {
    var X := e.element.state;
    forall j :: 0 <= j < n && j < |AllCases| && Open(P.grid, X.position, AllCases[j]) ==>
      var Y := State(Neighbour(X.position, AllCases[j]), AllCases[j]);
      Y in visited && visited[Y] <= e.score + EdgeCost(X.direction, AllCases[j], P.settings)
  }

  /** Stored scores only go down, and no stored state is forgotten. */
  ghost predicate NoHigher(visited: map<State, int>, visited': map<State, int>)
  {
    forall X :: X in visited ==> X in visited' && visited'[X] <= visited[X]
  }

  /**
   * `visited'` differs from `visited` only at states one open move away from `e`'s state, each
   * stored with `e`'s score plus the cost of that move.
   */
  ghost predicate ChangedOnlyByMoves(P: Problem, visited: map<State, int>, visited': map<State, int>, e: Scored<Node>)
  {
    var X := e.element.state;
    forall Z :: Z in visited' && (Z !in visited || visited'[Z] != visited[Z]) ==>
      && Z.position == Neighbour(X.position, Z.direction)
      && Open(P.grid, X.position, Z.direction)
      && visited'[Z] == e.score + EdgeCost(X.direction, Z.direction, P.settings)
  }

  /** Every entry of `added` is queued for an open move out of `e`'s state. */
  ghost predicate SuccessorsOf(P: Problem, added: multiset<Scored<Node>>, e: Scored<Node>)
  {
    forall n :: n in added ==>
      && Open(P.grid, e.element.state.position, n.element.state.direction)
      && n == Successor(e, n.element.state.direction, P.settings)
  }

  /**
   * What relaxing moves out of `e` has done so far: no stored score went up, the only scores
   * stored anew are for moves out of `e`, and the only entries queued are their successors.
   */
  ghost predicate RelaxedSoFar(P: Problem, visited: map<State, int>, visited': map<State, int>,
                               items: multiset<Scored<Node>>, items': multiset<Scored<Node>>, e: Scored<Node>)
  {
    && NoHigher(visited, visited')
    && ChangedOnlyByMoves(P, visited, visited', e)
    && items <= items'
    && SuccessorsOf(P, items' - items, e)
  }

  /**
   * The relaxation rule for the move in direction `d` out of `e`: when the move is open and its
   * new score is no higher than the stored one (a missing score counting as `Int.max`), that
   * score is stored and the successor queued; otherwise nothing changes.
   */
  ghost predicate MoveRelaxed(P: Problem, visited: map<State, int>, visited': map<State, int>,
                              items: multiset<Scored<Node>>, items': multiset<Scored<Node>>, e: Scored<Node>, d: Direction)
  {
    var X := e.element.state;
    var Y := State(Neighbour(X.position, d), d);
    var n := Successor(e, d, P.settings);
    if Open(P.grid, X.position, d) && (Y !in visited || n.score <= visited[Y]) then
      visited' == visited[Y := n.score] && items' == items + multiset{n}
    else
      visited' == visited && items' == items
  }

  /** One more relaxed move keeps `RelaxedSoFar`. */
  lemma {:induction false} RelaxedOneMore(P: Problem, visited0: map<State, int>, visited: map<State, int>, visited': map<State, int>,
                                          items0: multiset<Scored<Node>>, items: multiset<Scored<Node>>, items': multiset<Scored<Node>>,
                                          e: Scored<Node>, d: Direction)
    requires RelaxedSoFar(P, visited0, visited, items0, items, e)
    requires MoveRelaxed(P, visited, visited', items, items', e, d)
    ensures RelaxedSoFar(P, visited0, visited', items0, items', e)
  {
    var X := e.element.state;
    var Y := State(Neighbour(X.position, d), d);
    var n := Successor(e, d, P.settings);
    if Open(P.grid, X.position, d) && (Y !in visited || n.score <= visited[Y]) {
      assert items' - items0 == (items - items0) + multiset{n};
    }
  }

  /** The state that the move in direction `d` out of `e`'s state leads to. */
  function Target(e: Scored<Node>, d: Direction): State
  {
    State(Neighbour(e.element.state.position, d), d)
  }

  /**
   * Every open move among the first `n` of `AllCases` whose new score is no higher than the one
   * stored in `visited` (none stored counting as `Int.max`) has had that score stored in
   * `visited'` and its successor entered in `added`.
   */
  ghost predicate StoredAndQueued(P: Problem, visited: map<State, int>, visited': map<State, int>,
                                  added: multiset<Scored<Node>>, e: Scored<Node>, n: int)
  {
    forall j :: 0 <= j < n && j < |AllCases| ==>
      var Y := Target(e, AllCases[j]);
      var s := Successor(e, AllCases[j], P.settings);
      Open(P.grid, e.element.state.position, AllCases[j]) && (Y !in visited || s.score <= visited[Y]) ==>
        Y in visited' && visited'[Y] == s.score && s in added
  }

  /** The targets of the moves from index `n` of `AllCases` on are stored in `visited'` as in `visited`. */
  ghost predicate Untouched(visited: map<State, int>, visited': map<State, int>, e: Scored<Node>, n: int)
  {
    forall j :: 0 <= n <= j < |AllCases| ==>
      var Y := Target(e, AllCases[j]);
      (Y in visited' <==> Y in visited) && (Y in visited ==> visited'[Y] == visited[Y])
  }

  /** One more relaxed move, in the order of `AllCases`, keeps `StoredAndQueued` and `Untouched`. */
  lemma {:induction false} StoredOneMore(P: Problem, visited0: map<State, int>, visited: map<State, int>, visited': map<State, int>,
                                         items0: multiset<Scored<Node>>, items: multiset<Scored<Node>>, items': multiset<Scored<Node>>,
                                         e: Scored<Node>, i: nat)
    requires i < |AllCases|
    requires items0 <= items
    requires StoredAndQueued(P, visited0, visited, items - items0, e, i)
    requires Untouched(visited0, visited, e, i)
    requires MoveRelaxed(P, visited, visited', items, items', e, AllCases[i])
    ensures items0 <= items'
    ensures StoredAndQueued(P, visited0, visited', items' - items0, e, i + 1)
    ensures Untouched(visited0, visited', e, i + 1)
  {
    var d := AllCases[i];
    var Y := Target(e, d);
    AllCasesComplete(d);
    assert items - items0 <= items' - items0;
    forall j | 0 <= j < |AllCases| && j != i ensures Target(e, AllCases[j]) != Y {
      assert AllCases[j] != AllCases[i];
    }
  }

  /**
   * The move in direction `d` out of `e` passes the relaxation test against `visited`: it is open,
   * and its target has no stored score (`Int.max`) or one no lower than the new score.
   */
  ghost predicate Passes(P: Problem, visited: map<State, int>, e: Scored<Node>, d: Direction)
  {
    var Y := Target(e, d);
    Open(P.grid, e.element.state.position, d) && (Y !in visited || Successor(e, d, P.settings).score <= visited[Y])
  }

  /** The successors of the first `n` moves of `AllCases` that pass the relaxation test, each once. */
  ghost function Passing(P: Problem, visited: map<State, int>, e: Scored<Node>, n: nat): multiset<Scored<Node>>
    requires n <= |AllCases|
  {
    if n == 0 then multiset{}
    else
      var d := AllCases[n - 1];
      Passing(P, visited, e, n - 1) + (if Passes(P, visited, e, d) then multiset{Successor(e, d, P.settings)} else multiset{})
  }

  /**
   * One more relaxed move, in the order of `AllCases`, queues exactly the successor of that move
   * when it passes the test against the scores stored before the first move.
   */
  lemma QueuedOneMore(P: Problem, visited0: map<State, int>, visited: map<State, int>, visited': map<State, int>,
                      items0: multiset<Scored<Node>>, items: multiset<Scored<Node>>, items': multiset<Scored<Node>>,
                      e: Scored<Node>, i: nat)
    requires i < |AllCases|
    requires items == items0 + Passing(P, visited0, e, i)
    requires Untouched(visited0, visited, e, i)
    requires MoveRelaxed(P, visited, visited', items, items', e, AllCases[i])
    ensures items' == items0 + Passing(P, visited0, e, i + 1)
  {
    var d := AllCases[i];
    assert Passes(P, visited, e, d) == Passes(P, visited0, e, d);
  }

  /**
   * What relaxing all four moves out of `e` does to `visited` and to the queue's entries `items`:
   * every open move's target ends up stored no higher than the relaxed score; no stored score goes
   * up and only targets of open moves change; every move passing the relaxation test has its
   * score stored; and the queue gains exactly the successors of the passing moves, each once.
   */
  ghost predicate AllMovesRelaxed(P: Problem, visited: map<State, int>, visited': map<State, int>,
                                  items: multiset<Scored<Node>>, items': multiset<Scored<Node>>, e: Scored<Node>)
  {
    && RelaxedAll(P, visited', e, |AllCases|)
    && RelaxedSoFar(P, visited, visited', items, items', e)
    && StoredAndQueued(P, visited, visited', items' - items, e, |AllCases|)
    && items' == items + Passing(P, visited, e, |AllCases|)
  }

  /** The state the search starts in. */
  lemma InitialInvariant(P: Problem)
    ensures Invariant(P, multiset{InitialEntry(P)}, map[InitialState(P) := 0], None, [])
  {
    var e := InitialEntry(P);
    var visited := map[InitialState(P) := 0];
    assert Trajectory([P.start], P.settings.initialDirection) == [InitialState(P)];
    assert EntryOk(P, visited, e);
    assert Covered(P, multiset{e}, visited, None, InitialState(P));
  }

  lemma EntryOkNoHigher(P: Problem, visited: map<State, int>, visited': map<State, int>, e: Scored<Node>)
    requires EntryOk(P, visited, e)
    requires NoHigher(visited, visited')
    ensures EntryOk(P, visited', e)
  {
  }

  /** Taking `e` out of the queue can only uncover `e`'s own state, and only at `e`'s score. */
  lemma {:induction false} Dequeued(P: Problem, items: multiset<Scored<Node>>, e: Scored<Node>, visited: map<State, int>, lowest: Option<int>, found: seq<seq<Position>>)
    requires Invariant(P, items + multiset{e}, visited, lowest, found)
    ensures Pending(P, items, visited, lowest, found, e)
  {
    forall X | X in visited
      ensures (X == e.element.state && visited[X] == e.score) || Covered(P, items, visited, lowest, X)
    {
      assert Covered(P, items + multiset{e}, visited, lowest, X);
      if exists e' :: e' in items + multiset{e} && e'.element.state == X && e'.score == visited[X] {
        var e' :| e' in items + multiset{e} && e'.element.state == X && e'.score == visited[X];
        if e' != e {
          assert e' in items;
        }
      }
    }
  }

  /** An entry scoring above the lowest score found covers its state by being pruned. */
  lemma Pruned(P: Problem, items: multiset<Scored<Node>>, e: Scored<Node>, visited: map<State, int>, lowest: Option<int>, found: seq<seq<Position>>)
    requires Pending(P, items, visited, lowest, found, e)
    requires Below(lowest, e.score)
    ensures Invariant(P, items, visited, lowest, found)
  {
  }

  /** A lower (or equal) lowest score keeps every state covered. */
  lemma CoveredLowerScore(P: Problem, items: multiset<Scored<Node>>, visited: map<State, int>, lowest: Option<int>, lowest': Option<int>, X: State)
    requires X in visited
    requires Covered(P, items, visited, lowest, X)
    requires lowest.Some? ==> lowest'.Some? && lowest'.value <= lowest.value
    ensures Covered(P, items, visited, lowest', X)
  {
  }

  /**
   * An entry on the end replaces the collected paths when it scores lower than the lowest
   * score found, joins them when it ties, and covers its state either way.
   */
  lemma {:induction false} ReachedEnd(P: Problem, items: multiset<Scored<Node>>, e: Scored<Node>, visited: map<State, int>,
                                      lowest: Option<int>, found: seq<seq<Position>>, lowest': Option<int>, found': seq<seq<Position>>)
    requires Pending(P, items, visited, lowest, found, e)
    requires e.element.state.position == P.end
    requires !Below(lowest, e.score)
    requires lowest.None? || e.score < lowest.value ==> lowest' == Some(e.score) && found' == [e.element.path]
    requires lowest.Some? && e.score == lowest.value ==> lowest' == lowest && found' == found + [e.element.path]
    ensures Invariant(P, items, visited, lowest', found')
  {
    forall X | X in visited ensures Covered(P, items, visited, lowest', X) {
      if X == e.element.state && visited[X] == e.score {
        assert X.position == P.end && AtMost(lowest', visited[X]);
      } else {
        CoveredLowerScore(P, items, visited, lowest, lowest', X);
      }
    }
  }

  /** Before any move is tried, nothing is relaxed. */
  lemma StartExpanding(P: Problem, e: Scored<Node>, visited: map<State, int>)
    ensures RelaxedAll(P, visited, e, 0)
  {
  }

  /** A move that is not open needs no relaxing. */
  lemma SkipClosed(P: Problem, e: Scored<Node>, visited: map<State, int>, i: nat, d: Direction)
    requires i < |AllCases| && d == AllCases[i]
    requires RelaxedAll(P, visited, e, i)
    requires !Open(P.grid, e.element.state.position, d)
    ensures RelaxedAll(P, visited, e, i + 1)
  {
  }

  /** An open move whose target is already stored with a lower score needs nothing more. */
  lemma SkipWorse(P: Problem, e: Scored<Node>, visited: map<State, int>, i: nat, d: Direction)
    requires i < |AllCases| && d == AllCases[i]
    requires RelaxedAll(P, visited, e, i)
    requires Open(P.grid, e.element.state.position, d)
    requires var Y := State(Neighbour(e.element.state.position, d), d);
      Y in visited && visited[Y] < e.score + EdgeCost(e.element.state.direction, d, P.settings)
    ensures RelaxedAll(P, visited, e, i + 1)
  {
  }

  /** The entry the search queues for an open move out of `e`. */
  function Successor(e: Scored<Node>, d: Direction, s: MazeSettings): Scored<Node>
  {
    var X := e.element.state;
    var next := Neighbour(X.position, d);
    Scored(e.score + EdgeCost(X.direction, d, s), Node(e.element.path + [next], State(next, d)))
  }

  /**
   * The entry queued for an open move is a valid entry once its score is stored: its walk is
   * one move longer, its cost one move dearer, and it does not come back to a state it passed.
   */
  lemma SuccessorOk(P: Problem, visited: map<State, int>, e: Scored<Node>, d: Direction, n: Scored<Node>)
    requires PositiveCosts(P.settings)
    requires EntryOk(P, visited, e)
    requires Open(P.grid, e.element.state.position, d)
    requires n == Successor(e, d, P.settings)
    requires n.element.state !in visited || n.score <= visited[n.element.state]
    ensures n.element.state != e.element.state
    ensures EntryOk(P, visited[n.element.state := n.score], n)
  {
    var Y := n.element.state;
    var init := P.settings.initialDirection;
    var path := e.element.path;
    EdgeCostBounds(e.element.state.direction, d, P.settings);
    ExtendWalk(P.grid, P.start, path, d, P.settings);
    assert Y != e.element.state by {
      assert Offset(d) != (0, 0);
    }
    // Y was not passed through yet: its stored score would be at most e's, below n's.
    assert Y !in Trajectory(path, init);
    assert Trajectory(n.element.path, init) == Trajectory(path, init) + [Y];
  }

  /**
   * Relaxing an open move whose new score is no higher than the stored one: storing that score
   * and queueing the extended walk keeps the invariant, and the new entry is itself valid.
   */
  lemma {:induction false} Relaxed(P: Problem, items: multiset<Scored<Node>>, e: Scored<Node>, visited: map<State, int>,
                                   lowest: Option<int>, found: seq<seq<Position>>, i: nat, d: Direction, n: Scored<Node>)
    requires PositiveCosts(P.settings)
    requires Pending(P, items, visited, lowest, found, e)
    requires i < |AllCases| && d == AllCases[i]
    requires RelaxedAll(P, visited, e, i)
    requires Open(P.grid, e.element.state.position, d)
    requires n == Successor(e, d, P.settings)
    requires n.element.state !in visited || n.score <= visited[n.element.state]
    ensures var visited' := visited[n.element.state := n.score];
      && EntryOk(P, visited', n)
      && Pending(P, items + multiset{n}, visited', lowest, found, e)
      && RelaxedAll(P, visited', e, i + 1)
  {
    var visited' := visited[n.element.state := n.score];
    SuccessorOk(P, visited, e, d, n);
    assert NoHigher(visited, visited');
    EntryOkNoHigher(P, visited, visited', e);
    forall e' | e' in items + multiset{n} ensures EntryOk(P, visited', e') {
      if e' != n {
        EntryOkNoHigher(P, visited, visited', e');
      }
    }
    CoveredAfterQueueing(P, items, e, visited, lowest, n);
  }

  /** Storing `n`'s score for its state and queueing `n` leaves every stored state covered as before. */
  lemma {:induction false} CoveredAfterQueueing(P: Problem, items: multiset<Scored<Node>>, e: Scored<Node>, visited: map<State, int>,
                                               lowest: Option<int>, n: Scored<Node>)
    requires n.element.state != e.element.state
    requires n.element.state !in visited || n.score <= visited[n.element.state]
    requires forall X {:trigger Covered(P, items, visited, lowest, X)} :: X in visited ==>
      (X == e.element.state && visited[X] == e.score) || Covered(P, items, visited, lowest, X)
    ensures var visited' := visited[n.element.state := n.score];
      forall X {:trigger Covered(P, items + multiset{n}, visited', lowest, X)} :: X in visited' ==>
        (X == e.element.state && visited'[X] == e.score) || Covered(P, items + multiset{n}, visited', lowest, X)
  {
    var Y := n.element.state;
    var visited' := visited[Y := n.score];
    assert NoHigher(visited, visited');
    forall Z | Z in visited'
      ensures (Z == e.element.state && visited'[Z] == e.score) || Covered(P, items + multiset{n}, visited', lowest, Z)
    {
      if Z == Y {
        assert n in items + multiset{n};
      } else if !(Z == e.element.state && visited[Z] == e.score) {
        CoveredStable(P, items, items + multiset{n}, visited, visited', lowest, Z);
      }
    }
  }

  /** Covering survives more queued entries and lower stored scores elsewhere. */
  lemma CoveredStable(P: Problem, items: multiset<Scored<Node>>, items': multiset<Scored<Node>>,
                      visited: map<State, int>, visited': map<State, int>, lowest: Option<int>, X: State)
    requires X in visited && Covered(P, items, visited, lowest, X)
    requires items <= items'
    requires NoHigher(visited, visited')
    requires visited'[X] == visited[X]
    ensures Covered(P, items', visited', lowest, X)
  {
    if exists e :: e in items && e.element.state == X && e.score == visited[X] {
      var e :| e in items && e.element.state == X && e.score == visited[X];
      assert e in items';
    }
  }

  /** Once every move out of `e`'s state is relaxed, that state is covered again. */
  lemma {:induction false} Expansion(P: Problem, items: multiset<Scored<Node>>, e: Scored<Node>, visited: map<State, int>,
                                     lowest: Option<int>, found: seq<seq<Position>>)
    requires Pending(P, items, visited, lowest, found, e)
    requires RelaxedAll(P, visited, e, |AllCases|)
    requires e.element.state.position != P.end
    ensures Invariant(P, items, visited, lowest, found)
  {
    var X := e.element.state;
    forall Z | Z in visited ensures Covered(P, items, visited, lowest, Z) {
      if Z == X && visited[Z] == e.score {
        forall d | Open(P.grid, X.position, d)
          ensures var Y := State(Neighbour(X.position, d), d);
            Y in visited && visited[Y] <= visited[X] + EdgeCost(X.direction, d, P.settings)
        {
          AllCasesComplete(d);
          var j :| 0 <= j < |AllCases| && AllCases[j] == d;
        }
        assert Expanded(P, visited, Z);
      }
    }
  }

  /**
   * Along any walk, when the queue is empty: the state reached is stored with a score no higher
   * than the walk's cost, or a lowest score no higher than that cost was already found.
   */
  lemma {:induction false} WalkCovered(P: Problem, visited: map<State, int>, lowest: Option<int>, found: seq<seq<Position>>, p: seq<Position>)
    requires PositiveCosts(P.settings)
    requires Invariant(P, multiset{}, visited, lowest, found)
    requires ValidWalk(P.grid, P.start, p)
    ensures var X := Last(Trajectory(p, P.settings.initialDirection));
      (X in visited && visited[X] <= PathCost(p, P.settings)) || AtMost(lowest, PathCost(p, P.settings))
  {
    var init := P.settings.initialDirection;
    if |p| == 1 {
      assert Last(Trajectory(p, init)) == InitialState(P);
    } else {
      var q := DropLast(p);
      WalkCovered(P, visited, lowest, found, q);
      var Y := Last(Trajectory(q, init));
      var d := Heading(p, init);
      StepDirOfNeighbour(Last(q), d);
      EdgeCostBounds(Y.direction, d, P.settings);
      if Y in visited && visited[Y] <= PathCost(q, P.settings) {
        assert Covered(P, multiset{}, visited, lowest, Y);
        if Expanded(P, visited, Y) {
          assert Open(P.grid, Y.position, d);
        }
      }
    }
  }

  /** When the queue is empty, no walk from the start to the end costs less than the lowest score found. */
  lemma Optimal(P: Problem, visited: map<State, int>, lowest: Option<int>, found: seq<seq<Position>>, p: seq<Position>)
    requires PositiveCosts(P.settings)
    requires Invariant(P, multiset{}, visited, lowest, found)
    requires WalkTo(P.grid, P.start, P.end, p)
    ensures AtMost(lowest, PathCost(p, P.settings))
  {
    WalkCovered(P, visited, lowest, found, p);
    var X := Last(Trajectory(p, P.settings.initialDirection));
    if X in visited {
      assert Covered(P, multiset{}, visited, lowest, X);
    }
  }

  // Termination: every queued walk is duplicate-free, so no entry scores above `Bound`, and
  // the sum of 5^(Bound - score) over the queue drops with each dequeued entry, which adds at
  // most four entries each scoring more than it.

  /** A score no queued entry can exceed. */
  ghost function Bound(P: Problem): int
  {
    |AllStates(P.grid, P.start, P.settings.initialDirection)| * MaxEdge(P.settings)
  }

  /** A queued entry scores between 0 and `Bound`. */
  lemma EntryScoreBound(P: Problem, visited: map<State, int>, e: Scored<Node>)
    requires PositiveCosts(P.settings)
    requires EntryOk(P, visited, e)
    ensures 0 <= e.score <= Bound(P)
  {
    var init := P.settings.initialDirection;
    var path := e.element.path;
    var S := AllStates(P.grid, P.start, init);
    TrajectoryInAllStates(P.grid, P.start, path, init);
    DistinctWithin(Trajectory(path, init), S);
    PathCostBounds(P.grid, P.start, path, P.settings);
    ScaleBound(|path| - 1, |S|, MaxEdge(P.settings));
  }

  lemma ScaleBound(n: int, total: int, m: int)
    requires n <= total && m >= 0
    ensures n * m <= total * m
  {
    assert (total - n) * m >= 0;
  }

  /**
   * Queueing the entry of a move out of `e` weighs no more than `Weight(e.score + 1)`, and is
   * only possible while `e` scores below `Bound`.
   */
  lemma SuccessorWeight(P: Problem, visited: map<State, int>, items: multiset<Scored<Node>>, e: Scored<Node>, d: Direction, n: Scored<Node>)
    requires PositiveCosts(P.settings)
    requires n == Successor(e, d, P.settings)
    requires EntryOk(P, visited, n)
    ensures e.score < Bound(P)
    ensures Measure(items + multiset{n}, Bound(P)) <= Measure(items, Bound(P)) + Weight(e.score + 1, Bound(P))
  {
    EntryScoreBound(P, visited, n);
    EdgeCostBounds(e.element.state.direction, d, P.settings);
    WeightMonotone(e.score + 1, n.score, Bound(P));
    MeasureAdd(items, n, Bound(P));
  }

  /** 5^(bound - score) for scores below `bound`, and 1 from `bound` up. */
  function Weight(score: int, bound: int): (w: nat)
    ensures w >= 1
    decreases bound - score
  {
    if score >= bound then 1 else 5 * Weight(score + 1, bound)
  }

  lemma {:induction false} WeightMonotone(a: int, b: int, bound: int)
    requires a <= b
    ensures Weight(b, bound) <= Weight(a, bound)
    decreases b - a
  {
    if a < b {
      WeightMonotone(a + 1, b, bound);
    }
  }

  /** `n` copies of `w` added up: what `n` entries of weight at most `w` can add. */
  ghost function Copies(n: nat, w: int): int
  {
    if n == 0 then 0 else Copies(n - 1, w) + w
  }

  /** The four moves out of a state scoring below `bound` weigh less, together, than the state. */
  lemma MovesWeighLess(score: int, bound: int)
    requires score < bound
    ensures Copies(|AllCases|, Weight(score + 1, bound)) < Weight(score, bound)
  {
    var w := Weight(score + 1, bound);
    assert Copies(|AllCases|, w) == Copies(3, w) + w;
    assert Copies(3, w) == Copies(1, w) + w + w;
  }

  /** The sum of the weights of the queued entries. */
  ghost function Measure<T>(items: multiset<Scored<T>>, bound: int): nat
    decreases |items|
  {
    if items == multiset{} then 0
    else
      var e :| e in items;
      Weight(e.score, bound) + Measure(items - multiset{e}, bound)
  }

  /** Queueing an entry adds its weight, whichever entry the sum happens to take first. */
  lemma {:induction false} MeasureAdd<T>(items: multiset<Scored<T>>, e: Scored<T>, bound: int)
    ensures Measure(items + multiset{e}, bound) == Measure(items, bound) + Weight(e.score, bound)
    decreases |items|
  {
    var all := items + multiset{e};
    var x :| x in all && Measure(all, bound) == Weight(x.score, bound) + Measure(all - multiset{x}, bound);
    if x == e {
      assert all - multiset{x} == items;
    } else {
      var rest := items - multiset{x};
      assert all - multiset{x} == rest + multiset{e};
      MeasureAdd(rest, e, bound);
      MeasureAdd(rest, x, bound);
      assert rest + multiset{x} == items;
    }
  }
}
