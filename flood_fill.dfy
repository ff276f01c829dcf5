/**
 * The older single-grid explosion flood fill (Content.Server/Explosion/ExplosionSystem.cs):
 * neighbour sets, the impassable-tile filter and the SpawnExplosion loop that
 * grows one tile set per iteration, holding back walls for a delay that
 * depends on their tolerance.
 */
module FloodFill {
  import opened Wrappers
  import opened Tiles

  /** Some tile of `tiles` shares an edge with `n`. */
  predicate ReachesAdjacent(tiles: set<Tile>, n: Tile) {
    exists t :: t in tiles && Adjacent(t, n)
  }

  /** Some tile of `tiles` shares a corner with `n`. */
  predicate ReachesDiagonal(tiles: set<Tile>, n: Tile) {
    exists t :: t in tiles && DiagonallyAdjacent(t, n)
  }

  /** Adding the four cardinal neighbours of one more source keeps the accumulated set exact. */
  lemma AddAdjacentRing(done: set<Tile>, tile: Tile, acc: set<Tile>, acc': set<Tile>)
    requires forall n :: n in acc <==> ReachesAdjacent(done, n)
    requires acc' == acc + {Shift(tile, 0, 1), Shift(tile, 1, 0), Shift(tile, 0, -1), Shift(tile, -1, 0)}
    ensures forall n :: n in acc' <==> ReachesAdjacent(done + {tile}, n)
  {
    forall n ensures n in acc' <==> ReachesAdjacent(done + {tile}, n) {
      if Adjacent(tile, n) {
        assert n in acc';
      }
    }
  }

  /** Adding the four diagonal neighbours of one more source keeps the accumulated set exact. */
  lemma AddDiagonalRing(done: set<Tile>, tile: Tile, acc: set<Tile>, acc': set<Tile>)
    requires forall n :: n in acc <==> ReachesDiagonal(done, n)
    requires acc' == acc + {Shift(tile, 1, 1), Shift(tile, 1, -1), Shift(tile, -1, 1), Shift(tile, -1, -1)}
    ensures forall n :: n in acc' <==> ReachesDiagonal(done + {tile}, n)
  {
    forall n ensures n in acc' <==> ReachesDiagonal(done + {tile}, n) {
      if DiagonallyAdjacent(tile, n) {
        assert n in acc';
      }
    }
  }

  /**
   * GetAdjacentTiles: the four cardinal neighbours of every input tile, minus
   * the tiles already seen.
   */
  method GetAdjacentTiles(tiles: set<Tile>, existingTiles: set<Tile>) returns (adjacentTiles: set<Tile>)
    ensures forall n :: n in adjacentTiles <==> n !in existingTiles && ReachesAdjacent(tiles, n)
  {
    adjacentTiles := {};
    var done: set<Tile> := {};
    while done != tiles
      invariant done <= tiles
      invariant forall n :: n in adjacentTiles <==> ReachesAdjacent(done, n)
      decreases |tiles - done|
    {
      var tile :| tile in tiles - done;
      var next := adjacentTiles + {Shift(tile, 0, 1), Shift(tile, 1, 0), Shift(tile, 0, -1), Shift(tile, -1, 0)};
      AddAdjacentRing(done, tile, adjacentTiles, next);
      adjacentTiles := next;
      done := done + {tile};
    }
    adjacentTiles := adjacentTiles - existingTiles;
  }

  /**
   * GetDiagonalTiles: the four diagonal neighbours of every input tile, minus
   * the tiles already seen.
   */
  method GetDiagonalTiles(tiles: set<Tile>, existingTiles: set<Tile>) returns (diagonalTiles: set<Tile>)
    ensures forall n :: n in diagonalTiles <==> n !in existingTiles && ReachesDiagonal(tiles, n)
  {
    diagonalTiles := {};
    var done: set<Tile> := {};
    while done != tiles
      invariant done <= tiles
      invariant forall n :: n in diagonalTiles <==> ReachesDiagonal(done, n)
      decreases |tiles - done|
    {
      var tile :| tile in tiles - done;
      var next := diagonalTiles + {Shift(tile, 1, 1), Shift(tile, 1, -1), Shift(tile, -1, 1), Shift(tile, -1, -1)};
      AddDiagonalRing(done, tile, diagonalTiles, next);
      diagonalTiles := next;
      done := done + {tile};
    }
    diagonalTiles := diagonalTiles - existingTiles;
  }

  /**
   * GetNeighbors: both neighbour sets in one pass. The diagonal set also
   * drops every tile already in the adjacent set.
   */
  method GetNeighbors(tiles: set<Tile>, existingTiles: set<Tile>) returns (adjacentTiles: set<Tile>, diagonalTiles: set<Tile>)
    ensures forall n :: n in adjacentTiles <==> n !in existingTiles && ReachesAdjacent(tiles, n)
    ensures forall n :: n in diagonalTiles <==>
      n !in existingTiles && ReachesDiagonal(tiles, n) && !ReachesAdjacent(tiles, n)
    ensures adjacentTiles !! existingTiles && diagonalTiles !! existingTiles && adjacentTiles !! diagonalTiles
  {
    adjacentTiles := {};
    diagonalTiles := {};
    var done: set<Tile> := {};
    while done != tiles
      invariant done <= tiles
      invariant forall n :: n in adjacentTiles <==> ReachesAdjacent(done, n)
      invariant forall n :: n in diagonalTiles <==> ReachesDiagonal(done, n)
      decreases |tiles - done|
    {
      var tile :| tile in tiles - done;
      var nextAdjacent := adjacentTiles + {Shift(tile, 0, 1), Shift(tile, 1, 0), Shift(tile, 0, -1), Shift(tile, -1, 0)};
      var nextDiagonal := diagonalTiles + {Shift(tile, 1, 1), Shift(tile, 1, -1), Shift(tile, -1, 1), Shift(tile, -1, -1)};
      AddAdjacentRing(done, tile, adjacentTiles, nextAdjacent);
      AddDiagonalRing(done, tile, diagonalTiles, nextDiagonal);
      adjacentTiles, diagonalTiles := nextAdjacent, nextDiagonal;
      done := done + {tile};
    }
    ghost var adjacentRing := adjacentTiles;
    ghost var diagonalRing := diagonalTiles;
    adjacentTiles := adjacentTiles - existingTiles;
    diagonalTiles := diagonalTiles - existingTiles;
    diagonalTiles := diagonalTiles - adjacentTiles;
    assert forall n :: n in diagonalTiles <==> n in diagonalRing && n !in existingTiles && n !in adjacentRing;
  }

  /** The tolerance table of one grid; a grid without one has no impassable tiles. */
  function GridTolerances(gridTileTolerances: map<GridId, map<Tile, int>>, grid: GridId): map<Tile, int> {
    if grid in gridTileTolerances then gridTileTolerances[grid] else map[]
  }

  /** A tile blocks the explosion when it has a recorded non-zero tolerance. */
  predicate Impassable(tolerances: map<Tile, int>, t: Tile) {
    t in tolerances && tolerances[t] != 0
  }

  /**
   * GetImpassableTiles: the input tiles with a recorded non-zero tolerance,
   * each mapped to it; nothing when the grid has no tolerance table.
   */
  method GetImpassableTiles(tiles: set<Tile>, grid: GridId, gridTileTolerances: map<GridId, map<Tile, int>>)
    returns (impassable: map<Tile, int>)
    ensures grid !in gridTileTolerances ==> impassable == map[]
    ensures grid in gridTileTolerances ==>
      forall t :: t in impassable <==> t in tiles && Impassable(gridTileTolerances[grid], t)
    ensures forall t :: t in impassable ==>
      grid in gridTileTolerances && t in gridTileTolerances[grid] && impassable[t] == gridTileTolerances[grid][t]
  {
    impassable := map[];
    if grid !in gridTileTolerances {
      return;
    }
    var tileTolerances := gridTileTolerances[grid];
    var rest := tiles;
    while rest != {}
      invariant rest <= tiles
      invariant forall t :: t in impassable <==> t in tiles - rest && Impassable(tileTolerances, t)
      invariant forall t :: t in impassable ==> impassable[t] == tileTolerances[t]
      decreases |rest|
    {
      var tile :| tile in rest;
      rest := rest - {tile};
      if tile !in tileTolerances {
        continue;
      }
      var tolerance := tileTolerances[tile];
      if tolerance == 0 {
        continue;
      }
      impassable := impassable[tile := tolerance];
    }
  }

  /**
   * `(int) Math.Ceiling((float) tolerance / damagePerIteration)`, the number of
   * iterations a wall holds, with the quotient taken exactly. A zero divisor
   * has no integer result: None.
   */
  function Delay(tolerance: int, damagePerIteration: int): (r: Option<int>)
    ensures r.None? <==> damagePerIteration == 0
  {
    if damagePerIteration == 0 then None
    else if damagePerIteration > 0 then Some(-((-tolerance) / damagePerIteration))
    else Some(-(tolerance / (-damagePerIteration)))
  }

  /** The delay is the ceiling of the quotient: the least whole number of iterations that covers the tolerance. */
  lemma DelayBounds(tolerance: int, damagePerIteration: int)
    requires damagePerIteration != 0
    ensures var r := Delay(tolerance, damagePerIteration).value;
      && (damagePerIteration > 0 ==> (r - 1) * damagePerIteration < tolerance <= r * damagePerIteration)
      && (damagePerIteration < 0 ==> r * damagePerIteration <= tolerance < (r - 1) * damagePerIteration)
  {
    if damagePerIteration > 0 {
      CeilDivBounds(tolerance, damagePerIteration);
    } else {
      CeilDivBounds(-tolerance, -damagePerIteration);
    }
  }

  /** `-((-n) / d)` is the ceiling of n / d for a positive d. */
  lemma CeilDivBounds(n: int, d: int)
    requires d > 0
    ensures (-((-n) / d) - 1) * d < n <= -((-n) / d) * d
  {
    var q := (-n) / d;
    assert q * d <= -n < q * d + d;
  }

  /** The tiles held back until iteration `k`, if any. */
  function BlockedAt(blockedTiles: map<int, map<Tile, int>>, k: int): set<Tile> {
    if k in blockedTiles then blockedTiles[k].Keys else {}
  }

  /** The spreading sources read at iteration `k + 2` (adjacent) or `k + 3` (diagonal). */
  function Sources(explodedTiles: seq<set<Tile>>, blockedTiles: map<int, map<Tile, int>>, k: int): set<Tile>
    requires 0 <= k < |explodedTiles|
  {
    explodedTiles[k] + BlockedAt(blockedTiles, k)
  }

  /** Entries are only ever added to the blocked table, never changed or removed. */
  predicate BlockedGrows(b0: map<int, map<Tile, int>>, b1: map<int, map<Tile, int>>) {
    forall k :: k in b0 ==> k in b1 && forall t :: t in b0[k] ==> t in b1[k] && b1[k][t] == b0[k][t]
  }

  /**
   * Every held-back tile was encountered at the iteration it records, is
   * impassable, is keyed by that iteration plus its delay, appears in no tile
   * set, and is held back once.
   */
  predicate BlockedRecorded(explodedTiles: seq<set<Tile>>, encounteredTiles: set<Tile>,
                            blockedTiles: map<int, map<Tile, int>>, tolerances: map<Tile, int>, damagePerIteration: int)
  {
    (forall k, t :: k in blockedTiles && t in blockedTiles[k] ==>
       3 <= blockedTiles[k][t] < |explodedTiles| && t in encounteredTiles && Impassable(tolerances, t)
       && Delay(tolerances[t], damagePerIteration) == Some(k - blockedTiles[k][t])
       && forall j :: 0 <= j < |explodedTiles| ==> t !in explodedTiles[j])
    && UniqueBlocked(blockedTiles)
  }

  /** No tile is held back under two keys. */
  predicate UniqueBlocked(blockedTiles: map<int, map<Tile, int>>) {
    forall k1, k2, t :: k1 in blockedTiles && k2 in blockedTiles && t in blockedTiles[k1] && t in blockedTiles[k2]
      ==> k1 == k2
  }

  /** The tiles held back until iteration `k` by passes before pass `i`, the ones pass `i` saw in the table. */
  function BlockedBefore(blockedTiles: map<int, map<Tile, int>>, k: int, i: int): set<Tile> {
    if k in blockedTiles then set t | t in blockedTiles[k] && blockedTiles[k][t] < i else {}
  }

  /** The sources pass `i` read at index `k`: that set plus the tiles released then, as the table stood. */
  function SourcesBefore(explodedTiles: seq<set<Tile>>, blockedTiles: map<int, map<Tile, int>>, k: int, i: int)
    : set<Tile>
    requires 0 <= k < |explodedTiles|
  {
    explodedTiles[k] + BlockedBefore(blockedTiles, k, i)
  }

  /**
   * Every tile of a set past the first three was reached, by the pass that
   * built the set, from the sources two iterations back through an edge, or
   * three back through a corner, and is not impassable.
   */
  predicate Reached(explodedTiles: seq<set<Tile>>, blockedTiles: map<int, map<Tile, int>>, tolerances: map<Tile, int>)
  {
    forall i :: 3 <= i < |explodedTiles| ==>
      forall t :: t in explodedTiles[i] ==>
        !Impassable(tolerances, t) &&
        (ReachesAdjacent(SourcesBefore(explodedTiles, blockedTiles, i - 2, i), t)
         || ReachesDiagonal(SourcesBefore(explodedTiles, blockedTiles, i - 3, i), t))
  }

  /**
   * A tile has its place by pass `i`: it is in a set up to `i`, or held
   * back by a pass up to `i`, or impassable with no delay to hold it for.
   */
  ghost predicate Placed(explodedTiles: seq<set<Tile>>, blockedTiles: map<int, map<Tile, int>>,
                         tolerances: map<Tile, int>, damagePerIteration: int, t: Tile, i: int) {
    || (exists j :: 0 <= j <= i && j < |explodedTiles| && t in explodedTiles[j])
    || (exists k :: k in blockedTiles && t in blockedTiles[k] && blockedTiles[k][t] <= i)
    || (Impassable(tolerances, t) && damagePerIteration == 0)
  }

  /** Every encountered tile has its place. */
  ghost predicate EncounteredPlaced(explodedTiles: seq<set<Tile>>, encounteredTiles: set<Tile>,
                                    blockedTiles: map<int, map<Tile, int>>, tolerances: map<Tile, int>,
                                    damagePerIteration: int) {
    forall t :: t in encounteredTiles ==>
      Placed(explodedTiles, blockedTiles, tolerances, damagePerIteration, t, |explodedTiles| - 1)
  }

  /**
   * Nothing a pass reached was dropped: every cardinal neighbour of the
   * sources pass `i` read two back, and every diagonal neighbour of those
   * three back, has its place by pass `i`.
   */
  ghost predicate Complete(explodedTiles: seq<set<Tile>>, blockedTiles: map<int, map<Tile, int>>,
                           tolerances: map<Tile, int>, damagePerIteration: int) {
    forall i :: 3 <= i < |explodedTiles| ==> CompleteAt(explodedTiles, blockedTiles, tolerances, damagePerIteration, i)
  }

  /** Nothing pass `i` reached was dropped. */
  ghost predicate CompleteAt(explodedTiles: seq<set<Tile>>, blockedTiles: map<int, map<Tile, int>>,
                             tolerances: map<Tile, int>, damagePerIteration: int, i: int)
    requires 3 <= i < |explodedTiles|
  {
    forall t ::
      ReachesAdjacent(SourcesBefore(explodedTiles, blockedTiles, i - 2, i), t)
      || ReachesDiagonal(SourcesBefore(explodedTiles, blockedTiles, i - 3, i), t)
      ==> Placed(explodedTiles, blockedTiles, tolerances, damagePerIteration, t, i)
  }

  /** With every entry recorded by an earlier pass, the current pass sees the whole table. */
  lemma SourcesBeforeNow(ex: seq<set<Tile>>, b: map<int, map<Tile, int>>, k: int)
    requires 0 <= k < |ex|
    requires forall k', t :: k' in b && t in b[k'] ==> b[k'][t] < |ex|
    ensures SourcesBefore(ex, b, k, |ex|) == Sources(ex, b, k)
  {
  }

  /** Every entry `b1` has beyond `b0` records pass `i`. */
  predicate AddedAt(b0: map<int, map<Tile, int>>, b1: map<int, map<Tile, int>>, i: int) {
    forall k, t :: k in b1 && t in b1[k] && !(k in b0 && t in b0[k]) ==> b1[k][t] == i
  }

  /** Sets appended and entries recorded from pass `i` on leave what pass `i` read unchanged. */
  lemma SourcesBeforeKept(ex0: seq<set<Tile>>, b0: map<int, map<Tile, int>>, ex1: seq<set<Tile>>,
                          b1: map<int, map<Tile, int>>, k: int, i: int, n: int)
    requires 0 <= k < |ex0| <= |ex1| && ex1[..|ex0|] == ex0
    requires BlockedGrows(b0, b1)
    requires AddedAt(b0, b1, n) && i <= n
    ensures SourcesBefore(ex1, b1, k, i) == SourcesBefore(ex0, b0, k, i)
  {
    assert ex1[k] == ex0[k];
    if k in b0 {
      assert BlockedBefore(b1, k, i) == BlockedBefore(b0, k, i);
    } else if k in b1 {
      assert BlockedBefore(b1, k, i) == {};
    }
  }

  /** A place is kept when sets are appended, entries are added and the pass bound grows. */
  lemma PlacedKept(ex0: seq<set<Tile>>, b0: map<int, map<Tile, int>>, ex1: seq<set<Tile>>,
                   b1: map<int, map<Tile, int>>, tolerances: map<Tile, int>, damagePerIteration: int, t: Tile,
                   i: int, i': int)
    requires |ex0| <= |ex1| && ex1[..|ex0|] == ex0 && BlockedGrows(b0, b1) && i <= i'
    requires Placed(ex0, b0, tolerances, damagePerIteration, t, i)
    ensures Placed(ex1, b1, tolerances, damagePerIteration, t, i')
  {
    if exists j :: 0 <= j <= i && j < |ex0| && t in ex0[j] {
      var j :| 0 <= j <= i && j < |ex0| && t in ex0[j];
      assert ex1[j] == ex0[j];
    } else if exists k :: k in b0 && t in b0[k] && b0[k][t] <= i {
      var k :| k in b0 && t in b0[k] && b0[k][t] <= i;
      assert t in b1[k] && b1[k][t] == b0[k][t];
    }
  }

  /**
   * The blocked table `b1` is `b0` plus every impassable tile of iteration
   * `iteration`, keyed by the iteration plus its delay.
   */
  predicate HeldBack(b0: map<int, map<Tile, int>>, b1: map<int, map<Tile, int>>, impassable: map<Tile, int>,
                     iteration: int, damagePerIteration: int)
  {
    && BlockedGrows(b0, b1)
    && (forall k, t :: k in b1 && t in b1[k] ==>
          (k in b0 && t in b0[k]) ||
          (t in impassable && b1[k][t] == iteration && Delay(impassable[t], damagePerIteration) == Some(k - iteration)))
    && (forall t :: t in impassable && damagePerIteration != 0 ==>
          var k := iteration + Delay(impassable[t], damagePerIteration).value; k in b1 && t in b1[k])
    && (UniqueBlocked(b0) ==> UniqueBlocked(b1))
  }

  /**
   * Records the impassable tiles of iteration `iteration` in the blocked
   * table, each under `iteration + delay` (the foreach over impassableTiles).
   */
  method HoldBack(blockedTiles: map<int, map<Tile, int>>, impassable: map<Tile, int>, iteration: int,
                  damagePerIteration: int)
    returns (blocked: map<int, map<Tile, int>>)
    requires forall k, t :: k in blockedTiles && t in blockedTiles[k] ==> t !in impassable
    ensures HeldBack(blockedTiles, blocked, impassable, iteration, damagePerIteration)
  {
    blocked := blockedTiles;
    var pending := impassable.Keys;
    while pending != {}
      invariant HoldingBack(blockedTiles, blocked, impassable, pending, iteration, damagePerIteration)
      decreases |pending|
    {
      var tile :| tile in pending;
      ghost var blocked0 := blocked;
      var delay := Delay(impassable[tile], damagePerIteration);
      if delay.Some? {
        var key := iteration + delay.value;
        var held := if key in blocked then blocked[key] else map[];
        blocked := blocked[key := held[tile := iteration]];
      }
      HoldStep(blockedTiles, blocked0, blocked, impassable, pending, iteration, damagePerIteration, tile);
      pending := pending - {tile};
    }
    HoldingDone(blockedTiles, blocked, impassable, iteration, damagePerIteration);
  }

  /** With nothing pending, the loop state is the contract of HoldBack. */
  lemma HoldingDone(b0: map<int, map<Tile, int>>, b: map<int, map<Tile, int>>, impassable: map<Tile, int>,
                    iteration: int, damagePerIteration: int)
    requires HoldingBack(b0, b, impassable, {}, iteration, damagePerIteration)
    ensures HeldBack(b0, b, impassable, iteration, damagePerIteration)
  {
    assert HeldEntries(b0, b, impassable, {}, iteration, damagePerIteration);
    assert HeldKeys(b, impassable, {}, iteration, damagePerIteration);
    forall t | t in impassable && damagePerIteration != 0
      ensures var k := iteration + Delay(impassable[t], damagePerIteration).value; k in b && t in b[k]
    {
      assert t !in {};
    }
  }

  /** The HoldBack loop with the tiles of `pending` still to be recorded. */
  ghost predicate HoldingBack(b0: map<int, map<Tile, int>>, b: map<int, map<Tile, int>>, impassable: map<Tile, int>,
                              pending: set<Tile>, iteration: int, damagePerIteration: int) {
    && pending <= impassable.Keys
    && BlockedGrows(b0, b)
    && HeldEntries(b0, b, impassable, pending, iteration, damagePerIteration)
    && HeldKeys(b, impassable, pending, iteration, damagePerIteration)
    && (UniqueBlocked(b0) ==> UniqueBlocked(b))
  }

  /** Every entry of `b` is from `b0` or is a recorded tile under its key. */
  ghost predicate HeldEntries(b0: map<int, map<Tile, int>>, b: map<int, map<Tile, int>>, impassable: map<Tile, int>,
                              pending: set<Tile>, iteration: int, damagePerIteration: int) {
    forall k, t :: k in b && t in b[k] ==>
      (k in b0 && t in b0[k]) ||
      (t in impassable && t !in pending && b[k][t] == iteration
       && Delay(impassable[t], damagePerIteration) == Some(k - iteration))
  }

  /** Every recorded tile is under its key. */
  ghost predicate HeldKeys(b: map<int, map<Tile, int>>, impassable: map<Tile, int>, pending: set<Tile>,
                           iteration: int, damagePerIteration: int) {
    forall t :: t in impassable && t !in pending && damagePerIteration != 0 ==>
      var k := iteration + Delay(impassable[t], damagePerIteration).value; k in b && t in b[k]
  }

  /** Recording one pending tile under its key keeps the loop state. */
  lemma HoldStep(b0: map<int, map<Tile, int>>, b: map<int, map<Tile, int>>, b': map<int, map<Tile, int>>,
                 impassable: map<Tile, int>, pending: set<Tile>, iteration: int, damagePerIteration: int, tile: Tile)
    requires forall k, t :: k in b0 && t in b0[k] ==> t !in impassable
    requires HoldingBack(b0, b, impassable, pending, iteration, damagePerIteration) && tile in pending
    requires var delay := Delay(impassable[tile], damagePerIteration);
      if delay.Some? then
        var key := iteration + delay.value;
        b' == b[key := (if key in b then b[key] else map[])[tile := iteration]]
      else b' == b
    ensures HoldingBack(b0, b', impassable, pending - {tile}, iteration, damagePerIteration)
  {
    var delay := Delay(impassable[tile], damagePerIteration);
    NotHeldYet(b0, b, impassable, pending, iteration, damagePerIteration, tile);
    if delay.Some? {
      var key := iteration + delay.value;
      HoldStepGrows(b0, b, b', impassable, key, tile, iteration);
      HoldStepEntries(b0, b, b', impassable, pending, iteration, damagePerIteration, tile, key);
      HoldStepUnique(b0, b, b', key, tile, iteration);
    } else {
      HoldStepSkip(b0, b, impassable, pending, iteration, damagePerIteration, tile);
    }
  }

  /** A tile whose delay is undefined (a zero damage per iteration) is recorded nowhere. */
  lemma HoldStepSkip(b0: map<int, map<Tile, int>>, b: map<int, map<Tile, int>>, impassable: map<Tile, int>,
                     pending: set<Tile>, iteration: int, damagePerIteration: int, tile: Tile)
    requires HoldingBack(b0, b, impassable, pending, iteration, damagePerIteration) && tile in pending
    requires damagePerIteration == 0
    ensures HoldingBack(b0, b, impassable, pending - {tile}, iteration, damagePerIteration)
  {
  }

  /** A pending tile is held back under no key yet. */
  lemma NotHeldYet(b0: map<int, map<Tile, int>>, b: map<int, map<Tile, int>>, impassable: map<Tile, int>,
                   pending: set<Tile>, iteration: int, damagePerIteration: int, tile: Tile)
    requires forall k, t :: k in b0 && t in b0[k] ==> t !in impassable
    requires HoldingBack(b0, b, impassable, pending, iteration, damagePerIteration) && tile in pending
    ensures forall k :: k in b ==> tile !in b[k]
  {
    forall k | k in b ensures tile !in b[k] {
    }
  }

  lemma HoldStepGrows(b0: map<int, map<Tile, int>>, b: map<int, map<Tile, int>>, b': map<int, map<Tile, int>>,
                      impassable: map<Tile, int>, key: int, tile: Tile, iteration: int)
    requires forall k, t :: k in b0 && t in b0[k] ==> t !in impassable
    requires BlockedGrows(b0, b) && tile in impassable
    requires b' == b[key := (if key in b then b[key] else map[])[tile := iteration]]
    ensures BlockedGrows(b0, b')
  {
    forall k | k in b0
      ensures k in b' && forall t :: t in b0[k] ==> t in b'[k] && b'[k][t] == b0[k][t]
    {
      assert tile !in b0[k];
    }
  }

  lemma HoldStepEntries(b0: map<int, map<Tile, int>>, b: map<int, map<Tile, int>>, b': map<int, map<Tile, int>>,
                        impassable: map<Tile, int>, pending: set<Tile>, iteration: int, damagePerIteration: int,
                        tile: Tile, key: int)
    requires HoldingBack(b0, b, impassable, pending, iteration, damagePerIteration) && tile in pending
    requires Delay(impassable[tile], damagePerIteration) == Some(key - iteration)
    requires b' == b[key := (if key in b then b[key] else map[])[tile := iteration]]
    ensures HeldEntries(b0, b', impassable, pending - {tile}, iteration, damagePerIteration)
    ensures HeldKeys(b', impassable, pending - {tile}, iteration, damagePerIteration)
  {
    forall k, t | k in b' && t in b'[k]
      ensures (k in b0 && t in b0[k]) ||
        (t in impassable && t !in pending - {tile} && b'[k][t] == iteration
         && Delay(impassable[t], damagePerIteration) == Some(k - iteration))
    {
      if k != key || t != tile {
        assert t in b[k] && b'[k][t] == b[k][t];
      }
    }
  }

  lemma HoldStepUnique(b0: map<int, map<Tile, int>>, b: map<int, map<Tile, int>>, b': map<int, map<Tile, int>>,
                       key: int, tile: Tile, iteration: int)
    requires UniqueBlocked(b0) ==> UniqueBlocked(b)
    requires forall k :: k in b ==> tile !in b[k]
    requires b' == b[key := (if key in b then b[key] else map[])[tile := iteration]]
    ensures UniqueBlocked(b0) ==> UniqueBlocked(b')
  {
    if UniqueBlocked(b0) {
      forall k1, k2, t | k1 in b' && k2 in b' && t in b'[k1] && t in b'[k2] ensures k1 == k2 {
        if t != tile {
          assert t in b[k1] && t in b[k2];
        }
      }
    }
  }

  /** Appending a set disjoint from everything encountered keeps the sets pairwise disjoint. */
  lemma AppendDisjoint(ex0: seq<set<Tile>>, encountered0: set<Tile>, added: set<Tile>)
    requires PairwiseDisjoint(ex0)
    requires forall i :: 0 <= i < |ex0| ==> ex0[i] <= encountered0
    requires added !! encountered0
    ensures PairwiseDisjoint(ex0 + [added])
  {
    var ex1 := ex0 + [added];
    forall i, j | 0 <= i < j < |ex1| ensures ex1[i] !! ex1[j] {
      if j == |ex0| {
        assert ex1[i] == ex0[i] <= encountered0;
      } else {
        assert ex1[i] == ex0[i] && ex1[j] == ex0[j];
      }
    }
  }

  /** One pass of the SpawnExplosion loop keeps the blocked-table invariant. */
  lemma StepRecorded(ex0: seq<set<Tile>>, encountered0: set<Tile>, b0: map<int, map<Tile, int>>,
                     candidates: set<Tile>, impassable: map<Tile, int>, b1: map<int, map<Tile, int>>,
                     tolerances: map<Tile, int>, damagePerIteration: int)
    requires 3 <= |ex0|
    requires forall i :: 0 <= i < |ex0| ==> ex0[i] <= encountered0
    requires BlockedRecorded(ex0, encountered0, b0, tolerances, damagePerIteration)
    requires candidates !! encountered0
    requires forall t :: t in impassable <==> t in candidates && Impassable(tolerances, t)
    requires forall t :: t in impassable ==> t in tolerances && impassable[t] == tolerances[t]
    requires HeldBack(b0, b1, impassable, |ex0|, damagePerIteration)
    ensures BlockedRecorded(ex0 + [candidates - impassable.Keys], encountered0 + candidates, b1,
                            tolerances, damagePerIteration)
  {
    forall k, t | k in b1 && t in b1[k]
      ensures var ex1 := ex0 + [candidates - impassable.Keys];
        3 <= b1[k][t] < |ex1| && t in encountered0 + candidates && Impassable(tolerances, t)
        && Delay(tolerances[t], damagePerIteration) == Some(k - b1[k][t])
        && forall j :: 0 <= j < |ex1| ==> t !in ex1[j]
    {
      RecordedEntry(ex0, encountered0, b0, candidates, impassable, b1, tolerances, damagePerIteration, k, t);
    }
  }

  /** One entry of the blocked table after a pass: an old entry, or an impassable tile of this pass. */
  lemma RecordedEntry(ex0: seq<set<Tile>>, encountered0: set<Tile>, b0: map<int, map<Tile, int>>,
                      candidates: set<Tile>, impassable: map<Tile, int>, b1: map<int, map<Tile, int>>,
                      tolerances: map<Tile, int>, damagePerIteration: int, k: int, t: Tile)
    requires 3 <= |ex0|
    requires forall i :: 0 <= i < |ex0| ==> ex0[i] <= encountered0
    requires BlockedRecorded(ex0, encountered0, b0, tolerances, damagePerIteration)
    requires candidates !! encountered0
    requires forall t :: t in impassable <==> t in candidates && Impassable(tolerances, t)
    requires forall t :: t in impassable ==> t in tolerances && impassable[t] == tolerances[t]
    requires HeldBack(b0, b1, impassable, |ex0|, damagePerIteration)
    requires k in b1 && t in b1[k]
    ensures var ex1 := ex0 + [candidates - impassable.Keys];
      3 <= b1[k][t] < |ex1| && t in encountered0 + candidates && Impassable(tolerances, t)
      && Delay(tolerances[t], damagePerIteration) == Some(k - b1[k][t])
      && forall j :: 0 <= j < |ex1| ==> t !in ex1[j]
  {
    var ex1 := ex0 + [candidates - impassable.Keys];
    var earlier := k in b0 && t in b0[k];
    if earlier {
      assert b1[k][t] == b0[k][t];
      assert t in encountered0 && forall j :: 0 <= j < |ex0| ==> t !in ex0[j];
      assert t !in candidates;
    } else {
      assert t in impassable && b1[k][t] == |ex0|;
      assert t in candidates && t !in encountered0;
    }
    forall j | 0 <= j < |ex1| ensures t !in ex1[j] {
      if j < |ex0| {
        assert ex1[j] == ex0[j];
        if !earlier {
          assert ex0[j] <= encountered0;
        }
      } else {
        assert ex1[j] == candidates - impassable.Keys;
      }
    }
  }

  /** The entries one pass adds to the blocked table all record that pass. */
  lemma HeldBackEntries(b0: map<int, map<Tile, int>>, b1: map<int, map<Tile, int>>, impassable: map<Tile, int>,
                        iteration: int, damagePerIteration: int)
    requires HeldBack(b0, b1, impassable, iteration, damagePerIteration)
    requires forall k, t :: k in b0 && t in b0[k] ==> b0[k][t] < iteration
    ensures forall k, t {:trigger b1[k][t]} :: k in b1 && t in b1[k] && !(k in b0 && t in b0[k]) ==> t in impassable
    ensures AddedAt(b0, b1, iteration)
    ensures forall k, t :: k in b1 && t in b1[k] ==> b1[k][t] <= iteration
  {
    forall k, t | k in b1 && t in b1[k]
      ensures b1[k][t] <= iteration
      ensures !(k in b0 && t in b0[k]) ==> b1[k][t] == iteration
    {
      if k in b0 && t in b0[k] {
        assert b1[k][t] == b0[k][t];
      } else {
        assert t in impassable && b1[k][t] == iteration;
      }
    }
  }

  /** One pass of the SpawnExplosion loop keeps every tile set reached from its sources. */
  lemma StepReached(ex0: seq<set<Tile>>, b0: map<int, map<Tile, int>>, candidates: set<Tile>,
                    impassable: map<Tile, int>, b1: map<int, map<Tile, int>>, tolerances: map<Tile, int>)
    requires 3 <= |ex0|
    requires Reached(ex0, b0, tolerances)
    requires forall k, t :: k in b0 && t in b0[k] ==> b0[k][t] < |ex0|
    requires BlockedGrows(b0, b1)
    requires AddedAt(b0, b1, |ex0|)
    requires forall n :: n in candidates ==>
      ReachesAdjacent(Sources(ex0, b0, |ex0| - 2), n) || ReachesDiagonal(Sources(ex0, b0, |ex0| - 3), n)
    requires forall t :: t in impassable <==> t in candidates && Impassable(tolerances, t)
    ensures Reached(ex0 + [candidates - impassable.Keys], b1, tolerances)
  {
    var ex1 := ex0 + [candidates - impassable.Keys];
    var n := |ex0|;
    assert ex1[..n] == ex0;
    forall i | 3 <= i < |ex1|
      ensures forall t :: t in ex1[i] ==>
        !Impassable(tolerances, t) &&
        (ReachesAdjacent(SourcesBefore(ex1, b1, i - 2, i), t) || ReachesDiagonal(SourcesBefore(ex1, b1, i - 3, i), t))
    {
      SourcesBeforeKept(ex0, b0, ex1, b1, i - 2, i, n);
      SourcesBeforeKept(ex0, b0, ex1, b1, i - 3, i, n);
      if i < n {
        assert ex1[i] == ex0[i];
      } else {
        SourcesBeforeNow(ex0, b0, n - 2);
        SourcesBeforeNow(ex0, b0, n - 3);
        assert ex1[i] == candidates - impassable.Keys;
      }
    }
  }

  /** A candidate of a pass has its place once the pass is done: in the new set, or held back. */
  lemma CandidatePlaced(ex0: seq<set<Tile>>, candidates: set<Tile>, impassable: map<Tile, int>,
                        b1: map<int, map<Tile, int>>, tolerances: map<Tile, int>, damagePerIteration: int, t: Tile)
    requires t in candidates
    requires forall t :: t in impassable <==> t in candidates && Impassable(tolerances, t)
    requires forall t :: t in impassable && damagePerIteration != 0 ==>
      var k := |ex0| + Delay(impassable[t], damagePerIteration).value; k in b1 && t in b1[k]
    requires forall k, t :: k in b1 && t in b1[k] ==> b1[k][t] <= |ex0|
    ensures Placed(ex0 + [candidates - impassable.Keys], b1, tolerances, damagePerIteration, t, |ex0|)
  {
    var ex1 := ex0 + [candidates - impassable.Keys];
    if t in impassable {
      if damagePerIteration != 0 {
        var k := |ex0| + Delay(impassable[t], damagePerIteration).value;
        assert k in b1 && t in b1[k] && b1[k][t] <= |ex0|;
      }
    } else {
      assert t in ex1[|ex0|];
    }
  }

  /**
   * One pass of the SpawnExplosion loop keeps every encountered tile placed
   * and drops nothing it reaches: a reached tile was encountered before
   * (and so has its place) or is a candidate of this pass.
   */
  lemma StepPlaced(ex0: seq<set<Tile>>, encountered0: set<Tile>, b0: map<int, map<Tile, int>>,
                   candidates: set<Tile>, impassable: map<Tile, int>, b1: map<int, map<Tile, int>>,
                   tolerances: map<Tile, int>, damagePerIteration: int)
    requires 3 <= |ex0|
    requires EncounteredPlaced(ex0, encountered0, b0, tolerances, damagePerIteration)
    requires Complete(ex0, b0, tolerances, damagePerIteration)
    requires forall k, t :: k in b0 && t in b0[k] ==> b0[k][t] < |ex0|
    requires forall t :: t in candidates <==>
      t !in encountered0 &&
      (ReachesAdjacent(Sources(ex0, b0, |ex0| - 2), t) || ReachesDiagonal(Sources(ex0, b0, |ex0| - 3), t))
    requires forall t :: t in impassable <==> t in candidates && Impassable(tolerances, t)
    requires HeldBack(b0, b1, impassable, |ex0|, damagePerIteration)
    ensures EncounteredPlaced(ex0 + [candidates - impassable.Keys], encountered0 + candidates, b1, tolerances,
                              damagePerIteration)
    ensures Complete(ex0 + [candidates - impassable.Keys], b1, tolerances, damagePerIteration)
  {
    var ex1 := ex0 + [candidates - impassable.Keys];
    var n := |ex0|;
    assert ex1[..n] == ex0;
    HeldBackEntries(b0, b1, impassable, n, damagePerIteration);
    forall t | t in encountered0 + candidates
      ensures Placed(ex1, b1, tolerances, damagePerIteration, t, |ex1| - 1)
    {
      if t in encountered0 {
        PlacedKept(ex0, b0, ex1, b1, tolerances, damagePerIteration, t, n - 1, n);
      } else {
        CandidatePlaced(ex0, candidates, impassable, b1, tolerances, damagePerIteration, t);
      }
    }
    forall i | 3 <= i < |ex1|
      ensures CompleteAt(ex1, b1, tolerances, damagePerIteration, i)
    {
      SourcesBeforeKept(ex0, b0, ex1, b1, i - 2, i, n);
      SourcesBeforeKept(ex0, b0, ex1, b1, i - 3, i, n);
      if i < n {
        assert CompleteAt(ex0, b0, tolerances, damagePerIteration, i);
        forall t | ReachesAdjacent(SourcesBefore(ex0, b0, i - 2, i), t)
                   || ReachesDiagonal(SourcesBefore(ex0, b0, i - 3, i), t)
          ensures Placed(ex1, b1, tolerances, damagePerIteration, t, i)
        {
          PlacedKept(ex0, b0, ex1, b1, tolerances, damagePerIteration, t, i, i);
        }
      } else {
        SourcesBeforeNow(ex0, b0, n - 2);
        SourcesBeforeNow(ex0, b0, n - 3);
        forall t | ReachesAdjacent(Sources(ex0, b0, n - 2), t) || ReachesDiagonal(Sources(ex0, b0, n - 3), t)
          ensures Placed(ex1, b1, tolerances, damagePerIteration, t, n)
        {
          if t in encountered0 {
            PlacedKept(ex0, b0, ex1, b1, tolerances, damagePerIteration, t, n - 1, n);
          } else {
            CandidatePlaced(ex0, candidates, impassable, b1, tolerances, damagePerIteration, t);
          }
        }
      }
    }
  }

  /** The state at the head of the SpawnExplosion loop. */
  ghost predicate Exploding(explodedTiles: seq<set<Tile>>, encounteredTiles: set<Tile>,
                            blockedTiles: map<int, map<Tile, int>>, tolerances: map<Tile, int>,
                            damagePerIteration: int, iteration: int, epicenterTile: Tile) {
    && 3 <= iteration == |explodedTiles|
    && explodedTiles[0] == {} && explodedTiles[1] == {epicenterTile} && explodedTiles[2] == {}
    && PairwiseDisjoint(explodedTiles)
    && (forall i :: 0 <= i < |explodedTiles| ==> explodedTiles[i] <= encounteredTiles)
    && BlockedRecorded(explodedTiles, encounteredTiles, blockedTiles, tolerances, damagePerIteration)
    && Reached(explodedTiles, blockedTiles, tolerances)
    && EncounteredPlaced(explodedTiles, encounteredTiles, blockedTiles, tolerances, damagePerIteration)
    && Complete(explodedTiles, blockedTiles, tolerances, damagePerIteration)
  }

  /** The blocked table at the head of the loop holds encountered tiles recorded by earlier passes. */
  lemma ExplodingBlocked(explodedTiles: seq<set<Tile>>, encounteredTiles: set<Tile>,
                         blockedTiles: map<int, map<Tile, int>>, tolerances: map<Tile, int>,
                         damagePerIteration: int, iteration: int, epicenterTile: Tile)
    requires Exploding(explodedTiles, encounteredTiles, blockedTiles, tolerances, damagePerIteration, iteration,
                       epicenterTile)
    ensures iteration == |explodedTiles|
    ensures forall k, t :: k in blockedTiles && t in blockedTiles[k] ==> t in encounteredTiles
    ensures forall k, t :: k in blockedTiles && t in blockedTiles[k] ==> blockedTiles[k][t] < iteration
  {
    assert BlockedRecorded(explodedTiles, encounteredTiles, blockedTiles, tolerances, damagePerIteration);
    forall k, t | k in blockedTiles && t in blockedTiles[k]
      ensures blockedTiles[k][t] < iteration
    {
      assert 3 <= blockedTiles[k][t] && t in encounteredTiles;
    }
  }

  /**
   * A tile the pass that builds set `|explodedTiles|` reaches afresh: not
   * yet encountered, and a cardinal neighbour of the sources two back or a
   * diagonal neighbour of those three back.
   */
  ghost predicate NewlyReached(explodedTiles: seq<set<Tile>>, blockedTiles: map<int, map<Tile, int>>,
                               encounteredTiles: set<Tile>, t: Tile)
    requires 3 <= |explodedTiles|
  {
    && t !in encounteredTiles
    && (ReachesAdjacent(Sources(explodedTiles, blockedTiles, |explodedTiles| - 2), t)
        || ReachesDiagonal(Sources(explodedTiles, blockedTiles, |explodedTiles| - 3), t))
  }

  /** The passable tiles among `tiles`. */
  ghost function Passable(tiles: set<Tile>, tolerances: map<Tile, int>): set<Tile> {
    set t | t in tiles && !Impassable(tolerances, t)
  }

  /** Dropping the impassable candidates leaves the passable ones. */
  lemma PassableLeft(candidates: set<Tile>, impassable: map<Tile, int>, tolerances: map<Tile, int>)
    requires forall t :: t in impassable <==> t in candidates && Impassable(tolerances, t)
    ensures candidates - impassable.Keys == Passable(candidates, tolerances)
  {
  }

  /**
   * Impassable tile `t` is held back by pass `i` under `i` plus the delay
   * its tolerance gives, recording `i`.
   */
  predicate HeldFor(blockedTiles: map<int, map<Tile, int>>, t: Tile, tolerances: map<Tile, int>,
                    damagePerIteration: int, i: int)
    requires Impassable(tolerances, t) && damagePerIteration != 0
  {
    var k := i + Delay(tolerances[t], damagePerIteration).value;
    k in blockedTiles && t in blockedTiles[k] && blockedTiles[k][t] == i
  }

  /** A tile held back stays held back as the table grows. */
  lemma HeldForKept(b0: map<int, map<Tile, int>>, b1: map<int, map<Tile, int>>, t: Tile, tolerances: map<Tile, int>,
                    damagePerIteration: int, i: int)
    requires Impassable(tolerances, t) && damagePerIteration != 0
    requires BlockedGrows(b0, b1) && HeldFor(b0, t, tolerances, damagePerIteration, i)
    ensures HeldFor(b1, t, tolerances, damagePerIteration, i)
  {
  }

  /** Each impassable candidate of one pass is held under the pass plus its delay, recording the pass. */
  lemma PassHeld(iteration: int, b0: map<int, map<Tile, int>>, candidates: set<Tile>,
                 impassable: map<Tile, int>, b1: map<int, map<Tile, int>>, tolerances: map<Tile, int>,
                 damagePerIteration: int)
    requires forall k, t :: k in b0 && t in b0[k] ==> t !in candidates
    requires forall t :: t in impassable <==> t in candidates && Impassable(tolerances, t)
    requires forall t :: t in impassable ==> t in tolerances && impassable[t] == tolerances[t]
    requires HeldBack(b0, b1, impassable, iteration, damagePerIteration)
    ensures forall t :: t in candidates && Impassable(tolerances, t) && damagePerIteration != 0 ==>
      HeldFor(b1, t, tolerances, damagePerIteration, iteration)
  {
    forall t | t in candidates && Impassable(tolerances, t) && damagePerIteration != 0
      ensures HeldFor(b1, t, tolerances, damagePerIteration, iteration)
    {
      var k := iteration + Delay(tolerances[t], damagePerIteration).value;
      assert t in impassable && impassable[t] == tolerances[t];
      assert k in b1 && t in b1[k];
    }
  }

  /** Every entry one pass adds to the blocked table is an impassable candidate, recording the pass. */
  lemma PassAdded(iteration: int, b0: map<int, map<Tile, int>>, candidates: set<Tile>,
                  impassable: map<Tile, int>, b1: map<int, map<Tile, int>>, tolerances: map<Tile, int>,
                  damagePerIteration: int)
    requires forall t :: t in impassable <==> t in candidates && Impassable(tolerances, t)
    requires HeldBack(b0, b1, impassable, iteration, damagePerIteration)
    ensures forall k, t {:trigger b1[k][t]} :: k in b1 && t in b1[k] && !(k in b0 && t in b0[k]) ==>
      t in candidates && Impassable(tolerances, t) && b1[k][t] == iteration
  {
    forall k, t {:trigger b1[k][t]} | k in b1 && t in b1[k] && !(k in b0 && t in b0[k])
      ensures t in candidates && Impassable(tolerances, t) && b1[k][t] == iteration
    {
      assert t in impassable && b1[k][t] == iteration;
    }
  }

  /** One pass of the SpawnExplosion loop keeps the loop's invariant. */
  lemma PassKeepsExploding(ex0: seq<set<Tile>>, encountered0: set<Tile>, b0: map<int, map<Tile, int>>,
                           candidates: set<Tile>, impassable: map<Tile, int>, b1: map<int, map<Tile, int>>,
                           tolerances: map<Tile, int>, damagePerIteration: int, iteration: int, epicenterTile: Tile)
    requires Exploding(ex0, encountered0, b0, tolerances, damagePerIteration, iteration, epicenterTile)
    requires forall t :: t in candidates <==> NewlyReached(ex0, b0, encountered0, t)
    requires forall t :: t in impassable <==> t in candidates && Impassable(tolerances, t)
    requires forall t :: t in impassable ==> t in tolerances && impassable[t] == tolerances[t]
    requires HeldBack(b0, b1, impassable, iteration, damagePerIteration)
    ensures Exploding(ex0 + [candidates - impassable.Keys], encountered0 + candidates, b1, tolerances,
                      damagePerIteration, iteration + 1, epicenterTile)
  {
    var ex1 := ex0 + [candidates - impassable.Keys];
    ExplodingBlocked(ex0, encountered0, b0, tolerances, damagePerIteration, iteration, epicenterTile);
    HeldBackEntries(b0, b1, impassable, iteration, damagePerIteration);
    AppendDisjoint(ex0, encountered0, candidates - impassable.Keys);
    StepRecorded(ex0, encountered0, b0, candidates, impassable, b1, tolerances, damagePerIteration);
    StepReached(ex0, b0, candidates, impassable, b1, tolerances);
    StepPlaced(ex0, encountered0, b0, candidates, impassable, b1, tolerances, damagePerIteration);
    assert forall i :: 0 <= i < |ex0| ==> ex1[i] == ex0[i];
    forall i | 0 <= i < |ex1|
      ensures ex1[i] <= encountered0 + candidates
    {
      if i < |ex0| {
        assert ex0[i] <= encountered0;
      }
    }
  }

  /**
   * One pass of the SpawnExplosion loop. `reached` is the set of tiles it
   * reaches afresh: they are encountered, and nothing else is. The passable
   * ones form the new set. Each impassable one is held back under the
   * iteration plus its delay, recording the iteration; the earlier entries
   * of the table stay as they were. The loop's invariant is kept.
   */
  method ExplodeOnce(gridId: GridId, gridTileTolerances: map<GridId, map<Tile, int>>,
                     explodedTiles: seq<set<Tile>>, encounteredTiles: set<Tile>,
                     blockedTiles: map<int, map<Tile, int>>, iteration: int, damagePerIteration: int,
                     ghost epicenterTile: Tile)
    returns (explodedTiles': seq<set<Tile>>, encounteredTiles': set<Tile>,
             blockedTiles': map<int, map<Tile, int>>, ghost reached: set<Tile>)
    requires Exploding(explodedTiles, encounteredTiles, blockedTiles, GridTolerances(gridTileTolerances, gridId),
                       damagePerIteration, iteration, epicenterTile)
    ensures Exploding(explodedTiles', encounteredTiles', blockedTiles', GridTolerances(gridTileTolerances, gridId),
                      damagePerIteration, iteration + 1, epicenterTile)
    ensures forall t :: t in reached <==> NewlyReached(explodedTiles, blockedTiles, encounteredTiles, t)
    ensures encounteredTiles' == encounteredTiles + reached
    ensures explodedTiles' == explodedTiles + [Passable(reached, GridTolerances(gridTileTolerances, gridId))]
    ensures forall t ::
      t in reached && Impassable(GridTolerances(gridTileTolerances, gridId), t) && damagePerIteration != 0 ==>
        HeldFor(blockedTiles', t, GridTolerances(gridTileTolerances, gridId), damagePerIteration, iteration)
    ensures BlockedGrows(blockedTiles, blockedTiles')
    ensures forall k, t {:trigger blockedTiles'[k][t]} ::
      k in blockedTiles' && t in blockedTiles'[k] && !(k in blockedTiles && t in blockedTiles[k]) ==>
        t in reached && Impassable(GridTolerances(gridTileTolerances, gridId), t) && blockedTiles'[k][t] == iteration
  {
    ghost var tolerances := GridTolerances(gridTileTolerances, gridId);
    ExplodingBlocked(explodedTiles, encounteredTiles, blockedTiles, tolerances, damagePerIteration, iteration,
                     epicenterTile);
    var adjacentSources := Sources(explodedTiles, blockedTiles, iteration - 2);
    var diagonalSources := Sources(explodedTiles, blockedTiles, iteration - 3);

    var newTiles := GetAdjacentTiles(adjacentSources, encounteredTiles);
    var diagonalTiles := GetDiagonalTiles(diagonalSources, encounteredTiles);
    newTiles := newTiles + diagonalTiles;

    reached := newTiles;
    forall t ensures t in reached <==> NewlyReached(explodedTiles, blockedTiles, encounteredTiles, t) {
    }
    encounteredTiles' := encounteredTiles + newTiles;

    var impassableTiles := GetImpassableTiles(newTiles, gridId, gridTileTolerances);
    assert forall t :: t in impassableTiles <==> t in reached && Impassable(tolerances, t);
    newTiles := newTiles - impassableTiles.Keys;

    explodedTiles' := explodedTiles + [newTiles];

    blockedTiles' := HoldBack(blockedTiles, impassableTiles, iteration, damagePerIteration);

    PassableLeft(reached, impassableTiles, tolerances);
    PassHeld(iteration, blockedTiles, reached, impassableTiles, blockedTiles', tolerances, damagePerIteration);
    PassAdded(iteration, blockedTiles, reached, impassableTiles, blockedTiles', tolerances, damagePerIteration);
    PassKeepsExploding(explodedTiles, encounteredTiles, blockedTiles, reached, impassableTiles, blockedTiles',
                       tolerances, damagePerIteration, iteration, epicenterTile);
  }

  /**
   * SpawnExplosion on the grid found at the epicenter (None when there is
   * none): the tile sets, the encountered tiles and the blocked table it
   * builds. Nothing happens for zero strength or a missing grid. Otherwise
   * every tile past the first three sets was reached by the pass that put
   * it there, and nothing a pass reached was dropped. `seen` holds the
   * encountered tiles after each pass and `reached` the tiles each pass
   * reached, one pass per set past the first three, each as PassesRan
   * ties it to the state before it: the loop ran while the sum of the
   * sizes of `seen` stayed below the strength, and stopped as soon as it
   * reached it.
   */
  method SpawnExplosion(grid: Option<GridId>, epicenterTile: Tile, strength: int, damagePerIteration: int,
                        gridTileTolerances: map<GridId, map<Tile, int>>)
    returns (explodedTiles: seq<set<Tile>>, encounteredTiles: set<Tile>, blockedTiles: map<int, map<Tile, int>>,
             ghost seen: seq<set<Tile>>, ghost reached: seq<set<Tile>>)
    ensures strength == 0 || grid.None? ==> explodedTiles == [] && encounteredTiles == {} && blockedTiles == map[]
    ensures strength != 0 && grid.Some? ==>
      && PassesUntil(Sizes(seen), strength)
      && PassesRan(seen, reached, explodedTiles, encounteredTiles, blockedTiles,
                   GridTolerances(gridTileTolerances, grid.value), damagePerIteration, epicenterTile)
    ensures strength != 0 && grid.Some? ==>
      && |explodedTiles| >= 3
      && explodedTiles[0] == {} && explodedTiles[1] == {epicenterTile} && explodedTiles[2] == {}
      && PairwiseDisjoint(explodedTiles)
      && (forall i :: 0 <= i < |explodedTiles| ==> explodedTiles[i] <= encounteredTiles)
      && BlockedRecorded(explodedTiles, encounteredTiles, blockedTiles,
                         GridTolerances(gridTileTolerances, grid.value), damagePerIteration)
      && Reached(explodedTiles, blockedTiles, GridTolerances(gridTileTolerances, grid.value))
      && EncounteredPlaced(explodedTiles, encounteredTiles, blockedTiles,
                           GridTolerances(gridTileTolerances, grid.value), damagePerIteration)
      && Complete(explodedTiles, blockedTiles, GridTolerances(gridTileTolerances, grid.value), damagePerIteration)
  {
    explodedTiles, encounteredTiles, blockedTiles := [], {}, map[];
    seen, reached := [], [];
    if strength == 0 {
      return;
    }
    if grid.None? {
      return;
    }
    var gridId := grid.value;
    ghost var tolerances := GridTolerances(gridTileTolerances, gridId);

    encounteredTiles := {epicenterTile};
    explodedTiles := [{}, {epicenterTile}, {}];
    assert Placed(explodedTiles, blockedTiles, tolerances, damagePerIteration, epicenterTile, 2) by {
      assert epicenterTile in explodedTiles[1];
    }
    var distributedStrength := 0;
    var iteration := 3;
    while strength > distributedStrength
      invariant Exploding(explodedTiles, encounteredTiles, blockedTiles, tolerances, damagePerIteration, iteration,
                          epicenterTile)
      invariant PassesRan(seen, reached, explodedTiles, encounteredTiles, blockedTiles, tolerances,
                          damagePerIteration, epicenterTile)
      invariant distributedStrength == Total(Sizes(seen))
      invariant Below(seen, strength)
      decreases strength - distributedStrength
    {
      ghost var pass;
      ghost var explodedTiles0, encounteredTiles0, blockedTiles0 := explodedTiles, encounteredTiles, blockedTiles;
      explodedTiles, encounteredTiles, blockedTiles, pass :=
        ExplodeOnce(gridId, gridTileTolerances, explodedTiles, encounteredTiles, blockedTiles, iteration,
                    damagePerIteration, epicenterTile);
      assert AddedAt(blockedTiles0, blockedTiles, |explodedTiles0|);
      PassesShapeStep(seen, reached, explodedTiles0, encounteredTiles0, explodedTiles, encounteredTiles, pass,
                      tolerances, epicenterTile);
      PassesReachedStep(seen, reached, explodedTiles0, encounteredTiles0, blockedTiles0, explodedTiles, encounteredTiles,
                        blockedTiles, pass, epicenterTile);
      PassesHeldStep(reached, blockedTiles0, blockedTiles, pass, tolerances, damagePerIteration);
      PassesRecordedStep(reached, explodedTiles0, blockedTiles0, explodedTiles, blockedTiles, pass);
      assert epicenterTile in explodedTiles[1];
      iteration := iteration + 1;
      distributedStrength := distributedStrength + |encounteredTiles|;
      SeenStep(seen, encounteredTiles, strength);
      seen, reached := seen + [encounteredTiles], reached + [pass];
    }
    PassesEnd(seen, strength);
  }

  /** The tiles encountered before pass `k` of the loop (the set index `3 + k`): the epicenter before the first. */
  function EncounteredBefore(seen: seq<set<Tile>>, k: int, epicenterTile: Tile): set<Tile>
    requires 0 <= k <= |seen|
  {
    if k == 0 then {epicenterTile} else seen[k - 1]
  }

  /**
   * A tile pass `i` reaches afresh, with `before` encountered before it and
   * the sources it read as the table then stood.
   */
  ghost predicate ReachedAt(explodedTiles: seq<set<Tile>>, blockedTiles: map<int, map<Tile, int>>,
                            before: set<Tile>, i: int, t: Tile)
    requires 3 <= i < |explodedTiles|
  {
    && t !in before
    && (ReachesAdjacent(SourcesBefore(explodedTiles, blockedTiles, i - 2, i), t)
        || ReachesDiagonal(SourcesBefore(explodedTiles, blockedTiles, i - 3, i), t))
  }

  /**
   * The history of the SpawnExplosion loop after `|seen|` passes. Pass `k`
   * reached exactly the tiles `reached[k]`, those not yet encountered next
   * to its sources; it left `seen[k]` encountered, the earlier tiles plus
   * those; it built set `3 + k` from the passable ones; and it held back
   * every impassable one. Every entry of the blocked table was recorded by
   * the pass that reached the tile, and the encountered tiles are those the
   * last pass left.
   */
  ghost predicate PassesRan(seen: seq<set<Tile>>, reached: seq<set<Tile>>, explodedTiles: seq<set<Tile>>,
                            encounteredTiles: set<Tile>, blockedTiles: map<int, map<Tile, int>>,
                            tolerances: map<Tile, int>, damagePerIteration: int, epicenterTile: Tile)
  {
    && PassesShape(seen, reached, explodedTiles, encounteredTiles, tolerances, epicenterTile)
    && PassesReached(seen, reached, explodedTiles, blockedTiles, epicenterTile)
    && PassesHeld(reached, blockedTiles, tolerances, damagePerIteration)
    && PassesRecorded(reached, explodedTiles, blockedTiles)
  }

  /** One set and one encountered set per pass; each pass adds its tiles to the earlier ones and keeps the passable. */
  ghost predicate PassesShape(seen: seq<set<Tile>>, reached: seq<set<Tile>>, explodedTiles: seq<set<Tile>>,
                        encounteredTiles: set<Tile>, tolerances: map<Tile, int>, epicenterTile: Tile)
  {
    && |reached| == |seen| && |explodedTiles| == 3 + |seen|
    && encounteredTiles == EncounteredBefore(seen, |seen|, epicenterTile)
    && (forall k :: 0 <= k < |seen| ==> seen[k] == EncounteredBefore(seen, k, epicenterTile) + reached[k])
    && (forall k :: 0 <= k < |seen| ==> explodedTiles[3 + k] == Passable(reached[k], tolerances))
  }

  /** Pass `k` reached exactly the tiles ReachedAt names for it. */
  ghost predicate PassesReached(seen: seq<set<Tile>>, reached: seq<set<Tile>>, explodedTiles: seq<set<Tile>>,
                                blockedTiles: map<int, map<Tile, int>>, epicenterTile: Tile)
  {
    && |reached| == |seen| && |explodedTiles| == 3 + |seen|
    && (forall k, t :: 0 <= k < |seen| ==>
          (t in reached[k] <==> ReachedAt(explodedTiles, blockedTiles, EncounteredBefore(seen, k, epicenterTile),
                                          3 + k, t)))
  }

  /** Every impassable tile a pass reached is held back under that pass. */
  ghost predicate PassesHeld(reached: seq<set<Tile>>, blockedTiles: map<int, map<Tile, int>>, tolerances: map<Tile, int>,
                       damagePerIteration: int)
  {
    forall k, t :: 0 <= k < |reached| && t in reached[k] && Impassable(tolerances, t) && damagePerIteration != 0 ==>
      HeldFor(blockedTiles, t, tolerances, damagePerIteration, 3 + k)
  }

  /** Every entry of the blocked table records the pass that reached its tile. */
  ghost predicate PassesRecorded(reached: seq<set<Tile>>, explodedTiles: seq<set<Tile>>,
                           blockedTiles: map<int, map<Tile, int>>)
  {
    && |explodedTiles| == 3 + |reached|
    && forall k, t :: k in blockedTiles && t in blockedTiles[k] ==>
         3 <= blockedTiles[k][t] < |explodedTiles| && t in reached[blockedTiles[k][t] - 3]
  }

  /** A later pass leaves what an earlier pass reached unchanged. */
  lemma ReachedAtKept(explodedTiles: seq<set<Tile>>, blockedTiles: map<int, map<Tile, int>>,
                      explodedTiles': seq<set<Tile>>, blockedTiles': map<int, map<Tile, int>>,
                      before: set<Tile>, i: int, t: Tile)
    requires 3 <= i < |explodedTiles| < |explodedTiles'| && explodedTiles'[..|explodedTiles|] == explodedTiles
    requires BlockedGrows(blockedTiles, blockedTiles') && AddedAt(blockedTiles, blockedTiles', |explodedTiles|)
    ensures ReachedAt(explodedTiles', blockedTiles', before, i, t) == ReachedAt(explodedTiles, blockedTiles, before, i, t)
  {
    SourcesBeforeKept(explodedTiles, blockedTiles, explodedTiles', blockedTiles', i - 2, i, |explodedTiles|);
    SourcesBeforeKept(explodedTiles, blockedTiles, explodedTiles', blockedTiles', i - 3, i, |explodedTiles|);
  }

  /** The pass just run reached, in the history's terms, what NewlyReached says. */
  lemma ReachedAtNow(explodedTiles: seq<set<Tile>>, blockedTiles: map<int, map<Tile, int>>,
                     explodedTiles': seq<set<Tile>>, blockedTiles': map<int, map<Tile, int>>,
                     encounteredTiles: set<Tile>, t: Tile)
    requires 3 <= |explodedTiles| < |explodedTiles'| && explodedTiles'[..|explodedTiles|] == explodedTiles
    requires BlockedGrows(blockedTiles, blockedTiles') && AddedAt(blockedTiles, blockedTiles', |explodedTiles|)
    requires forall k, u :: k in blockedTiles && u in blockedTiles[k] ==> blockedTiles[k][u] < |explodedTiles|
    ensures ReachedAt(explodedTiles', blockedTiles', encounteredTiles, |explodedTiles|, t)
            == NewlyReached(explodedTiles, blockedTiles, encounteredTiles, t)
  {
    var n := |explodedTiles|;
    SourcesBeforeKept(explodedTiles, blockedTiles, explodedTiles', blockedTiles', n - 2, n, n);
    SourcesBeforeKept(explodedTiles, blockedTiles, explodedTiles', blockedTiles', n - 3, n, n);
    SourcesBeforeNow(explodedTiles, blockedTiles, n - 2);
    SourcesBeforeNow(explodedTiles, blockedTiles, n - 3);
  }

  /** One more pass extends the shape of the history by that pass. */
  lemma PassesShapeStep(seen: seq<set<Tile>>, reached: seq<set<Tile>>, explodedTiles: seq<set<Tile>>,
                        encounteredTiles: set<Tile>, explodedTiles': seq<set<Tile>>, encounteredTiles': set<Tile>,
                        pass: set<Tile>, tolerances: map<Tile, int>, epicenterTile: Tile)
    requires PassesShape(seen, reached, explodedTiles, encounteredTiles, tolerances, epicenterTile)
    requires encounteredTiles' == encounteredTiles + pass
    requires explodedTiles' == explodedTiles + [Passable(pass, tolerances)]
    ensures PassesShape(seen + [encounteredTiles'], reached + [pass], explodedTiles', encounteredTiles', tolerances,
                        epicenterTile)
  {
    var seen', reached' := seen + [encounteredTiles'], reached + [pass];
    forall k | 0 <= k < |seen'|
      ensures seen'[k] == EncounteredBefore(seen', k, epicenterTile) + reached'[k]
    {
      if k < |seen| {
        assert seen'[k] == seen[k] && reached'[k] == reached[k];
        assert EncounteredBefore(seen', k, epicenterTile) == EncounteredBefore(seen, k, epicenterTile);
      }
    }
    forall k | 0 <= k < |seen'|
      ensures explodedTiles'[3 + k] == Passable(reached'[k], tolerances)
    {
      if k < |seen| {
        assert explodedTiles'[3 + k] == explodedTiles[3 + k] && reached'[k] == reached[k];
      }
    }
  }

  /** One more pass, reaching what NewlyReached names, extends what the passes reached. */
  lemma PassesReachedStep(seen: seq<set<Tile>>, reached: seq<set<Tile>>, explodedTiles: seq<set<Tile>>,
                          encounteredTiles: set<Tile>, blockedTiles: map<int, map<Tile, int>>,
                          explodedTiles': seq<set<Tile>>, encounteredTiles': set<Tile>,
                          blockedTiles': map<int, map<Tile, int>>, pass: set<Tile>, epicenterTile: Tile)
    requires PassesReached(seen, reached, explodedTiles, blockedTiles, epicenterTile)
    requires encounteredTiles == EncounteredBefore(seen, |seen|, epicenterTile)
    requires forall k, t :: k in blockedTiles && t in blockedTiles[k] ==> blockedTiles[k][t] < |explodedTiles|
    requires forall t :: t in pass <==> NewlyReached(explodedTiles, blockedTiles, encounteredTiles, t)
    requires |explodedTiles'| == |explodedTiles| + 1 && explodedTiles'[..|explodedTiles|] == explodedTiles
    requires BlockedGrows(blockedTiles, blockedTiles') && AddedAt(blockedTiles, blockedTiles', |explodedTiles|)
    ensures PassesReached(seen + [encounteredTiles'], reached + [pass], explodedTiles', blockedTiles', epicenterTile)
  {
    var seen', reached' := seen + [encounteredTiles'], reached + [pass];
    forall k, t | 0 <= k < |seen'|
      ensures t in reached'[k] <==>
        ReachedAt(explodedTiles', blockedTiles', EncounteredBefore(seen', k, epicenterTile), 3 + k, t)
    {
      assert EncounteredBefore(seen', k, epicenterTile) == EncounteredBefore(seen, k, epicenterTile);
      if k < |seen| {
        assert reached'[k] == reached[k];
        ReachedAtKept(explodedTiles, blockedTiles, explodedTiles', blockedTiles', EncounteredBefore(seen, k, epicenterTile),
                      3 + k, t);
      } else {
        ReachedAtNow(explodedTiles, blockedTiles, explodedTiles', blockedTiles', encounteredTiles, t);
      }
    }
  }

  /** One more pass, holding back its impassable tiles, keeps every pass's tiles held back. */
  lemma PassesHeldStep(reached: seq<set<Tile>>, blockedTiles: map<int, map<Tile, int>>,
                       blockedTiles': map<int, map<Tile, int>>, pass: set<Tile>, tolerances: map<Tile, int>,
                       damagePerIteration: int)
    requires PassesHeld(reached, blockedTiles, tolerances, damagePerIteration)
    requires forall t :: t in pass && Impassable(tolerances, t) && damagePerIteration != 0 ==>
      HeldFor(blockedTiles', t, tolerances, damagePerIteration, 3 + |reached|)
    requires BlockedGrows(blockedTiles, blockedTiles')
    ensures PassesHeld(reached + [pass], blockedTiles', tolerances, damagePerIteration)
  {
    var reached' := reached + [pass];
    forall k, t | 0 <= k < |reached'| && t in reached'[k] && Impassable(tolerances, t) && damagePerIteration != 0
      ensures HeldFor(blockedTiles', t, tolerances, damagePerIteration, 3 + k)
    {
      if k < |reached| {
        assert reached'[k] == reached[k];
        HeldForKept(blockedTiles, blockedTiles', t, tolerances, damagePerIteration, 3 + k);
      }
    }
  }

  /** One more pass, recording only tiles it reached, keeps every entry tied to its pass. */
  lemma PassesRecordedStep(reached: seq<set<Tile>>, explodedTiles: seq<set<Tile>>,
                           blockedTiles: map<int, map<Tile, int>>, explodedTiles': seq<set<Tile>>,
                           blockedTiles': map<int, map<Tile, int>>, pass: set<Tile>)
    requires PassesRecorded(reached, explodedTiles, blockedTiles)
    requires |explodedTiles'| == |explodedTiles| + 1
    requires BlockedGrows(blockedTiles, blockedTiles')
    requires forall k, t {:trigger blockedTiles'[k][t]} ::
      k in blockedTiles' && t in blockedTiles'[k] && !(k in blockedTiles && t in blockedTiles[k]) ==>
        t in pass && blockedTiles'[k][t] == |explodedTiles|
    ensures PassesRecorded(reached + [pass], explodedTiles', blockedTiles')
  {
    var reached' := reached + [pass];
    forall k, t | k in blockedTiles' && t in blockedTiles'[k]
      ensures 3 <= blockedTiles'[k][t] < |explodedTiles'| && t in reached'[blockedTiles'[k][t] - 3]
    {
      if k in blockedTiles && t in blockedTiles[k] {
        assert blockedTiles'[k][t] == blockedTiles[k][t];
        assert reached'[blockedTiles[k][t] - 3] == reached[blockedTiles[k][t] - 3];
      }
    }
  }

  /** Before each pass so far, the encountered counts of the earlier passes stayed below the strength. */
  predicate Below(seen: seq<set<Tile>>, strength: int) {
    forall k :: 0 <= k < |seen| ==> Total(Sizes(seen[..k])) < strength
  }

  /** The number of tiles in each set of `seen`. */
  function Sizes(seen: seq<set<Tile>>): (r: seq<nat>)
    ensures |r| == |seen| && forall k :: 0 <= k < |seen| ==> r[k] == |seen[k]|
  {
    seq(|seen|, k requires 0 <= k < |seen| => |seen[k]|)
  }

  /** The sum of `s`. */
  function Total(s: seq<nat>): nat {
    if s == [] then 0 else Total(s[..|s| - 1]) + s[|s| - 1]
  }

  /**
   * Passes whose encountered counts are `counts` are what `while (strength
   * > distributedStrength)` runs: before each pass the counts so far stay
   * below the strength, and after the last they reach it.
   */
  predicate PassesUntil(counts: seq<nat>, strength: int) {
    && (forall k :: 0 <= k < |counts| ==> Total(counts[..k]) < strength)
    && strength <= Total(counts)
  }

  /** One more pass: the counts so far were below the strength, and the new total adds the new count. */
  lemma SeenStep(seen: seq<set<Tile>>, encountered: set<Tile>, strength: int)
    requires Below(seen, strength) && Total(Sizes(seen)) < strength
    ensures Total(Sizes(seen + [encountered])) == Total(Sizes(seen)) + |encountered|
    ensures Below(seen + [encountered], strength)
  {
    var seen' := seen + [encountered];
    assert seen'[..|seen'| - 1] == seen;
    assert Sizes(seen') == Sizes(seen) + [|encountered|];
    assert (Sizes(seen) + [|encountered|])[..|Sizes(seen)|] == Sizes(seen);
    forall k | 0 <= k < |seen'| ensures Total(Sizes(seen'[..k])) < strength {
      if k < |seen| {
        assert seen'[..k] == seen[..k];
      } else {
        assert seen'[..k] == seen;
      }
    }
  }

  /**
   * The loop stops the first time the total reaches the strength: no run
   * of passes that continues one satisfying PassesUntil satisfies it too,
   * so SpawnExplosion's passes are determined by their counts.
   */
  lemma PassesUntilOnce(counts: seq<nat>, more: seq<nat>, strength: int)
    requires PassesUntil(counts, strength) && more != []
    ensures !PassesUntil(counts + more, strength)
  {
    assert (counts + more)[..|counts|] == counts;
  }

  /** When the loop stops, the counts of its passes run until the strength. */
  lemma PassesEnd(seen: seq<set<Tile>>, strength: int)
    requires Below(seen, strength) && strength <= Total(Sizes(seen))
    ensures PassesUntil(Sizes(seen), strength)
  {
    forall k | 0 <= k < |seen| ensures Total(Sizes(seen)[..k]) < strength {
      assert Sizes(seen)[..k] == Sizes(seen[..k]);
    }
  }
}
