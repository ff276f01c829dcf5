/**
 * The grid-edge tracker of ExplosionSystemGridMap.cs. For every grid it keeps
 * the occupied tiles that border space through an edge, with the directions
 * that face space, and the occupied tiles that border space only through a
 * corner. A grid is modelled by the set of its non-empty tiles.
 */
module GridEdges {
  import opened Wrappers
  import opened Tiles

  /** The directions in which `t` faces a missing or empty tile. */
  function OpenDirs(grid: set<Tile>, t: Tile): Dirs {
    set d | d in AllDirs && Offset(t, d) !in grid
  }

  /** The diagonal neighbours of `t` that are missing or empty. */
  function OpenDiagonals(grid: set<Tile>, t: Tile): set<Tile> {
    DiagonalNeighbors(t) - grid
  }

  /** `t` is in the edge map exactly when it is occupied and faces space, mapped to those directions. */
  predicate EdgeOk(grid: set<Tile>, edges: map<Tile, Dirs>, t: Tile) {
    (t in edges <==> t in grid && OpenDirs(grid, t) != {}) && (t in edges ==> edges[t] == OpenDirs(grid, t))
  }

  /** `t` is a diagonal edge exactly when it is occupied, faces no space directly, but touches it at a corner. */
  predicate DiagOk(grid: set<Tile>, diagEdges: set<Tile>, t: Tile) {
    t in diagEdges <==> t in grid && OpenDirs(grid, t) == {} && OpenDiagonals(grid, t) != {}
  }

  predicate TileOk(grid: set<Tile>, edges: map<Tile, Dirs>, diagEdges: set<Tile>, t: Tile) {
    EdgeOk(grid, edges, t) && DiagOk(grid, diagEdges, t)
  }

  /**
   * The edge maps of a grid agree with its occupancy everywhere. In
   * particular no tile is in both, and empty tiles are in neither.
   */
  ghost predicate Classified(grid: set<Tile>, edges: map<Tile, Dirs>, diagEdges: set<Tile>) {
    forall t :: TileOk(grid, edges, diagEdges, t)
  }

  /** The entries for `t` are the same in both pairs of maps. */
  predicate Same(edges: map<Tile, Dirs>, diagEdges: set<Tile>, edges0: map<Tile, Dirs>, diagEdges0: set<Tile>, t: Tile) {
    (t in edges <==> t in edges0) && (t in edges ==> edges[t] == edges0[t]) && (t in diagEdges <==> t in diagEdges0)
  }

  /** `t` is `tile` or one of its eight neighbours. */
  predicate Near(tile: Tile, t: Tile) {
    t == tile || Adjacent(tile, t) || DiagonallyAdjacent(tile, t)
  }

  /** A classification is a property of each tile alone: equal entries give equal verdicts. */
  lemma TileOkSame(grid: set<Tile>, edges: map<Tile, Dirs>, diagEdges: set<Tile>,
                   edges0: map<Tile, Dirs>, diagEdges0: set<Tile>, t: Tile)
    requires Same(edges, diagEdges, edges0, diagEdges0, t)
    ensures TileOk(grid, edges, diagEdges, t) <==> TileOk(grid, edges0, diagEdges0, t)
  {
  }

  /** Changing a single tile changes nothing for a tile that is not one of its neighbours. */
  lemma FarUnaffected(g1: set<Tile>, g2: set<Tile>, tile: Tile, t: Tile,
                      edges: map<Tile, Dirs>, diagEdges: set<Tile>)
    requires g1 - {tile} == g2 - {tile}
    requires !Near(tile, t)
    requires TileOk(g1, edges, diagEdges, t)
    ensures TileOk(g2, edges, diagEdges, t)
  {
    assert t != tile;
    assert t in g1 - {tile} <==> t in g2 - {tile};
    assert OpenDirs(g1, t) == OpenDirs(g2, t) by {
      forall d | d in AllDirs ensures Offset(t, d) in g1 <==> Offset(t, d) in g2 {
        OffsetIsAdjacent(t, d);
        assert Offset(t, d) != tile;
        assert Offset(t, d) in g1 - {tile} <==> Offset(t, d) in g2 - {tile};
      }
    }
    assert OpenDiagonals(g1, t) == OpenDiagonals(g2, t) by {
      forall m | m in DiagonalNeighbors(t) ensures m in g1 <==> m in g2 {
        assert m != tile;
        assert m in g1 - {tile} <==> m in g2 - {tile};
      }
    }
  }

  /** The tile `d` of `tile` sees `tile` exactly in the opposite direction. */
  lemma OffsetBack(tile: Tile, d: Cardinal, e: Cardinal)
    ensures Offset(Offset(tile, d), e) == tile <==> e == Opposite(d)
  {
  }

  /** Emptying `tile` opens exactly the opposite direction of its neighbour in direction `d`. */
  lemma OpenDirsAfterRemoval(g0: set<Tile>, g: set<Tile>, tile: Tile, d: Cardinal)
    requires g == g0 - {tile}
    ensures OpenDirs(g, Offset(tile, d)) == OpenDirs(g0, Offset(tile, d)) + {Opposite(d)}
    ensures OpenDiagonals(g, Offset(tile, d)) == OpenDiagonals(g0, Offset(tile, d))
  {
    var n := Offset(tile, d);
    forall e | e in AllDirs ensures Offset(n, e) !in g <==> Offset(n, e) !in g0 || e == Opposite(d) {
      OffsetBack(tile, d, e);
    }
    AllDirsComplete();
    assert tile !in DiagonalNeighbors(n);
  }

  /** Filling `tile` closes exactly the opposite direction of its neighbour in direction `d`. */
  lemma OpenDirsAfterAddition(g0: set<Tile>, g: set<Tile>, tile: Tile, d: Cardinal)
    requires g0 == g - {tile} && tile in g
    ensures OpenDirs(g, Offset(tile, d)) == OpenDirs(g0, Offset(tile, d)) - {Opposite(d)}
    ensures Opposite(d) in OpenDirs(g0, Offset(tile, d))
    ensures OpenDiagonals(g, Offset(tile, d)) == OpenDiagonals(g0, Offset(tile, d))
  {
    var n := Offset(tile, d);
    forall e | e in AllDirs ensures Offset(n, e) !in g <==> Offset(n, e) !in g0 && e != Opposite(d) {
      OffsetBack(tile, d, e);
    }
    AllDirsComplete();
    assert tile !in DiagonalNeighbors(n);
  }

  /** A diagonal neighbour of the changed tile keeps its open directions; only one corner changes. */
  lemma DiagonalNeighbourAfterChange(g0: set<Tile>, g: set<Tile>, tile: Tile, m: Tile)
    requires g0 - {tile} == g - {tile}
    requires DiagonallyAdjacent(tile, m)
    ensures m in g <==> m in g0
    ensures OpenDirs(g, m) == OpenDirs(g0, m)
    ensures OpenDiagonals(g, m) - {tile} == OpenDiagonals(g0, m) - {tile}
    ensures tile in DiagonalNeighbors(m)
  {
    assert m != tile;
    assert m in g - {tile} <==> m in g0 - {tile};
    forall e | e in AllDirs ensures Offset(m, e) in g <==> Offset(m, e) in g0 {
      OffsetIsAdjacent(m, e);
      assert Offset(m, e) != tile;
      assert Offset(m, e) in g - {tile} <==> Offset(m, e) in g0 - {tile};
    }
    forall x | x in OpenDiagonals(g, m) - {tile} ensures x in OpenDiagonals(g0, m) - {tile} {
      assert x in g - {tile} <==> x in g0 - {tile};
    }
    forall x | x in OpenDiagonals(g0, m) - {tile} ensures x in OpenDiagonals(g, m) - {tile} {
      assert x in g - {tile} <==> x in g0 - {tile};
    }
  }

  /** Distinct directions lead to distinct tiles. */
  lemma OffsetInjective(t: Tile, d: Cardinal, e: Cardinal)
    ensures Offset(t, d) == Offset(t, e) ==> d == e
  {
  }

  /** GetDiagonalNeighbors: the four diagonal offsets, in the order (1, 1), (-1, -1), (1, -1), (-1, 1). */
  function GetDiagonalNeighbors(pos: Tile): (r: seq<Tile>)
    ensures |r| == 4
    ensures forall m :: m in r <==> DiagonallyAdjacent(pos, m)
    ensures forall i, j :: 0 <= i < j < |r| ==> r[i] != r[j]
  {
    [Shift(pos, 1, 1), Shift(pos, -1, -1), Shift(pos, 1, -1), Shift(pos, -1, 1)]
  }

  /** IsEdge: whether `index` faces a missing or empty tile, and in which directions. */
  method IsEdge(grid: set<Tile>, index: Tile) returns (isEdge: bool, spaceDirections: Dirs)
    ensures spaceDirections == OpenDirs(grid, index)
    ensures isEdge <==> spaceDirections != {}
    ensures isEdge <==> exists d :: d in AllDirs && Offset(index, d) !in grid
  {
    spaceDirections := {};
    for i := 0 to 4
      invariant forall d :: d in spaceDirections <==> d in CardinalOrder[..i] && Offset(index, d) !in grid
    {
      var direction := CardinalOrder[i];
      assert CardinalOrder[..i + 1] == CardinalOrder[..i] + [direction];
      if Offset(index, direction) !in grid {
        spaceDirections := spaceDirections + {direction};
      }
    }
    assert CardinalOrder[..4] == CardinalOrder;
    AllDirsComplete();
    isEdge := spaceDirections != {};
    if isEdge {
      var d :| d in spaceDirections;
      assert d in AllDirs && Offset(index, d) !in grid;
    }
  }

  /**
   * IsDiagonalEdge: whether some diagonal neighbour of `index`, other than
   * `ignore`, is missing or empty.
   */
  method IsDiagonalEdge(grid: set<Tile>, index: Tile, ignore: Option<Tile>) returns (r: bool)
    ensures r <==> exists m :: m in DiagonalNeighbors(index) && ignore != Some(m) && m !in grid
  {
    var neighbours := GetDiagonalNeighbors(index);
    for i := 0 to 4
      invariant forall j :: 0 <= j < i ==> neighbours[j] in grid || ignore == Some(neighbours[j])
    {
      var neighbourIndex := neighbours[i];
      if ignore == Some(neighbourIndex) {
        continue;
      }
      if neighbourIndex !in grid {
        assert neighbourIndex in DiagonalNeighbors(index);
        return true;
      }
    }
    forall m | m in DiagonalNeighbors(index) ensures m in grid || ignore == Some(m) {
      assert m in neighbours;
      var j :| 0 <= j < 4 && neighbours[j] == m;
    }
    return false;
  }

  /** With the ignored tile occupied, IsDiagonalEdge tells whether any corner faces space. */
  lemma IgnoredOccupied(grid: set<Tile>, index: Tile, ignore: Tile)
    requires ignore in grid
    ensures (exists m :: m in DiagonalNeighbors(index) && Some(ignore) != Some(m) && m !in grid)
      <==> OpenDiagonals(grid, index) != {}
  {
    if OpenDiagonals(grid, index) != {} {
      var m :| m in OpenDiagonals(grid, index);
      assert Some(ignore) != Some(m);
    }
    if m :| m in DiagonalNeighbors(index) && Some(ignore) != Some(m) && m !in grid {
      assert m in OpenDiagonals(grid, index);
    }
  }

  /**
   * The branch of OnTileChanged for a tile that is now empty: the tile leaves
   * both maps, its occupied cardinal neighbours gain the direction facing it,
   * and its occupied diagonal neighbours that face no space directly become
   * diagonal edges.
   */
  method RemoveTile(grid: set<Tile>, tile: Tile, edges0: map<Tile, Dirs>, diagEdges0: set<Tile>)
    returns (edges: map<Tile, Dirs>, diagEdges: set<Tile>)
    requires tile !in grid
    ensures tile !in edges && tile !in diagEdges
    ensures forall d :: RemovedNeighbour(grid, tile, d, edges0, diagEdges0, edges, diagEdges)
    ensures forall m :: DiagonallyAdjacent(tile, m) ==> RemovedDiagonal(grid, m, edges0, diagEdges0, edges, diagEdges)
    ensures forall t :: !Near(tile, t) ==> Same(edges, diagEdges, edges0, diagEdges0, t)
    ensures Classified(grid, edges0, diagEdges0) || Classified(grid + {tile}, edges0, diagEdges0)
      ==> Classified(grid, edges, diagEdges)
  {
    ghost var g0 := if Classified(grid, edges0, diagEdges0) then grid else grid + {tile};
    assert g0 - {tile} == grid;
    var edges1, diagEdges1 := edges0 - {tile}, diagEdges0 - {tile};
    assert forall t :: t != tile ==> Same(edges1, diagEdges1, edges0, diagEdges0, t);
    var edges2, diagEdges2 := GrowNeighbourEdges(grid, tile, edges1, diagEdges1);
    edges, diagEdges := MarkDiagonalEdges(grid, tile, edges2, diagEdges2);
    assert !Adjacent(tile, tile) && !DiagonallyAdjacent(tile, tile);
    forall d ensures RemovedNeighbour(grid, tile, d, edges0, diagEdges0, edges, diagEdges) {
      OffsetIsAdjacent(tile, d);
      assert !DiagonallyAdjacent(tile, Offset(tile, d));
      RemovedNeighbourSame(grid, tile, d, edges1, diagEdges1, edges0, diagEdges0, edges2, diagEdges2, edges, diagEdges);
    }
    forall m | DiagonallyAdjacent(tile, m) ensures RemovedDiagonal(grid, m, edges0, diagEdges0, edges, diagEdges) {
      assert !Adjacent(tile, m) && m != tile;
      assert Same(edges2, diagEdges2, edges0, diagEdges0, m);
    }
    if Classified(g0, edges0, diagEdges0) {
      forall t ensures TileOk(grid, edges, diagEdges, t) {
        if t == tile {
        } else if Adjacent(tile, t) {
          AdjacentIsOffset(tile, t);
          var j :| 0 <= j < 4 && t == Offset(tile, CardinalOrder[j]);
          RemovedNeighbourOk(g0, grid, tile, CardinalOrder[j], edges0, diagEdges0, edges, diagEdges);
        } else if DiagonallyAdjacent(tile, t) {
          RemovedDiagonalOk(g0, grid, tile, t, edges0, diagEdges0, edges, diagEdges);
        } else {
          assert TileOk(g0, edges0, diagEdges0, t);
          FarUnaffected(g0, grid, tile, t, edges0, diagEdges0);
          assert Same(edges2, diagEdges2, edges0, diagEdges0, t);
          TileOkSame(grid, edges, diagEdges, edges0, diagEdges0, t);
        }
      }
    }
  }

  /**
   * The cardinal loop of RemoveTile: each occupied neighbour gains the
   * direction facing the emptied tile and leaves the diagonal set.
   */
  method GrowNeighbourEdges(grid: set<Tile>, tile: Tile, edges0: map<Tile, Dirs>, diagEdges0: set<Tile>)
    returns (edges: map<Tile, Dirs>, diagEdges: set<Tile>)
    ensures forall d :: RemovedNeighbour(grid, tile, d, edges0, diagEdges0, edges, diagEdges)
    ensures forall t :: !Adjacent(tile, t) ==> Same(edges, diagEdges, edges0, diagEdges0, t)
  {
    edges, diagEdges := edges0, diagEdges0;
    ghost var handled: set<Tile> := {};
    for i := 0 to 4
      invariant forall t :: t in handled ==> Adjacent(tile, t) && exists j :: 0 <= j < i && t == Offset(tile, CardinalOrder[j])
      invariant forall t :: t !in handled ==> Same(edges, diagEdges, edges0, diagEdges0, t)
      invariant forall j :: 0 <= j < i ==> RemovedNeighbour(grid, tile, CardinalOrder[j], edges0, diagEdges0, edges, diagEdges)
    {
      var direction := CardinalOrder[i];
      var neighbourIndex := Offset(tile, direction);
      OffsetIsAdjacent(tile, direction);
      NewNeighbour(tile, i);
      assert neighbourIndex !in handled;
      ghost var edgesBefore, diagEdgesBefore := edges, diagEdges;
      if neighbourIndex in grid {
        var spaceDir := if neighbourIndex in edges then edges[neighbourIndex] else {};
        edges := edges[neighbourIndex := spaceDir + {Opposite(direction)}];
        diagEdges := diagEdges - {neighbourIndex};
      }
      SameOutside(edgesBefore, diagEdgesBefore, edges, diagEdges, neighbourIndex, edges0, diagEdges0);
      CardinalKept(grid, tile, i, neighbourIndex, edges0, diagEdges0, edgesBefore, diagEdgesBefore, edges, diagEdges);
      handled := handled + {neighbourIndex};
    }
    forall d ensures RemovedNeighbour(grid, tile, d, edges0, diagEdges0, edges, diagEdges) {
      AllDirsComplete();
      var j :| 0 <= j < 4 && CardinalOrder[j] == d;
    }
  }

  /**
   * The diagonal loop of RemoveTile: each occupied diagonal neighbour that is
   * not a cardinal edge becomes a diagonal edge.
   */
  method MarkDiagonalEdges(grid: set<Tile>, tile: Tile, edges0: map<Tile, Dirs>, diagEdges0: set<Tile>)
    returns (edges: map<Tile, Dirs>, diagEdges: set<Tile>)
    ensures edges == edges0
    ensures forall m :: DiagonallyAdjacent(tile, m) ==> RemovedDiagonal(grid, m, edges0, diagEdges0, edges, diagEdges)
    ensures forall t :: !DiagonallyAdjacent(tile, t) ==> (t in diagEdges <==> t in diagEdges0)
  {
    edges, diagEdges := edges0, diagEdges0;
    var diagonals := GetDiagonalNeighbors(tile);
    ghost var handledDiagonals: set<Tile> := {};
    for i := 0 to 4
      invariant edges == edges0
      invariant forall t :: t in handledDiagonals ==> DiagonallyAdjacent(tile, t) && exists j :: 0 <= j < i && diagonals[j] == t
      invariant forall t :: t !in handledDiagonals ==> (t in diagEdges <==> t in diagEdges0)
      invariant forall j :: 0 <= j < i ==> RemovedDiagonal(grid, diagonals[j], edges0, diagEdges0, edges, diagEdges)
    {
      var diagNeighbourIndex := diagonals[i];
      assert diagNeighbourIndex !in handledDiagonals;
      if diagNeighbourIndex !in edges && diagNeighbourIndex in grid {
        diagEdges := diagEdges + {diagNeighbourIndex};
      }
      assert forall j :: 0 <= j < i ==> diagonals[j] != diagNeighbourIndex;
      handledDiagonals := handledDiagonals + {diagNeighbourIndex};
    }
    forall m | DiagonallyAdjacent(tile, m) ensures RemovedDiagonal(grid, m, edges0, diagEdges0, edges, diagEdges) {
      assert m in diagonals;
      var j :| 0 <= j < 4 && diagonals[j] == m;
    }
  }

  /**
   * The branch of OnTileChanged for a tile that is now occupied: its cardinal
   * neighbours lose the direction facing it (an edge tile left with no open
   * direction drops out of the edge map and may become a diagonal edge), its
   * diagonal neighbours that no longer touch space leave the diagonal set,
   * and the tile itself is classified last. `addFailed` models the
   * exception of Dictionary.Add when the tile is already in the edge map; the
   * neighbour updates have been made by then.
   */
  method AddTile(grid: set<Tile>, tile: Tile, edges0: map<Tile, Dirs>, diagEdges0: set<Tile>)
    returns (edges: map<Tile, Dirs>, diagEdges: set<Tile>, addFailed: bool)
    requires tile in grid
    ensures addFailed <==> tile in edges0 && OpenDirs(grid, tile) != {}
    ensures forall d :: AddedNeighbour(grid, tile, d, edges0, diagEdges0, edges, diagEdges)
    ensures forall m :: DiagonallyAdjacent(tile, m) ==> AddedDiagonal(grid, m, edges0, diagEdges0, edges, diagEdges)
    ensures addFailed ==> Same(edges, diagEdges, edges0, diagEdges0, tile)
    ensures !addFailed && OpenDirs(grid, tile) != {} ==>
      tile in edges && edges[tile] == OpenDirs(grid, tile) && (tile in diagEdges <==> tile in diagEdges0)
    ensures OpenDirs(grid, tile) == {} ==>
      && (tile in edges <==> tile in edges0) && (tile in edges ==> edges[tile] == edges0[tile])
      && (tile in diagEdges <==> tile in diagEdges0 || OpenDiagonals(grid, tile) != {})
    ensures forall t :: !Near(tile, t) ==> Same(edges, diagEdges, edges0, diagEdges0, t)
    ensures Classified(grid - {tile}, edges0, diagEdges0) ==> !addFailed && Classified(grid, edges, diagEdges)
  {
    var edges1, diagEdges1 := ShrinkNeighbourEdges(grid, tile, edges0, diagEdges0);
    var edges2, diagEdges2 := PruneDiagonalEdges(grid, tile, edges1, diagEdges1);
    forall d ensures AddedNeighbour(grid, tile, d, edges0, diagEdges0, edges2, diagEdges2) {
      OffsetIsAdjacent(tile, d);
      assert !DiagonallyAdjacent(tile, Offset(tile, d));
      AddedNeighbourSame(grid, tile, d, edges0, diagEdges0, edges1, diagEdges1, edges2, diagEdges2);
    }
    forall m | DiagonallyAdjacent(tile, m) ensures AddedDiagonal(grid, m, edges0, diagEdges0, edges2, diagEdges2) {
      assert !Adjacent(tile, m);
    }
    assert !Adjacent(tile, tile) && !DiagonallyAdjacent(tile, tile);
    assert Same(edges1, diagEdges1, edges0, diagEdges0, tile);
    assert Same(edges2, diagEdges2, edges1, diagEdges1, tile);
    assert Same(edges2, diagEdges2, edges0, diagEdges0, tile);
    edges, diagEdges, addFailed := ClassifyTile(grid, tile, edges2, diagEdges2);
    TileStepKept(grid, tile, edges0, diagEdges0, edges2, diagEdges2, edges, diagEdges);
    forall t | t != tile ensures Same(edges, diagEdges, edges2, diagEdges2, t) {
      assert t in edges.Keys - {tile} <==> t in edges2.Keys - {tile};
      assert t in diagEdges - {tile} <==> t in diagEdges2 - {tile};
    }
    if Classified(grid - {tile}, edges0, diagEdges0) {
      assert TileOk(grid - {tile}, edges0, diagEdges0, tile);
      forall t ensures TileOk(grid, edges, diagEdges, t) {
        if t == tile {
        } else if Adjacent(tile, t) {
          AdjacentIsOffset(tile, t);
          var j :| 0 <= j < 4 && t == Offset(tile, CardinalOrder[j]);
          AddedNeighbourOk(grid, tile, CardinalOrder[j], edges0, diagEdges0, edges, diagEdges);
        } else if DiagonallyAdjacent(tile, t) {
          AddedDiagonalOk(grid, tile, t, edges0, diagEdges0, edges, diagEdges);
        } else {
          assert TileOk(grid - {tile}, edges0, diagEdges0, t);
          FarUnaffected(grid - {tile}, grid, tile, t, edges0, diagEdges0);
          TileOkSame(grid, edges, diagEdges, edges0, diagEdges0, t);
        }
      }
    }
  }

  /**
   * The cardinal loop of AddTile: each neighbour that is a cardinal edge loses
   * the direction facing the filled tile.
   */
  method ShrinkNeighbourEdges(grid: set<Tile>, tile: Tile, edges0: map<Tile, Dirs>, diagEdges0: set<Tile>)
    returns (edges: map<Tile, Dirs>, diagEdges: set<Tile>)
    requires tile in grid
    ensures forall d :: AddedNeighbour(grid, tile, d, edges0, diagEdges0, edges, diagEdges)
    ensures forall t :: !Adjacent(tile, t) ==> Same(edges, diagEdges, edges0, diagEdges0, t)
  {
    edges, diagEdges := edges0, diagEdges0;
    ghost var handled: set<Tile> := {};
    for i := 0 to 4
      invariant forall t :: t in handled ==> Adjacent(tile, t) && exists j :: 0 <= j < i && t == Offset(tile, CardinalOrder[j])
      invariant forall t :: t !in handled ==> Same(edges, diagEdges, edges0, diagEdges0, t)
      invariant forall j :: 0 <= j < i ==> AddedNeighbour(grid, tile, CardinalOrder[j], edges0, diagEdges0, edges, diagEdges)
    {
      var direction := CardinalOrder[i];
      var neighbourIndex := Offset(tile, direction);
      OffsetIsAdjacent(tile, direction);
      NewNeighbour(tile, i);
      assert neighbourIndex !in handled;
      ghost var edgesBefore, diagEdgesBefore := edges, diagEdges;
      if neighbourIndex in edges {
        var spaceDir := edges[neighbourIndex] - {Opposite(direction)};
        if spaceDir != {} {
          edges := edges[neighbourIndex := spaceDir];
        } else {
          edges := edges - {neighbourIndex};
          var diagonal := IsDiagonalEdge(grid, neighbourIndex, Some(tile));
          IgnoredOccupied(grid, neighbourIndex, tile);
          if diagonal {
            diagEdges := diagEdges + {neighbourIndex};
          }
        }
      }
      SameOutside(edgesBefore, diagEdgesBefore, edges, diagEdges, neighbourIndex, edges0, diagEdges0);
      AddedCardinalKept(grid, tile, i, neighbourIndex, edges0, diagEdges0, edgesBefore, diagEdgesBefore, edges, diagEdges);
      handled := handled + {neighbourIndex};
    }
    forall d ensures AddedNeighbour(grid, tile, d, edges0, diagEdges0, edges, diagEdges) {
      AllDirsComplete();
      var j :| 0 <= j < 4 && CardinalOrder[j] == d;
    }
  }

  /**
   * The diagonal loop of AddTile: a diagonal neighbour that is a diagonal edge
   * is dropped when no corner other than the filled tile faces space.
   */
  method PruneDiagonalEdges(grid: set<Tile>, tile: Tile, edges0: map<Tile, Dirs>, diagEdges0: set<Tile>)
    returns (edges: map<Tile, Dirs>, diagEdges: set<Tile>)
    requires tile in grid
    ensures edges == edges0
    ensures forall m :: DiagonallyAdjacent(tile, m) ==> AddedDiagonal(grid, m, edges0, diagEdges0, edges, diagEdges)
    ensures forall t :: !DiagonallyAdjacent(tile, t) ==> Same(edges, diagEdges, edges0, diagEdges0, t)
  {
    edges, diagEdges := edges0, diagEdges0;
    var diagonals := GetDiagonalNeighbors(tile);
    ghost var handledDiagonals: set<Tile> := {};
    for i := 0 to 4
      invariant edges == edges0
      invariant forall t :: t in handledDiagonals ==> DiagonallyAdjacent(tile, t) && exists j :: 0 <= j < i && diagonals[j] == t
      invariant forall t :: t !in handledDiagonals ==> (t in diagEdges <==> t in diagEdges0)
      invariant forall j :: 0 <= j < i ==> AddedDiagonal(grid, diagonals[j], edges0, diagEdges0, edges, diagEdges)
    {
      var neighborIndex := diagonals[i];
      assert neighborIndex !in handledDiagonals;
      ghost var diagEdgesBefore := diagEdges;
      if neighborIndex in diagEdges {
        var diagonal := IsDiagonalEdge(grid, neighborIndex, Some(tile));
        IgnoredOccupied(grid, neighborIndex, tile);
        if !diagonal {
          diagEdges := diagEdges - {neighborIndex};
        }
      }
      assert forall j :: 0 <= j < i ==> diagonals[j] != neighborIndex;
      handledDiagonals := handledDiagonals + {neighborIndex};
    }
    forall m | DiagonallyAdjacent(tile, m) ensures AddedDiagonal(grid, m, edges0, diagEdges0, edges, diagEdges) {
      assert m in diagonals;
      var j :| 0 <= j < 4 && diagonals[j] == m;
    }
  }

  /** In a grid classified before the tile was filled, AddTile's update of a cardinal neighbour classifies it. */
  lemma AddedNeighbourOk(grid: set<Tile>, tile: Tile, d: Cardinal, edges0: map<Tile, Dirs>, diagEdges0: set<Tile>,
                         edges: map<Tile, Dirs>, diagEdges: set<Tile>)
    requires tile in grid
    requires Classified(grid - {tile}, edges0, diagEdges0)
    requires AddedNeighbour(grid, tile, d, edges0, diagEdges0, edges, diagEdges)
    ensures TileOk(grid, edges, diagEdges, Offset(tile, d))
  {
    var n := Offset(tile, d);
    OffsetIsAdjacent(tile, d);
    assert TileOk(grid - {tile}, edges0, diagEdges0, n);
    OpenDirsAfterAddition(grid - {tile}, grid, tile, d);
    assert n in grid - {tile} <==> n in grid;
  }

  /** In a grid classified before the tile was filled, AddTile's update of a diagonal neighbour classifies it. */
  lemma AddedDiagonalOk(grid: set<Tile>, tile: Tile, m: Tile, edges0: map<Tile, Dirs>, diagEdges0: set<Tile>,
                        edges: map<Tile, Dirs>, diagEdges: set<Tile>)
    requires tile in grid
    requires Classified(grid - {tile}, edges0, diagEdges0)
    requires DiagonallyAdjacent(tile, m)
    requires AddedDiagonal(grid, m, edges0, diagEdges0, edges, diagEdges)
    ensures TileOk(grid, edges, diagEdges, m)
  {
    DiagonalNeighbourAfterChange(grid - {tile}, grid, tile, m);
    assert TileOk(grid - {tile}, edges0, diagEdges0, m);
    assert tile !in OpenDiagonals(grid, m);
    assert OpenDiagonals(grid, m) <= OpenDiagonals(grid - {tile}, m);
  }

  /**
   * The last step of OnTileChanged for an occupied tile: an edge tile is
   * added to the edge map with its open directions, failing if it is there
   * already; otherwise it joins the diagonal set if a corner faces space.
   */
  method ClassifyTile(grid: set<Tile>, tile: Tile, edges0: map<Tile, Dirs>, diagEdges0: set<Tile>)
    returns (edges: map<Tile, Dirs>, diagEdges: set<Tile>, addFailed: bool)
    ensures addFailed <==> tile in edges0 && OpenDirs(grid, tile) != {}
    ensures addFailed ==> edges == edges0 && diagEdges == diagEdges0
    ensures !addFailed && OpenDirs(grid, tile) != {} ==>
      edges == edges0[tile := OpenDirs(grid, tile)] && diagEdges == diagEdges0
    ensures OpenDirs(grid, tile) == {} ==>
      edges == edges0 && diagEdges == if OpenDiagonals(grid, tile) != {} then diagEdges0 + {tile} else diagEdges0
  {
    edges, diagEdges, addFailed := edges0, diagEdges0, false;
    var isEdge, spaceDir := IsEdge(grid, tile);
    if isEdge {
      if tile in edges {
        addFailed := true;
        return;
      }
      edges := edges[tile := spaceDir];
    } else {
      var diagonal := IsDiagonalEdge(grid, tile, None);
      if diagonal {
        diagEdges := diagEdges + {tile};
        var m :| m in DiagonalNeighbors(tile) && None != Some(m) && m !in grid;
        assert m in OpenDiagonals(grid, tile);
      }
    }
  }

  /**
   * What AddTile does to the cardinal neighbour in direction `d`: an edge
   * neighbour loses the direction facing the filled tile; when nothing is left
   * it leaves the edge map and joins the diagonal set if a corner still faces
   * space. A neighbour that was no edge keeps its entries.
   */
  predicate AddedNeighbour(grid: set<Tile>, tile: Tile, d: Cardinal, edges0: map<Tile, Dirs>, diagEdges0: set<Tile>,
                           edges: map<Tile, Dirs>, diagEdges: set<Tile>)
  {
    var n := Offset(tile, d);
    if n in edges0 && edges0[n] - {Opposite(d)} != {} then
      n in edges && edges[n] == edges0[n] - {Opposite(d)} && (n in diagEdges <==> n in diagEdges0)
    else if n in edges0 then
      n !in edges && (n in diagEdges <==> n in diagEdges0 || OpenDiagonals(grid, n) != {})
    else
      Same(edges, diagEdges, edges0, diagEdges0, n)
  }

  /** What AddTile does to a diagonal neighbour `m`: it stays a diagonal edge only if a corner still faces space. */
  predicate AddedDiagonal(grid: set<Tile>, m: Tile, edges0: map<Tile, Dirs>, diagEdges0: set<Tile>,
                          edges: map<Tile, Dirs>, diagEdges: set<Tile>)
  {
    && (m in edges <==> m in edges0)
    && (m in edges ==> edges[m] == edges0[m])
    && (m in diagEdges <==> m in diagEdges0 && OpenDiagonals(grid, m) != {})
  }

  /** The cardinal neighbours already updated by AddTile keep their entries when the next one is updated. */
  lemma AddedCardinalKept(grid: set<Tile>, tile: Tile, i: nat, changed: Tile,
                          edges0: map<Tile, Dirs>, diagEdges0: set<Tile>,
                          edges: map<Tile, Dirs>, diagEdges: set<Tile>, edges1: map<Tile, Dirs>, diagEdges1: set<Tile>)
    requires i < 4 && changed == Offset(tile, CardinalOrder[i])
    requires Same(edges, diagEdges, edges0, diagEdges0, changed)
    requires changed in edges && edges[changed] - {Opposite(CardinalOrder[i])} != {} ==>
      edges1 == edges[changed := edges[changed] - {Opposite(CardinalOrder[i])}] && diagEdges1 == diagEdges
    requires changed in edges && edges[changed] - {Opposite(CardinalOrder[i])} == {} ==>
      edges1 == edges - {changed}
      && diagEdges1 == (if OpenDiagonals(grid, changed) != {} then diagEdges + {changed} else diagEdges)
    requires changed !in edges ==> edges1 == edges && diagEdges1 == diagEdges
    requires forall j :: 0 <= j < i ==> AddedNeighbour(grid, tile, CardinalOrder[j], edges0, diagEdges0, edges, diagEdges)
    ensures forall j :: 0 <= j <= i ==> AddedNeighbour(grid, tile, CardinalOrder[j], edges0, diagEdges0, edges1, diagEdges1)
  {
    NewNeighbour(tile, i);
  }

  /** AddedNeighbour depends only on the entries of the neighbour itself. */
  lemma AddedNeighbourSame(grid: set<Tile>, tile: Tile, d: Cardinal, edges0: map<Tile, Dirs>, diagEdges0: set<Tile>,
                           edges: map<Tile, Dirs>, diagEdges: set<Tile>, edges1: map<Tile, Dirs>, diagEdges1: set<Tile>)
    requires AddedNeighbour(grid, tile, d, edges0, diagEdges0, edges, diagEdges)
    requires Same(edges1, diagEdges1, edges, diagEdges, Offset(tile, d))
    ensures AddedNeighbour(grid, tile, d, edges0, diagEdges0, edges1, diagEdges1)
  {
  }

  /** Classifying the filled tile itself leaves the facts about its neighbours intact. */
  lemma TileStepKept(grid: set<Tile>, tile: Tile, edges0: map<Tile, Dirs>, diagEdges0: set<Tile>,
                     edges: map<Tile, Dirs>, diagEdges: set<Tile>, edges1: map<Tile, Dirs>, diagEdges1: set<Tile>)
    requires edges1.Keys - {tile} == edges.Keys - {tile} && diagEdges1 - {tile} == diagEdges - {tile}
    requires forall t :: t in edges1 && t != tile ==> t in edges && edges1[t] == edges[t]
    requires forall d :: AddedNeighbour(grid, tile, d, edges0, diagEdges0, edges, diagEdges)
    requires forall m :: DiagonallyAdjacent(tile, m) ==> AddedDiagonal(grid, m, edges0, diagEdges0, edges, diagEdges)
    ensures forall d :: AddedNeighbour(grid, tile, d, edges0, diagEdges0, edges1, diagEdges1)
    ensures forall m :: DiagonallyAdjacent(tile, m) ==> AddedDiagonal(grid, m, edges0, diagEdges0, edges1, diagEdges1)
  {
    forall t | t != tile ensures (t in edges1 <==> t in edges) && (t in diagEdges1 <==> t in diagEdges) {
      assert t in edges1.Keys - {tile} <==> t in edges.Keys - {tile};
      assert t in diagEdges1 - {tile} <==> t in diagEdges - {tile};
    }
    forall d ensures AddedNeighbour(grid, tile, d, edges0, diagEdges0, edges1, diagEdges1) {
      OffsetIsAdjacent(tile, d);
      assert AddedNeighbour(grid, tile, d, edges0, diagEdges0, edges, diagEdges);
    }
  }

  /**
   * What RemoveTile does to the cardinal neighbour in direction `d`: an
   * occupied one gains the direction facing the emptied tile and leaves the
   * diagonal set; an empty one keeps its entries.
   */
  predicate RemovedNeighbour(grid: set<Tile>, tile: Tile, d: Cardinal, edges0: map<Tile, Dirs>, diagEdges0: set<Tile>,
                             edges: map<Tile, Dirs>, diagEdges: set<Tile>)
  {
    var n := Offset(tile, d);
    if n in grid then
      n in edges && edges[n] == (if n in edges0 then edges0[n] else {}) + {Opposite(d)} && n !in diagEdges
    else
      Same(edges, diagEdges, edges0, diagEdges0, n)
  }

  /**
   * What RemoveTile does to a diagonal neighbour `m`: its edge entry is kept,
   * and it joins the diagonal set when occupied and not a cardinal edge.
   */
  predicate RemovedDiagonal(grid: set<Tile>, m: Tile, edges0: map<Tile, Dirs>, diagEdges0: set<Tile>,
                            edges: map<Tile, Dirs>, diagEdges: set<Tile>)
  {
    && (m in edges <==> m in edges0)
    && (m in edges ==> edges[m] == edges0[m])
    && (m in diagEdges <==> m in diagEdges0 || (m in grid && m !in edges0))
  }

  /** The cardinal neighbours already repaired keep their entries when the next one, `changed`, is updated. */
  lemma CardinalKept(grid: set<Tile>, tile: Tile, i: nat, changed: Tile, edges0: map<Tile, Dirs>, diagEdges0: set<Tile>,
                     edges: map<Tile, Dirs>, diagEdges: set<Tile>, edges1: map<Tile, Dirs>, diagEdges1: set<Tile>)
    requires i < 4 && changed == Offset(tile, CardinalOrder[i])
    requires Same(edges, diagEdges, edges0, diagEdges0, changed)
    requires changed in grid ==>
      edges1 == edges[changed := (if changed in edges then edges[changed] else {}) + {Opposite(CardinalOrder[i])}]
      && diagEdges1 == diagEdges - {changed}
    requires changed !in grid ==> edges1 == edges && diagEdges1 == diagEdges
    requires forall j :: 0 <= j < i ==> RemovedNeighbour(grid, tile, CardinalOrder[j], edges0, diagEdges0, edges, diagEdges)
    ensures forall j :: 0 <= j <= i ==> RemovedNeighbour(grid, tile, CardinalOrder[j], edges0, diagEdges0, edges1, diagEdges1)
  {
    NewNeighbour(tile, i);
  }

  /** An update confined to `n` leaves every other tile's entries, and their verdicts, as they were. */
  lemma SameOutside(edges: map<Tile, Dirs>, diagEdges: set<Tile>, edges1: map<Tile, Dirs>, diagEdges1: set<Tile>,
                    n: Tile, edges0: map<Tile, Dirs>, diagEdges0: set<Tile>)
    requires edges1.Keys - {n} == edges.Keys - {n} && diagEdges1 - {n} == diagEdges - {n}
    requires forall t :: t in edges1 && t != n ==> t in edges && edges1[t] == edges[t]
    ensures forall t :: t != n && Same(edges, diagEdges, edges0, diagEdges0, t) ==> Same(edges1, diagEdges1, edges0, diagEdges0, t)
    ensures forall grid: set<Tile>, t :: t != n && TileOk(grid, edges, diagEdges, t) ==> TileOk(grid, edges1, diagEdges1, t)
  {
    forall t | t != n ensures t in edges1 <==> t in edges {
      assert t in edges1.Keys - {n} <==> t in edges.Keys - {n};
    }
    forall t | t != n ensures t in diagEdges1 <==> t in diagEdges {
      assert t in diagEdges1 - {n} <==> t in diagEdges - {n};
    }
  }

  /** RemovedNeighbour depends only on the entries of the neighbour itself. */
  lemma RemovedNeighbourSame(grid: set<Tile>, tile: Tile, d: Cardinal,
                             edges0: map<Tile, Dirs>, diagEdges0: set<Tile>,
                             edges0': map<Tile, Dirs>, diagEdges0': set<Tile>,
                             edges: map<Tile, Dirs>, diagEdges: set<Tile>,
                             edges': map<Tile, Dirs>, diagEdges': set<Tile>)
    requires RemovedNeighbour(grid, tile, d, edges0, diagEdges0, edges, diagEdges)
    requires Same(edges0, diagEdges0, edges0', diagEdges0', Offset(tile, d))
    requires Same(edges', diagEdges', edges, diagEdges, Offset(tile, d))
    ensures RemovedNeighbour(grid, tile, d, edges0', diagEdges0', edges', diagEdges')
  {
  }

  /** In a grid classified before the tile was emptied, RemoveTile's update of a cardinal neighbour classifies it. */
  lemma RemovedNeighbourOk(g0: set<Tile>, grid: set<Tile>, tile: Tile, d: Cardinal,
                           edges0: map<Tile, Dirs>, diagEdges0: set<Tile>, edges: map<Tile, Dirs>, diagEdges: set<Tile>)
    requires grid == g0 - {tile}
    requires Classified(g0, edges0, diagEdges0)
    requires RemovedNeighbour(grid, tile, d, edges0, diagEdges0, edges, diagEdges)
    ensures TileOk(grid, edges, diagEdges, Offset(tile, d))
  {
    var n := Offset(tile, d);
    OffsetIsAdjacent(tile, d);
    assert TileOk(g0, edges0, diagEdges0, n);
    if n in grid {
      OpenDirsAfterRemoval(g0, grid, tile, d);
    }
  }

  /** In a grid classified before the tile was emptied, RemoveTile's update of a diagonal neighbour classifies it. */
  lemma RemovedDiagonalOk(g0: set<Tile>, grid: set<Tile>, tile: Tile, m: Tile,
                          edges0: map<Tile, Dirs>, diagEdges0: set<Tile>, edges: map<Tile, Dirs>, diagEdges: set<Tile>)
    requires grid == g0 - {tile}
    requires Classified(g0, edges0, diagEdges0)
    requires DiagonallyAdjacent(tile, m)
    requires RemovedDiagonal(grid, m, edges0, diagEdges0, edges, diagEdges)
    ensures TileOk(grid, edges, diagEdges, m)
  {
    DiagonalNeighbourAfterChange(g0, grid, tile, m);
    assert TileOk(g0, edges0, diagEdges0, m);
    assert tile in OpenDiagonals(grid, m);
  }

  /** The four directions are visited once each: the i-th neighbour differs from all earlier ones. */
  lemma NewNeighbour(tile: Tile, i: nat)
    requires i < 4
    ensures forall j :: 0 <= j < i ==> Offset(tile, CardinalOrder[j]) != Offset(tile, CardinalOrder[i])
  {
    forall j | 0 <= j < i ensures Offset(tile, CardinalOrder[j]) != Offset(tile, CardinalOrder[i]) {
      OffsetInjective(tile, CardinalOrder[j], CardinalOrder[i]);
      assert CardinalOrder[j] != CardinalOrder[i] by {
        if i == 1 {
        } else if i == 2 {
          assert j == 0 || j == 1;
        } else {
          assert j == 0 || j == 1 || j == 2;
        }
      }
    }
  }

  /** Every edge-sharing neighbour of `tile` is its offset in one of the four directions. */
  lemma AdjacentIsOffset(tile: Tile, t: Tile)
    requires Adjacent(tile, t)
    ensures exists j :: 0 <= j < 4 && t == Offset(tile, CardinalOrder[j])
  {
    if t == Offset(tile, North) {
      assert t == Offset(tile, CardinalOrder[0]);
    } else if t == Offset(tile, South) {
      assert t == Offset(tile, CardinalOrder[1]);
    } else if t == Offset(tile, East) {
      assert t == Offset(tile, CardinalOrder[2]);
    } else {
      assert t == Offset(tile, CardinalOrder[3]);
    }
  }

  /** A classification is unique: the edge maps of a grid are determined by its occupancy. */
  lemma ClassifiedUnique(grid: set<Tile>, edges1: map<Tile, Dirs>, diagEdges1: set<Tile>,
                         edges2: map<Tile, Dirs>, diagEdges2: set<Tile>)
    requires Classified(grid, edges1, diagEdges1) && Classified(grid, edges2, diagEdges2)
    ensures edges1 == edges2 && diagEdges1 == diagEdges2
  {
    forall t ensures t in edges1 <==> t in edges2 {
      assert TileOk(grid, edges1, diagEdges1, t) && TileOk(grid, edges2, diagEdges2, t);
    }
    forall t | t in edges1 ensures edges1[t] == edges2[t] {
      assert TileOk(grid, edges1, diagEdges1, t) && TileOk(grid, edges2, diagEdges2, t);
    }
    forall t ensures t in diagEdges1 <==> t in diagEdges2 {
      assert TileOk(grid, edges1, diagEdges1, t) && TileOk(grid, edges2, diagEdges2, t);
    }
  }

  /**
   * In a classified grid every occupied tile is a cardinal edge, a diagonal
   * edge or neither, never both; empty tiles are in neither; and every
   * recorded mask is non-empty.
   */
  lemma ClassifiedShape(grid: set<Tile>, edges: map<Tile, Dirs>, diagEdges: set<Tile>)
    requires Classified(grid, edges, diagEdges)
    ensures edges.Keys <= grid && diagEdges <= grid
    ensures edges.Keys !! diagEdges
    ensures forall t :: t in edges ==> edges[t] != {}
  {
    forall t | t in edges ensures t in grid && t !in diagEdges && edges[t] != {} {
      assert TileOk(grid, edges, diagEdges, t);
    }
    forall t | t in diagEdges ensures t in grid {
      assert TileOk(grid, edges, diagEdges, t);
    }
  }

  /**
   * The classification loop of OnGridStartup over the occupied tiles of a
   * grid, in the arbitrary order of the tile enumeration: an edge tile is
   * added to the edge map with its open directions, otherwise a tile with an
   * open corner is added to the diagonal set.
   */
  method ClassifyGrid(grid: set<Tile>) returns (edges: map<Tile, Dirs>, diagEdges: set<Tile>)
    ensures Classified(grid, edges, diagEdges)
  {
    edges, diagEdges := map[], {};
    var remaining := grid;
    while remaining != {}
      invariant remaining <= grid
      invariant PartlyClassified(grid, grid - remaining, edges, diagEdges)
      decreases |remaining|
    {
      var tile :| tile in remaining;
      ghost var edgesBefore, diagEdgesBefore := edges, diagEdges;
      var isEdge, dir := IsEdge(grid, tile);
      if isEdge {
        edges := edges[tile := dir];
      } else {
        var diagonal := IsDiagonalEdge(grid, tile, None);
        if diagonal {
          diagEdges := diagEdges + {tile};
          var m :| m in DiagonalNeighbors(tile) && None != Some(m) && m !in grid;
          assert m in OpenDiagonals(grid, tile);
        }
      }
      ClassifyStep(grid, grid - remaining, tile, edgesBefore, diagEdgesBefore, edges, diagEdges);
      assert grid - (remaining - {tile}) == (grid - remaining) + {tile};
      remaining := remaining - {tile};
    }
    assert forall t :: t in grid - remaining <==> t in grid;
  }

  /** The tiles of `done` are classified and no other tile has an entry yet. */
  ghost predicate PartlyClassified(grid: set<Tile>, done: set<Tile>, edges: map<Tile, Dirs>, diagEdges: set<Tile>) {
    && (forall t :: t !in done ==> t !in edges && t !in diagEdges)
    && (forall t :: t in done ==> TileOk(grid, edges, diagEdges, t))
  }

  /** One pass of the ClassifyGrid loop classifies `tile` and keeps the others. */
  lemma ClassifyStep(grid: set<Tile>, done: set<Tile>, tile: Tile, edges0: map<Tile, Dirs>, diagEdges0: set<Tile>,
                     edges: map<Tile, Dirs>, diagEdges: set<Tile>)
    requires PartlyClassified(grid, done, edges0, diagEdges0)
    requires tile in grid && tile !in done
    requires OpenDirs(grid, tile) != {} ==> edges == edges0[tile := OpenDirs(grid, tile)] && diagEdges == diagEdges0
    requires OpenDirs(grid, tile) == {} ==>
      edges == edges0 && diagEdges == (if OpenDiagonals(grid, tile) != {} then diagEdges0 + {tile} else diagEdges0)
    ensures PartlyClassified(grid, done + {tile}, edges, diagEdges)
  {
    SameOutside(edges0, diagEdges0, edges, diagEdges, tile, edges0, diagEdges0);
    assert TileOk(grid, edges, diagEdges, tile);
  }

  /**
   * GetUnblockedDirectionsBoogaloo without the geometric part: given the
   * NS and EW blocker sets computed by GetUnblockedDirections, every key tile
   * gets the mask of the directions in which it is blocked.
   */
  method GetUnblockedDirectionsBoogaloo(keys: set<Tile>, blockedNS: set<Tile>, blockedEW: set<Tile>)
    returns (blockerMap: map<Tile, Dirs>)
    ensures blockerMap.Keys == keys
    ensures forall t :: t in keys ==> (North in blockerMap[t] <==> t in blockedNS)
    ensures forall t :: t in keys ==> (South in blockerMap[t] <==> Shift(t, 0, -1) in blockedNS)
    ensures forall t :: t in keys ==> (East in blockerMap[t] <==> t in blockedEW)
    ensures forall t :: t in keys ==> (West in blockerMap[t] <==> Shift(t, -1, 0) in blockedEW)
  {
    blockerMap := map[];
    var remaining := keys;
    while remaining != {}
      invariant remaining <= keys
      invariant blockerMap.Keys == keys - remaining
      invariant forall t :: t in blockerMap ==> BlockerMaskOk(blockerMap[t], t, blockedNS, blockedEW)
      decreases |remaining|
    {
      var tile :| tile in remaining;
      remaining := remaining - {tile};
      var blocked := BlockerMask(tile, blockedNS, blockedEW);
      blockerMap := blockerMap[tile := blocked];
    }
  }

  /** The body of the loop of GetUnblockedDirectionsBoogaloo for one tile. */
  method BlockerMask(tile: Tile, blockedNS: set<Tile>, blockedEW: set<Tile>) returns (blocked: Dirs)
    ensures BlockerMaskOk(blocked, tile, blockedNS, blockedEW)
  {
    if tile in blockedNS {
      blocked := {North};
    } else {
      blocked := {};
    }
    if Shift(tile, 0, -1) in blockedNS {
      blocked := blocked + {South};
    }
    assert (North in blocked <==> tile in blockedNS) && (South in blocked <==> Shift(tile, 0, -1) in blockedNS);
    if tile in blockedEW {
      blocked := blocked + {East};
    }
    if Shift(tile, -1, 0) in blockedEW {
      blocked := blocked + {West};
    }
  }

  /** The mask recorded for `t` holds exactly the directions in which a blocker set contains it. */
  predicate BlockerMaskOk(blocked: Dirs, t: Tile, blockedNS: set<Tile>, blockedEW: set<Tile>) {
    && (North in blocked <==> t in blockedNS)
    && (South in blocked <==> Shift(t, 0, -1) in blockedNS)
    && (East in blocked <==> t in blockedEW)
    && (West in blocked <==> Shift(t, -1, 0) in blockedEW)
  }

  /**
   * The grid-edge state of the explosion system: per grid, the airtight data
   * (only removed here), the cardinal edge map and the diagonal edge set.
   * The map manager is not modelled; each event passes the occupancy of the
   * grid it concerns, or None when the grid cannot be found.
   */
  class ExplosionGridMap {
    var airtightMap: map<GridId, map<Tile, TileData>>
    var gridEdges: map<GridId, map<Tile, Dirs>>
    var diagGridEdges: map<GridId, set<Tile>>

    /** The maps kept for `gridId` agree with the occupancy `grid`. */
    ghost predicate Tracks(gridId: GridId, grid: set<Tile>)
      reads this
    {
      gridId in gridEdges && gridId in diagGridEdges && Classified(grid, gridEdges[gridId], diagGridEdges[gridId])
    }

    constructor()
      ensures airtightMap == map[] && gridEdges == map[] && diagGridEdges == map[]
    {
      airtightMap, gridEdges, diagGridEdges := map[], map[], map[];
    }

    /** OnGridStartup: classify every occupied tile of a new grid. */
    method OnGridStartup(gridId: GridId, grid: Option<set<Tile>>)
      modifies this
      ensures grid.None? ==> gridEdges == old(gridEdges) && diagGridEdges == old(diagGridEdges)
      ensures grid.Some? ==> gridEdges.Keys == old(gridEdges.Keys) + {gridId}
      ensures grid.Some? ==> diagGridEdges.Keys == old(diagGridEdges.Keys) + {gridId}
      ensures grid.Some? ==> Tracks(gridId, grid.value)
      ensures forall g :: g in old(gridEdges) && g != gridId ==> g in gridEdges && gridEdges[g] == old(gridEdges[g])
      ensures forall g :: g in old(diagGridEdges) && g != gridId ==>
        g in diagGridEdges && diagGridEdges[g] == old(diagGridEdges[g])
      ensures airtightMap == old(airtightMap)
    {
      if grid.None? {
        return;
      }
      var edges, diagEdges := ClassifyGrid(grid.value);
      gridEdges := gridEdges[gridId := edges];
      diagGridEdges := diagGridEdges[gridId := diagEdges];
    }

    /** OnGridRemoved: drop the grid from all three maps and nothing else. */
    method OnGridRemoved(gridId: GridId)
      modifies this
      ensures airtightMap == old(airtightMap) - {gridId}
      ensures gridEdges == old(gridEdges) - {gridId}
      ensures diagGridEdges == old(diagGridEdges) - {gridId}
    {
      airtightMap := airtightMap - {gridId};
      gridEdges := gridEdges - {gridId};
      diagGridEdges := diagGridEdges - {gridId};
    }

    /**
     * OnTileChanged: repair the maps of one grid after `tile` changed, where
     * `grid` is the occupancy after the change. `addFailed` is the exception
     * of the final Dictionary.Add, raised after the neighbours were updated.
     */
    method OnTileChanged(gridId: GridId, grid: Option<set<Tile>>, tile: Tile) returns (addFailed: bool)
      modifies this
      ensures grid.None? ==> gridEdges == old(gridEdges) && diagGridEdges == old(diagGridEdges)
      ensures addFailed ==> grid.Some? && tile in grid.value
      ensures grid.Some? ==> gridEdges.Keys == old(gridEdges.Keys) + {gridId}
      ensures grid.Some? ==> diagGridEdges.Keys == old(diagGridEdges.Keys) + {gridId}
      ensures forall g :: g in old(gridEdges) && g != gridId ==> g in gridEdges && gridEdges[g] == old(gridEdges[g])
      ensures forall g :: g in old(diagGridEdges) && g != gridId ==>
        g in diagGridEdges && diagGridEdges[g] == old(diagGridEdges[g])
      ensures airtightMap == old(airtightMap)
      ensures grid.Some? ==> forall t :: !Near(tile, t) ==>
        Same(gridEdges[gridId], diagGridEdges[gridId],
             old(if gridId in gridEdges then gridEdges[gridId] else map[]),
             old(if gridId in diagGridEdges then diagGridEdges[gridId] else {}), t)
      ensures grid.Some? && tile !in grid.value && (old(Tracks(gridId, grid.value)) || old(Tracks(gridId, grid.value + {tile})))
        ==> Tracks(gridId, grid.value)
      ensures grid.Some? && tile in grid.value && old(Tracks(gridId, grid.value - {tile}))
        ==> !addFailed && Tracks(gridId, grid.value)
    {
      addFailed := false;
      if grid.None? {
        return;
      }
      var edges := if gridId in gridEdges then gridEdges[gridId] else map[];
      var diagEdges := if gridId in diagGridEdges then diagGridEdges[gridId] else {};
      if tile !in grid.value {
        edges, diagEdges := RemoveTile(grid.value, tile, edges, diagEdges);
      } else {
        edges, diagEdges, addFailed := AddTile(grid.value, tile, edges, diagEdges);
      }
      gridEdges := gridEdges[gridId := edges];
      diagGridEdges := diagGridEdges[gridId := diagEdges];
    }

    /**
     * MapManagerOnTileChanged: the edge maps are repaired only when the old or
     * the new tile is empty. The occupancy before the change is `grid` with
     * `tile` removed or added back according to `oldTileEmpty`; if the maps
     * tracked that occupancy, they track the new one afterwards. A repair
     * touches only the changed grid, creates its entries when missing, leaves
     * every tile away from `tile` as it was, and can fail only when a tile
     * appeared.
     */
    method MapManagerOnTileChanged(gridId: GridId, grid: Option<set<Tile>>, tile: Tile, oldTileEmpty: bool)
      returns (addFailed: bool)
      modifies this
      ensures grid.Some? && tile in grid.value && !oldTileEmpty ==>
        gridEdges == old(gridEdges) && diagGridEdges == old(diagGridEdges) && !addFailed
      ensures grid.None? ==> gridEdges == old(gridEdges) && diagGridEdges == old(diagGridEdges) && !addFailed
      ensures addFailed ==> grid.Some? && tile in grid.value && oldTileEmpty
      ensures grid.Some? && (tile !in grid.value || oldTileEmpty) ==>
        gridEdges.Keys == old(gridEdges.Keys) + {gridId} && diagGridEdges.Keys == old(diagGridEdges.Keys) + {gridId}
      ensures grid.Some? && (tile !in grid.value || oldTileEmpty) ==> forall t :: !Near(tile, t) ==>
        Same(gridEdges[gridId], diagGridEdges[gridId],
             old(if gridId in gridEdges then gridEdges[gridId] else map[]),
             old(if gridId in diagGridEdges then diagGridEdges[gridId] else {}), t)
      ensures airtightMap == old(airtightMap)
      ensures forall g :: g in old(gridEdges) && g != gridId ==> g in gridEdges && gridEdges[g] == old(gridEdges[g])
      ensures forall g :: g in old(diagGridEdges) && g != gridId ==>
        g in diagGridEdges && diagGridEdges[g] == old(diagGridEdges[g])
      ensures grid.Some? && old(Tracks(gridId, if oldTileEmpty then grid.value - {tile} else grid.value + {tile}))
        ==> !addFailed && Tracks(gridId, grid.value)
    {
      addFailed := false;
      var newTileEmpty := grid.None? || tile !in grid.value;
      if newTileEmpty || oldTileEmpty {
        addFailed := OnTileChanged(gridId, grid, tile);
      } else {
        assert grid.value + {tile} == grid.value;
      }
    }
  }
}
