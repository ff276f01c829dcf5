/** Optional values, used for lookups that may fail. */
module Wrappers {
  datatype Option<+T> = None | Some(value: T)
}

/**
 * Tile coordinates, the four-direction flag set (AtmosDirection) and the
 * per-tile obstruction data shared by the explosion code.
 */
module Tiles {

  /** An integer tile index on one grid (Vector2i). */
  datatype Tile = Tile(x: int, y: int)

  /** Identifier of a grid (GridId). */
  datatype GridId = GridId(id: int)

  /** The four cardinal bits of AtmosDirection, listed in the order of their bit values 1 << 0 .. 1 << 3. */
  datatype Cardinal = North | South | East | West

  /**
   * An AtmosDirection value: the set of cardinal bits it holds. The empty set
   * is AtmosDirection.Invalid, AllDirs is AtmosDirection.All, and a diagonal
   * such as NorthEast is the two-element set {North, East}.
   */
  type Dirs = set<Cardinal>

  const AllDirs: Dirs := {North, South, East, West}

  /** The directions in the order of the source's loops `(AtmosDirection) (1 << i)` for i in 0..3. */
  const CardinalOrder: seq<Cardinal> := [North, South, East, West]

  /** Every direction is one of the four bits. */
  lemma AllDirsComplete()
    ensures forall d: Cardinal :: d in AllDirs && d in CardinalOrder
  {
    forall d: Cardinal ensures d in AllDirs && d in CardinalOrder {
      match d
      case North =>
      case South =>
      case East =>
      case West =>
    }
  }

  /** `flags.IsFlagSet(d)`: every bit of `d` is present in `flags`. */
  predicate IsFlagSet(flags: Dirs, d: Dirs) {
    d <= flags
  }

  /** GetOpposite on a single direction. */
  function Opposite(d: Cardinal): (r: Cardinal)
    ensures r != d
    ensures DX(r) == -DX(d) && DY(r) == -DY(d)
  {
    match d
    case North => South
    case South => North
    case East => West
    case West => East
  }

  /** GetOpposite on a flag set: NorthEast becomes SouthWest, and so on. */
  function OppositeDirs(m: Dirs): (r: Dirs)
    ensures forall d: Cardinal :: d in r <==> Opposite(d) in m
  {
    set d | d in AllDirs && Opposite(d) in m
  }

  /** GetOpposite is a bijection on flag sets: it keeps the number of bits. */
  lemma OppositeDirsCard(m: Dirs)
    ensures |OppositeDirs(m)| == |m|
  {
    OppositeCard(m, OppositeDirs(m));
  }

  lemma OppositeCard(m: Dirs, r: Dirs)
    requires forall d: Cardinal :: d in r <==> Opposite(d) in m
    ensures |r| == |m|
    decreases |m|
  {
    if m != {} {
      var d :| d in m;
      var r' := r - {Opposite(d)};
      OppositeCard(m - {d}, r');
    } else {
      assert r == {} by {
        forall d: Cardinal ensures d !in r { }
      }
    }
  }

  /** The unit step of a direction: North is +y, East is +x. */
  function DX(d: Cardinal): int {
    match d
    case East => 1
    case West => -1
    case _ => 0
  }

  function DY(d: Cardinal): int {
    match d
    case North => 1
    case South => -1
    case _ => 0
  }

  /** `tile + (dx, dy)`. */
  function Shift(t: Tile, dx: int, dy: int): Tile {
    Tile(t.x + dx, t.y + dy)
  }

  /** `tile.Offset(direction)` for a cardinal direction. */
  function Offset(t: Tile, d: Cardinal): Tile {
    Shift(t, DX(d), DY(d))
  }

  /** Two tiles share an edge. */
  predicate Adjacent(a: Tile, b: Tile) {
    var dx := b.x - a.x;
    var dy := b.y - a.y;
    (dx == 0 && (dy == 1 || dy == -1)) || (dy == 0 && (dx == 1 || dx == -1))
  }

  /** Two tiles share only a corner. */
  predicate DiagonallyAdjacent(a: Tile, b: Tile) {
    (b.x - a.x == 1 || b.x - a.x == -1) && (b.y - a.y == 1 || b.y - a.y == -1)
  }

  lemma OffsetIsAdjacent(t: Tile, d: Cardinal)
    ensures Adjacent(t, Offset(t, d)) && Offset(t, d) != t
  {
  }

  /** The four cardinal neighbours of a tile. */
  function CardinalNeighbors(t: Tile): (r: set<Tile>)
    ensures forall n :: n in r <==> Adjacent(t, n)
    ensures forall d: Cardinal :: Offset(t, d) in r
  {
    {Shift(t, 0, 1), Shift(t, 0, -1), Shift(t, 1, 0), Shift(t, -1, 0)}
  }

  /** The four diagonal neighbours of a tile. */
  function DiagonalNeighbors(t: Tile): (r: set<Tile>)
    ensures forall n :: n in r <==> DiagonallyAdjacent(t, n)
  {
    {Shift(t, 1, 1), Shift(t, -1, -1), Shift(t, 1, -1), Shift(t, -1, 1)}
  }

  /**
   * A diagonal direction as its vertical and horizontal components
   * (NorthEast is Diagonal(North, East)).
   */
  datatype Diagonal = Diagonal(v: Cardinal, h: Cardinal)

  /** The diagonals in the order GetNewDiagonalTiles visits them. */
  const DiagonalOrder: seq<Diagonal> :=
    [Diagonal(North, East), Diagonal(North, West), Diagonal(South, East), Diagonal(South, West)]

  function DiagonalDirs(g: Diagonal): Dirs {
    {g.v, g.h}
  }

  /** The diagonal neighbour `tile + (dx, dy)` in diagonal direction `g`. */
  function DiagonalOffset(t: Tile, g: Diagonal): Tile {
    Offset(Offset(t, g.v), g.h)
  }

  lemma DiagonalOffsetIsDiagonal(t: Tile, i: nat)
    requires i < |DiagonalOrder|
    ensures DiagonallyAdjacent(t, DiagonalOffset(t, DiagonalOrder[i]))
  {
  }

  /** The float.MaxValue sentinel, as an exact real. */
  const FloatMax: real := 340282346638528859811704183484516925440.0

  /** The smallest integer not below `r` (MathF.Ceiling followed by the int cast). */
  function Ceil(r: real): (c: int)
    ensures r <= c as real < r + 1.0
  {
    -((-r).Floor)
  }

  type NonNegReal = r: real | r >= 0.0

  /**
   * A value of the explosion-tolerance dictionary: a non-negative float or
   * NaN (the tolerance computed for an entity without a destructible
   * component).
   */
  datatype Tolerance = Finite(value: NonNegReal) | NaN

  /**
   * The obstruction data of one tile: the directions that airtight entities
   * on it block, and the tolerance per explosion type.
   */
  datatype TileData = TileData(blockedDirections: Dirs, explosionTolerance: map<string, Tolerance>)

  /** No tile lies in two of the sets. */
  predicate PairwiseDisjoint(sets: seq<set<Tile>>) {
    forall i, j :: 0 <= i < j < |sets| ==> sets[i] !! sets[j]
  }
}
