/**
 * ExplosionGridData of ExplosionSystemTileFill.cs: the per-grid state of an
 * explosion flood fill and the step that adds one iteration of tiles.
 *
 * TileSets is indexed by the global iteration number: index 1 holds the
 * epicenter, indices 0 and 2 are empty, and the call for iteration k appends
 * index k, reading the sets two and three steps back.
 *
 * The candidate generators of the source are lazy enumerators consumed by
 * the loop of AddNewTiles; here every generator calls the body of that loop
 * (EnterTile) at the point where the source yields, so the consumer sees
 * the candidates in the same order and the generators see every update of
 * Processed made by the consumer.
 */
module TileFill {
  import opened Wrappers
  import opened Tiles

  type PosReal = r: real | r > 0.0 witness 1.0

  /** A tile the explosion tries to enter, with the direction(s) it moves in when entering. */
  datatype Candidate = Candidate(tile: Tile, direction: Dirs)

  /**
   * The iteration at which a blocker of tolerance `seal` gives way:
   * `iteration + ceil(seal / step)`. None stands for the NaN tolerance,
   * whose integer conversion is a key that is never looked up.
   */
  function ClearIteration(iteration: int, seal: Tolerance, step: PosReal): (r: Option<int>)
    ensures r.None? <==> seal.NaN?
    ensures r.Some? ==> iteration <= r.value
  {
    match seal
    case NaN => None
    case Finite(v) => Some(iteration + Ceil(v / step))
  }

  /** The delay is the least number of steps whose total reaches the tolerance. */
  lemma ClearIterationBounds(iteration: int, seal: Tolerance, step: PosReal)
    requires seal.Finite?
    ensures var r := ClearIteration(iteration, seal, step);
      ((r.value - iteration) as real - 1.0) * step < seal.value <= (r.value - iteration) as real * step
  {
    CeilTimes(seal.value, step, Ceil(seal.value / step));
  }

  lemma CeilTimes(v: real, step: PosReal, c: int)
    requires v >= 0.0
    requires v / step <= c as real < v / step + 1.0
    ensures 0 <= c
    ensures (c as real - 1.0) * step < v <= c as real * step
  {
    var q := v / step;
    assert q * step == v;
    assert 0.0 <= q;
    MulMono(q, c as real, step);
    MulMono(c as real - 1.0, q, step);
  }

  lemma MulMono(a: real, b: real, s: real)
    requires a <= b && s > 0.0
    ensures a * s <= b * s
    ensures a < b ==> a * s < b * s
  {
    assert b * s - a * s == (b - a) * s;
  }

  /** Appends `t` to the spreader list under `key`, creating the list if needed; nothing for a NaN key. */
  function AppendSpreader(spreaders: map<int, seq<Tile>>, key: Option<int>, t: Tile): map<int, seq<Tile>> {
    if key.None? then spreaders
    else spreaders[key.value := (if key.value in spreaders then spreaders[key.value] else []) + [t]]
  }


  /** All four direction bits are set. */
  predicate AllBits(m: Dirs) {
    North in m && South in m && East in m && West in m
  }

  lemma AllBitsIsAll(m: Dirs)
    ensures AllBits(m) <==> m == AllDirs
  {
    if AllBits(m) {
      AllDirsComplete();
      assert forall d: Cardinal :: d in m <==> d in AllDirs;
    }
  }

  /**
   * The bookkeeping behind the tile count of AddNewTiles: the counted tiles
   * are the delayed spreaders registered in this iteration and the tiles of
   * the current set that are not delayed spreaders.
   */
  ghost predicate CountingOf(newTiles: set<Tile>, processed: set<Tile>, earlierSpreaders: set<Tile>,
                             spreaderIteration: map<Tile, int>, countedTiles: set<Tile>, iteration: int)
  {
    && newTiles <= processed
    && earlierSpreaders <= spreaderIteration.Keys
    && (forall t :: t in spreaderIteration && t !in earlierSpreaders ==> spreaderIteration[t] == iteration)
    && (forall t :: t in countedTiles <==>
          (t in spreaderIteration && t !in earlierSpreaders) || (t in newTiles && t !in spreaderIteration))
  }

  /** An unprocessed tile joining the current set adds itself to the counted tiles unless it is a delayed spreader. */
  lemma CountingAfterJoin(newTiles: set<Tile>, processed: set<Tile>, earlierSpreaders: set<Tile>,
                          spreaderIteration: map<Tile, int>, countedTiles: set<Tile>, iteration: int, t: Tile)
    requires CountingOf(newTiles, processed, earlierSpreaders, spreaderIteration, countedTiles, iteration)
    requires t !in processed
    ensures t !in spreaderIteration ==> t !in countedTiles
    ensures CountingOf(newTiles + {t}, processed + {t}, earlierSpreaders, spreaderIteration,
                       if t in spreaderIteration then countedTiles else countedTiles + {t}, iteration)
  {
  }

  /** Registering an unprocessed tile as a delayed spreader of this iteration adds it to the counted tiles. */
  lemma CountingAfterRegister(newTiles: set<Tile>, processed: set<Tile>, earlierSpreaders: set<Tile>,
                              spreaderIteration: map<Tile, int>, countedTiles: set<Tile>, iteration: int,
                              t: Tile, processed': set<Tile>)
    requires CountingOf(newTiles, processed, earlierSpreaders, spreaderIteration, countedTiles, iteration)
    requires t !in processed && t !in spreaderIteration && processed <= processed'
    ensures t !in countedTiles
    ensures CountingOf(newTiles, processed', earlierSpreaders, spreaderIteration[t := iteration],
                       countedTiles + {t}, iteration)
  {
  }

  /** Every candidate of the log has been claimed: its tile is processed or a delayed spreader. */
  ghost predicate ClaimedOf(entered: seq<Candidate>, processed: set<Tile>, spreaderIteration: map<Tile, int>) {
    forall c :: c in entered ==> c.tile in processed || c.tile in spreaderIteration
  }

  /** The candidate recorded for `t`, or a placeholder when there is none. */
  function WitnessOf(enteredBy: map<Tile, Candidate>, t: Tile): Candidate {
    if t in enteredBy then enteredBy[t] else Candidate(t, {})
  }

  /** Every entry of `m0` is still in `m`, with the same value. */
  predicate MapExtends<K, V(==)>(m0: map<K, V>, m: map<K, V>) {
    forall k :: k in m0 ==> k in m && m[k] == m0[k]
  }

  /** Every list of `m0` is still in `m`, possibly with more elements appended. */
  predicate ListsExtend<K, V(==)>(m0: map<K, seq<V>>, m: map<K, seq<V>>) {
    forall k :: k in m0 ==> k in m && m0[k] <= m[k]
  }

  lemma AppendSpreaderExtends(spreaders: map<int, seq<Tile>>, key: Option<int>, t: Tile)
    ensures ListsExtend(spreaders, AppendSpreader(spreaders, key, t))
  {
  }

  lemma CardAdd(s: set<Tile>, t: Tile)
    requires t !in s
    ensures |s + {t}| == |s| + 1
  {
  }

  /** The delayed spreaders listed under `key`, none when the key is absent (`TryGetValue`). */
  function SpreadersAt(spreaders: map<int, seq<Tile>>, key: int): seq<Tile> {
    if key in spreaders then spreaders[key] else []
  }

  /** The tiles of a list, as a set. */
  function Elements(list: seq<Tile>): (r: set<Tile>)
    ensures forall t :: t in r <==> t in list
  {
    set t | t in list
  }

  /** The counted tiles, as sets: the delayed spreaders new in this iteration and the new tiles that are not spreaders. */
  lemma CountedTilesAre(newTiles: set<Tile>, processed: set<Tile>, earlierSpreaders: set<Tile>,
                        spreaderIteration: map<Tile, int>, countedTiles: set<Tile>, iteration: int)
    requires CountingOf(newTiles, processed, earlierSpreaders, spreaderIteration, countedTiles, iteration)
    ensures countedTiles == (spreaderIteration.Keys - earlierSpreaders) + (newTiles - spreaderIteration.Keys)
  {
  }

  /**
   * `foreach` over a HashSet: the elements in some order the set chooses,
   * each exactly once.
   */
  method Enumerate(s: set<Tile>) returns (r: seq<Tile>)
    ensures forall t :: t in r <==> t in s
    ensures |r| == |s|
  {
    r := [];
    var rest := s;
    while rest != {}
      invariant rest <= s
      invariant forall t :: t in r <==> t in s && t !in rest
      invariant |r| + |rest| == |s|
      decreases |rest|
    {
      var t :| t in rest;
      r := r + [t];
      rest := rest - {t};
    }
  }

  /**
   * Where the candidates of one generator of GetNewTiles come from: the
   * cardinal candidates of the tiles of `from`, honouring blockers or not;
   * the diagonal neighbours of the tiles of `from`; or the neighbours
   * queued under `iteration`, before GetNewTiles began (in `dn`) or by a
   * tile of `from`.
   */
  datatype Generator =
    | AdjacentOf(from: set<Tile>, ignoreTileBlockers: bool)
    | DiagonalOf(from: set<Tile>)
    | QueuedOf(iteration: int, dn: map<int, seq<Candidate>>, from: set<Tile>)

  /** The candidates each generator of GetNewTiles handed over, by generator, in the order they run. */
  datatype GeneratorLogs = GeneratorLogs(
    adjacent: seq<Candidate>,
    diagonal: seq<Candidate>,
    queued: seq<Candidate>,
    spreaderAdjacent: seq<Candidate>,
    spreaderDiagonal: seq<Candidate>)
  {
    /** The candidates of all five, in the order AddNewTiles takes them. */
    function Chained(): seq<Candidate> {
      adjacent + diagonal + queued + spreaderAdjacent + spreaderDiagonal
    }
  }

  /** The fields of an ExplosionGridData that change while an iteration is filled. */
  datatype Snapshot = Snapshot(
    processed: set<Tile>,
    newTiles: set<Tile>,
    delayedSpreaders: map<int, seq<Tile>>,
    delayedSpreaderIteration: map<Tile, int>,
    entered: seq<Candidate>,
    countedTiles: set<Tile>)

  /**
   * The changes filling an iteration makes: Processed, the current set, the
   * delayed spreaders, the log and the counted tiles only grow, and every
   * tile the current set gains, or that becomes a delayed spreader, was not
   * processed before.
   */
  predicate Grew(s0: Snapshot, s1: Snapshot) {
    && s0.processed <= s1.processed
    && s0.newTiles <= s1.newTiles
    && (s1.newTiles - s0.newTiles) !! s0.processed
    && (s1.delayedSpreaderIteration.Keys - s0.delayedSpreaderIteration.Keys) !! s0.processed
    && ListsExtend(s0.delayedSpreaders, s1.delayedSpreaders)
    && MapExtends(s0.delayedSpreaderIteration, s1.delayedSpreaderIteration)
    && s0.entered <= s1.entered
    && s0.countedTiles <= s1.countedTiles
  }

  lemma GrewTransitive(s0: Snapshot, s1: Snapshot, s2: Snapshot)
    requires Grew(s0, s1) && Grew(s1, s2)
    ensures Grew(s0, s2)
  {
  }

  /**
   * The per-grid state of an explosion. TileSets[i] holds the tiles reached
   * at iteration i. The set that AddNewTiles fills is kept in `newTiles` and
   * stored at index `iteration` when the call returns; nothing reads that
   * index while the set is being filled.
   */
  class ExplosionGridData {
    const gridId: GridId
    const airtightMap: map<Tile, TileData>
    const maxIntensity: real
    const intensityStepSize: PosReal
    const typeId: string

    var tileSets: seq<set<Tile>>
    var newTiles: set<Tile>
    var delayedNeighbors: map<int, seq<Candidate>>
    var delayedSpreaders: map<int, seq<Tile>>
    var delayedSpreaderIteration: map<Tile, int>
    var processed: set<Tile>

    /** The candidates handed to EnterTile so far, in order. */
    ghost var entered: seq<Candidate>
    /** The delayed spreaders registered before the current iteration began. */
    ghost var earlierSpreaders: set<Tile>
    /** The tiles the current iteration has counted so far. */
    ghost var countedTiles: set<Tile>
    /** For each tile of the current set, the candidate through which it entered. */
    ghost var enteredBy: map<Tile, Candidate>

    constructor(gridId: GridId, airtightMap: map<Tile, TileData>, maxIntensity: real,
                intensityStepSize: PosReal, typeId: string)
      ensures this.gridId == gridId && this.airtightMap == airtightMap && this.maxIntensity == maxIntensity
      ensures this.intensityStepSize == intensityStepSize && this.typeId == typeId
      ensures tileSets == [] && newTiles == {} && delayedNeighbors == map[] && delayedSpreaders == map[]
      ensures delayedSpreaderIteration == map[] && processed == {}
    {
      this.gridId := gridId;
      this.airtightMap := airtightMap;
      this.maxIntensity := maxIntensity;
      this.intensityStepSize := intensityStepSize;
      this.typeId := typeId;
      tileSets := [];
      newTiles := {};
      delayedNeighbors := map[];
      delayedSpreaders := map[];
      delayedSpreaderIteration := map[];
      processed := {};
      entered := [];
      earlierSpreaders := {};
      countedTiles := {};
      enteredBy := map[];
    }

    /** The directions blocked on `t`; a tile without airtight data blocks nothing. */
    function Blocked(t: Tile): Dirs {
      if t in airtightMap then airtightMap[t].blockedDirections else {}
    }

    /** The directions free on `t` (the complement of its blocked directions). */
    function Free(t: Tile): Dirs {
      AllDirs - Blocked(t)
    }

    /**
     * The tolerance of the blockers on `t` for this explosion type: 0 without
     * airtight data, float.MaxValue (indestructible) when the type has no entry.
     */
    function Seal(t: Tile): Tolerance {
      if t !in airtightMap then Finite(0.0)
      else if typeId in airtightMap[t].explosionTolerance then airtightMap[t].explosionTolerance[typeId]
      else Finite(FloatMax)
    }

    /** This explosion can destroy the blockers on `t`: the tolerance is a number not above MaxIntensity. */
    predicate Destructible(t: Tile) {
      Seal(t).Finite? && Seal(t).value <= maxIntensity
    }

    /** `BlockedDirections == AtmosDirection.All`, written bit by bit (see AllBitsIsAll). */
    predicate FullyBlocked(t: Tile) {
      AllBits(Blocked(t))
    }

    /** The candidate is blocked when the tile blocks every direction opposite to the way it is entered. */
    predicate EntryBlocked(c: Candidate) {
      IsFlagSet(Blocked(c.tile), OppositeDirs(c.direction))
    }

    /** A cardinal neighbour of `tile` that the explosion may spread to from it. */
    predicate AdjacentCandidate(c: Candidate, tile: Tile, ignoreTileBlockers: bool) {
      exists d: Cardinal :: c == Candidate(Offset(tile, d), {d}) && (ignoreTileBlockers || d !in Blocked(tile))
    }

    /**
     * The directions in which the explosion enters the diagonal neighbour
     * `g` of `tile`: horizontally through the vertical neighbour, vertically
     * through the horizontal neighbour, each when that neighbour is free on
     * both sides of the path.
     */
    function DiagonalEntry(tile: Tile, g: Diagonal): Dirs {
      (if {Opposite(g.v), g.h} <= Free(Offset(tile, g.v)) then {g.h} else {}) +
      (if {g.v, Opposite(g.h)} <= Free(Offset(tile, g.h)) then {g.v} else {})
    }

    /** The corner `g` of `tile` is open: both of its directions are free on the tile itself. */
    predicate DiagonalOpen(tile: Tile, g: Diagonal, ignoreTileBlockers: bool) {
      ignoreTileBlockers || DiagonalDirs(g) <= Free(tile)
    }

    /** A diagonal neighbour of `tile` that the explosion may spread to from it. */
    predicate DiagonalCandidate(c: Candidate, tile: Tile, ignoreTileBlockers: bool) {
      exists g :: g in DiagonalOrder && DiagonalOpen(tile, g, ignoreTileBlockers) && DiagonalEntry(tile, g) != {}
        && c == Candidate(DiagonalOffset(tile, g), DiagonalEntry(tile, g))
    }

    ghost function State(): Snapshot
      reads this
    {
      Snapshot(processed, newTiles, delayedSpreaders, delayedSpreaderIteration, entered, countedTiles)
    }

    /**
     * The state after the loop of AddNewTiles takes candidate `c`. An entry
     * from a direction its tile does not block joins Processed and the
     * current set, and counts unless the tile is a delayed spreader. A
     * blocked entry of a tile that is not a delayed spreader yet registers
     * it at this iteration, lists it under the iteration its blocker clears
     * and counts it; the tile is processed at once only when it blocks every
     * direction. Any other entry is only logged.
     */
    ghost function Entered(s: Snapshot, c: Candidate, iteration: int): Snapshot {
      var t := c.tile;
      if !EntryBlocked(c) then
        s.(processed := s.processed + {t}, newTiles := s.newTiles + {t}, entered := s.entered + [c],
           countedTiles := if t in s.delayedSpreaderIteration then s.countedTiles else s.countedTiles + {t})
      else if t in s.delayedSpreaderIteration then
        s.(entered := s.entered + [c])
      else
        s.(processed := if FullyBlocked(t) then s.processed + {t} else s.processed,
           delayedSpreaders := AppendSpreader(s.delayedSpreaders, ClearIteration(iteration, Seal(t), intensityStepSize), t),
           delayedSpreaderIteration := s.delayedSpreaderIteration[t := iteration],
           entered := s.entered + [c],
           countedTiles := s.countedTiles + {t})
    }

    /** The state after the candidates of `log` are taken in order. */
    ghost function EnteredAll(s: Snapshot, log: seq<Candidate>, iteration: int): Snapshot
      decreases |log|
    {
      if log == [] then s else Entered(EnteredAll(s, log[..|log| - 1], iteration), log[|log| - 1], iteration)
    }

    lemma EnteredStep(s: Snapshot, log: seq<Candidate>, c: Candidate, iteration: int)
      ensures EnteredAll(s, log + [c], iteration) == Entered(EnteredAll(s, log, iteration), c, iteration)
    {
      assert (log + [c])[..|log + [c]| - 1] == log;
    }

    lemma EnteredNone(s: Snapshot, iteration: int)
      ensures EnteredAll(s, [], iteration) == s
    {
    }

    /** Taking two logs one after the other is taking their concatenation. */
    lemma {:induction false} EnteredAllAppend(s: Snapshot, a: seq<Candidate>, b: seq<Candidate>, iteration: int)
      ensures EnteredAll(s, a + b, iteration) == EnteredAll(EnteredAll(s, a, iteration), b, iteration)
      decreases |b|
    {
      if b == [] {
        assert a + b == a;
      } else {
        var b' := b[..|b| - 1];
        assert b == b' + [b[|b| - 1]];
        assert a + b == (a + b') + [b[|b| - 1]];
        EnteredAllAppend(s, a, b', iteration);
        EnteredStep(s, a + b', b[|b| - 1], iteration);
        EnteredStep(EnteredAll(s, a, iteration), b', b[|b| - 1], iteration);
      }
    }

    /** The delayed spreaders that the candidates of `log` register, in the order they register. */
    ghost function Registered(s: Snapshot, log: seq<Candidate>, iteration: int): seq<Tile>
      decreases |log|
    {
      if log == [] then []
      else
        var c := log[|log| - 1];
        Registered(s, log[..|log| - 1], iteration) +
        (if EntryBlocked(c) && c.tile !in EnteredAll(s, log[..|log| - 1], iteration).delayedSpreaderIteration
         then [c.tile] else [])
    }

    /** The tiles of the candidates of `log` that enter from a direction their tile does not block. */
    ghost function UnblockedTiles(log: seq<Candidate>): set<Tile> {
      set c | c in log && !EntryBlocked(c) :: c.tile
    }

    /** The tiles of `ts` that block every direction. */
    ghost function FullyBlockedOf(ts: seq<Tile>): set<Tile> {
      set t | t in ts && FullyBlocked(t)
    }

    /** The spreader lists after each tile of `ts` is listed under the iteration its blocker clears. */
    function AppendSpreaders(spreaders: map<int, seq<Tile>>, ts: seq<Tile>, iteration: int): map<int, seq<Tile>>
      decreases |ts|
    {
      if ts == [] then spreaders
      else AppendSpreader(AppendSpreaders(spreaders, ts[..|ts| - 1], iteration),
                          ClearIteration(iteration, Seal(ts[|ts| - 1]), intensityStepSize), ts[|ts| - 1])
    }

    /** The tiles of `ts` whose blockers clear at iteration `key`, in order. */
    function ClearingAt(ts: seq<Tile>, key: int, iteration: int): seq<Tile>
      decreases |ts|
    {
      if ts == [] then []
      else ClearingAt(ts[..|ts| - 1], key, iteration) +
           (if ClearIteration(iteration, Seal(ts[|ts| - 1]), intensityStepSize) == Some(key) then [ts[|ts| - 1]] else [])
    }

    /**
     * Listing spreaders appends, under every key, exactly those of them
     * whose blockers clear at that key, in their order, and changes no other
     * list.
     */
    lemma {:induction false} SpreadersAtAppended(spreaders: map<int, seq<Tile>>, ts: seq<Tile>, key: int,
                                                 iteration: int)
      ensures SpreadersAt(AppendSpreaders(spreaders, ts, iteration), key) ==
              SpreadersAt(spreaders, key) + ClearingAt(ts, key, iteration)
      decreases |ts|
    {
      if ts != [] {
        SpreadersAtAppended(spreaders, ts[..|ts| - 1], key, iteration);
      }
    }

    /** Taking a log appends it to the record of entries and adds its unblocked tiles to the current set. */
    lemma {:induction false} EnteredAllLog(s: Snapshot, log: seq<Candidate>, iteration: int)
      ensures EnteredAll(s, log, iteration).entered == s.entered + log
      ensures EnteredAll(s, log, iteration).newTiles == s.newTiles + UnblockedTiles(log)
      decreases |log|
    {
      if log != [] {
        var log' := log[..|log| - 1];
        var c := log[|log| - 1];
        assert log == log' + [c];
        EnteredAllLog(s, log', iteration);
        UnblockedStep(log', c);
      }
    }

    lemma UnblockedStep(log: seq<Candidate>, c: Candidate)
      ensures UnblockedTiles(log + [c]) == UnblockedTiles(log) + (if EntryBlocked(c) then {} else {c.tile})
    {
      var log1 := log + [c];
      forall t | t in UnblockedTiles(log1) ensures t in UnblockedTiles(log) + (if EntryBlocked(c) then {} else {c.tile}) {
        var c' :| c' in log1 && !EntryBlocked(c') && c'.tile == t;
        if c' != c {
          assert c' in log;
        }
      }
      assert c in log1;
    }

    /**
     * Taking a log adds to Processed its unblocked tiles and the registered
     * spreaders that block every direction.
     */
    lemma {:induction false} EnteredAllProcessed(s: Snapshot, log: seq<Candidate>, iteration: int)
      ensures EnteredAll(s, log, iteration).processed ==
              s.processed + UnblockedTiles(log) + FullyBlockedOf(Registered(s, log, iteration))
      decreases |log|
    {
      if log != [] {
        var log' := log[..|log| - 1];
        var c := log[|log| - 1];
        assert log == log' + [c];
        EnteredAllProcessed(s, log', iteration);
        UnblockedStep(log', c);
        var r' := EnteredAll(s, log', iteration);
        var reg' := Registered(s, log', iteration);
        if !EntryBlocked(c) {
          assert Registered(s, log, iteration) == reg';
          assert EnteredAll(s, log, iteration).processed == r'.processed + {c.tile};
        } else if c.tile in r'.delayedSpreaderIteration {
          assert Registered(s, log, iteration) == reg';
          assert EnteredAll(s, log, iteration).processed == r'.processed;
        } else {
          assert Registered(s, log, iteration) == reg' + [c.tile];
          assert FullyBlockedOf(reg' + [c.tile]) == FullyBlockedOf(reg') + (if FullyBlocked(c.tile) then {c.tile} else {});
          assert EnteredAll(s, log, iteration).processed ==
                 r'.processed + (if FullyBlocked(c.tile) then {c.tile} else {});
        }
      }
    }

    /**
     * What taking a log does to the spreader lists: each registered
     * spreader is listed, in order, under the iteration its blocker clears.
     */
    lemma {:induction false} EnteredAllSpreaders(s: Snapshot, log: seq<Candidate>, iteration: int)
      ensures EnteredAll(s, log, iteration).delayedSpreaders ==
              AppendSpreaders(s.delayedSpreaders, Registered(s, log, iteration), iteration)
      decreases |log|
    {
      if log != [] {
        var log' := log[..|log| - 1];
        var c := log[|log| - 1];
        EnteredAllSpreaders(s, log', iteration);
        var r' := EnteredAll(s, log', iteration);
        var reg' := Registered(s, log', iteration);
        if EntryBlocked(c) && c.tile !in r'.delayedSpreaderIteration {
          var reg := reg' + [c.tile];
          assert Registered(s, log, iteration) == reg;
          assert reg[..|reg| - 1] == reg';
          assert EnteredAll(s, log, iteration).delayedSpreaders ==
                 AppendSpreader(r'.delayedSpreaders, ClearIteration(iteration, Seal(c.tile), intensityStepSize), c.tile);
        } else {
          assert Registered(s, log, iteration) == reg';
          assert EnteredAll(s, log, iteration).delayedSpreaders == r'.delayedSpreaders;
        }
      }
    }

    /**
     * What taking a log does to the iterations of the delayed spreaders:
     * the registered ones, and no others, are recorded at this iteration,
     * and every earlier entry stays.
     */
    lemma {:induction false} EnteredAllRecorded(s: Snapshot, log: seq<Candidate>, iteration: int)
      ensures MapExtends(s.delayedSpreaderIteration, EnteredAll(s, log, iteration).delayedSpreaderIteration)
      ensures forall t :: t in EnteredAll(s, log, iteration).delayedSpreaderIteration && t !in s.delayedSpreaderIteration
                <==> t in Registered(s, log, iteration)
      ensures forall t :: t in Registered(s, log, iteration) ==>
                EnteredAll(s, log, iteration).delayedSpreaderIteration[t] == iteration
      decreases |log|
    {
      if log != [] {
        var log' := log[..|log| - 1];
        var c := log[|log| - 1];
        EnteredAllRecorded(s, log', iteration);
        var r' := EnteredAll(s, log', iteration);
        var reg' := Registered(s, log', iteration);
        if EntryBlocked(c) && c.tile !in r'.delayedSpreaderIteration {
          assert Registered(s, log, iteration) == reg' + [c.tile];
          assert EnteredAll(s, log, iteration).delayedSpreaderIteration == r'.delayedSpreaderIteration[c.tile := iteration];
        } else {
          assert Registered(s, log, iteration) == reg';
          assert EnteredAll(s, log, iteration).delayedSpreaderIteration == r'.delayedSpreaderIteration;
        }
      }
    }

    /** Every registered spreader registers once, through a blocked candidate of the log. */
    lemma {:induction false} RegisteredOnce(s: Snapshot, log: seq<Candidate>, iteration: int)
      ensures forall i, j :: 0 <= i < j < |Registered(s, log, iteration)| ==>
        Registered(s, log, iteration)[i] != Registered(s, log, iteration)[j]
      ensures forall t :: t in Registered(s, log, iteration) ==> exists c :: c in log && EntryBlocked(c) && c.tile == t
      decreases |log|
    {
      if log != [] {
        var log' := log[..|log| - 1];
        var c := log[|log| - 1];
        RegisteredOnce(s, log', iteration);
        EnteredAllRecorded(s, log', iteration);
        var reg := Registered(s, log, iteration);
        var reg' := Registered(s, log', iteration);
        if EntryBlocked(c) && c.tile !in EnteredAll(s, log', iteration).delayedSpreaderIteration {
          assert reg == reg' + [c.tile];
          assert c.tile !in reg';
        } else {
          assert reg == reg';
        }
        forall t | t in reg ensures exists c' :: c' in log && EntryBlocked(c') && c'.tile == t {
          if t in reg' {
            var c' :| c' in log' && EntryBlocked(c') && c'.tile == t;
            assert c' in log;
          } else {
            assert c in log;
          }
        }
      }
    }

    /**
     * What holds while an iteration is filled: the bookkeeping behind the
     * returned tile count (one per delayed spreader registered in this
     * iteration, one per tile of the current set that is not a delayed
     * spreader), every candidate handed over so far went to the current set
     * or became a delayed spreader, and every tile of the current set
     * entered through one of them.
     */
    ghost predicate Filling(iteration: int)
      reads this`newTiles, this`processed, this`earlierSpreaders, this`delayedSpreaderIteration, this`countedTiles,
            this`entered, this`enteredBy
    {
      FillingOf(newTiles, processed, earlierSpreaders, delayedSpreaderIteration, countedTiles, entered, enteredBy,
                iteration)
    }

    /** Filling, on the values of the fields. */
    ghost predicate FillingOf(newTiles: set<Tile>, processed: set<Tile>, earlierSpreaders: set<Tile>,
                              spreaderIteration: map<Tile, int>, countedTiles: set<Tile>, log: seq<Candidate>,
                              enteredBy: map<Tile, Candidate>, iteration: int)
    {
      && CountingOf(newTiles, processed, earlierSpreaders, spreaderIteration, countedTiles, iteration)
      && Settled(log, newTiles, spreaderIteration)
      && Witnessed(newTiles, enteredBy, log)
    }

    /** Every tile of the current set has a witness: an unblocked candidate of the log for that tile. */
    ghost predicate Witnessed(newTiles: set<Tile>, enteredBy: map<Tile, Candidate>, log: seq<Candidate>) {
      forall t {:trigger WitnessOf(enteredBy, t)} :: t in newTiles ==>
        WitnessOf(enteredBy, t) in log && WitnessOf(enteredBy, t).tile == t && !EntryBlocked(WitnessOf(enteredBy, t))
    }

    lemma WitnessedAfterLog(newTiles: set<Tile>, enteredBy: map<Tile, Candidate>, log: seq<Candidate>, c: Candidate)
      requires Witnessed(newTiles, enteredBy, log)
      ensures Witnessed(newTiles, enteredBy, log + [c])
    {
      forall t | t in newTiles
        ensures WitnessOf(enteredBy, t) in log + [c]
      {
        assert WitnessOf(enteredBy, t) in log;
      }
    }

    lemma WitnessedAfterJoin(newTiles: set<Tile>, enteredBy: map<Tile, Candidate>, log: seq<Candidate>, c: Candidate)
      requires Witnessed(newTiles, enteredBy, log) && !EntryBlocked(c)
      ensures Witnessed(newTiles + {c.tile}, enteredBy[c.tile := c], log + [c])
    {
      var enteredBy' := enteredBy[c.tile := c];
      forall t | t in newTiles + {c.tile}
        ensures var w := WitnessOf(enteredBy', t); w in log + [c] && w.tile == t && !EntryBlocked(w)
      {
        if t != c.tile {
          assert WitnessOf(enteredBy', t) == WitnessOf(enteredBy, t);
        }
      }
    }

    /** The witnesses give every tile of the current set a candidate of the log. */
    lemma WitnessedTiles(newTiles: set<Tile>, enteredBy: map<Tile, Candidate>, log: seq<Candidate>)
      requires Witnessed(newTiles, enteredBy, log)
      ensures forall t :: t in newTiles ==> exists c :: c in log && !EntryBlocked(c) && c.tile == t
    {
      forall t | t in newTiles
        ensures exists c :: c in log && !EntryBlocked(c) && c.tile == t
      {
        var w := WitnessOf(enteredBy, t);
        assert w in log && !EntryBlocked(w) && w.tile == t;
      }
    }

    /**
     * Where every candidate of the log went: a candidate entering from a
     * direction its tile does not block joined the current set, a blocked
     * one is a delayed spreader.
     */
    ghost predicate Settled(log: seq<Candidate>, newTiles: set<Tile>, spreaderIteration: map<Tile, int>) {
      forall c :: c in log ==> if EntryBlocked(c) then c.tile in spreaderIteration else c.tile in newTiles
    }

    /** Handing over one more candidate keeps the log settled when it is settled and nothing is released. */
    lemma SettledAfter(log: seq<Candidate>, newTiles: set<Tile>, spreaderIteration: map<Tile, int>, c: Candidate,
                       newTiles': set<Tile>, spreaderIteration': map<Tile, int>)
      requires Settled(log, newTiles, spreaderIteration)
      requires newTiles <= newTiles' && spreaderIteration.Keys <= spreaderIteration'.Keys
      requires if EntryBlocked(c) then c.tile in spreaderIteration' else c.tile in newTiles'
      ensures Settled(log + [c], newTiles', spreaderIteration')
    {
    }

    /** A settled log is claimed. */
    lemma SettledClaimed(log: seq<Candidate>, newTiles: set<Tile>, processed: set<Tile>,
                         spreaderIteration: map<Tile, int>)
      requires Settled(log, newTiles, spreaderIteration) && newTiles <= processed
      ensures ClaimedOf(log, processed, spreaderIteration)
    {
    }

    /**
     * The body of the loop of AddNewTiles for one candidate. The generators
     * only hand over tiles that are not yet processed.
     */
    method EnterTile(candidate: Candidate, iteration: int) returns (counted: bool)
      requires Filling(iteration)
      requires candidate.tile !in processed
      modifies this`entered, this`enteredBy, this`processed, this`newTiles, this`delayedSpreaders,
               this`delayedSpreaderIteration, this`countedTiles
      ensures entered == old(entered) + [candidate]
      ensures !EntryBlocked(candidate) ==>
        && processed == old(processed) + {candidate.tile}
        && newTiles == old(newTiles) + {candidate.tile}
        && delayedSpreaders == old(delayedSpreaders)
        && delayedSpreaderIteration == old(delayedSpreaderIteration)
      ensures EntryBlocked(candidate) && candidate.tile in old(delayedSpreaderIteration) ==>
        && processed == old(processed) && newTiles == old(newTiles)
        && delayedSpreaders == old(delayedSpreaders)
        && delayedSpreaderIteration == old(delayedSpreaderIteration)
      ensures EntryBlocked(candidate) && candidate.tile !in old(delayedSpreaderIteration) ==>
        && (FullyBlocked(candidate.tile) ==> processed == old(processed) + {candidate.tile})
        && (!FullyBlocked(candidate.tile) ==> processed == old(processed))
        && newTiles == old(newTiles)
        && delayedSpreaders == AppendSpreader(old(delayedSpreaders),
                                              ClearIteration(iteration, Seal(candidate.tile), intensityStepSize),
                                              candidate.tile)
        && delayedSpreaderIteration == old(delayedSpreaderIteration)[candidate.tile := iteration]
      ensures counted <==> candidate.tile !in old(delayedSpreaderIteration)
      ensures Filling(iteration)
      ensures counted ==> |countedTiles| == old(|countedTiles|) + 1
      ensures !counted ==> countedTiles == old(countedTiles)
      ensures Grew(old(State()), State())
      ensures State() == Entered(old(State()), candidate, iteration)
    {
      var newTile := candidate.tile;
      var blockedDirections := Blocked(newTile);
      if !IsFlagSet(blockedDirections, OppositeDirs(candidate.direction)) {
        counted := AddUnblocked(candidate, iteration);
      } else if newTile in delayedSpreaderIteration {
        SettledAfter(entered, newTiles, delayedSpreaderIteration, candidate, newTiles, delayedSpreaderIteration);
        WitnessedAfterLog(newTiles, enteredBy, entered, candidate);
        entered := entered + [candidate];
        counted := false;
      } else {
        RegisterDelayedSpreader(candidate, iteration);
        counted := true;
      }
    }

    /** An unblocked candidate joins Processed and the current set; it counts unless it is a pending delayed spreader. */
    method AddUnblocked(candidate: Candidate, iteration: int) returns (counted: bool)
      requires Filling(iteration)
      requires candidate.tile !in processed && !EntryBlocked(candidate)
      modifies this`entered, this`enteredBy, this`processed, this`newTiles, this`countedTiles
      ensures entered == old(entered) + [candidate]
      ensures processed == old(processed) + {candidate.tile}
      ensures newTiles == old(newTiles) + {candidate.tile}
      ensures counted <==> candidate.tile !in delayedSpreaderIteration
      ensures Filling(iteration)
      ensures counted ==> |countedTiles| == old(|countedTiles|) + 1
      ensures countedTiles == if counted then old(countedTiles) + {candidate.tile} else old(countedTiles)
    {
      var newTile := candidate.tile;
      SettledAfter(entered, newTiles, delayedSpreaderIteration, candidate, newTiles + {newTile}, delayedSpreaderIteration);
      WitnessedAfterJoin(newTiles, enteredBy, entered, candidate);
      entered := entered + [candidate];
      CountingAfterJoin(newTiles, processed, earlierSpreaders, delayedSpreaderIteration, countedTiles, iteration, newTile);
      processed := processed + {newTile};
      newTiles := newTiles + {newTile};
      enteredBy := enteredBy[newTile := candidate];
      counted := newTile !in delayedSpreaderIteration;
      if counted {
        CardAdd(countedTiles, newTile);
        countedTiles := countedTiles + {newTile};
      }
    }

    /**
     * A blocked candidate seen for the first time becomes a delayed spreader
     * of this iteration, listed under the iteration its blocker clears; it is
     * processed at once only when it blocks every direction.
     */
    method RegisterDelayedSpreader(candidate: Candidate, iteration: int)
      requires Filling(iteration)
      requires candidate.tile !in processed && candidate.tile !in delayedSpreaderIteration && EntryBlocked(candidate)
      modifies this`entered, this`processed, this`delayedSpreaders, this`delayedSpreaderIteration, this`countedTiles
      ensures entered == old(entered) + [candidate]
      ensures FullyBlocked(candidate.tile) ==> processed == old(processed) + {candidate.tile}
      ensures !FullyBlocked(candidate.tile) ==> processed == old(processed)
      ensures delayedSpreaders == AppendSpreader(old(delayedSpreaders),
                                                 ClearIteration(iteration, Seal(candidate.tile), intensityStepSize),
                                                 candidate.tile)
      ensures ListsExtend(old(delayedSpreaders), delayedSpreaders)
      ensures delayedSpreaderIteration == old(delayedSpreaderIteration)[candidate.tile := iteration]
      ensures Filling(iteration)
      ensures |countedTiles| == old(|countedTiles|) + 1
      ensures countedTiles == old(countedTiles) + {candidate.tile}
    {
      RecordSpreader(candidate, iteration);
      AppendSpreaderExtends(delayedSpreaders, ClearIteration(iteration, Seal(candidate.tile), intensityStepSize),
                            candidate.tile);
      AddDelayedSpreader(candidate.tile, iteration);
    }

    /**
     * `DelayedSpreaderIteration[newTile] = iteration`, with Processed gaining
     * the tile when it blocks every direction, and the log and the count
     * following.
     */
    method RecordSpreader(candidate: Candidate, iteration: int)
      requires Filling(iteration)
      requires candidate.tile !in processed && candidate.tile !in delayedSpreaderIteration && EntryBlocked(candidate)
      modifies this`entered, this`processed, this`delayedSpreaderIteration, this`countedTiles
      ensures entered == old(entered) + [candidate]
      ensures processed == if FullyBlocked(candidate.tile) then old(processed) + {candidate.tile} else old(processed)
      ensures delayedSpreaderIteration == old(delayedSpreaderIteration)[candidate.tile := iteration]
      ensures Filling(iteration)
      ensures |countedTiles| == old(|countedTiles|) + 1
      ensures countedTiles == old(countedTiles) + {candidate.tile}
    {
      var newTile := candidate.tile;
      var processed' := if FullyBlocked(newTile) then processed + {newTile} else processed;
      FillingAfterRegister(newTiles, processed, earlierSpreaders, delayedSpreaderIteration, countedTiles, entered,
                           enteredBy, iteration, candidate, processed');
      entered := entered + [candidate];
      processed := processed';
      delayedSpreaderIteration := delayedSpreaderIteration[newTile := iteration];
      countedTiles := countedTiles + {newTile};
    }

    /** The three parts of Filling after a new delayed spreader is registered, on the values of the fields. */
    lemma FillingAfterRegister(newTiles: set<Tile>, processed: set<Tile>, earlierSpreaders: set<Tile>,
                               spreaderIteration: map<Tile, int>, countedTiles: set<Tile>, log: seq<Candidate>,
                               enteredBy: map<Tile, Candidate>, iteration: int, c: Candidate, processed': set<Tile>)
      requires FillingOf(newTiles, processed, earlierSpreaders, spreaderIteration, countedTiles, log, enteredBy,
                         iteration)
      requires c.tile !in processed && c.tile !in spreaderIteration && EntryBlocked(c) && processed <= processed'
      ensures FillingOf(newTiles, processed', earlierSpreaders, spreaderIteration[c.tile := iteration],
                        countedTiles + {c.tile}, log + [c], enteredBy, iteration)
      ensures |countedTiles + {c.tile}| == |countedTiles| + 1
    {
      CountingAfterRegister(newTiles, processed, earlierSpreaders, spreaderIteration, countedTiles, iteration,
                            c.tile, processed');
      CardAdd(countedTiles, c.tile);
      SettledAfter(log, newTiles, spreaderIteration, c, newTiles, spreaderIteration[c.tile := iteration]);
      WitnessedAfterLog(newTiles, enteredBy, log, c);
    }

    /** `DelayedSpreaders[clearIteration].Add(newTile)`, creating the list when the key is new. */
    method AddDelayedSpreader(newTile: Tile, iteration: int)
      modifies this`delayedSpreaders
      ensures delayedSpreaders == AppendSpreader(old(delayedSpreaders),
                                                 ClearIteration(iteration, Seal(newTile), intensityStepSize), newTile)
    {
      var clearIteration := ClearIteration(iteration, Seal(newTile), intensityStepSize);
      if clearIteration.Some? {
        var key := clearIteration.value;
        var list := if key in delayedSpreaders then delayedSpreaders[key] else [];
        delayedSpreaders := delayedSpreaders[key := list + [newTile]];
      }
    }

    /**
     * The unprocessed neighbours of `tile` behind its blocked directions,
     * among the first `n` bits, each with the direction leading to it.
     */
    function BlockedNeighbours(tile: Tile, done: set<Tile>, n: nat): seq<Candidate>
      requires n <= 4
    {
      if n == 0 then []
      else
        var d := CardinalOrder[n - 1];
        BlockedNeighbours(tile, done, n - 1) +
        (if d in Blocked(tile) && Offset(tile, d) !in done then [Candidate(Offset(tile, d), {d})] else [])
    }

    /** The queued neighbours are exactly the unprocessed tiles behind a blocked direction. */
    lemma {:induction false} BlockedNeighboursMembers(tile: Tile, done: set<Tile>, n: nat)
      requires n <= 4
      ensures forall c :: c in BlockedNeighbours(tile, done, n) <==>
        (exists j :: 0 <= j < n && CardinalOrder[j] in Blocked(tile) && Offset(tile, CardinalOrder[j]) !in done
           && c == Candidate(Offset(tile, CardinalOrder[j]), {CardinalOrder[j]}))
    {
      if n > 0 {
        BlockedNeighboursMembers(tile, done, n - 1);
      }
    }

    /**
     * `if (!Processed.Contains(newTile)) yield return (newTile, direction)`:
     * the step shared by every generator. An unprocessed candidate is
     * handed to EnterTile; a processed one is dropped.
     */
    method Offer(candidate: Candidate, iteration: int) returns (yielded: bool, counted: bool)
      requires Filling(iteration)
      modifies this`entered, this`enteredBy, this`processed, this`newTiles, this`delayedSpreaders,
               this`delayedSpreaderIteration, this`countedTiles
      ensures yielded <==> candidate.tile !in old(processed)
      ensures yielded ==> entered == old(entered) + [candidate]
      ensures !yielded ==> entered == old(entered) && !counted
      ensures Filling(iteration)
      ensures Grew(old(State()), State())
      ensures counted ==> |countedTiles| == old(|countedTiles|) + 1
      ensures !counted ==> countedTiles == old(countedTiles)
      ensures State() == if yielded then Entered(old(State()), candidate, iteration) else old(State())
    {
      yielded := candidate.tile !in processed;
      counted := false;
      if yielded {
        counted := EnterTile(candidate, iteration);
      }
    }

    /**
     * The first loop of GetNewAdjacentTiles after `i` directions of `tile`:
     * every candidate yielded was unprocessed and is a cardinal candidate of
     * the tile, and every admissible direction so far leads to a processed
     * tile or to a yielded candidate.
     */
    ghost predicate YieldedFromTile(ys: seq<Candidate>, processed0: set<Tile>, done: set<Tile>, tile: Tile, i: nat,
                                    ignoreTileBlockers: bool)
      requires i <= 4
    {
      && (forall c :: c in ys ==> c.tile !in processed0 && AdjacentCandidate(c, tile, ignoreTileBlockers))
      && (forall j :: 0 <= j < i && (ignoreTileBlockers || CardinalOrder[j] !in Blocked(tile)) ==>
            Offset(tile, CardinalOrder[j]) in done || Candidate(Offset(tile, CardinalOrder[j]), {CardinalOrder[j]}) in ys)
    }

    /** One more direction keeps YieldedFromTile: its candidate is yielded exactly when it is admissible and unprocessed. */
    lemma YieldedFromTileStep(ys: seq<Candidate>, ys': seq<Candidate>, processed0: set<Tile>, processed1: set<Tile>,
                              processed2: set<Tile>, tile: Tile, i: nat, ignoreTileBlockers: bool)
      requires i < 4 && processed0 <= processed1 <= processed2
      requires YieldedFromTile(ys, processed0, processed1, tile, i, ignoreTileBlockers)
      requires var d := CardinalOrder[i];
        var c := Candidate(Offset(tile, d), {d});
        if ignoreTileBlockers || d !in Blocked(tile) then
          (c.tile !in processed1 ==> ys' == ys + [c]) && (c.tile in processed1 ==> ys' == ys)
        else ys' == ys
      ensures YieldedFromTile(ys', processed0, processed2, tile, i + 1, ignoreTileBlockers)
    {
      var d := CardinalOrder[i];
      var c := Candidate(Offset(tile, d), {d});
      if (ignoreTileBlockers || d !in Blocked(tile)) && c.tile !in processed1 {
        assert AdjacentCandidate(c, tile, ignoreTileBlockers);
      }
    }

    /** After all four directions, YieldedFromTile covers every direction. */
    lemma YieldedFromTileAll(ys: seq<Candidate>, processed0: set<Tile>, done: set<Tile>, tile: Tile,
                             ignoreTileBlockers: bool)
      requires YieldedFromTile(ys, processed0, done, tile, 4, ignoreTileBlockers)
      ensures forall c :: c in ys ==> c.tile !in processed0 && AdjacentCandidate(c, tile, ignoreTileBlockers)
      ensures forall d: Cardinal :: ignoreTileBlockers || d !in Blocked(tile) ==>
        Offset(tile, d) in done || Candidate(Offset(tile, d), {d}) in ys
    {
      forall d: Cardinal | ignoreTileBlockers || d !in Blocked(tile)
        ensures Offset(tile, d) in done || Candidate(Offset(tile, d), {d}) in ys
      {
        var j := match d case North => 0 case South => 1 case East => 2 case West => 3;
        assert CardinalOrder[j] == d;
      }
    }

    /**
     * One pass of the loop of GetNewAdjacentTiles over the directions of
     * `tile`, for direction CardinalOrder[i]: unless the tile blocks it
     * (and blockers are not ignored), the neighbour is offered. The ghost
     * `ys` are the candidates the earlier directions yielded, and the pass
     * extends YieldedFromTile by this direction.
     */
    method OfferDirection(tile: Tile, i: nat, blockedDirections: Dirs, iteration: int, ignoreTileBlockers: bool,
                          ghost ys: seq<Candidate>, ghost processed0: set<Tile>)
      returns (count: nat, ghost yielded: seq<Candidate>)
      requires i < 4
      requires blockedDirections == Blocked(tile)
      requires Filling(iteration)
      requires processed0 <= processed && YieldedFromTile(ys, processed0, processed, tile, i, ignoreTileBlockers)
      modifies this`entered, this`enteredBy, this`processed, this`newTiles, this`delayedSpreaders,
               this`delayedSpreaderIteration, this`countedTiles
      ensures Filling(iteration)
      ensures Grew(old(State()), State())
      ensures |countedTiles| == old(|countedTiles|) + count
      ensures entered == old(entered) + yielded
      ensures YieldedFromTile(ys + yielded, processed0, processed, tile, i + 1, ignoreTileBlockers)
      ensures State() == EnteredAll(old(State()), yielded, iteration)
    {
      var direction := CardinalOrder[i];
      yielded := [];
      count := 0;
      EnteredNone(State(), iteration);
      if ignoreTileBlockers || !IsFlagSet(blockedDirections, {direction}) {
        var c := Candidate(Offset(tile, direction), {direction});
        var wasYielded, counted := Offer(c, iteration);
        if wasYielded {
          yielded := [c];
          EnteredStep(old(State()), [], c, iteration);
        }
        if counted {
          count := 1;
        }
      }
      YieldedFromTileStep(ys, ys + yielded, processed0, old(processed), processed, tile, i, ignoreTileBlockers);
    }

    /**
     * The first loop of GetNewAdjacentTiles for one tile: each unprocessed
     * cardinal neighbour that the tile does not block (every one when
     * blockers are ignored) is handed to EnterTile with its direction, in
     * bit order.
     */
    method YieldAdjacent(tile: Tile, iteration: int, ignoreTileBlockers: bool)
      returns (count: nat, ghost yielded: seq<Candidate>)
      requires Filling(iteration)
      modifies this`entered, this`enteredBy, this`processed, this`newTiles, this`delayedSpreaders,
               this`delayedSpreaderIteration, this`countedTiles
      ensures Filling(iteration)
      ensures Grew(old(State()), State())
      ensures |countedTiles| == old(|countedTiles|) + count
      ensures entered == old(entered) + yielded
      ensures YieldedFromTile(yielded, old(processed), processed, tile, 4, ignoreTileBlockers)
      ensures State() == EnteredAll(old(State()), yielded, iteration)
    {
      ghost var s0 := State();
      yielded := [];
      count := 0;
      EnteredNone(s0, iteration);
      var blockedDirections := Blocked(tile);
      var i := 0;
      while i < 4
        invariant 0 <= i <= 4
        invariant Filling(iteration)
        invariant Grew(s0, State())
        invariant |countedTiles| == |s0.countedTiles| + count
        invariant YieldedFromTile(yielded, s0.processed, processed, tile, i, ignoreTileBlockers)
        invariant State() == EnteredAll(s0, yielded, iteration)
      {
        ghost var s1 := State();
        var n, chunk := OfferDirection(tile, i, blockedDirections, iteration, ignoreTileBlockers, yielded, s0.processed);
        GrewTransitive(s0, s1, State());
        EnteredAllAppend(s0, yielded, chunk, iteration);
        yielded := yielded + chunk;
        count := count + n;
        i := i + 1;
      }
      EnteredAllLog(s0, yielded, iteration);
    }

    /**
     * The second part of GetNewAdjacentTiles for a tile with a destructible
     * blocker: the list under the iteration the blocker clears is created if
     * missing, and the unprocessed neighbours behind the blocked directions
     * are appended to it.
     */
    method QueueBlocked(tile: Tile, iteration: int)
      requires Blocked(tile) != {} && Destructible(tile)
      modifies this`delayedNeighbors
      ensures var key := ClearIteration(iteration, Seal(tile), intensityStepSize).value;
        delayedNeighbors == old(delayedNeighbors)[key :=
          (if key in old(delayedNeighbors) then old(delayedNeighbors)[key] else []) + BlockedNeighbours(tile, processed, 4)]
    {
      var clearIteration := ClearIteration(iteration, Seal(tile), intensityStepSize).value;
      var list := if clearIteration in delayedNeighbors then delayedNeighbors[clearIteration] else [];
      ghost var list0 := list;
      var blockedDirections := Blocked(tile);
      var i := 0;
      while i < 4
        invariant 0 <= i <= 4
        invariant list == list0 + BlockedNeighbours(tile, processed, i)
      {
        var direction := CardinalOrder[i];
        if IsFlagSet(blockedDirections, {direction}) {
          var newTile := Offset(tile, direction);
          if newTile !in processed {
            list := list + [Candidate(newTile, {direction})];
          }
        }
        i := i + 1;
      }
      delayedNeighbors := delayedNeighbors[clearIteration := list];
    }

    /** `c` is the neighbour of `tile` behind a blocked direction, queued under the iteration the blocker clears. */
    predicate QueuedFrom(c: Candidate, key: int, tile: Tile, iteration: int) {
      && Destructible(tile)
      && ClearIteration(iteration, Seal(tile), intensityStepSize) == Some(key)
      && exists d: Cardinal :: d in Blocked(tile) && c == Candidate(Offset(tile, d), {d})
    }

    /** Every entry of `dn` that is not an entry of `dn0` was queued from one of the first `n` tiles, and was unprocessed. */
    ghost predicate QueuedSince(dn0: map<int, seq<Candidate>>, dn: map<int, seq<Candidate>>, tiles: seq<Tile>, n: nat,
                                iteration: int, processed0: set<Tile>)
      requires n <= |tiles|
    {
      forall key, c :: key in dn && c in dn[key] && !(key in dn0 && c in dn0[key]) ==>
        c.tile !in processed0 && exists j :: 0 <= j < n && QueuedFrom(c, key, tiles[j], iteration)
    }

    /** One new entry of `dn`, accounted for as QueuedSince says. */
    lemma QueuedSinceAt(dn0: map<int, seq<Candidate>>, dn: map<int, seq<Candidate>>, tiles: seq<Tile>, n: nat,
                        iteration: int, processed0: set<Tile>, key: int, c: Candidate)
      requires n <= |tiles| && QueuedSince(dn0, dn, tiles, n, iteration, processed0)
      requires key in dn && c in dn[key] && !(key in dn0 && c in dn0[key])
      ensures c.tile !in processed0 && exists j :: 0 <= j < n && QueuedFrom(c, key, tiles[j], iteration)
    {
    }

    /** Appending the blocked neighbours of the next tile keeps every new entry accounted for. */
    lemma {:induction false} QueuedSinceStep(dn0: map<int, seq<Candidate>>, dn: map<int, seq<Candidate>>,
                                             tiles: seq<Tile>, k: nat, iteration: int,
                                             processed0: set<Tile>, done: set<Tile>)
      requires k < |tiles| && processed0 <= done
      requires QueuedSince(dn0, dn, tiles, k, iteration, processed0)
      requires Blocked(tiles[k]) != {} && Destructible(tiles[k])
      ensures var key := ClearIteration(iteration, Seal(tiles[k]), intensityStepSize).value;
        QueuedSince(dn0, dn[key := (if key in dn then dn[key] else []) + BlockedNeighbours(tiles[k], done, 4)],
                    tiles, k + 1, iteration, processed0)
    {
      var tile := tiles[k];
      var key := ClearIteration(iteration, Seal(tile), intensityStepSize).value;
      var list0 := if key in dn then dn[key] else [];
      var added := BlockedNeighbours(tile, done, 4);
      var dn' := dn[key := list0 + added];
      forall key', c | key' in dn' && c in dn'[key'] && !(key' in dn0 && c in dn0[key'])
        ensures c.tile !in processed0 && exists j :: 0 <= j < k + 1 && QueuedFrom(c, key', tiles[j], iteration)
      {
        if key' == key && c in added {
          BlockedNeighbourQueued(tile, done, c, iteration);
          assert QueuedFrom(c, key', tiles[k], iteration);
        } else {
          if key' == key {
            assert c in list0;
          }
          assert key' in dn && c in dn[key'];
          QueuedSinceAt(dn0, dn, tiles, k, iteration, processed0, key', c);
          var j :| 0 <= j < k && QueuedFrom(c, key', tiles[j], iteration);
          assert 0 <= j < k + 1;
        }
      }
      assert QueuedSince(dn0, dn', tiles, k + 1, iteration, processed0);
    }

    /** Appending to one list keeps every list of `dn0` a prefix. */
    lemma AppendKeepsLists<V>(dn0: map<int, seq<V>>, dn: map<int, seq<V>>, key: int, added: seq<V>)
      requires ListsExtend(dn0, dn)
      ensures ListsExtend(dn0, dn[key := (if key in dn then dn[key] else []) + added])
    {
      var dn' := dn[key := (if key in dn then dn[key] else []) + added];
      forall key' | key' in dn0 ensures key' in dn' && dn0[key'] <= dn'[key'] {
        if key' == key {
          assert dn0[key'] <= dn[key'] <= dn'[key'];
        }
      }
    }

    /** A blocked neighbour of a tile with a destructible blocker is queued from it. */
    lemma BlockedNeighbourQueued(tile: Tile, done: set<Tile>, c: Candidate, iteration: int)
      requires Destructible(tile) && c in BlockedNeighbours(tile, done, 4)
      ensures c.tile !in done
      ensures QueuedFrom(c, ClearIteration(iteration, Seal(tile), intensityStepSize).value, tile, iteration)
    {
      BlockedNeighboursMembers(tile, done, 4);
      var j :| 0 <= j < 4 && CardinalOrder[j] in Blocked(tile) && Offset(tile, CardinalOrder[j]) !in done
        && c == Candidate(Offset(tile, CardinalOrder[j]), {CardinalOrder[j]});
    }

    /** A tile that queues nothing keeps every new entry accounted for. */
    lemma QueuedSinceMono(dn0: map<int, seq<Candidate>>, dn: map<int, seq<Candidate>>,
                          tiles: seq<Tile>, k: nat, iteration: int, processed0: set<Tile>)
      requires k < |tiles|
      requires QueuedSince(dn0, dn, tiles, k, iteration, processed0)
      ensures QueuedSince(dn0, dn, tiles, k + 1, iteration, processed0)
    {
      forall key, c | key in dn && c in dn[key] && !(key in dn0 && c in dn0[key])
        ensures exists j :: 0 <= j < k + 1 && QueuedFrom(c, key, tiles[j], iteration)
      {
        assert c.tile !in processed0 && exists j :: 0 <= j < k && QueuedFrom(c, key, tiles[j], iteration);
        var j :| 0 <= j < k && QueuedFrom(c, key, tiles[j], iteration);
        assert 0 <= j < k + 1;
      }
    }

    /**
     * What GetNewAdjacentTiles has done to the delayed neighbours after `n`
     * tiles: nothing when blockers are ignored, otherwise only appended
     * entries queued from those tiles.
     */
    ghost predicate DelayedSince(dn0: map<int, seq<Candidate>>, dn: map<int, seq<Candidate>>, tiles: seq<Tile>, n: nat,
                                 iteration: int, processed0: set<Tile>, ignoreTileBlockers: bool)
      requires n <= |tiles|
    {
      && (ignoreTileBlockers ==> dn == dn0)
      && ListsExtend(dn0, dn)
      && QueuedSince(dn0, dn, tiles, n, iteration, processed0)
    }

    /** One more tile of GetNewAdjacentTiles keeps DelayedSince. */
    lemma DelayedSinceStep(dn0: map<int, seq<Candidate>>, dn1: map<int, seq<Candidate>>, dn2: map<int, seq<Candidate>>,
                           tiles: seq<Tile>, k: nat, iteration: int, processed0: set<Tile>, done: set<Tile>,
                           ignoreTileBlockers: bool)
      requires k < |tiles| && processed0 <= done
      requires DelayedSince(dn0, dn1, tiles, k, iteration, processed0, ignoreTileBlockers)
      requires ignoreTileBlockers || Blocked(tiles[k]) == {} || !Destructible(tiles[k]) ==> dn2 == dn1
      requires !ignoreTileBlockers && Blocked(tiles[k]) != {} && Destructible(tiles[k]) ==>
        var key := ClearIteration(iteration, Seal(tiles[k]), intensityStepSize).value;
        dn2 == dn1[key := (if key in dn1 then dn1[key] else []) + BlockedNeighbours(tiles[k], done, 4)]
      ensures DelayedSince(dn0, dn2, tiles, k + 1, iteration, processed0, ignoreTileBlockers)
    {
      if !ignoreTileBlockers && Blocked(tiles[k]) != {} && Destructible(tiles[k]) {
        QueuedSinceStep(dn0, dn1, tiles, k, iteration, processed0, done);
        AppendKeepsLists(dn0, dn1, ClearIteration(iteration, Seal(tiles[k]), intensityStepSize).value,
                         BlockedNeighbours(tiles[k], done, 4));
      } else {
        QueuedSinceMono(dn0, dn1, tiles, k, iteration, processed0);
      }
    }

    /**
     * The list under the iteration the destructible blocker of `tile` clears
     * exists, and every neighbour behind a blocked direction is in `done`
     * or queued in that list with the direction leading to it.
     */
    ghost predicate BlockersQueued(tile: Tile, dn: map<int, seq<Candidate>>, done: set<Tile>, iteration: int)
      requires Blocked(tile) != {} && Destructible(tile)
    {
      var key := ClearIteration(iteration, Seal(tile), intensityStepSize).value;
      && key in dn
      && forall d :: d in Blocked(tile) ==> Offset(tile, d) in done || Candidate(Offset(tile, d), {d}) in dn[key]
    }

    /** BlockersQueued for every tile among the first `n` with a destructible blocker. */
    ghost predicate QueuedUpTo(dn: map<int, seq<Candidate>>, done: set<Tile>, tiles: seq<Tile>, n: nat, iteration: int)
      requires n <= |tiles|
    {
      forall j :: 0 <= j < n && Blocked(tiles[j]) != {} && Destructible(tiles[j]) ==>
        BlockersQueued(tiles[j], dn, done, iteration)
    }

    /** Lists that only grow and a growing `done` keep BlockersQueued. */
    lemma BlockersQueuedMono(tile: Tile, dn1: map<int, seq<Candidate>>, dn2: map<int, seq<Candidate>>,
                             done1: set<Tile>, done2: set<Tile>, iteration: int)
      requires Blocked(tile) != {} && Destructible(tile)
      requires BlockersQueued(tile, dn1, done1, iteration)
      requires ListsExtend(dn1, dn2) && done1 <= done2
      ensures BlockersQueued(tile, dn2, done2, iteration)
    {
      var key := ClearIteration(iteration, Seal(tile), intensityStepSize).value;
      assert dn1[key] <= dn2[key];
    }

    /** Appending the blocked neighbours that are not in `done` makes BlockersQueued hold. */
    lemma BlockersQueuedByAppend(tile: Tile, dn: map<int, seq<Candidate>>, done: set<Tile>, iteration: int)
      requires Blocked(tile) != {} && Destructible(tile)
      ensures var key := ClearIteration(iteration, Seal(tile), intensityStepSize).value;
        BlockersQueued(tile, dn[key := (if key in dn then dn[key] else []) + BlockedNeighbours(tile, done, 4)],
                       done, iteration)
    {
      var key := ClearIteration(iteration, Seal(tile), intensityStepSize).value;
      var list0 := if key in dn then dn[key] else [];
      BlockedNeighboursMembers(tile, done, 4);
      forall d | d in Blocked(tile) && Offset(tile, d) !in done
        ensures Candidate(Offset(tile, d), {d}) in list0 + BlockedNeighbours(tile, done, 4)
      {
        var j := match d case North => 0 case South => 1 case East => 2 case West => 3;
        assert CardinalOrder[j] == d;
        assert Candidate(Offset(tile, d), {d}) in BlockedNeighbours(tile, done, 4);
      }
    }

    /** One more tile of GetNewAdjacentTiles, honouring blockers, keeps QueuedUpTo. */
    lemma QueuedUpToStep(dn1: map<int, seq<Candidate>>, dn2: map<int, seq<Candidate>>, done1: set<Tile>,
                         done2: set<Tile>, tiles: seq<Tile>, k: nat, iteration: int)
      requires k < |tiles| && done1 <= done2
      requires QueuedUpTo(dn1, done1, tiles, k, iteration)
      requires Blocked(tiles[k]) == {} || !Destructible(tiles[k]) ==> dn2 == dn1
      requires Blocked(tiles[k]) != {} && Destructible(tiles[k]) ==>
        var key := ClearIteration(iteration, Seal(tiles[k]), intensityStepSize).value;
        dn2 == dn1[key := (if key in dn1 then dn1[key] else []) + BlockedNeighbours(tiles[k], done2, 4)]
      ensures QueuedUpTo(dn2, done2, tiles, k + 1, iteration)
    {
      if Blocked(tiles[k]) != {} && Destructible(tiles[k]) {
        var key := ClearIteration(iteration, Seal(tiles[k]), intensityStepSize).value;
        AppendKeepsLists(dn1, dn1, key, BlockedNeighbours(tiles[k], done2, 4));
        BlockersQueuedByAppend(tiles[k], dn1, done2, iteration);
      } else {
        assert ListsExtend(dn1, dn2);
      }
      forall j | 0 <= j < k + 1 && Blocked(tiles[j]) != {} && Destructible(tiles[j])
        ensures BlockersQueued(tiles[j], dn2, done2, iteration)
      {
        if j < k {
          BlockersQueuedMono(tiles[j], dn1, dn2, done1, done2, iteration);
        }
      }
    }

    /** BlockersQueued for every tile of `from` with a destructible blocker. */
    ghost predicate BlockersQueuedFrom(from: set<Tile>, dn: map<int, seq<Candidate>>, done: set<Tile>, iteration: int) {
      forall t :: t in from && Blocked(t) != {} && Destructible(t) ==> BlockersQueued(t, dn, done, iteration)
    }

    /** QueuedUpTo over the enumeration of a set, restated over the set. */
    lemma QueuedUpToToSet(dn: map<int, seq<Candidate>>, done: set<Tile>, tiles: seq<Tile>, from: set<Tile>,
                          iteration: int)
      requires QueuedUpTo(dn, done, tiles, |tiles|, iteration)
      requires forall t :: t in from ==> t in tiles
      ensures BlockersQueuedFrom(from, dn, done, iteration)
    {
      forall t | t in from && Blocked(t) != {} && Destructible(t) ensures BlockersQueued(t, dn, done, iteration) {
        var j :| 0 <= j < |tiles| && tiles[j] == t;
      }
    }

    /**
     * What GetNewTiles leaves behind for every tile of `from` with a
     * destructible blocker. When the blocker clears at this very iteration,
     * its queued list has been consumed and every neighbour behind a
     * blocked direction is claimed. Otherwise the list under the iteration
     * the blocker clears exists, and every such neighbour is processed or
     * queued in it.
     */
    ghost predicate BlockersHandled(from: set<Tile>, dn: map<int, seq<Candidate>>, processed: set<Tile>,
                                    spreaderIteration: map<Tile, int>, iteration: int)
    {
      forall t :: t in from && Blocked(t) != {} && Destructible(t) ==>
        if ClearIteration(iteration, Seal(t), intensityStepSize) == Some(iteration) then
          forall d :: d in Blocked(t) ==> Offset(t, d) in processed || Offset(t, d) in spreaderIteration
        else BlockersQueued(t, dn, processed, iteration)
    }

    /**
     * BlockersQueued right after the first generator becomes
     * BlockersHandled once the list under this iteration is consumed and
     * claimed, with the other lists kept.
     */
    lemma BlockersHandledAtEnd(from: set<Tile>, dn1: map<int, seq<Candidate>>, done: set<Tile>,
                               dn: map<int, seq<Candidate>>, processed: set<Tile>, spreaderIteration: map<Tile, int>,
                               iteration: int)
      requires BlockersQueuedFrom(from, dn1, done, iteration)
      requires dn == dn1 - {iteration} && done <= processed
      requires iteration in dn1 ==> ClaimedOf(dn1[iteration], processed, spreaderIteration)
      ensures BlockersHandled(from, dn, processed, spreaderIteration, iteration)
    {
      forall t | t in from && Blocked(t) != {} && Destructible(t)
        ensures if ClearIteration(iteration, Seal(t), intensityStepSize) == Some(iteration) then
          forall d :: d in Blocked(t) ==> Offset(t, d) in processed || Offset(t, d) in spreaderIteration
        else BlockersQueued(t, dn, processed, iteration)
      {
        var key := ClearIteration(iteration, Seal(t), intensityStepSize).value;
        assert BlockersQueued(t, dn1, done, iteration);
        if key == iteration {
          forall d | d in Blocked(t) ensures Offset(t, d) in processed || Offset(t, d) in spreaderIteration {
            if Offset(t, d) !in done {
              assert Candidate(Offset(t, d), {d}) in dn1[key];
            }
          }
        } else {
          assert dn[key] == dn1[key];
        }
      }
    }

    /** Every candidate in `ys` was unprocessed and is a cardinal candidate of one of the first `n` tiles. */
    ghost predicate AdjacentSound(ys: seq<Candidate>, processed0: set<Tile>, tiles: seq<Tile>, n: nat,
                                  ignoreTileBlockers: bool)
      requires n <= |tiles|
    {
      forall c :: c in ys ==>
        c.tile !in processed0 && exists j :: 0 <= j < n && AdjacentCandidate(c, tiles[j], ignoreTileBlockers)
    }

    /** Every cardinal candidate of the first `n` tiles is processed or in `ys`. */
    ghost predicate AdjacentComplete(ys: seq<Candidate>, done: set<Tile>, tiles: seq<Tile>, n: nat,
                                     ignoreTileBlockers: bool)
      requires n <= |tiles|
    {
      forall j, d: Cardinal :: 0 <= j < n && (ignoreTileBlockers || d !in Blocked(tiles[j])) ==>
        Offset(tiles[j], d) in done || Candidate(Offset(tiles[j], d), {d}) in ys
    }

    /** Both properties of the candidates GetNewAdjacentTiles yielded from its first `n` tiles. */
    ghost predicate AdjacentSince(ys: seq<Candidate>, processed0: set<Tile>, done: set<Tile>, tiles: seq<Tile>, n: nat,
                                  ignoreTileBlockers: bool)
      requires n <= |tiles|
    {
      AdjacentSound(ys, processed0, tiles, n, ignoreTileBlockers) && AdjacentComplete(ys, done, tiles, n, ignoreTileBlockers)
    }

    /** The candidates of one more tile extend both properties to it. */
    lemma {:induction false} AdjacentLogStep(ys: seq<Candidate>, chunk: seq<Candidate>, processed0: set<Tile>,
                                             processed1: set<Tile>, processed2: set<Tile>, tiles: seq<Tile>, k: nat,
                                             ignoreTileBlockers: bool)
      requires k < |tiles| && processed0 <= processed1 <= processed2
      requires AdjacentSince(ys, processed0, processed1, tiles, k, ignoreTileBlockers)
      requires YieldedFromTile(chunk, processed1, processed2, tiles[k], 4, ignoreTileBlockers)
      ensures AdjacentSince(ys + chunk, processed0, processed2, tiles, k + 1, ignoreTileBlockers)
    {
      YieldedFromTileAll(chunk, processed1, processed2, tiles[k], ignoreTileBlockers);
      forall c | c in ys + chunk
        ensures c.tile !in processed0 && exists j :: 0 <= j < k + 1 && AdjacentCandidate(c, tiles[j], ignoreTileBlockers)
      {
        if c in ys {
          assert c.tile !in processed0 && exists j :: 0 <= j < k && AdjacentCandidate(c, tiles[j], ignoreTileBlockers);
          var j :| 0 <= j < k && AdjacentCandidate(c, tiles[j], ignoreTileBlockers);
          assert 0 <= j < k + 1;
        } else {
          assert AdjacentCandidate(c, tiles[k], ignoreTileBlockers);
        }
      }
      forall j, d: Cardinal | 0 <= j < k + 1 && (ignoreTileBlockers || d !in Blocked(tiles[j]))
        ensures Offset(tiles[j], d) in processed2 || Candidate(Offset(tiles[j], d), {d}) in ys + chunk
      {
        if j < k {
          assert Offset(tiles[j], d) in processed1 || Candidate(Offset(tiles[j], d), {d}) in ys;
        }
      }
    }

    /**
     * One pass of the outer loop of GetNewAdjacentTiles, on tile `tiles[k]`:
     * its neighbours through unblocked directions are yielded, and, unless
     * blockers are ignored, a tile with a destructible blocker queues the
     * unprocessed neighbours behind it under the iteration its blocker
     * clears. The ghost `ys` and `dn0` are what the earlier tiles yielded
     * and the delayed neighbours before the first tile; the pass extends
     * AdjacentSince and DelayedSince to this tile.
     */
    method SpreadAdjacent(iteration: int, tiles: seq<Tile>, k: nat, ignoreTileBlockers: bool,
                          ghost ys: seq<Candidate>, ghost processed0: set<Tile>, ghost dn0: map<int, seq<Candidate>>)
      returns (count: nat, ghost yielded: seq<Candidate>)
      requires k < |tiles|
      requires Filling(iteration)
      requires processed0 <= processed
      requires AdjacentSince(ys, processed0, processed, tiles, k, ignoreTileBlockers)
      requires DelayedSince(dn0, delayedNeighbors, tiles, k, iteration, processed0, ignoreTileBlockers)
      modifies this`entered, this`enteredBy, this`processed, this`newTiles, this`delayedSpreaders,
               this`delayedSpreaderIteration, this`countedTiles, this`delayedNeighbors
      ensures Filling(iteration)
      ensures Grew(old(State()), State())
      ensures |countedTiles| == old(|countedTiles|) + count
      ensures entered == old(entered) + yielded
      ensures AdjacentSince(ys + yielded, processed0, processed, tiles, k + 1, ignoreTileBlockers)
      ensures DelayedSince(dn0, delayedNeighbors, tiles, k + 1, iteration, processed0, ignoreTileBlockers)
      ensures State() == EnteredAll(old(State()), yielded, iteration)
      ensures if !ignoreTileBlockers && Blocked(tiles[k]) != {} && Destructible(tiles[k]) then
          var key := ClearIteration(iteration, Seal(tiles[k]), intensityStepSize).value;
          delayedNeighbors == old(delayedNeighbors)[key :=
            (if key in old(delayedNeighbors) then old(delayedNeighbors)[key] else []) +
            BlockedNeighbours(tiles[k], processed, 4)]
        else delayedNeighbors == old(delayedNeighbors)
    {
      var tile := tiles[k];
      count, yielded := YieldAdjacent(tile, iteration, ignoreTileBlockers);
      AdjacentLogStep(ys, yielded, processed0, old(processed), processed, tiles, k, ignoreTileBlockers);
      ghost var dn1 := delayedNeighbors;
      if !ignoreTileBlockers && Blocked(tile) != {} && Destructible(tile) {
        QueueBlocked(tile, iteration);
      }
      DelayedSinceStep(dn0, dn1, delayedNeighbors, tiles, k, iteration, processed0, processed, ignoreTileBlockers);
    }

    /**
     * GetNewAdjacentTiles: SpreadAdjacent for every tile in turn. The
     * yielded candidates are exactly the unprocessed cardinal neighbours
     * through unblocked directions; the blocked ones of tiles with a
     * destructible blocker are queued under its clear iteration.
     */
    method GetNewAdjacentTiles(iteration: int, tiles: seq<Tile>, ignoreTileBlockers: bool)
      returns (count: nat, ghost yielded: seq<Candidate>)
      requires Filling(iteration)
      modifies this`entered, this`enteredBy, this`processed, this`newTiles, this`delayedSpreaders,
               this`delayedSpreaderIteration, this`countedTiles, this`delayedNeighbors
      ensures Filling(iteration)
      ensures Grew(old(State()), State())
      ensures |countedTiles| == old(|countedTiles|) + count
      ensures entered == old(entered) + yielded
      ensures AdjacentSince(yielded, old(processed), processed, tiles, |tiles|, ignoreTileBlockers)
      ensures DelayedSince(old(delayedNeighbors), delayedNeighbors, tiles, |tiles|, iteration, old(processed),
                           ignoreTileBlockers)
      ensures State() == EnteredAll(old(State()), yielded, iteration)
      ensures !ignoreTileBlockers ==> QueuedUpTo(delayedNeighbors, processed, tiles, |tiles|, iteration)
    {
      ghost var s0 := State();
      ghost var dn0 := delayedNeighbors;
      yielded := [];
      count := 0;
      EnteredNone(s0, iteration);
      var k := 0;
      while k < |tiles|
        invariant 0 <= k <= |tiles|
        invariant Filling(iteration)
        invariant Grew(s0, State())
        invariant |countedTiles| == |s0.countedTiles| + count
        invariant AdjacentSince(yielded, s0.processed, processed, tiles, k, ignoreTileBlockers)
        invariant DelayedSince(dn0, delayedNeighbors, tiles, k, iteration, s0.processed, ignoreTileBlockers)
        invariant State() == EnteredAll(s0, yielded, iteration)
        invariant !ignoreTileBlockers ==> QueuedUpTo(delayedNeighbors, processed, tiles, k, iteration)
      {
        ghost var s1 := State();
        ghost var dn1 := delayedNeighbors;
        var n, chunk := SpreadAdjacent(iteration, tiles, k, ignoreTileBlockers, yielded, s0.processed, dn0);
        GrewTransitive(s0, s1, State());
        if !ignoreTileBlockers {
          QueuedUpToStep(dn1, delayedNeighbors, s1.processed, processed, tiles, k, iteration);
        }
        EnteredAllAppend(s0, yielded, chunk, iteration);
        yielded := yielded + chunk;
        count := count + n;
        k := k + 1;
      }
      EnteredAllLog(s0, yielded, iteration);
    }

    /**
     * The diagonal loop after the first `i` corners of `tile`, visited in
     * DiagonalOrder like the four blocks of GetNewDiagonalTiles: every
     * candidate yielded was unprocessed and is a diagonal candidate of the
     * tile, and every open corner with a way in so far leads to a processed
     * tile or to a yielded candidate.
     */
    ghost predicate DiagonalsFromTile(ys: seq<Candidate>, processed0: set<Tile>, done: set<Tile>, tile: Tile, i: nat,
                                      ignoreTileBlockers: bool)
      requires i <= 4
    {
      && (forall c :: c in ys ==> c.tile !in processed0 && DiagonalCandidate(c, tile, ignoreTileBlockers))
      && (forall j :: 0 <= j < i && DiagonalOpen(tile, DiagonalOrder[j], ignoreTileBlockers)
                      && DiagonalEntry(tile, DiagonalOrder[j]) != {} ==>
            DiagonalOffset(tile, DiagonalOrder[j]) in done
            || Candidate(DiagonalOffset(tile, DiagonalOrder[j]), DiagonalEntry(tile, DiagonalOrder[j])) in ys)
    }

    /** One more corner keeps DiagonalsFromTile: its candidate is yielded exactly when it is open, enterable and unprocessed. */
    lemma DiagonalsFromTileStep(ys: seq<Candidate>, ys': seq<Candidate>, processed0: set<Tile>, processed1: set<Tile>,
                                processed2: set<Tile>, tile: Tile, i: nat, ignoreTileBlockers: bool)
      requires i < 4 && processed0 <= processed1 <= processed2
      requires DiagonalsFromTile(ys, processed0, processed1, tile, i, ignoreTileBlockers)
      requires var g := DiagonalOrder[i];
        var c := Candidate(DiagonalOffset(tile, g), DiagonalEntry(tile, g));
        if DiagonalOpen(tile, g, ignoreTileBlockers) && DiagonalEntry(tile, g) != {} then
          (c.tile !in processed1 ==> ys' == ys + [c]) && (c.tile in processed1 ==> ys' == ys)
        else ys' == ys
      ensures DiagonalsFromTile(ys', processed0, processed2, tile, i + 1, ignoreTileBlockers)
    {
      var g := DiagonalOrder[i];
      var c := Candidate(DiagonalOffset(tile, g), DiagonalEntry(tile, g));
      var enterable := DiagonalOpen(tile, g, ignoreTileBlockers) && DiagonalEntry(tile, g) != {};
      if enterable && c.tile !in processed1 {
        assert DiagonalCandidate(c, tile, ignoreTileBlockers);
        assert ys' == ys + [c];
      } else {
        assert ys' == ys;
      }
      forall j | 0 <= j < i + 1 && DiagonalOpen(tile, DiagonalOrder[j], ignoreTileBlockers)
                 && DiagonalEntry(tile, DiagonalOrder[j]) != {}
        ensures DiagonalOffset(tile, DiagonalOrder[j]) in processed2
                || Candidate(DiagonalOffset(tile, DiagonalOrder[j]), DiagonalEntry(tile, DiagonalOrder[j])) in ys'
      {
        if j < i {
          assert DiagonalOffset(tile, DiagonalOrder[j]) in processed1
                 || Candidate(DiagonalOffset(tile, DiagonalOrder[j]), DiagonalEntry(tile, DiagonalOrder[j])) in ys;
        }
      }
    }

    /** After all four corners, DiagonalsFromTile covers every diagonal. */
    lemma DiagonalsFromTileAll(ys: seq<Candidate>, processed0: set<Tile>, done: set<Tile>, tile: Tile,
                               ignoreTileBlockers: bool)
      requires DiagonalsFromTile(ys, processed0, done, tile, 4, ignoreTileBlockers)
      ensures forall c :: c in ys ==> c.tile !in processed0 && DiagonalCandidate(c, tile, ignoreTileBlockers)
      ensures forall g :: g in DiagonalOrder && DiagonalOpen(tile, g, ignoreTileBlockers) && DiagonalEntry(tile, g) != {} ==>
        DiagonalOffset(tile, g) in done || Candidate(DiagonalOffset(tile, g), DiagonalEntry(tile, g)) in ys
    {
      forall g | g in DiagonalOrder && DiagonalOpen(tile, g, ignoreTileBlockers) && DiagonalEntry(tile, g) != {}
        ensures DiagonalOffset(tile, g) in done || Candidate(DiagonalOffset(tile, g), DiagonalEntry(tile, g)) in ys
      {
        var j :| 0 <= j < 4 && DiagonalOrder[j] == g;
      }
    }

    /**
     * One of the four blocks of GetNewDiagonalTiles, for the corner
     * DiagonalOrder[i]: when the corner is free in `freeDirections` and the
     * diagonal neighbour can be entered, it is offered with its entry
     * directions. The ghost `ys` are the candidates the earlier corners
     * yielded, and the block extends DiagonalsFromTile by this corner.
     */
    method OfferCorner(tile: Tile, i: nat, freeDirections: Dirs, iteration: int, ignoreTileBlockers: bool,
                       ghost ys: seq<Candidate>, ghost processed0: set<Tile>)
      returns (count: nat, ghost yielded: seq<Candidate>)
      requires i < 4
      requires freeDirections == if ignoreTileBlockers then AllDirs else Free(tile)
      requires Filling(iteration)
      requires processed0 <= processed && DiagonalsFromTile(ys, processed0, processed, tile, i, ignoreTileBlockers)
      modifies this`entered, this`enteredBy, this`processed, this`newTiles, this`delayedSpreaders,
               this`delayedSpreaderIteration, this`countedTiles
      ensures Filling(iteration)
      ensures Grew(old(State()), State())
      ensures |countedTiles| == old(|countedTiles|) + count
      ensures entered == old(entered) + yielded
      ensures DiagonalsFromTile(ys + yielded, processed0, processed, tile, i + 1, ignoreTileBlockers)
      ensures State() == EnteredAll(old(State()), yielded, iteration)
    {
      var g := DiagonalOrder[i];
      yielded := [];
      count := 0;
      EnteredNone(State(), iteration);
      if IsFlagSet(freeDirections, DiagonalDirs(g)) {
        var direction := DiagonalEntry(tile, g);
        if direction != {} {
          var c := Candidate(DiagonalOffset(tile, g), direction);
          var wasYielded, counted := Offer(c, iteration);
          if wasYielded {
            yielded := [c];
            EnteredStep(old(State()), [], c, iteration);
          }
          if counted {
            count := 1;
          }
        }
      }
      DiagonalsFromTileStep(ys, ys + yielded, processed0, old(processed), processed, tile, i, ignoreTileBlockers);
    }

    /**
     * The body of the loop of GetNewDiagonalTiles for one tile, whose four
     * blocks, here a loop, the source writes out in the order NE, NW, SE,
     * SW: for each corner that is free on the tile (every corner when
     * blockers are ignored), the diagonal neighbour is yielded with the
     * directions it can be entered from, when there is one and it is
     * unprocessed.
     */
    method YieldDiagonals(tile: Tile, iteration: int, ignoreTileBlockers: bool)
      returns (count: nat, ghost yielded: seq<Candidate>)
      requires Filling(iteration)
      modifies this`entered, this`enteredBy, this`processed, this`newTiles, this`delayedSpreaders,
               this`delayedSpreaderIteration, this`countedTiles
      ensures Filling(iteration)
      ensures Grew(old(State()), State())
      ensures |countedTiles| == old(|countedTiles|) + count
      ensures entered == old(entered) + yielded
      ensures DiagonalsFromTile(yielded, old(processed), processed, tile, 4, ignoreTileBlockers)
      ensures State() == EnteredAll(old(State()), yielded, iteration)
    {
      var freeDirections := if ignoreTileBlockers then AllDirs else Free(tile);
      ghost var s0 := State();
      yielded := [];
      count := 0;
      EnteredNone(s0, iteration);
      var i := 0;
      while i < 4
        invariant 0 <= i <= 4
        invariant Filling(iteration)
        invariant Grew(s0, State())
        invariant |countedTiles| == |s0.countedTiles| + count
        invariant DiagonalsFromTile(yielded, s0.processed, processed, tile, i, ignoreTileBlockers)
        invariant State() == EnteredAll(s0, yielded, iteration)
      {
        ghost var s1 := State();
        var n, chunk := OfferCorner(tile, i, freeDirections, iteration, ignoreTileBlockers, yielded, s0.processed);
        GrewTransitive(s0, s1, State());
        EnteredAllAppend(s0, yielded, chunk, iteration);
        yielded := yielded + chunk;
        count := count + n;
        i := i + 1;
      }
      EnteredAllLog(s0, yielded, iteration);
    }

    /** Both properties of the candidates GetNewDiagonalTiles yielded from its first `n` tiles. */
    ghost predicate DiagonalSince(ys: seq<Candidate>, processed0: set<Tile>, done: set<Tile>, tiles: seq<Tile>, n: nat,
                                  ignoreTileBlockers: bool)
      requires n <= |tiles|
    {
      && (forall c :: c in ys ==>
            c.tile !in processed0 && exists j :: 0 <= j < n && DiagonalCandidate(c, tiles[j], ignoreTileBlockers))
      && (forall j, g :: 0 <= j < n && g in DiagonalOrder && DiagonalOpen(tiles[j], g, ignoreTileBlockers)
                         && DiagonalEntry(tiles[j], g) != {} ==>
            DiagonalOffset(tiles[j], g) in done || Candidate(DiagonalOffset(tiles[j], g), DiagonalEntry(tiles[j], g)) in ys)
    }

    /** The candidates of one more tile extend DiagonalSince to it. */
    lemma {:induction false} DiagonalLogStep(ys: seq<Candidate>, chunk: seq<Candidate>, processed0: set<Tile>,
                                             processed1: set<Tile>, processed2: set<Tile>, tiles: seq<Tile>, k: nat,
                                             ignoreTileBlockers: bool)
      requires k < |tiles| && processed0 <= processed1 <= processed2
      requires DiagonalSince(ys, processed0, processed1, tiles, k, ignoreTileBlockers)
      requires DiagonalsFromTile(chunk, processed1, processed2, tiles[k], 4, ignoreTileBlockers)
      ensures DiagonalSince(ys + chunk, processed0, processed2, tiles, k + 1, ignoreTileBlockers)
    {
      DiagonalsFromTileAll(chunk, processed1, processed2, tiles[k], ignoreTileBlockers);
      forall c | c in ys + chunk
        ensures c.tile !in processed0 && exists j :: 0 <= j < k + 1 && DiagonalCandidate(c, tiles[j], ignoreTileBlockers)
      {
        if c in ys {
          assert c.tile !in processed0 && exists j :: 0 <= j < k && DiagonalCandidate(c, tiles[j], ignoreTileBlockers);
          var j :| 0 <= j < k && DiagonalCandidate(c, tiles[j], ignoreTileBlockers);
          assert 0 <= j < k + 1;
        } else {
          assert DiagonalCandidate(c, tiles[k], ignoreTileBlockers);
        }
      }
      forall j, g | 0 <= j < k + 1 && g in DiagonalOrder && DiagonalOpen(tiles[j], g, ignoreTileBlockers)
                    && DiagonalEntry(tiles[j], g) != {}
        ensures DiagonalOffset(tiles[j], g) in processed2
                || Candidate(DiagonalOffset(tiles[j], g), DiagonalEntry(tiles[j], g)) in ys + chunk
      {
        if j < k {
          assert DiagonalOffset(tiles[j], g) in processed1
                 || Candidate(DiagonalOffset(tiles[j], g), DiagonalEntry(tiles[j], g)) in ys;
        }
      }
    }

    /**
     * GetNewDiagonalTiles: YieldDiagonals for every tile in turn. The
     * yielded candidates are exactly the unprocessed diagonal neighbours
     * through open corners that can be entered without cutting a wall
     * corner.
     */
    method GetNewDiagonalTiles(iteration: int, tiles: seq<Tile>, ignoreTileBlockers: bool)
      returns (count: nat, ghost yielded: seq<Candidate>)
      requires Filling(iteration)
      modifies this`entered, this`enteredBy, this`processed, this`newTiles, this`delayedSpreaders,
               this`delayedSpreaderIteration, this`countedTiles
      ensures Filling(iteration)
      ensures Grew(old(State()), State())
      ensures |countedTiles| == old(|countedTiles|) + count
      ensures entered == old(entered) + yielded
      ensures DiagonalSince(yielded, old(processed), processed, tiles, |tiles|, ignoreTileBlockers)
      ensures State() == EnteredAll(old(State()), yielded, iteration)
    {
      ghost var s0 := State();
      yielded := [];
      count := 0;
      EnteredNone(s0, iteration);
      var k := 0;
      while k < |tiles|
        invariant 0 <= k <= |tiles|
        invariant Filling(iteration)
        invariant Grew(s0, State())
        invariant |countedTiles| == |s0.countedTiles| + count
        invariant DiagonalSince(yielded, s0.processed, processed, tiles, k, ignoreTileBlockers)
        invariant State() == EnteredAll(s0, yielded, iteration)
      {
        ghost var s1 := State();
        var n, chunk := YieldDiagonals(tiles[k], iteration, ignoreTileBlockers);
        GrewTransitive(s0, s1, State());
        DiagonalLogStep(yielded, chunk, s0.processed, s1.processed, processed, tiles, k, ignoreTileBlockers);
        EnteredAllAppend(s0, yielded, chunk, iteration);
        yielded := yielded + chunk;
        count := count + n;
        k := k + 1;
      }
      EnteredAllLog(s0, yielded, iteration);
    }

    /**
     * GetDelayedTiles after the first `n` entries of the list `delayed`:
     * every candidate yielded is an entry that was unprocessed, and every
     * entry so far is processed or yielded.
     */
    ghost predicate DelayedYielded(ys: seq<Candidate>, processed0: set<Tile>, done: set<Tile>, delayed: seq<Candidate>,
                                   n: nat)
      requires n <= |delayed|
    {
      && (forall c :: c in ys ==> c.tile !in processed0 && c in delayed)
      && (forall j :: 0 <= j < n ==> delayed[j].tile in done || delayed[j] in ys)
    }

    /** One more entry keeps DelayedYielded: it is yielded exactly when it is unprocessed. */
    lemma DelayedYieldedStep(ys: seq<Candidate>, ys': seq<Candidate>, processed0: set<Tile>, processed1: set<Tile>,
                             processed2: set<Tile>, delayed: seq<Candidate>, k: nat)
      requires k < |delayed| && processed0 <= processed1 <= processed2
      requires DelayedYielded(ys, processed0, processed1, delayed, k)
      requires delayed[k].tile !in processed1 ==> ys' == ys + [delayed[k]]
      requires delayed[k].tile in processed1 ==> ys' == ys
      ensures DelayedYielded(ys', processed0, processed2, delayed, k + 1)
    {
      forall j | 0 <= j < k + 1
        ensures delayed[j].tile in processed2 || delayed[j] in ys'
      {
        if j < k {
          assert delayed[j].tile in processed1 || delayed[j] in ys;
        }
      }
    }

    /**
     * Every neighbour of a tile of `from` through a direction the tile
     * does not block (any direction when blockers are ignored) is claimed:
     * processed, or a delayed spreader.
     */
    ghost predicate NeighboursClaimed(from: set<Tile>, ignoreTileBlockers: bool, processed: set<Tile>,
                                      spreaderIteration: map<Tile, int>)
    {
      forall t, d: Cardinal :: t in from && (ignoreTileBlockers || d !in Blocked(t)) ==>
        Offset(t, d) in processed || Offset(t, d) in spreaderIteration
    }

    /** Every enterable diagonal neighbour of a tile of `from` through an open corner is claimed. */
    ghost predicate DiagonalsClaimed(from: set<Tile>, ignoreTileBlockers: bool, processed: set<Tile>,
                                     spreaderIteration: map<Tile, int>)
    {
      forall t, g :: t in from && g in DiagonalOrder && DiagonalOpen(t, g, ignoreTileBlockers)
                     && DiagonalEntry(t, g) != {} ==>
        DiagonalOffset(t, g) in processed || DiagonalOffset(t, g) in spreaderIteration
    }

    /**
     * What one call of GetNewTiles leaves claimed, for tile sets `ts`,
     * delayed spreaders `ds` and delayed neighbours `dn` as they were when
     * it started: the neighbours of the set two iterations back, the
     * diagonal neighbours of the set three back, the neighbours queued under
     * this iteration, and, regardless of blockers, the neighbours and the
     * diagonal neighbours of the spreaders that cleared two and three
     * iterations back.
     */
    ghost predicate ClaimedAround(iteration: int, ts: seq<set<Tile>>, ds: map<int, seq<Tile>>,
                                  dn: map<int, seq<Candidate>>, processed: set<Tile>, spreaderIteration: map<Tile, int>)
      requires 3 <= iteration <= |ts|
    {
      && NeighboursClaimed(ts[iteration - 2], false, processed, spreaderIteration)
      && DiagonalsClaimed(ts[iteration - 3], false, processed, spreaderIteration)
      && (iteration in dn ==> ClaimedOf(dn[iteration], processed, spreaderIteration))
      && NeighboursClaimed(Elements(SpreadersAt(ds, iteration - 2)), true, processed, spreaderIteration)
      && DiagonalsClaimed(Elements(SpreadersAt(ds, iteration - 3)), true, processed, spreaderIteration)
    }

    /** `c` is a cardinal candidate of some tile of `from`. */
    ghost predicate AdjacentFrom(c: Candidate, from: set<Tile>, ignoreTileBlockers: bool) {
      exists t :: t in from && AdjacentCandidate(c, t, ignoreTileBlockers)
    }

    /** `c` is a diagonal candidate of some tile of `from`. */
    ghost predicate DiagonalFrom(c: Candidate, from: set<Tile>, ignoreTileBlockers: bool) {
      exists t :: t in from && DiagonalCandidate(c, t, ignoreTileBlockers)
    }

    /** `c` comes from where generator `g` draws its candidates. */
    ghost predicate FromGenerator(c: Candidate, g: Generator) {
      match g
      case AdjacentOf(from, ignoreTileBlockers) => AdjacentFrom(c, from, ignoreTileBlockers)
      case DiagonalOf(from) => exists t, d :: t in from && d in DiagonalOrder && c.tile == DiagonalOffset(t, d)
      case QueuedOf(iteration, dn, from) =>
        (iteration in dn && c in dn[iteration]) || QueuedFromSet(c, iteration, from, iteration)
    }

    /** Every candidate of `log` comes from where generator `g` draws its candidates. */
    ghost predicate AllFrom(log: seq<Candidate>, g: Generator) {
      forall c :: c in log ==> FromGenerator(c, g)
    }

    /** A log of diagonal candidates of the tiles of `from` lies on their diagonal neighbours. */
    lemma DiagonalLogFrom(log: seq<Candidate>, from: set<Tile>, ignoreTileBlockers: bool)
      requires forall c :: c in log ==> DiagonalFrom(c, from, ignoreTileBlockers)
      ensures AllFrom(log, DiagonalOf(from))
    {
      forall c | c in log
        ensures FromGenerator(c, DiagonalOf(from))
      {
        var t :| t in from && DiagonalCandidate(c, t, ignoreTileBlockers);
        var d :| d in DiagonalOrder && DiagonalOpen(t, d, ignoreTileBlockers) && DiagonalEntry(t, d) != {}
                 && c == Candidate(DiagonalOffset(t, d), DiagonalEntry(t, d));
      }
    }

    /** `c` was queued under `key` by some tile of `from`. */
    ghost predicate QueuedFromSet(c: Candidate, key: int, from: set<Tile>, iteration: int) {
      exists t :: t in from && QueuedFrom(c, key, t, iteration)
    }

    /**
     * The five sources a candidate of GetNewTiles comes from, the state
     * being that at its start: a cardinal candidate of the set two
     * iterations back, a diagonal one of the set three back, a neighbour
     * queued under this iteration (before, or by the first generator), or a
     * cardinal or diagonal candidate of a spreader that cleared two or three
     * iterations back.
     */
    ghost predicate FromSources(c: Candidate, iteration: int, ts: seq<set<Tile>>, ds: map<int, seq<Tile>>,
                                dn: map<int, seq<Candidate>>)
      requires 3 <= iteration <= |ts|
    {
      || AdjacentFrom(c, ts[iteration - 2], false)
      || DiagonalFrom(c, ts[iteration - 3], false)
      || (iteration in dn && c in dn[iteration])
      || QueuedFromSet(c, iteration, ts[iteration - 2], iteration)
      || AdjacentFrom(c, Elements(SpreadersAt(ds, iteration - 2)), true)
      || DiagonalFrom(c, Elements(SpreadersAt(ds, iteration - 3)), true)
    }

    /** Every entry of `dn` that is not one of `dn0` was unprocessed and queued by a tile of `from`. */
    ghost predicate QueuedSinceFrom(dn0: map<int, seq<Candidate>>, dn: map<int, seq<Candidate>>, from: set<Tile>,
                                    iteration: int, processed0: set<Tile>)
    {
      forall key, c :: key in dn && c in dn[key] && !(key in dn0 && c in dn0[key]) ==>
        c.tile !in processed0 && QueuedFromSet(c, key, from, iteration)
    }

    /**
     * The five claims of GetNewTiles, each made right after its generator,
     * still hold at the end: Processed and the delayed spreaders only grow.
     */
    lemma ClaimedAroundMono(iteration: int, ts: seq<set<Tile>>, ds: map<int, seq<Tile>>, dn: map<int, seq<Candidate>>,
                            s2: Snapshot, s3: Snapshot, s4: Snapshot, s5: Snapshot, s6: Snapshot)
      requires 3 <= iteration <= |ts|
      requires Grew(s2, s3) && Grew(s3, s4) && Grew(s4, s5) && Grew(s5, s6)
      requires NeighboursClaimed(ts[iteration - 2], false, s2.processed, s2.delayedSpreaderIteration)
      requires DiagonalsClaimed(ts[iteration - 3], false, s3.processed, s3.delayedSpreaderIteration)
      requires iteration in dn ==> ClaimedOf(dn[iteration], s4.processed, s4.delayedSpreaderIteration)
      requires NeighboursClaimed(Elements(SpreadersAt(ds, iteration - 2)), true, s5.processed,
                                 s5.delayedSpreaderIteration)
      requires DiagonalsClaimed(Elements(SpreadersAt(ds, iteration - 3)), true, s6.processed,
                                s6.delayedSpreaderIteration)
      ensures ClaimedAround(iteration, ts, ds, dn, s6.processed, s6.delayedSpreaderIteration)
    {
      GrewTransitive(s2, s3, s4);
      GrewTransitive(s2, s4, s5);
      GrewTransitive(s2, s5, s6);
      GrewTransitive(s3, s4, s5);
      GrewTransitive(s3, s5, s6);
      GrewTransitive(s4, s5, s6);
    }

    /** The completeness of GetNewAdjacentTiles, once its candidates are claimed. */
    lemma NeighboursClaimedFromLog(ys: seq<Candidate>, done: set<Tile>, tiles: seq<Tile>, from: set<Tile>,
                                   ignoreTileBlockers: bool, log: seq<Candidate>, processed: set<Tile>,
                                   spreaderIteration: map<Tile, int>)
      requires AdjacentComplete(ys, done, tiles, |tiles|, ignoreTileBlockers)
      requires forall t :: t in from ==> t in tiles
      requires done <= processed && (forall c :: c in ys ==> c in log)
      requires ClaimedOf(log, processed, spreaderIteration)
      ensures NeighboursClaimed(from, ignoreTileBlockers, processed, spreaderIteration)
    {
      forall t, d: Cardinal | t in from && (ignoreTileBlockers || d !in Blocked(t))
        ensures Offset(t, d) in processed || Offset(t, d) in spreaderIteration
      {
        var j :| 0 <= j < |tiles| && tiles[j] == t;
        assert Offset(tiles[j], d) in done || Candidate(Offset(tiles[j], d), {d}) in ys;
      }
    }

    /** The completeness of GetNewDiagonalTiles, once its candidates are claimed. */
    lemma DiagonalsClaimedFromLog(ys: seq<Candidate>, processed0: set<Tile>, done: set<Tile>, tiles: seq<Tile>,
                                  from: set<Tile>, ignoreTileBlockers: bool, log: seq<Candidate>, processed: set<Tile>,
                                  spreaderIteration: map<Tile, int>)
      requires DiagonalSince(ys, processed0, done, tiles, |tiles|, ignoreTileBlockers)
      requires forall t :: t in from ==> t in tiles
      requires done <= processed && (forall c :: c in ys ==> c in log)
      requires ClaimedOf(log, processed, spreaderIteration)
      ensures DiagonalsClaimed(from, ignoreTileBlockers, processed, spreaderIteration)
    {
      forall t, g | t in from && g in DiagonalOrder && DiagonalOpen(t, g, ignoreTileBlockers) && DiagonalEntry(t, g) != {}
        ensures DiagonalOffset(t, g) in processed || DiagonalOffset(t, g) in spreaderIteration
      {
        var j :| 0 <= j < |tiles| && tiles[j] == t;
        assert DiagonalOffset(tiles[j], g) in done
               || Candidate(DiagonalOffset(tiles[j], g), DiagonalEntry(tiles[j], g)) in ys;
      }
    }

    /** The completeness of GetDelayedTiles, once its candidates are claimed, for a prefix of the list it read. */
    lemma DelayedClaimedFromLog(ys: seq<Candidate>, processed0: set<Tile>, done: set<Tile>, delayed: seq<Candidate>,
                                list0: seq<Candidate>, log: seq<Candidate>, processed: set<Tile>,
                                spreaderIteration: map<Tile, int>)
      requires DelayedYielded(ys, processed0, done, delayed, |delayed|)
      requires list0 <= delayed
      requires done <= processed && (forall c :: c in ys ==> c in log)
      requires ClaimedOf(log, processed, spreaderIteration)
      ensures ClaimedOf(list0, processed, spreaderIteration)
    {
      forall c | c in list0
        ensures c.tile in processed || c.tile in spreaderIteration
      {
        var j :| 0 <= j < |list0| && list0[j] == c;
        assert delayed[j] == c;
      }
    }

    /** The soundness of GetNewAdjacentTiles, over the set it enumerated. */
    lemma AdjacentSoundFrom(ys: seq<Candidate>, processed0: set<Tile>, tiles: seq<Tile>, from: set<Tile>,
                            ignoreTileBlockers: bool)
      requires AdjacentSound(ys, processed0, tiles, |tiles|, ignoreTileBlockers)
      requires forall t :: t in tiles ==> t in from
      ensures forall c :: c in ys ==> c.tile !in processed0 && AdjacentFrom(c, from, ignoreTileBlockers)
    {
      forall c | c in ys
        ensures c.tile !in processed0 && AdjacentFrom(c, from, ignoreTileBlockers)
      {
        var j :| 0 <= j < |tiles| && AdjacentCandidate(c, tiles[j], ignoreTileBlockers);
        assert tiles[j] in from;
      }
    }

    /** The soundness of GetNewDiagonalTiles, over the set it enumerated. */
    lemma DiagonalSoundFrom(ys: seq<Candidate>, processed0: set<Tile>, done: set<Tile>, tiles: seq<Tile>,
                            from: set<Tile>, ignoreTileBlockers: bool)
      requires DiagonalSince(ys, processed0, done, tiles, |tiles|, ignoreTileBlockers)
      requires forall t :: t in tiles ==> t in from
      ensures forall c :: c in ys ==> c.tile !in processed0 && DiagonalFrom(c, from, ignoreTileBlockers)
    {
      forall c | c in ys
        ensures c.tile !in processed0 && DiagonalFrom(c, from, ignoreTileBlockers)
      {
        var j :| 0 <= j < |tiles| && DiagonalCandidate(c, tiles[j], ignoreTileBlockers);
        assert tiles[j] in from;
      }
    }

    /** QueuedSince over the enumeration of a set, restated over the set. */
    lemma QueuedSinceToSet(dn0: map<int, seq<Candidate>>, dn: map<int, seq<Candidate>>, tiles: seq<Tile>,
                           from: set<Tile>, iteration: int, processed0: set<Tile>)
      requires QueuedSince(dn0, dn, tiles, |tiles|, iteration, processed0)
      requires forall t :: t in tiles ==> t in from
      ensures QueuedSinceFrom(dn0, dn, from, iteration, processed0)
    {
      forall key, c | key in dn && c in dn[key] && !(key in dn0 && c in dn0[key])
        ensures c.tile !in processed0 && QueuedFromSet(c, key, from, iteration)
      {
        assert c.tile !in processed0 && exists j :: 0 <= j < |tiles| && QueuedFrom(c, key, tiles[j], iteration);
        var j :| 0 <= j < |tiles| && QueuedFrom(c, key, tiles[j], iteration);
        assert tiles[j] in from;
      }
    }

    /** The soundness of GetDelayedTiles: what it yields was queued before, or by the first generator. */
    lemma DelayedSoundFrom(ys: seq<Candidate>, processed0: set<Tile>, done: set<Tile>, dn0: map<int, seq<Candidate>>,
                           dn1: map<int, seq<Candidate>>, from: set<Tile>, iteration: int, processed1: set<Tile>)
      requires iteration in dn1
      requires DelayedYielded(ys, processed0, done, dn1[iteration], |dn1[iteration]|)
      requires QueuedSinceFrom(dn0, dn1, from, iteration, processed1)
      ensures forall c :: c in ys ==>
        c.tile !in processed0 && ((iteration in dn0 && c in dn0[iteration]) || QueuedFromSet(c, iteration, from, iteration))
    {
    }

    /**
     * One pass of the loop of GetDelayedTiles, on entry `k` of `delayed`:
     * the entry is yielded when unprocessed, extending DelayedYielded to it.
     */
    method OfferDelayed(delayed: seq<Candidate>, k: nat, iteration: int, ghost ys: seq<Candidate>,
                        ghost processed0: set<Tile>)
      returns (count: nat, ghost yielded: seq<Candidate>)
      requires k < |delayed|
      requires Filling(iteration)
      requires processed0 <= processed && DelayedYielded(ys, processed0, processed, delayed, k)
      modifies this`entered, this`enteredBy, this`processed, this`newTiles, this`delayedSpreaders,
               this`delayedSpreaderIteration, this`countedTiles
      ensures Filling(iteration)
      ensures Grew(old(State()), State())
      ensures |countedTiles| == old(|countedTiles|) + count
      ensures entered == old(entered) + yielded
      ensures DelayedYielded(ys + yielded, processed0, processed, delayed, k + 1)
      ensures State() == EnteredAll(old(State()), yielded, iteration)
    {
      var wasYielded, counted := Offer(delayed[k], iteration);
      yielded := if wasYielded then [delayed[k]] else [];
      EnteredNone(old(State()), iteration);
      EnteredStep(old(State()), [], delayed[k], iteration);
      count := if counted then 1 else 0;
      DelayedYieldedStep(ys, ys + yielded, processed0, old(processed), processed, delayed, k);
    }

    /**
     * GetDelayedTiles: the neighbours queued under this iteration are
     * offered in the order they were queued, and the key is then removed,
     * so each list of delayed neighbours is consumed once.
     */
    method GetDelayedTiles(iteration: int) returns (count: nat, ghost yielded: seq<Candidate>)
      requires Filling(iteration)
      modifies this`entered, this`enteredBy, this`processed, this`newTiles, this`delayedSpreaders,
               this`delayedSpreaderIteration, this`countedTiles, this`delayedNeighbors
      ensures Filling(iteration)
      ensures Grew(old(State()), State())
      ensures |countedTiles| == old(|countedTiles|) + count
      ensures entered == old(entered) + yielded
      ensures delayedNeighbors == old(delayedNeighbors) - {iteration}
      ensures iteration !in old(delayedNeighbors) ==> yielded == []
      ensures iteration in old(delayedNeighbors) ==>
        DelayedYielded(yielded, old(processed), processed, old(delayedNeighbors)[iteration],
                       |old(delayedNeighbors)[iteration]|)
      ensures State() == EnteredAll(old(State()), yielded, iteration)
    {
      yielded := [];
      count := 0;
      EnteredNone(State(), iteration);
      if iteration !in delayedNeighbors {
        assert delayedNeighbors - {iteration} == delayedNeighbors;
        return;
      }
      var delayed := delayedNeighbors[iteration];
      ghost var s0 := State();
      var k := 0;
      while k < |delayed|
        invariant 0 <= k <= |delayed|
        invariant delayedNeighbors == old(delayedNeighbors)
        invariant Filling(iteration)
        invariant Grew(s0, State())
        invariant |countedTiles| == |s0.countedTiles| + count
        invariant DelayedYielded(yielded, s0.processed, processed, delayed, k)
        invariant State() == EnteredAll(s0, yielded, iteration)
      {
        ghost var s1 := State();
        var n, chunk := OfferDelayed(delayed, k, iteration, yielded, s0.processed);
        GrewTransitive(s0, s1, State());
        EnteredAllAppend(s0, yielded, chunk, iteration);
        yielded := yielded + chunk;
        count := count + n;
        k := k + 1;
      }
      EnteredAllLog(s0, yielded, iteration);
      delayedNeighbors := delayedNeighbors - {iteration};
    }

    /** Removing the list GetDelayedTiles consumed keeps the other lists and accounts for no new entry. */
    lemma QueuedAfterDelayed(dn0: map<int, seq<Candidate>>, dn1: map<int, seq<Candidate>>, from: set<Tile>,
                             iteration: int, processed0: set<Tile>)
      requires ListsExtend(dn0, dn1) && QueuedSinceFrom(dn0, dn1, from, iteration, processed0)
      ensures ListsExtend(dn0 - {iteration}, dn1 - {iteration})
      ensures QueuedSinceFrom(dn0, dn1 - {iteration}, from, iteration, processed0)
    {
    }

    /** Every candidate of `log` was unprocessed at the start and comes from one of the sources. */
    ghost predicate Sourced(log: seq<Candidate>, processed0: set<Tile>, iteration: int, ts: seq<set<Tile>>,
                            ds: map<int, seq<Tile>>, dn: map<int, seq<Candidate>>)
      requires 3 <= iteration <= |ts|
    {
      forall c :: c in log ==> c.tile !in processed0 && FromSources(c, iteration, ts, ds, dn)
    }

    lemma SourcedAppend(log: seq<Candidate>, chunk: seq<Candidate>, processed0: set<Tile>, processed1: set<Tile>,
                        iteration: int, ts: seq<set<Tile>>, ds: map<int, seq<Tile>>, dn: map<int, seq<Candidate>>)
      requires 3 <= iteration <= |ts|
      requires Sourced(log, processed0, iteration, ts, ds, dn) && processed0 <= processed1
      requires forall c :: c in chunk ==> c.tile !in processed1 && FromSources(c, iteration, ts, ds, dn)
      ensures Sourced(log + chunk, processed0, iteration, ts, ds, dn)
    {
    }

    /**
     * A cardinal generator of GetNewTiles, over the tiles of `from`: the
     * set two iterations back honouring blockers, or the spreaders that
     * cleared two iterations back ignoring them. Afterwards every neighbour
     * it should reach is claimed, what it handed over comes from its
     * source, and the only new delayed neighbours are queued from `from`.
     */
    method AdjacentPhase(iteration: int, tiles: seq<Tile>, ghost from: set<Tile>, ignoreTileBlockers: bool,
                         ghost ds0: map<int, seq<Tile>>, ghost dn0: map<int, seq<Candidate>>,
                         ghost processed0: set<Tile>)
      returns (count: nat, ghost yielded: seq<Candidate>)
      requires 3 <= iteration <= |tileSets|
      requires Filling(iteration)
      requires forall t :: t in tiles <==> t in from
      requires if ignoreTileBlockers then from == Elements(SpreadersAt(ds0, iteration - 2))
               else from == tileSets[iteration - 2]
      requires processed0 <= processed && Sourced(entered, processed0, iteration, tileSets, ds0, dn0)
      modifies this`entered, this`enteredBy, this`processed, this`newTiles, this`delayedSpreaders,
               this`delayedSpreaderIteration, this`countedTiles, this`delayedNeighbors
      ensures Filling(iteration)
      ensures Grew(old(State()), State())
      ensures |countedTiles| == old(|countedTiles|) + count
      ensures Sourced(entered, processed0, iteration, tileSets, ds0, dn0)
      ensures NeighboursClaimed(from, ignoreTileBlockers, processed, delayedSpreaderIteration)
      ensures ListsExtend(old(delayedNeighbors), delayedNeighbors)
      ensures ignoreTileBlockers ==> delayedNeighbors == old(delayedNeighbors)
      ensures QueuedSinceFrom(old(delayedNeighbors), delayedNeighbors, from, iteration, old(processed))
      ensures !ignoreTileBlockers ==> BlockersQueuedFrom(from, delayedNeighbors, processed, iteration)
      ensures AllFrom(yielded, AdjacentOf(from, ignoreTileBlockers))
      ensures entered == old(entered) + yielded
      ensures State() == EnteredAll(old(State()), yielded, iteration)
    {
      count, yielded := GetNewAdjacentTiles(iteration, tiles, ignoreTileBlockers);
      SettledClaimed(entered, newTiles, processed, delayedSpreaderIteration);
      NeighboursClaimedFromLog(yielded, processed, tiles, from, ignoreTileBlockers, entered, processed,
                               delayedSpreaderIteration);
      AdjacentSoundFrom(yielded, old(processed), tiles, from, ignoreTileBlockers);
      QueuedSinceToSet(old(delayedNeighbors), delayedNeighbors, tiles, from, iteration, old(processed));
      if !ignoreTileBlockers {
        QueuedUpToToSet(delayedNeighbors, processed, tiles, from, iteration);
      }
      SourcedAppend(old(entered), yielded, processed0, old(processed), iteration, tileSets, ds0, dn0);
    }

    /**
     * A diagonal generator of GetNewTiles, over the tiles of `from`: the
     * set three iterations back honouring blockers, or the spreaders that
     * cleared three iterations back ignoring them.
     */
    method DiagonalPhase(iteration: int, tiles: seq<Tile>, ghost from: set<Tile>, ignoreTileBlockers: bool,
                         ghost ds0: map<int, seq<Tile>>, ghost dn0: map<int, seq<Candidate>>,
                         ghost processed0: set<Tile>)
      returns (count: nat, ghost yielded: seq<Candidate>)
      requires 3 <= iteration <= |tileSets|
      requires Filling(iteration)
      requires forall t :: t in tiles <==> t in from
      requires if ignoreTileBlockers then from == Elements(SpreadersAt(ds0, iteration - 3))
               else from == tileSets[iteration - 3]
      requires processed0 <= processed && Sourced(entered, processed0, iteration, tileSets, ds0, dn0)
      modifies this`entered, this`enteredBy, this`processed, this`newTiles, this`delayedSpreaders,
               this`delayedSpreaderIteration, this`countedTiles
      ensures Filling(iteration)
      ensures Grew(old(State()), State())
      ensures |countedTiles| == old(|countedTiles|) + count
      ensures Sourced(entered, processed0, iteration, tileSets, ds0, dn0)
      ensures DiagonalsClaimed(from, ignoreTileBlockers, processed, delayedSpreaderIteration)
      ensures AllFrom(yielded, DiagonalOf(from))
      ensures entered == old(entered) + yielded
      ensures State() == EnteredAll(old(State()), yielded, iteration)
    {
      count, yielded := GetNewDiagonalTiles(iteration, tiles, ignoreTileBlockers);
      SettledClaimed(entered, newTiles, processed, delayedSpreaderIteration);
      DiagonalsClaimedFromLog(yielded, old(processed), processed, tiles, from, ignoreTileBlockers, entered, processed,
                              delayedSpreaderIteration);
      DiagonalSoundFrom(yielded, old(processed), processed, tiles, from, ignoreTileBlockers);
      DiagonalLogFrom(yielded, from, ignoreTileBlockers);
      SourcedAppend(old(entered), yielded, processed0, old(processed), iteration, tileSets, ds0, dn0);
    }

    /**
     * The delayed generator of GetNewTiles: the neighbours queued under
     * this iteration, before GetNewTiles began (`dn0`) or by its first
     * generator from the set two iterations back, are consumed.
     */
    method DelayedPhase(iteration: int, ghost ds0: map<int, seq<Tile>>, ghost dn0: map<int, seq<Candidate>>,
                        ghost processed0: set<Tile>)
      returns (count: nat, ghost yielded: seq<Candidate>)
      requires 3 <= iteration <= |tileSets|
      requires Filling(iteration)
      requires ListsExtend(dn0, delayedNeighbors)
      requires QueuedSinceFrom(dn0, delayedNeighbors, tileSets[iteration - 2], iteration, processed0)
      requires processed0 <= processed && Sourced(entered, processed0, iteration, tileSets, ds0, dn0)
      modifies this`entered, this`enteredBy, this`processed, this`newTiles, this`delayedSpreaders,
               this`delayedSpreaderIteration, this`countedTiles, this`delayedNeighbors
      ensures Filling(iteration)
      ensures Grew(old(State()), State())
      ensures |countedTiles| == old(|countedTiles|) + count
      ensures Sourced(entered, processed0, iteration, tileSets, ds0, dn0)
      ensures iteration in dn0 ==> ClaimedOf(dn0[iteration], processed, delayedSpreaderIteration)
      ensures iteration in old(delayedNeighbors) ==>
        ClaimedOf(old(delayedNeighbors)[iteration], processed, delayedSpreaderIteration)
      ensures delayedNeighbors == old(delayedNeighbors) - {iteration}
      ensures AllFrom(yielded, QueuedOf(iteration, dn0, tileSets[iteration - 2]))
      ensures entered == old(entered) + yielded
      ensures State() == EnteredAll(old(State()), yielded, iteration)
    {
      ghost var dn1 := delayedNeighbors;
      count, yielded := GetDelayedTiles(iteration);
      SettledClaimed(entered, newTiles, processed, delayedSpreaderIteration);
      if iteration in dn1 {
        if iteration in dn0 {
          DelayedClaimedFromLog(yielded, old(processed), processed, dn1[iteration], dn0[iteration], entered, processed,
                                delayedSpreaderIteration);
        }
        DelayedClaimedFromLog(yielded, old(processed), processed, dn1[iteration], dn1[iteration], entered, processed,
                              delayedSpreaderIteration);
        DelayedSoundFrom(yielded, old(processed), processed, dn0, dn1, tileSets[iteration - 2], iteration, processed0);
      }
      SourcedAppend(old(entered), yielded, processed0, old(processed), iteration, tileSets, ds0, dn0);
    }

    /**
     * GetNewTiles with the consuming loop of AddNewTiles: the delayed
     * spreaders that clear now are marked processed, and then the five
     * generators run in the source's order, the spreader lists being looked
     * up before any of them runs. Everything it should reach is claimed,
     * everything it hands over comes from one of the sources, and the
     * delayed neighbours queued under this iteration are consumed.
     */
    method GetNewTiles(iteration: int) returns (count: nat, ghost logs: GeneratorLogs)
      requires 3 <= iteration == |tileSets|
      requires Filling(iteration) && entered == [] && newTiles == {}
      modifies this`entered, this`enteredBy, this`processed, this`newTiles, this`delayedSpreaders,
               this`delayedSpreaderIteration, this`countedTiles, this`delayedNeighbors
      ensures Filling(iteration)
      ensures Grew(old(State()), State())
      ensures |countedTiles| == old(|countedTiles|) + count
      ensures Elements(SpreadersAt(old(delayedSpreaders), iteration)) <= processed
      ensures newTiles !! old(processed) + Elements(SpreadersAt(old(delayedSpreaders), iteration))
      ensures ClaimedAround(iteration, tileSets, old(delayedSpreaders), old(delayedNeighbors), processed,
                            delayedSpreaderIteration)
      ensures Sourced(entered, old(processed) + Elements(SpreadersAt(old(delayedSpreaders), iteration)), iteration,
                      tileSets, old(delayedSpreaders), old(delayedNeighbors))
      ensures iteration !in delayedNeighbors
      ensures ListsExtend(old(delayedNeighbors) - {iteration}, delayedNeighbors)
      ensures QueuedSinceFrom(old(delayedNeighbors), delayedNeighbors, tileSets[iteration - 2], iteration,
                              old(processed) + Elements(SpreadersAt(old(delayedSpreaders), iteration)))
      ensures BlockersHandled(tileSets[iteration - 2], delayedNeighbors, processed, delayedSpreaderIteration, iteration)
      ensures State() == EnteredAll(old(State()).(processed := old(processed) +
                                                  Elements(SpreadersAt(old(delayedSpreaders), iteration))),
                                    entered, iteration)
      ensures entered == logs.Chained()
      ensures GeneratorsInOrder(logs, old(State()).(processed := old(processed) +
                                                    Elements(SpreadersAt(old(delayedSpreaders), iteration))),
                                iteration, tileSets, old(delayedSpreaders), old(delayedNeighbors))
    {
      ghost var ds0 := delayedSpreaders;
      var cleared := Elements(SpreadersAt(delayedSpreaders, iteration));
      processed := processed + cleared;
      var delayedAdjacent := SpreadersAt(delayedSpreaders, iteration - 2);
      var delayedDiagonal := SpreadersAt(delayedSpreaders, iteration - 3);
      var adjacentTiles := Enumerate(tileSets[iteration - 2]);
      var diagonalTiles := Enumerate(tileSets[iteration - 3]);
      ghost var s1 := State();
      assert s1 == old(State()).(processed := old(processed) + cleared);
      ghost var dn0 := delayedNeighbors;
      ghost var p0 := processed;

      ghost var y1, y2, y3, y4, y5;
      var n1, n2, n3, n4, n5;
      n1, y1 := AdjacentPhase(iteration, adjacentTiles, tileSets[iteration - 2], false, ds0, dn0, p0);
      ghost var s2 := State();
      ghost var dn1 := delayedNeighbors;
      n2, y2 := DiagonalPhase(iteration, diagonalTiles, tileSets[iteration - 3], false, ds0, dn0, p0);
      ghost var s3 := State();
      n3, y3 := DelayedPhase(iteration, ds0, dn0, p0);
      ghost var s4 := State();
      n4, y4 := AdjacentPhase(iteration, delayedAdjacent, Elements(delayedAdjacent), true, ds0, dn0, p0);
      ghost var s5 := State();
      n5, y5 := DiagonalPhase(iteration, delayedDiagonal, Elements(delayedDiagonal), true, ds0, dn0, p0);
      logs := GeneratorLogs(y1, y2, y3, y4, y5);
      ReplayPhases(s1, s2, s3, s4, s5, State(), y1, y2, y3, y4, y5, iteration);
      ReplayWhole(s1, State(), logs.Chained(), iteration);
      ClaimedOfGrew(if iteration in dn1 then dn1[iteration] else [], s4, s5, State());
      BlockersHandledAtEnd(tileSets[iteration - 2], dn1, s2.processed, delayedNeighbors, processed,
                           delayedSpreaderIteration, iteration);

      count := n1 + n2 + n3 + n4 + n5;
      GrewTransitive(s1, s2, s3);
      GrewTransitive(s1, s3, s4);
      GrewTransitive(s1, s4, s5);
      GrewTransitive(s1, s5, State());
      ClaimedAroundMono(iteration, tileSets, ds0, dn0, s2, s3, s4, s5, State());
      assert forall t :: t in newTiles ==> t !in s1.processed by {
        assert s1.newTiles == {};
      }
      QueuedAfterDelayed(dn0, dn1, tileSets[iteration - 2], iteration, p0);
      InOrder(old(State()).(processed := old(processed) + Elements(SpreadersAt(old(delayedSpreaders), iteration))),
              s2, s3, s4, s5, State(), y1, y2, y3, y4, y5, iteration, tileSets, old(delayedSpreaders),
              old(delayedNeighbors));
    }

    /**
     * The five logs of GetNewTiles from state `s` (the cleared spreaders
     * already processed), with the tile sets `ts`, delayed spreaders `ds`
     * and delayed neighbours `dn` of its start, in the order the generators
     * run. Each log comes from its own generator's source, and each
     * generator has claimed what it should reach once the logs up to its
     * own are replayed, so a later generator runs on the tiles the earlier
     * ones entered.
     */
    ghost predicate GeneratorsInOrder(logs: GeneratorLogs, s: Snapshot, iteration: int, ts: seq<set<Tile>>,
                                      ds: map<int, seq<Tile>>, dn: map<int, seq<Candidate>>)
      requires 3 <= iteration <= |ts|
    {
      && GeneratorsSourced(logs, iteration, ts, ds, dn)
      && GeneratorsClaimed(logs, s, iteration, ts, ds, dn)
    }

    /** Each of the five logs comes from its own generator's source. */
    ghost predicate GeneratorsSourced(logs: GeneratorLogs, iteration: int, ts: seq<set<Tile>>,
                                      ds: map<int, seq<Tile>>, dn: map<int, seq<Candidate>>)
      requires 3 <= iteration <= |ts|
    {
      && AllFrom(logs.adjacent, AdjacentOf(ts[iteration - 2], false))
      && AllFrom(logs.diagonal, DiagonalOf(ts[iteration - 3]))
      && AllFrom(logs.queued, QueuedOf(iteration, dn, ts[iteration - 2]))
      && AllFrom(logs.spreaderAdjacent, AdjacentOf(Elements(SpreadersAt(ds, iteration - 2)), true))
      && AllFrom(logs.spreaderDiagonal, DiagonalOf(Elements(SpreadersAt(ds, iteration - 3))))
    }

    /**
     * Each generator has claimed what it should reach by the end of its own
     * run, each run starting from the state the previous one left (`s` for the
     * first).
     */
    ghost predicate GeneratorsClaimed(logs: GeneratorLogs, s: Snapshot, iteration: int, ts: seq<set<Tile>>,
                                      ds: map<int, seq<Tile>>, dn: map<int, seq<Candidate>>)
      requires 3 <= iteration <= |ts|
    {
      var a1 := EnteredAll(s, logs.adjacent, iteration);
      var a2 := EnteredAll(a1, logs.diagonal, iteration);
      var a3 := EnteredAll(a2, logs.queued, iteration);
      var a4 := EnteredAll(a3, logs.spreaderAdjacent, iteration);
      var a5 := EnteredAll(a4, logs.spreaderDiagonal, iteration);
      && NeighboursClaimed(ts[iteration - 2], false, a1.processed, a1.delayedSpreaderIteration)
      && DiagonalsClaimed(ts[iteration - 3], false, a2.processed, a2.delayedSpreaderIteration)
      && (iteration in dn ==> ClaimedOf(dn[iteration], a3.processed, a3.delayedSpreaderIteration))
      && NeighboursClaimed(Elements(SpreadersAt(ds, iteration - 2)), true, a4.processed, a4.delayedSpreaderIteration)
      && DiagonalsClaimed(Elements(SpreadersAt(ds, iteration - 3)), true, a5.processed, a5.delayedSpreaderIteration)
    }

    /**
     * Five generators run one after the other from `s1`, each taking from its
     * own source and each claiming its part by the end of its own run, are in
     * order as GeneratorsInOrder says.
     */
    lemma InOrder(s1: Snapshot, s2: Snapshot, s3: Snapshot, s4: Snapshot, s5: Snapshot, s6: Snapshot,
                  y1: seq<Candidate>, y2: seq<Candidate>, y3: seq<Candidate>, y4: seq<Candidate>,
                  y5: seq<Candidate>, iteration: int, ts: seq<set<Tile>>, ds: map<int, seq<Tile>>,
                  dn: map<int, seq<Candidate>>)
      requires 3 <= iteration <= |ts|
      requires AllFrom(y1, AdjacentOf(ts[iteration - 2], false))
      requires AllFrom(y2, DiagonalOf(ts[iteration - 3]))
      requires AllFrom(y3, QueuedOf(iteration, dn, ts[iteration - 2]))
      requires AllFrom(y4, AdjacentOf(Elements(SpreadersAt(ds, iteration - 2)), true))
      requires AllFrom(y5, DiagonalOf(Elements(SpreadersAt(ds, iteration - 3))))
      requires s2 == EnteredAll(s1, y1, iteration) && s3 == EnteredAll(s2, y2, iteration)
      requires s4 == EnteredAll(s3, y3, iteration) && s5 == EnteredAll(s4, y4, iteration)
      requires s6 == EnteredAll(s5, y5, iteration)
      requires NeighboursClaimed(ts[iteration - 2], false, s2.processed, s2.delayedSpreaderIteration)
      requires DiagonalsClaimed(ts[iteration - 3], false, s3.processed, s3.delayedSpreaderIteration)
      requires iteration in dn ==> ClaimedOf(dn[iteration], s4.processed, s4.delayedSpreaderIteration)
      requires NeighboursClaimed(Elements(SpreadersAt(ds, iteration - 2)), true, s5.processed,
                                 s5.delayedSpreaderIteration)
      requires DiagonalsClaimed(Elements(SpreadersAt(ds, iteration - 3)), true, s6.processed,
                                s6.delayedSpreaderIteration)
      ensures GeneratorsInOrder(GeneratorLogs(y1, y2, y3, y4, y5), s1, iteration, ts, ds, dn)
    {
    }

    /** Two runs one after the other replay the concatenation of their logs. */
    lemma ReplayTwo(s0: Snapshot, s1: Snapshot, s2: Snapshot, a: seq<Candidate>, b: seq<Candidate>, iteration: int)
      requires s1 == EnteredAll(s0, a, iteration) && s2 == EnteredAll(s1, b, iteration)
      ensures s2 == EnteredAll(s0, a + b, iteration)
    {
      EnteredAllAppend(s0, a, b, iteration);
    }

    /** The five generators of GetNewTiles together take the concatenation of what each took. */
    lemma ReplayPhases(s1: Snapshot, s2: Snapshot, s3: Snapshot, s4: Snapshot, s5: Snapshot, s6: Snapshot,
                       y1: seq<Candidate>, y2: seq<Candidate>, y3: seq<Candidate>, y4: seq<Candidate>,
                       y5: seq<Candidate>, iteration: int)
      requires s2 == EnteredAll(s1, y1, iteration) && s3 == EnteredAll(s2, y2, iteration)
      requires s4 == EnteredAll(s3, y3, iteration) && s5 == EnteredAll(s4, y4, iteration)
      requires s6 == EnteredAll(s5, y5, iteration)
      ensures s6 == EnteredAll(s1, GeneratorLogs(y1, y2, y3, y4, y5).Chained(), iteration)
    {
      ReplayTwo(s1, s2, s3, y1, y2, iteration);
      ReplayTwo(s1, s3, s4, y1 + y2, y3, iteration);
      ReplayTwo(s1, s4, s5, y1 + y2 + y3, y4, iteration);
      ReplayTwo(s1, s5, s6, y1 + y2 + y3 + y4, y5, iteration);
    }

    /** A replay from an empty log leaves the replayed log as the state's own. */
    lemma ReplayWhole(s0: Snapshot, s: Snapshot, log: seq<Candidate>, iteration: int)
      requires s0.entered == [] && s == EnteredAll(s0, log, iteration)
      ensures s.entered == log && s == EnteredAll(s0, s.entered, iteration)
    {
      EnteredAllLog(s0, log, iteration);
      assert s.entered == log;
    }

    /** A list claimed after the delayed generator is still claimed at the end. */
    lemma ClaimedOfGrew(list: seq<Candidate>, s4: Snapshot, s5: Snapshot, s6: Snapshot)
      requires Grew(s4, s5) && Grew(s5, s6)
      requires ClaimedOf(list, s4.processed, s4.delayedSpreaderIteration)
      ensures ClaimedOf(list, s6.processed, s6.delayedSpreaderIteration)
    {
    }

    /**
     * What a replayed fill from `s0` with an empty log and current set
     * means: the current set is the unblocked tiles entered; Processed
     * gains exactly those and the registered spreaders that block every
     * direction; the registered spreaders, each once and each entered
     * through a blocked candidate, are exactly the new keys of the spreader
     * iterations, recorded at this iteration, and are listed under the
     * iterations their blockers clear.
     */
    lemma ReplayMeaning(s0: Snapshot, s: Snapshot, iteration: int)
      requires s0.entered == [] && s0.newTiles == {}
      requires s == EnteredAll(s0, s.entered, iteration)
      ensures var reg := Registered(s0, s.entered, iteration);
        && s.newTiles == UnblockedTiles(s.entered)
        && s.processed == s0.processed + s.newTiles + FullyBlockedOf(reg)
        && s.delayedSpreaders == AppendSpreaders(s0.delayedSpreaders, reg, iteration)
        && (forall t :: t in s.delayedSpreaderIteration && t !in s0.delayedSpreaderIteration <==> t in reg)
        && (forall t :: t in reg ==> s.delayedSpreaderIteration[t] == iteration)
        && (forall i, j :: 0 <= i < j < |reg| ==> reg[i] != reg[j])
        && (forall t :: t in reg ==> exists c :: c in s.entered && EntryBlocked(c) && c.tile == t)
    {
      EnteredAllLog(s0, s.entered, iteration);
      EnteredAllProcessed(s0, s.entered, iteration);
      EnteredAllSpreaders(s0, s.entered, iteration);
      EnteredAllRecorded(s0, s.entered, iteration);
      RegisteredOnce(s0, s.entered, iteration);
    }

    /** `HashSet<Vector2i> newTiles = new()`, with the bookkeeping of the count and the log started afresh. */
    method BeginIteration(iteration: int)
      modifies this`newTiles, this`earlierSpreaders, this`countedTiles, this`entered, this`enteredBy
      ensures newTiles == {} && countedTiles == {} && entered == []
      ensures earlierSpreaders == delayedSpreaderIteration.Keys
      ensures Filling(iteration)
    {
      newTiles := {};
      earlierSpreaders := delayedSpreaderIteration.Keys;
      countedTiles := {};
      entered := [];
      enteredBy := map[];
    }

    /**
     * AddNewTiles: fills the set of iteration `iteration` and appends it to
     * TileSets. The new set holds exactly the unblocked candidates handed
     * over, none of them processed before (or a spreader that cleared now),
     * every one from a source of GetNewTiles; everything those sources
     * reach is claimed, and the blocked neighbours of the tiles two back are
     * queued; Processed and the spreader lists gain exactly what the
     * entered candidates register (`registered`, in order); the candidates
     * arrive generator by generator in the source's order (`logs`, as
     * GetNewTiles hands them over); and the returned count is the number of
     * delayed spreaders registered now plus the new tiles that are not
     * delayed spreaders.
     */
    method AddNewTiles(iteration: int)
      returns (newTileCount: nat, ghost registered: seq<Tile>, ghost logs: GeneratorLogs)
      requires 3 <= iteration == |tileSets|
      modifies this`tileSets, this`entered, this`processed, this`newTiles, this`delayedSpreaders,
               this`delayedSpreaderIteration, this`countedTiles, this`delayedNeighbors, this`earlierSpreaders,
               this`enteredBy
      ensures |tileSets| == iteration + 1 && tileSets[..iteration] == old(tileSets)
      ensures forall t :: t in tileSets[iteration] ==> exists c :: c in entered && !EntryBlocked(c) && c.tile == t
      ensures forall c :: c in entered && !EntryBlocked(c) ==> c.tile in tileSets[iteration]
      ensures old(processed) + Elements(SpreadersAt(old(delayedSpreaders), iteration)) + tileSets[iteration]
              <= processed
      ensures tileSets[iteration] !! old(processed) + Elements(SpreadersAt(old(delayedSpreaders), iteration))
      ensures Sourced(entered, old(processed) + Elements(SpreadersAt(old(delayedSpreaders), iteration)), iteration,
                      old(tileSets), old(delayedSpreaders), old(delayedNeighbors))
      ensures ClaimedAround(iteration, old(tileSets), old(delayedSpreaders), old(delayedNeighbors), processed,
                            delayedSpreaderIteration)
      ensures MapExtends(old(delayedSpreaderIteration), delayedSpreaderIteration)
      ensures forall t :: t in delayedSpreaderIteration && t !in old(delayedSpreaderIteration) ==>
        delayedSpreaderIteration[t] == iteration
      ensures ListsExtend(old(delayedSpreaders), delayedSpreaders)
      ensures delayedSpreaderIteration.Keys - old(delayedSpreaderIteration).Keys !! old(processed)
      ensures newTileCount == |(delayedSpreaderIteration.Keys - old(delayedSpreaderIteration).Keys)
                               + (tileSets[iteration] - delayedSpreaderIteration.Keys)|
      ensures iteration !in delayedNeighbors
      ensures ListsExtend(old(delayedNeighbors) - {iteration}, delayedNeighbors)
      ensures QueuedSinceFrom(old(delayedNeighbors), delayedNeighbors, old(tileSets)[iteration - 2], iteration,
                              old(processed) + Elements(SpreadersAt(old(delayedSpreaders), iteration)))
      ensures BlockersHandled(old(tileSets)[iteration - 2], delayedNeighbors, processed, delayedSpreaderIteration,
                              iteration)
      ensures processed == old(processed) + Elements(SpreadersAt(old(delayedSpreaders), iteration)) + tileSets[iteration]
                           + FullyBlockedOf(registered)
      ensures delayedSpreaders == AppendSpreaders(old(delayedSpreaders), registered, iteration)
      ensures forall t :: t in delayedSpreaderIteration && t !in old(delayedSpreaderIteration) <==> t in registered
      ensures forall i, j :: 0 <= i < j < |registered| ==> registered[i] != registered[j]
      ensures forall t :: t in registered ==> exists c :: c in entered && EntryBlocked(c) && c.tile == t
      ensures entered == logs.Chained()
      ensures GeneratorsInOrder(logs, Snapshot(old(processed) + Elements(SpreadersAt(old(delayedSpreaders), iteration)),
                                               {}, old(delayedSpreaders), old(delayedSpreaderIteration), [], {}),
                                iteration, old(tileSets), old(delayedSpreaders), old(delayedNeighbors))
    {
      BeginIteration(iteration);
      ghost var s0 := State();
      newTileCount, logs := GetNewTiles(iteration);
      ghost var s1 := s0.(processed := s0.processed + Elements(SpreadersAt(s0.delayedSpreaders, iteration)));
      registered := Registered(s1, entered, iteration);
      ReplayMeaning(s1, State(), iteration);
      CountedTilesAre(newTiles, processed, earlierSpreaders, delayedSpreaderIteration, countedTiles, iteration);
      WitnessedTiles(newTiles, enteredBy, entered);
      tileSets := tileSets + [newTiles];
    }
  }
}
