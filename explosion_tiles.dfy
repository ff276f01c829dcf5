/**
 * ExplosionSystem.GetExplosionTiles of ExplosionSystemTileFill.cs: the
 * budget loop that spreads a total intensity over the iterations of an
 * explosion flood fill, and the final pass that commits the delayed
 * spreaders and removes duplicate tiles.
 *
 * Iteration numbers index everything: TileSets, the list of intensities
 * and the list of tile counts all hold index 1 for the epicenter, with
 * indices 0 and 2 empty (count 0), and iteration k appends index k.
 */
module ExplosionTiles {
  import opened Wrappers
  import opened Tiles
  import opened TileFill

  /** The largest number of tiles an explosion covers (about a circle of radius 50). */
  const MaxArea: nat := 7854

  function Min(a: real, b: real): real {
    if a <= b then a else b
  }

  function Max(a: real, b: real): real {
    if a <= b then b else a
  }

  /**
   * The intensity `n` tiles at intensity `v` take, added up tile by tile;
   * WeightedProduct shows it is `n * v`. Stating costs this way keeps
   * products out of the loops' proofs.
   */
  function Weighted(n: nat, v: real): real {
    if n == 0 then 0.0 else Weighted(n - 1, v) + v
  }

  lemma {:induction false} WeightedProduct(n: nat, v: real)
    ensures Weighted(n, v) == n as real * v
  {
    if n > 0 {
      WeightedProduct(n - 1, v);
    }
  }

  /** `tilesInIteration[i] * intensityIncrease`: the cost of raising `count` tiles by `increase`. */
  method TileCost(count: nat, increase: real) returns (cost: real)
    ensures cost == Weighted(count, increase)
  {
    WeightedProduct(count, increase);
    cost := count as real * increase;
  }

  /** The intensity handed out: every iteration's tile count times its intensity, summed. */
  function Distributed(counts: seq<nat>, intensities: seq<real>): real
    requires |counts| == |intensities|
  {
    if |counts| == 0 then 0.0
    else Distributed(counts[..|counts| - 1], intensities[..|counts| - 1])
         + Weighted(counts[|counts| - 1], intensities[|counts| - 1])
  }

  function Sum(counts: seq<nat>): nat {
    if |counts| == 0 then 0 else Sum(counts[..|counts| - 1]) + counts[|counts| - 1]
  }

  /** Raising one intensity by `d` raises the total by its tile count times `d`. */
  lemma {:induction false} DistributedRaise(counts: seq<nat>, intensities: seq<real>, i: nat, d: real)
    requires |counts| == |intensities| && i < |counts|
    ensures Distributed(counts, intensities[i := intensities[i] + d])
            == Distributed(counts, intensities) + counts[i] as real * d
    decreases |counts|
  {
    var n := |counts| - 1;
    var updated := intensities[i := intensities[i] + d];
    assert Distributed(counts, updated) == Distributed(counts[..n], updated[..n]) + Weighted(counts[n], updated[n]);
    assert Distributed(counts, intensities)
        == Distributed(counts[..n], intensities[..n]) + Weighted(counts[n], intensities[n]);
    if i < n {
      assert updated[..n] == intensities[..n][i := intensities[..n][i] + d];
      assert updated[n] == intensities[n];
      DistributedRaise(counts[..n], intensities[..n], i, d);
    } else {
      assert updated[..n] == intensities[..n];
      WeightedProduct(counts[n], intensities[n]);
      WeightedProduct(counts[n], intensities[n] + d);
    }
  }

  /** A new iteration adds its tile count times its intensity. */
  lemma DistributedAppend(counts: seq<nat>, intensities: seq<real>, n: nat, v: real)
    requires |counts| == |intensities|
    ensures Distributed(counts + [n], intensities + [v]) == Distributed(counts, intensities) + n as real * v
  {
    assert (counts + [n])[..|counts|] == counts;
    assert (intensities + [v])[..|counts|] == intensities;
    WeightedProduct(n, v);
  }

  lemma SumAppend(counts: seq<nat>, n: nat)
    ensures Sum(counts + [n]) == Sum(counts) + n
  {
    assert (counts + [n])[..|counts|] == counts;
  }

  /** Splitting `remaining` evenly over `count` tiles gives each at most `increase`. */
  lemma ShareBound(remaining: real, count: real, increase: real)
    requires 0.0 < remaining <= count * increase && 0.0 < count
    ensures 0.0 < remaining / count <= increase
    ensures count * (remaining / count) == remaining
  {
    var q := remaining / count;
    assert q * count == remaining;
    assert (increase - q) * count >= 0.0;
  }

  /**
   * The state of the top-up after the iterations from `maxIntensityIndex`
   * up to `i` were raised in full: the account is kept, those iterations
   * got `min(step, maxIntensity - current)` and no other one changed.
   */
  ghost predicate RaisedUpTo(intensities: seq<real>, counts: seq<nat>, maxIntensityIndex: nat, remaining: real,
                             step: real, maxIntensity: real, i: nat, raised: seq<real>, left: real) {
    && |counts| == |intensities| == |raised|
    && Distributed(counts, raised) + left == Distributed(counts, intensities) + remaining
    && (forall j :: 0 <= j < |raised| && !(maxIntensityIndex <= j < i) ==> raised[j] == intensities[j])
    && (forall j :: maxIntensityIndex <= j < i && j < |raised| ==>
          raised[j] == intensities[j] + Min(step, maxIntensity - intensities[j]))
  }

  /** What the top-up promises about each iteration's intensity. */
  ghost predicate RaiseBounded(intensities: seq<real>, maxIntensityIndex: nat, step: real, maxIntensity: real,
                               raised: seq<real>) {
    && |raised| == |intensities|
    && (forall i :: 0 <= i < |raised| && i < maxIntensityIndex ==> raised[i] == intensities[i])
    && (forall i :: 0 <= i < |raised| ==> raised[i] <= intensities[i] + step)
    && (forall i :: 0 <= i < |raised| && raised[i] > intensities[i] ==> raised[i] <= maxIntensity)
    && (forall i :: 0 <= i < |raised| && raised[i] < intensities[i] ==> raised[i] == maxIntensity)
  }

  /** Paying for a raise out of what is left keeps the account. */
  lemma RaiseAccount(counts: seq<nat>, raised: seq<real>, i: nat, increase: real, left: real)
    requires |counts| == |raised| && i < |counts|
    ensures Distributed(counts, raised[i := raised[i] + increase]) + (left - Weighted(counts[i], increase))
            == Distributed(counts, raised) + left
  {
    DistributedRaise(counts, raised, i, increase);
    WeightedProduct(counts[i], increase);
  }

  /** Raising iteration `i` in full keeps the account while the remaining intensity pays for it. */
  lemma RaiseStep(intensities: seq<real>, counts: seq<nat>, maxIntensityIndex: nat, remaining: real,
                  step: real, maxIntensity: real, i: nat, raised: seq<real>, left: real)
    requires RaisedUpTo(intensities, counts, maxIntensityIndex, remaining, step, maxIntensity, i, raised, left)
    requires maxIntensityIndex <= i < |raised|
    ensures var increase := Min(step, maxIntensity - raised[i]);
      RaisedUpTo(intensities, counts, maxIntensityIndex, remaining, step, maxIntensity, i + 1,
                 raised[i := raised[i] + increase], left - Weighted(counts[i], increase))
  {
    var increase := Min(step, maxIntensity - raised[i]);
    var raised' := raised[i := raised[i] + increase];
    RaiseAccount(counts, raised, i, increase, left);
    assert raised[i] == intensities[i];
    forall j | 0 <= j < |raised'| && !(maxIntensityIndex <= j < i + 1) ensures raised'[j] == intensities[j] {
      assert raised'[j] == raised[j];
    }
    forall j | maxIntensityIndex <= j < i + 1 && j < |raised'|
      ensures raised'[j] == intensities[j] + Min(step, maxIntensity - intensities[j])
    {
      if j < i {
        assert raised'[j] == raised[j];
      }
    }
  }

  /**
   * What a top-up promises: the account is kept, every intensity is bounded
   * as RaiseBounded says, and if something is left every iteration from
   * `maxIntensityIndex` on got its full raise.
   */
  ghost predicate ToppedUp(intensities: seq<real>, counts: seq<nat>, maxIntensityIndex: nat, remaining: real,
                           step: real, maxIntensity: real, raised: seq<real>, left: real) {
    && |counts| == |intensities| == |raised| && 0.0 <= left
    && Distributed(counts, raised) + left == Distributed(counts, intensities) + remaining
    && RaiseBounded(intensities, maxIntensityIndex, step, maxIntensity, raised)
    && (left > 0.0 ==> forall i :: maxIntensityIndex <= i < |raised| ==>
          raised[i] == intensities[i] + Min(step, maxIntensity - intensities[i]))
  }

  /** Raising every iteration in full, with something left, is a complete top-up. */
  lemma RaisedAll(intensities: seq<real>, counts: seq<nat>, maxIntensityIndex: nat, remaining: real,
                  step: PosReal, maxIntensity: real, i: nat, raised: seq<real>, left: real)
    requires RaisedUpTo(intensities, counts, maxIntensityIndex, remaining, step, maxIntensity, i, raised, left)
    requires |raised| <= i && 0.0 < left
    ensures ToppedUp(intensities, counts, maxIntensityIndex, remaining, step, maxIntensity, raised, left)
  {
    forall j | 0 <= j < |raised| && maxIntensityIndex <= j
      ensures raised[j] <= intensities[j] + step
      ensures raised[j] > intensities[j] ==> raised[j] <= maxIntensity
      ensures raised[j] < intensities[j] ==> raised[j] == maxIntensity
    {
      assert raised[j] == intensities[j] + Min(step, maxIntensity - intensities[j]);
    }
  }

  /** Sharing the rest over iteration `i` spends it, within the bound of a full raise. */
  lemma ShareStep(intensities: seq<real>, counts: seq<nat>, maxIntensityIndex: nat, remaining: real,
                  step: real, maxIntensity: real, i: nat, raised: seq<real>, left: real)
    requires RaisedUpTo(intensities, counts, maxIntensityIndex, remaining, step, maxIntensity, i, raised, left)
    requires maxIntensityIndex <= i < |raised| && 0.0 < left
    requires left <= Weighted(counts[i], Min(step, maxIntensity - raised[i]))
    ensures counts[i] > 0
    ensures ToppedUp(intensities, counts, maxIntensityIndex, remaining, step, maxIntensity,
                     raised[i := raised[i] + left / counts[i] as real], 0.0)
  {
    ShareOfCost(counts[i], Min(step, maxIntensity - raised[i]), left);
    ShareAccount(counts, raised, i, left);
    ShareBounded(intensities, maxIntensityIndex, step, maxIntensity, i, raised, left / counts[i] as real);
  }

  /** Sharing `left` over the tiles of iteration `i` adds exactly `left` to what is handed out. */
  lemma ShareAccount(counts: seq<nat>, raised: seq<real>, i: nat, left: real)
    requires |counts| == |raised| && i < |counts| && counts[i] > 0
    ensures Distributed(counts, raised[i := raised[i] + left / counts[i] as real]) == Distributed(counts, raised) + left
  {
    var count := counts[i] as real;
    DistributedRaise(counts, raised, i, left / count);
    assert count * (left / count) == left;
  }

  /** Sharing at most a full raise over the first iteration not raised in full keeps every intensity bounded. */
  lemma ShareBounded(intensities: seq<real>, maxIntensityIndex: nat, step: real, maxIntensity: real, i: nat,
                     raised: seq<real>, share: real)
    requires |raised| == |intensities| && maxIntensityIndex <= i < |raised|
    requires forall j :: 0 <= j < |raised| && !(maxIntensityIndex <= j < i) ==> raised[j] == intensities[j]
    requires forall j :: maxIntensityIndex <= j < i && j < |raised| ==>
      raised[j] == intensities[j] + Min(step, maxIntensity - intensities[j])
    requires 0.0 < share <= Min(step, maxIntensity - raised[i])
    ensures RaiseBounded(intensities, maxIntensityIndex, step, maxIntensity, raised[i := raised[i] + share])
  {
    var raised' := raised[i := raised[i] + share];
    assert raised[i] == intensities[i];
    ShareWithin(raised[i], share, step, maxIntensity);
    forall j | 0 <= j < |raised'|
      ensures raised'[j] <= intensities[j] + step
      ensures raised'[j] > intensities[j] ==> raised'[j] <= maxIntensity
      ensures raised'[j] < intensities[j] ==> raised'[j] == maxIntensity
    {
      if j != i {
        assert raised'[j] == raised[j];
      }
    }
  }

  /** Only a non-empty iteration costs something to raise, and its share of the cost is within the raise. */
  lemma ShareOfCost(n: nat, v: real, cost: real)
    requires 0.0 < cost <= Weighted(n, v)
    ensures n > 0 && 0.0 < cost / n as real <= v
  {
    WeightedProduct(n, v);
    ShareBound(cost, n as real, v);
  }

  /** A positive share within a full raise keeps an intensity within the step and maxIntensity. */
  lemma ShareWithin(intensity: real, share: real, step: real, maxIntensity: real)
    requires 0.0 < share <= Min(step, maxIntensity - intensity)
    ensures intensity < intensity + share <= intensity + step && intensity + share <= maxIntensity
  {
  }

  /**
   * The first half of a pass of the main loop: every iteration from
   * `maxIntensityIndex` on is raised by `min(step, maxIntensity - current)`
   * while the remaining intensity pays for it; the first one it cannot pay
   * for in full gets the rest, shared evenly over its tiles. An increase
   * below the step size moves the saturation index on. No raise takes an
   * intensity above maxIntensity, and the account is kept.
   */
  method TopUp(intensities: seq<real>, counts: seq<nat>, maxIntensityIndex: nat, remaining: real,
               step: PosReal, maxIntensity: real)
    returns (raised: seq<real>, left: real, saturated: nat)
    requires |counts| == |intensities|
    requires remaining > 0.0
    ensures ToppedUp(intensities, counts, maxIntensityIndex, remaining, step, maxIntensity, raised, left)
    ensures maxIntensityIndex <= saturated
    ensures maxIntensityIndex <= |intensities| ==> saturated <= |intensities|
  {
    var i;
    raised, left, saturated, i := RaiseInFull(intensities, counts, maxIntensityIndex, remaining, step, maxIntensity);
    if i < |intensities| {
      // not enough left for a full step: share the rest
      ShareStep(intensities, counts, maxIntensityIndex, remaining, step, maxIntensity, i, raised, left);
      raised := raised[i := raised[i] + left / counts[i] as real];
      left := 0.0;
    } else {
      RaisedAll(intensities, counts, maxIntensityIndex, remaining, step, maxIntensity, i, raised, left);
    }
  }

  /**
   * The loop of the top-up up to its break: the full raises, stopping at
   * the first iteration `stop` whose full raise costs at least what is left.
   */
  method RaiseInFull(intensities: seq<real>, counts: seq<nat>, maxIntensityIndex: nat, remaining: real,
                     step: PosReal, maxIntensity: real)
    returns (raised: seq<real>, left: real, saturated: nat, stop: nat)
    requires |counts| == |intensities|
    requires remaining > 0.0
    ensures RaisedUpTo(intensities, counts, maxIntensityIndex, remaining, step, maxIntensity, stop, raised, left)
    ensures 0.0 < left && maxIntensityIndex <= saturated <= stop
    ensures maxIntensityIndex <= |intensities| ==> stop <= |intensities|
    ensures stop < |intensities| ==> Weighted(counts[stop], Min(step, maxIntensity - raised[stop])) >= left
  {
    raised := intensities;
    left := remaining;
    saturated := maxIntensityIndex;
    stop := maxIntensityIndex;
    while stop < |intensities|
      invariant Raising(intensities, counts, maxIntensityIndex, remaining, step, maxIntensity, stop, raised, left,
                        saturated)
    {
      var increase := Min(step, maxIntensity - raised[stop]);
      var cost := TileCost(counts[stop], increase);
      if cost >= left {
        break;
      }
      RaisingStep(intensities, counts, maxIntensityIndex, remaining, step, maxIntensity, stop, raised, left,
                  saturated);
      raised := raised[stop := raised[stop] + increase];
      left := left - cost;
      if increase < step {
        saturated := saturated + 1;
      }
      stop := stop + 1;
    }
  }

  /** The state at the head of the RaiseInFull loop. */
  ghost predicate Raising(intensities: seq<real>, counts: seq<nat>, maxIntensityIndex: nat, remaining: real,
                          step: real, maxIntensity: real, stop: nat, raised: seq<real>, left: real, saturated: nat) {
    && maxIntensityIndex <= stop && (maxIntensityIndex <= |intensities| ==> stop <= |intensities|)
    && 0.0 < left && maxIntensityIndex <= saturated <= stop
    && RaisedUpTo(intensities, counts, maxIntensityIndex, remaining, step, maxIntensity, stop, raised, left)
  }

  /** A full raise of iteration `stop` that the remaining intensity pays for keeps the loop state. */
  lemma RaisingStep(intensities: seq<real>, counts: seq<nat>, maxIntensityIndex: nat, remaining: real,
                    step: real, maxIntensity: real, stop: nat, raised: seq<real>, left: real, saturated: nat)
    requires Raising(intensities, counts, maxIntensityIndex, remaining, step, maxIntensity, stop, raised, left,
                     saturated)
    requires stop < |intensities|
    requires Weighted(counts[stop], Min(step, maxIntensity - raised[stop])) < left
    ensures var increase := Min(step, maxIntensity - raised[stop]);
      Raising(intensities, counts, maxIntensityIndex, remaining, step, maxIntensity, stop + 1,
              raised[stop := raised[stop] + increase], left - Weighted(counts[stop], increase),
              if increase < step then saturated + 1 else saturated)
  {
    RaiseStep(intensities, counts, maxIntensityIndex, remaining, step, maxIntensity, stop, raised, left);
  }

  /** The delayed spreaders registered at iteration `i`. */
  function SpreadersOf(spreaderIteration: map<Tile, int>, i: int): set<Tile> {
    set t | t in spreaderIteration && spreaderIteration[t] == i
  }

  /**
   * The first step of the final pass: every delayed spreader is added to
   * the tile set of the iteration at which it was registered.
   */
  method CommitSpreaders(tileSets: seq<set<Tile>>, spreaderIteration: map<Tile, int>)
    returns (committed: seq<set<Tile>>)
    requires forall t :: t in spreaderIteration ==> 0 <= spreaderIteration[t] < |tileSets|
    ensures |committed| == |tileSets|
    ensures forall i :: 0 <= i < |committed| ==> committed[i] == tileSets[i] + SpreadersOf(spreaderIteration, i)
  {
    committed := tileSets;
    var rest := spreaderIteration.Keys;
    while rest != {}
      invariant rest <= spreaderIteration.Keys
      invariant CommittedBut(tileSets, spreaderIteration, rest, committed)
      decreases |rest|
    {
      var tile :| tile in rest;
      var index := spreaderIteration[tile];
      CommitStep(tileSets, spreaderIteration, rest, committed, tile);
      committed := committed[index := committed[index] + {tile}];
      rest := rest - {tile};
    }
    CommitDone(tileSets, spreaderIteration, committed);
  }

  /** With no spreader left, every set holds its own tiles and its iteration's spreaders. */
  lemma CommitDone(tileSets: seq<set<Tile>>, spreaderIteration: map<Tile, int>, committed: seq<set<Tile>>)
    requires CommittedBut(tileSets, spreaderIteration, {}, committed)
    ensures forall i :: 0 <= i < |committed| ==> committed[i] == tileSets[i] + SpreadersOf(spreaderIteration, i)
  {
    forall i | 0 <= i < |committed| ensures committed[i] == tileSets[i] + SpreadersOf(spreaderIteration, i) {
      forall t ensures t in committed[i] <==> t in tileSets[i] + SpreadersOf(spreaderIteration, i) {
        assert t in committed[i] <==> t in tileSets[i] || (t in SpreadersOf(spreaderIteration, i) && t !in {});
      }
    }
  }

  /** Every delayed spreader outside `rest` has been added to the set of its iteration. */
  ghost predicate CommittedBut(tileSets: seq<set<Tile>>, spreaderIteration: map<Tile, int>, rest: set<Tile>,
                               committed: seq<set<Tile>>) {
    |committed| == |tileSets| &&
    forall i, t {:trigger t in committed[i]} :: 0 <= i < |committed| ==>
      (t in committed[i] <==> t in tileSets[i] || (t in SpreadersOf(spreaderIteration, i) && t !in rest))
  }

  /** Adding one more spreader to its set keeps the commit invariant. */
  lemma CommitStep(tileSets: seq<set<Tile>>, spreaderIteration: map<Tile, int>, rest: set<Tile>,
                   committed: seq<set<Tile>>, tile: Tile)
    requires CommittedBut(tileSets, spreaderIteration, rest, committed)
    requires tile in rest && tile in spreaderIteration && 0 <= spreaderIteration[tile] < |committed|
    ensures var index := spreaderIteration[tile];
      CommittedBut(tileSets, spreaderIteration, rest - {tile}, committed[index := committed[index] + {tile}])
  {
    var index := spreaderIteration[tile];
    var committed' := committed[index := committed[index] + {tile}];
    assert tile in SpreadersOf(spreaderIteration, index);
    forall i, t | 0 <= i < |committed'|
      ensures t in committed'[i] <==> t in tileSets[i] || (t in SpreadersOf(spreaderIteration, i) && t !in rest - {tile})
    {
      assert t in committed[i] <==> t in tileSets[i] || (t in SpreadersOf(spreaderIteration, i) && t !in rest);
      if i != index {
        assert committed'[i] == committed[i];
        assert tile !in SpreadersOf(spreaderIteration, i);
      } else {
        assert committed'[i] == committed[i] + {tile};
      }
    }
  }

  /** `deduplicated[i]` holds exactly the tiles whose first set in `tileSets` is set `i`. */
  ghost predicate FirstOccurrences(tileSets: seq<set<Tile>>, deduplicated: seq<set<Tile>>) {
    |deduplicated| == |tileSets| &&
    forall i, t :: 0 <= i < |deduplicated| ==>
      (t in deduplicated[i] <==> t in tileSets[i] && forall j :: 0 <= j < i ==> t !in tileSets[j])
  }

  /**
   * The second step of the final pass: going up the iterations, each set
   * loses the tiles already processed, which are then joined by what is
   * left of it. A tile stays in exactly the first set that held it, and
   * Processed ends as the union of all sets.
   */
  method RemoveDuplicates(tileSets: seq<set<Tile>>) returns (deduplicated: seq<set<Tile>>, processed: set<Tile>)
    ensures FirstOccurrences(tileSets, deduplicated)
    ensures forall t :: t in processed <==> exists j :: 0 <= j < |tileSets| && t in tileSets[j]
  {
    deduplicated := tileSets;
    processed := {};
    var k := 0;
    while k < |tileSets|
      invariant 0 <= k <= |tileSets| && |deduplicated| == |tileSets|
      invariant forall t :: t in processed <==> exists j :: 0 <= j < k && t in tileSets[j]
      invariant forall i, t :: 0 <= i < k ==>
        (t in deduplicated[i] <==> t in tileSets[i] && forall j :: 0 <= j < i ==> t !in tileSets[j])
      invariant deduplicated[k..] == tileSets[k..]
    {
      assert deduplicated[k] == tileSets[k] by { assert deduplicated[k..][0] == tileSets[k..][0]; }
      deduplicated := deduplicated[k := deduplicated[k] - processed];
      processed := processed + deduplicated[k];
      k := k + 1;
    }
  }

  /** Keeping only first occurrences leaves no tile in two sets. */
  lemma FirstOccurrencesDisjoint(tileSets: seq<set<Tile>>, deduplicated: seq<set<Tile>>)
    requires FirstOccurrences(tileSets, deduplicated)
    ensures PairwiseDisjoint(deduplicated)
  {
    forall i, j | 0 <= i < j < |deduplicated|
      ensures deduplicated[i] !! deduplicated[j]
    {
      forall t | t in deduplicated[i] ensures t !in deduplicated[j] {
        assert t in tileSets[i];
      }
    }
  }

  /** A tile in some set has a first set. */
  lemma {:induction false} FirstIndex(tileSets: seq<set<Tile>>, t: Tile, i: nat)
    requires i < |tileSets| && t in tileSets[i]
    ensures exists k :: 0 <= k <= i && t in tileSets[k] && forall j :: 0 <= j < k ==> t !in tileSets[j]
    decreases i
  {
    if exists j :: 0 <= j < i && t in tileSets[j] {
      var j :| 0 <= j < i && t in tileSets[j];
      FirstIndex(tileSets, t, j);
    } else {
      assert t in tileSets[i] && forall j :: 0 <= j < i ==> t !in tileSets[j];
    }
  }

  /** Keeping only first occurrences loses no tile, and moves none to a later set. */
  lemma FirstOccurrencesUnion(tileSets: seq<set<Tile>>, deduplicated: seq<set<Tile>>)
    requires FirstOccurrences(tileSets, deduplicated)
    ensures forall i, t :: 0 <= i < |tileSets| && t in tileSets[i] ==>
      exists k :: 0 <= k <= i && t in deduplicated[k]
    ensures forall k, t :: 0 <= k < |deduplicated| && t in deduplicated[k] ==> t in tileSets[k]
  {
    forall i, t | 0 <= i < |tileSets| && t in tileSets[i]
      ensures exists k :: 0 <= k <= i && t in deduplicated[k]
    {
      FirstIndex(tileSets, t, i);
      var k :| 0 <= k <= i && t in tileSets[k] && forall j :: 0 <= j < k ==> t !in tileSets[j];
      assert t in deduplicated[k];
    }
  }

  /** The epicenter iteration alone, with intensity `v` on each of its `n` tiles. */
  lemma DistributedEpicenter(n: nat, v: real)
    ensures Distributed([0, n, 0], [0.0, v, 0.0]) == n as real * v
  {
    var c: seq<nat>, w: seq<real> := [0, n, 0], [0.0, v, 0.0];
    assert c[..2][..1][..0] == [] && w[..2][..1][..0] == [];
    assert Distributed(c[..2][..1], w[..2][..1]) == 0.0;
    assert c[..2][..1] == c[..1] && w[..2][..1] == w[..1];
    WeightedProduct(n, v);
    assert Distributed(c[..2], w[..2]) == n as real * v;
  }


  /**
   * What the final pass promises: no tile is lost or moved to a later set;
   * every delayed spreader sits in the set of its iteration or an earlier
   * one; nothing else is added; and the sets are pairwise disjoint.
   */
  ghost predicate Cleaned(before: seq<set<Tile>>, spreaderIteration: map<Tile, int>, after: seq<set<Tile>>) {
    && |after| == |before|
    && PairwiseDisjoint(after)
    && (forall i, t :: 0 <= i < |before| && t in before[i] ==> exists k :: 0 <= k <= i && t in after[k])
    && (forall t :: t in spreaderIteration ==>
          exists k :: 0 <= k <= spreaderIteration[t] && k < |after| && t in after[k])
    && (forall k, t :: 0 <= k < |after| && t in after[k] ==>
          t in before[k] || (t in spreaderIteration && spreaderIteration[t] == k))
  }

  /** Committing the spreaders and then keeping first occurrences is a clean-up. */
  lemma CleanupOf(before: seq<set<Tile>>, spreaderIteration: map<Tile, int>, committed: seq<set<Tile>>,
                  deduplicated: seq<set<Tile>>)
    requires 3 <= |before| && before[0] == {}
    requires forall t :: t in spreaderIteration ==> 3 <= spreaderIteration[t] < |before|
    requires |committed| == |before|
    requires forall i :: 0 <= i < |committed| ==> committed[i] == before[i] + SpreadersOf(spreaderIteration, i)
    requires FirstOccurrences(committed, deduplicated)
    ensures Cleaned(before, spreaderIteration, deduplicated)
    ensures deduplicated[0] == {} && deduplicated[1] == before[1]
  {
    FirstOccurrencesDisjoint(committed, deduplicated);
    FirstOccurrencesUnion(committed, deduplicated);
    forall t | t in spreaderIteration
      ensures exists k :: 0 <= k <= spreaderIteration[t] && k < |deduplicated| && t in deduplicated[k]
    {
      assert t in SpreadersOf(spreaderIteration, spreaderIteration[t]);
      assert t in committed[spreaderIteration[t]];
    }
    assert SpreadersOf(spreaderIteration, 0) == {} && SpreadersOf(spreaderIteration, 1) == {};
    assert committed[0] == {} && committed[1] == before[1];
    assert forall t :: t in deduplicated[1] <==> t in committed[1];
  }

  /**
   * The final pass of GetExplosionTiles: the delayed spreaders join the
   * set of their iteration, then every tile is kept only in the first set
   * that holds it, and Processed becomes the union of the sets.
   */
  method FinalPass(grid: ExplosionGridData)
    requires 3 <= |grid.tileSets| && grid.tileSets[0] == {}
    requires forall t :: t in grid.delayedSpreaderIteration ==>
      3 <= grid.delayedSpreaderIteration[t] < |grid.tileSets|
    modifies grid`tileSets, grid`processed
    ensures grid.delayedSpreaderIteration == old(grid.delayedSpreaderIteration)
    ensures grid.delayedNeighbors == old(grid.delayedNeighbors)
    ensures Cleaned(old(grid.tileSets), grid.delayedSpreaderIteration, grid.tileSets)
    ensures grid.tileSets[0] == {} && grid.tileSets[1] == old(grid.tileSets[1])
    ensures forall t :: t in grid.processed <==> exists k :: 0 <= k < |grid.tileSets| && t in grid.tileSets[k]
  {
    var committed := CommitSpreaders(grid.tileSets, grid.delayedSpreaderIteration);
    var deduplicated, processed := RemoveDuplicates(committed);
    CleanupOf(grid.tileSets, grid.delayedSpreaderIteration, committed, deduplicated);
    FirstOccurrencesUnion(committed, deduplicated);
    forall t | t in processed
      ensures exists k :: 0 <= k < |deduplicated| && t in deduplicated[k]
    {
      var j :| 0 <= j < |committed| && t in committed[j];
      assert exists k :: 0 <= k <= j && t in deduplicated[k];
    }
    grid.tileSets := deduplicated;
    grid.processed := processed;
  }


  /**
   * The new-tiles step of a pass, for the single grid: AddNewTiles appends
   * the set of this iteration, holding exactly the unblocked candidates it
   * handed over, none of them processed before. `registered` lists the
   * delayed spreaders it registers, each once, each entered through a
   * blocked side and not processed before: they are exactly the new keys of
   * the spreader iterations, recorded at this iteration, and they are
   * appended to the spreader lists under the iterations their blockers
   * clear. Processed gains exactly the cleared spreaders, the new set and
   * the registered spreaders that block every direction. Every blocked
   * neighbour of a tile two back with a destructible blocker is processed
   * or queued under the iteration the blocker clears. `logs` are the
   * candidates of the five generators, which make up the candidates handed
   * over in the source's order; each comes from its own generator's source,
   * and each generator's claims hold where its own run ends. The count is the
   * new delayed spreaders plus the new tiles that are not delayed spreaders.
   */
  method AdvanceGrid(grid: ExplosionGridData, iteration: nat)
    returns (newTileCount: nat, ghost registered: seq<Tile>, ghost logs: GeneratorLogs)
    requires 3 <= iteration == |grid.tileSets|
    requires forall t :: t in grid.delayedSpreaderIteration ==> 3 <= grid.delayedSpreaderIteration[t] < iteration
    modifies grid
    ensures |grid.tileSets| == iteration + 1 && grid.tileSets[..iteration] == old(grid.tileSets)
    ensures forall t :: t in grid.tileSets[iteration] ==>
      exists c :: c in grid.entered && !grid.EntryBlocked(c) && c.tile == t
    ensures forall c :: c in grid.entered && !grid.EntryBlocked(c) ==> c.tile in grid.tileSets[iteration]
    ensures old(grid.processed) + grid.tileSets[iteration] <= grid.processed
    ensures grid.tileSets[iteration] !! old(grid.processed)
    ensures grid.Sourced(grid.entered,
                         old(grid.processed) + Elements(SpreadersAt(old(grid.delayedSpreaders), iteration)),
                         iteration, old(grid.tileSets), old(grid.delayedSpreaders), old(grid.delayedNeighbors))
    ensures grid.ClaimedAround(iteration, old(grid.tileSets), old(grid.delayedSpreaders),
                               old(grid.delayedNeighbors), grid.processed, grid.delayedSpreaderIteration)
    ensures MapExtends(old(grid.delayedSpreaderIteration), grid.delayedSpreaderIteration)
    ensures forall t :: t in grid.delayedSpreaderIteration && t !in old(grid.delayedSpreaderIteration) ==>
      grid.delayedSpreaderIteration[t] == iteration
    ensures (grid.delayedSpreaderIteration.Keys - old(grid.delayedSpreaderIteration).Keys) !! old(grid.processed)
    ensures newTileCount == |(grid.delayedSpreaderIteration.Keys - old(grid.delayedSpreaderIteration).Keys)
                             + (grid.tileSets[iteration] - grid.delayedSpreaderIteration.Keys)|
    ensures forall t :: t in grid.delayedSpreaderIteration ==> 3 <= grid.delayedSpreaderIteration[t] <= iteration
    ensures grid.processed == old(grid.processed) + Elements(SpreadersAt(old(grid.delayedSpreaders), iteration))
                              + grid.tileSets[iteration] + grid.FullyBlockedOf(registered)
    ensures grid.delayedSpreaders == grid.AppendSpreaders(old(grid.delayedSpreaders), registered, iteration)
    ensures forall t :: t in grid.delayedSpreaderIteration && t !in old(grid.delayedSpreaderIteration) <==>
      t in registered
    ensures forall i, j :: 0 <= i < j < |registered| ==> registered[i] != registered[j]
    ensures forall t :: t in registered ==> exists c :: c in grid.entered && grid.EntryBlocked(c) && c.tile == t
    ensures grid.BlockersHandled(old(grid.tileSets)[iteration - 2], grid.delayedNeighbors, grid.processed,
                                 grid.delayedSpreaderIteration, iteration)
    ensures grid.entered == logs.Chained()
    ensures grid.GeneratorsInOrder(logs, Snapshot(old(grid.processed) +
                                                  Elements(SpreadersAt(old(grid.delayedSpreaders), iteration)),
                                                  {}, old(grid.delayedSpreaders), old(grid.delayedSpreaderIteration),
                                                  [], {}),
                                   iteration, old(grid.tileSets), old(grid.delayedSpreaders),
                                   old(grid.delayedNeighbors))
  {
    newTileCount, registered, logs := grid.AddNewTiles(iteration);
  }

  /**
   * What the budget loop keeps account of: the tile sets, the intensity
   * and the tile count of every iteration line up; the epicenter sits at
   * index 1 with index 0 empty; the counts times the intensities plus
   * what is left make up the total; every intensity lies between the
   * lower of 0 and maxIntensity and the higher of the step size and
   * maxIntensity; no new iteration was added once the counted tiles
   * reached MaxArea; and every delayed spreader belongs to an iteration
   * that has a set.
   */
  ghost predicate Accounted(tileSets: seq<set<Tile>>, spreaderIteration: map<Tile, int>, intensities: seq<real>,
                            counts: seq<nat>, remaining: real, initialTiles: set<Tile>, totalIntensity: real,
                            step: real, maxIntensity: real) {
    && 3 <= |tileSets| == |intensities| == |counts|
    && tileSets[0] == {} && tileSets[1] == initialTiles && counts[1] == |initialTiles|
    && 0.0 <= remaining && Distributed(counts, intensities) + remaining == totalIntensity
    && (forall i :: 0 <= i < |intensities| ==> Min(0.0, maxIntensity) <= intensities[i] <= Max(step, maxIntensity))
    && (|counts| > 3 ==> Sum(counts[3..|counts| - 1]) < MaxArea)
    && (forall t :: t in spreaderIteration ==> 3 <= spreaderIteration[t] < |tileSets|)
  }

  /**
   * The tile count of every iteration from 3 on is the one AddNewTiles
   * returned for it: the delayed spreaders registered at that iteration
   * plus the tiles of its set that are not delayed spreaders.
   */
  ghost predicate CountsMatch(tileSets: seq<set<Tile>>, spreaderIteration: map<Tile, int>, counts: seq<nat>) {
    forall k :: 3 <= k < |counts| && k < |tileSets| ==>
      counts[k] == |SpreadersOf(spreaderIteration, k) + (tileSets[k] - spreaderIteration.Keys)|
  }

  /** Every tile of every set so far is processed. */
  ghost predicate Covered(tileSets: seq<set<Tile>>, processed: set<Tile>) {
    forall k :: 0 <= k < |tileSets| ==> tileSets[k] <= processed
  }

  /**
   * A new iteration's count, as AddNewTiles returns it, extends the
   * matching counts: the new delayed spreaders are registered at the new
   * iteration and were not processed, so they lie in no earlier set and
   * leave the counts of the earlier iterations as they were.
   */
  lemma CountsAfterAdvance(tileSets: seq<set<Tile>>, spreaderIteration: map<Tile, int>, counts: seq<nat>,
                           processed: set<Tile>, tileSets': seq<set<Tile>>, spreaderIteration': map<Tile, int>,
                           processed': set<Tile>, newTileCount: nat)
    requires |counts| == |tileSets| && CountsMatch(tileSets, spreaderIteration, counts)
    requires Covered(tileSets, processed)
    requires forall t :: t in spreaderIteration ==> spreaderIteration[t] < |tileSets|
    requires |tileSets'| == |tileSets| + 1 && tileSets'[..|tileSets|] == tileSets
    requires MapExtends(spreaderIteration, spreaderIteration')
    requires forall t :: t in spreaderIteration' && t !in spreaderIteration ==> spreaderIteration'[t] == |tileSets|
    requires (spreaderIteration'.Keys - spreaderIteration.Keys) !! processed
    requires processed + tileSets'[|tileSets|] <= processed'
    requires newTileCount == |(spreaderIteration'.Keys - spreaderIteration.Keys)
                              + (tileSets'[|tileSets|] - spreaderIteration'.Keys)|
    ensures CountsMatch(tileSets', spreaderIteration', counts + [newTileCount])
    ensures Covered(tileSets', processed')
  {
    var n := |tileSets|;
    var counts' := counts + [newTileCount];
    forall k | 3 <= k < |counts'| && k < |tileSets'|
      ensures counts'[k] == |SpreadersOf(spreaderIteration', k) + (tileSets'[k] - spreaderIteration'.Keys)|
    {
      if k < n {
        assert tileSets'[k] == tileSets[k] && counts'[k] == counts[k];
        assert tileSets[k] <= processed;
        EarlierCountKept(tileSets[k], spreaderIteration, spreaderIteration', processed, k, n);
      } else {
        assert k == n && counts'[k] == newTileCount;
        NewSpreaders(spreaderIteration, spreaderIteration', n);
      }
    }
    CoveredAfterAdvance(tileSets, processed, tileSets', processed');
  }

  /** The new set is processed too, and the earlier ones stay so. */
  lemma CoveredAfterAdvance(tileSets: seq<set<Tile>>, processed: set<Tile>, tileSets': seq<set<Tile>>,
                            processed': set<Tile>)
    requires Covered(tileSets, processed)
    requires |tileSets'| == |tileSets| + 1 && tileSets'[..|tileSets|] == tileSets
    requires processed + tileSets'[|tileSets|] <= processed'
    ensures Covered(tileSets', processed')
  {
    forall k | 0 <= k < |tileSets'| ensures tileSets'[k] <= processed' {
      if k < |tileSets| {
        assert tileSets'[k] == tileSets[k];
      }
    }
  }

  /** An earlier set's count is not touched by spreaders that are registered later and were not processed. */
  lemma EarlierCountKept(tiles: set<Tile>, spreaderIteration: map<Tile, int>, spreaderIteration': map<Tile, int>,
                         processed: set<Tile>, k: int, n: int)
    requires tiles <= processed && k < n
    requires MapExtends(spreaderIteration, spreaderIteration')
    requires forall t :: t in spreaderIteration' && t !in spreaderIteration ==> spreaderIteration'[t] == n
    requires (spreaderIteration'.Keys - spreaderIteration.Keys) !! processed
    ensures SpreadersOf(spreaderIteration', k) + (tiles - spreaderIteration'.Keys)
         == SpreadersOf(spreaderIteration, k) + (tiles - spreaderIteration.Keys)
  {
  }

  /** The spreaders registered at the newest iteration are the new keys of the map. */
  lemma NewSpreaders(spreaderIteration: map<Tile, int>, spreaderIteration': map<Tile, int>, n: int)
    requires forall t :: t in spreaderIteration ==> spreaderIteration[t] < n
    requires MapExtends(spreaderIteration, spreaderIteration')
    requires forall t :: t in spreaderIteration' && t !in spreaderIteration ==> spreaderIteration'[t] == n
    ensures SpreadersOf(spreaderIteration', n) == spreaderIteration'.Keys - spreaderIteration.Keys
  {
  }

  /**
   * The state at the head of the main loop: accounted for, with one tile
   * set per iteration so far, the counted tiles below MaxArea and every
   * delayed spreader registered at an earlier iteration.
   */
  ghost predicate Spreading(tileSets: seq<set<Tile>>, spreaderIteration: map<Tile, int>, iteration: nat,
                            intensities: seq<real>, counts: seq<nat>, remaining: real, maxIntensityIndex: nat,
                            totalTiles: nat, initialTiles: set<Tile>, totalIntensity: real, step: real,
                            maxIntensity: real) {
    && Accounted(tileSets, spreaderIteration, intensities, counts, remaining, initialTiles, totalIntensity, step,
                 maxIntensity)
    && iteration == |tileSets| && maxIntensityIndex <= iteration
    && totalTiles == Sum(counts[3..]) < MaxArea
  }

  /** The prefix sum never exceeds the whole. */
  lemma SumPrefix(counts: seq<nat>)
    requires |counts| > 0
    ensures Sum(counts[..|counts| - 1]) <= Sum(counts)
  {
  }

  /** The state before the first pass: the epicenter at the step size, nothing counted yet. */
  lemma InitialSpreading(initialTiles: set<Tile>, totalIntensity: real, step: PosReal, maxIntensity: real)
    requires Weighted(|initialTiles|, step) <= totalIntensity
    ensures Spreading([{}, initialTiles, {}], map[], 3, [0.0, step as real, 0.0], [0, |initialTiles|, 0],
                      totalIntensity - Weighted(|initialTiles|, step), 1, 0, initialTiles, totalIntensity, step,
                      maxIntensity)
  {
    WeightedProduct(|initialTiles|, step);
    DistributedEpicenter(|initialTiles|, step);
    var counts: seq<nat> := [0, |initialTiles|, 0];
    assert counts[3..] == [];
  }

  /** A one-step explosion: the whole intensity shared over the epicenter tiles. */
  lemma SingleStepAccounted(initialTiles: set<Tile>, totalIntensity: real, step: PosReal, maxIntensity: real)
    requires 0.0 < totalIntensity < Weighted(|initialTiles|, step)
    ensures |initialTiles| > 0
    ensures Accounted([{}, initialTiles, {}], map[], [0.0, totalIntensity / |initialTiles| as real, 0.0],
                      [0, |initialTiles|, 0], 0.0, initialTiles, totalIntensity, step, maxIntensity)
  {
    WeightedProduct(|initialTiles|, step);
    ShareBound(totalIntensity, |initialTiles| as real, step);
    DistributedEpicenter(|initialTiles|, totalIntensity / |initialTiles| as real);
  }

  /** The top-up keeps the account: what it hands out the remaining intensity pays for. */
  lemma AfterTopUp(tileSets: seq<set<Tile>>, spreaderIteration: map<Tile, int>, iteration: nat,
                   intensities: seq<real>, counts: seq<nat>, remaining: real, maxIntensityIndex: nat,
                   totalTiles: nat, initialTiles: set<Tile>, totalIntensity: real, step: PosReal,
                   maxIntensity: real, raised: seq<real>, left: real, saturated: nat)
    requires Spreading(tileSets, spreaderIteration, iteration, intensities, counts, remaining, maxIntensityIndex,
                       totalTiles, initialTiles, totalIntensity, step, maxIntensity)
    requires ToppedUp(intensities, counts, maxIntensityIndex, remaining, step, maxIntensity, raised, left)
    requires saturated <= iteration
    ensures Spreading(tileSets, spreaderIteration, iteration, raised, counts, left, saturated, totalTiles,
                      initialTiles, totalIntensity, step, maxIntensity)
  {
    forall i | 0 <= i < |raised|
      ensures Min(0.0, maxIntensity) <= raised[i] <= Max(step, maxIntensity)
    {
      assert Min(0.0, maxIntensity) <= intensities[i] <= Max(step, maxIntensity);
    }
  }

  /** A new iteration whose tiles use up the rest: the rest is shared over them. */
  lemma AfterSharedTiles(tileSets: seq<set<Tile>>, spreaderIteration: map<Tile, int>, iteration: nat,
                         intensities: seq<real>, counts: seq<nat>, remaining: real, maxIntensityIndex: nat,
                         totalTiles: nat, initialTiles: set<Tile>, totalIntensity: real, step: PosReal,
                         maxIntensity: real, tileSets': seq<set<Tile>>, spreaderIteration': map<Tile, int>,
                         newTileCount: nat)
    requires Spreading(tileSets, spreaderIteration, iteration, intensities, counts, remaining, maxIntensityIndex,
                       totalTiles, initialTiles, totalIntensity, step, maxIntensity)
    requires |tileSets'| == iteration + 1 && tileSets'[..iteration] == tileSets
    requires forall t :: t in spreaderIteration' ==> 3 <= spreaderIteration'[t] <= iteration
    requires 0.0 < remaining <= Weighted(newTileCount, step)
    ensures newTileCount > 0
    ensures Accounted(tileSets', spreaderIteration', intensities + [remaining / newTileCount as real],
                      counts + [newTileCount], 0.0, initialTiles, totalIntensity, step, maxIntensity)
  {
    WeightedProduct(newTileCount, step);
    ShareBound(remaining, newTileCount as real, step);
    DistributedAppend(counts, intensities, newTileCount, remaining / newTileCount as real);
    var counts' := counts + [newTileCount];
    assert counts'[3..|counts'| - 1] == counts[3..];
    assert tileSets'[0] == tileSets[0] && tileSets'[1] == tileSets[1];
  }

  /** A new iteration at the step size on each of its tiles, paid from the remaining intensity. */
  lemma AfterNewTiles(tileSets: seq<set<Tile>>, spreaderIteration: map<Tile, int>, iteration: nat,
                      intensities: seq<real>, counts: seq<nat>, remaining: real, maxIntensityIndex: nat,
                      totalTiles: nat, initialTiles: set<Tile>, totalIntensity: real, step: PosReal,
                      maxIntensity: real, tileSets': seq<set<Tile>>, spreaderIteration': map<Tile, int>,
                      newTileCount: nat)
    requires Spreading(tileSets, spreaderIteration, iteration, intensities, counts, remaining, maxIntensityIndex,
                       totalTiles, initialTiles, totalIntensity, step, maxIntensity)
    requires |tileSets'| == iteration + 1 && tileSets'[..iteration] == tileSets
    requires forall t :: t in spreaderIteration' ==> 3 <= spreaderIteration'[t] <= iteration
    requires Weighted(newTileCount, step) < remaining
    ensures Accounted(tileSets', spreaderIteration', intensities + [step as real], counts + [newTileCount],
                      remaining - Weighted(newTileCount, step), initialTiles, totalIntensity, step, maxIntensity)
    ensures totalTiles + newTileCount == Sum((counts + [newTileCount])[3..])
    ensures totalTiles + newTileCount < MaxArea ==>
      Spreading(tileSets', spreaderIteration', iteration + 1, intensities + [step as real], counts + [newTileCount],
                remaining - Weighted(newTileCount, step), maxIntensityIndex, totalTiles + newTileCount,
                initialTiles, totalIntensity, step, maxIntensity)
  {
    WeightedProduct(newTileCount, step);
    DistributedAppend(counts, intensities, newTileCount, step);
    SumAppend(counts[3..], newTileCount);
    var counts' := counts + [newTileCount];
    assert counts'[3..] == counts[3..] + [newTileCount];
    assert counts'[3..|counts'| - 1] == counts[3..];
    assert tileSets'[0] == tileSets[0] && tileSets'[1] == tileSets[1];
    assert 0.0 <= newTileCount as real * step;
  }

  /**
   * How a pass of the main loop ends: it lets the loop go on, or it is one
   * of the source's `break`s (the top-up spent the rest, the new tiles got
   * the rest shared over them, the counted tiles reached MaxArea, or the
   * pass distributed nothing and no delayed neighbour is due next). The
   * loop itself also ends when its bound on the number of passes runs out,
   * and a one-step explosion never enters it.
   */
  datatype Outcome = Continue | Spent | Shared | Capped | Settled | OutOfFuel | SingleStep

  /**
   * The second half of a pass, once the top-up has left `remaining` over:
   * AddNewTiles adds an iteration; if its tiles cost at least what is left
   * they get the rest shared over them, otherwise each gets the step size;
   * then the MaxArea check and the early exit, in the source's order.
   * `added` is the count AddNewTiles returned.
   */
  method NewIteration(grid: ExplosionGridData, iteration: nat, intensities: seq<real>, tilesInIteration: seq<nat>,
                      remaining: real, maxIntensityIndex: nat, totalTiles: nat, previousIntensity: real,
                      ghost initialTiles: set<Tile>, ghost totalIntensity: real)
    returns (intensities': seq<real>, tilesInIteration': seq<nat>, remainingIntensity': real, totalTiles': nat,
             outcome: Outcome, ghost counts: seq<nat>, ghost left: real, ghost added: nat)
    requires remaining > 0.0
    requires Spreading(grid.tileSets, grid.delayedSpreaderIteration, iteration, intensities, tilesInIteration,
                       remaining, maxIntensityIndex, totalTiles, initialTiles, totalIntensity,
                       grid.intensityStepSize, grid.maxIntensity)
    requires Covered(grid.tileSets, grid.processed)
    requires CountsMatch(grid.tileSets, grid.delayedSpreaderIteration, tilesInIteration)
    modifies grid
    ensures outcome != Spent && outcome != OutOfFuel && outcome != SingleStep
    ensures |grid.tileSets| == iteration + 1 && counts == tilesInIteration + [added]
    ensures outcome == Shared <==> remaining <= Weighted(added, grid.intensityStepSize)
    ensures outcome == Shared ==>
      && added > 0 && left == 0.0 && tilesInIteration' == tilesInIteration
      && intensities' == intensities + [remaining / added as real]
    ensures outcome == Capped <==>
      Weighted(added, grid.intensityStepSize) < remaining && totalTiles + added >= MaxArea
    ensures outcome == Settled <==>
      && Weighted(added, grid.intensityStepSize) < remaining && totalTiles + added < MaxArea
      && remainingIntensity' == previousIntensity && iteration + 1 !in grid.delayedNeighbors
    ensures outcome == Continue <==>
      && Weighted(added, grid.intensityStepSize) < remaining && totalTiles + added < MaxArea
      && !(remainingIntensity' == previousIntensity && iteration + 1 !in grid.delayedNeighbors)
    ensures outcome != Shared ==>
      && remainingIntensity' == remaining - Weighted(added, grid.intensityStepSize) == left
      && intensities' == intensities + [grid.intensityStepSize as real]
      && tilesInIteration' == counts && totalTiles' == totalTiles + added == Sum(counts[3..])
    ensures outcome == Continue ==>
      && Spreading(grid.tileSets, grid.delayedSpreaderIteration, iteration + 1, intensities', tilesInIteration',
                   remainingIntensity', maxIntensityIndex, totalTiles', initialTiles, totalIntensity,
                   grid.intensityStepSize, grid.maxIntensity)
      && Covered(grid.tileSets, grid.processed)
    ensures Accounted(grid.tileSets, grid.delayedSpreaderIteration, intensities', counts, left, initialTiles,
                      totalIntensity, grid.intensityStepSize, grid.maxIntensity)
    ensures CountsMatch(grid.tileSets, grid.delayedSpreaderIteration, counts)
    ensures outcome != Continue ==>
      Ended(outcome, grid.tileSets, counts, left, previousIntensity, grid.delayedNeighbors.Keys, iteration - 2)
  {
    var step := grid.intensityStepSize;
    ghost var tileSets0, spreaderIteration0, processed0 :=
      grid.tileSets, grid.delayedSpreaderIteration, grid.processed;
    var newTileCount;
    ghost var registered, logs;
    newTileCount, registered, logs := AdvanceGrid(grid, iteration);
    added := newTileCount;
    CountsAfterAdvance(tileSets0, spreaderIteration0, tilesInIteration, processed0, grid.tileSets,
                       grid.delayedSpreaderIteration, grid.processed, newTileCount);
    counts := tilesInIteration + [newTileCount];

    // does adding these tiles bring us above the total target intensity?
    var newCost := TileCost(newTileCount, step);
    if newCost >= remaining {
      AfterSharedTiles(tileSets0, spreaderIteration0, iteration, intensities, tilesInIteration, remaining,
                       maxIntensityIndex, totalTiles, initialTiles, totalIntensity, step, grid.maxIntensity,
                       grid.tileSets, grid.delayedSpreaderIteration, newTileCount);
      intensities', tilesInIteration', remainingIntensity', totalTiles' :=
        intensities + [remaining / newTileCount as real], tilesInIteration, 0.0, totalTiles;
      left := 0.0;
      outcome := Shared;
      return;
    }

    AfterNewTiles(tileSets0, spreaderIteration0, iteration, intensities, tilesInIteration, remaining,
                  maxIntensityIndex, totalTiles, initialTiles, totalIntensity, step, grid.maxIntensity,
                  grid.tileSets, grid.delayedSpreaderIteration, newTileCount);
    remainingIntensity' := remaining - newCost;
    intensities' := intensities + [step as real];
    tilesInIteration' := tilesInIteration + [newTileCount];
    left := remainingIntensity';
    totalTiles' := totalTiles + newTileCount;
    if totalTiles' >= MaxArea {
      // the counted tiles reached the cap
      outcome := Capped;
    } else if remainingIntensity' == previousIntensity && iteration + 1 !in grid.delayedNeighbors {
      // nothing was distributed and nothing can open up: exit early
      outcome := Settled;
    } else {
      outcome := Continue;
    }
  }

  /**
   * One pass of the main loop of GetExplosionTiles: the top-up of the
   * earlier iterations, then, unless that spent everything, the new
   * iteration NewIteration adds. `toppedUp` is what the top-up left and
   * `added` the count AddNewTiles returned. `counts` and `left` are the
   * tile counts and the leftover that account for the returned
   * intensities; they differ from the returned tilesInIteration only when
   * the rest was shared over the new tiles, whose count the source does
   * not append.
   */
  method Pass(grid: ExplosionGridData, iteration: nat, intensities: seq<real>, tilesInIteration: seq<nat>,
              remainingIntensity: real, maxIntensityIndex: nat, totalTiles: nat,
              ghost initialTiles: set<Tile>, ghost totalIntensity: real)
    returns (intensities': seq<real>, tilesInIteration': seq<nat>, remainingIntensity': real,
             maxIntensityIndex': nat, totalTiles': nat, outcome: Outcome, ghost counts: seq<nat>, ghost left: real,
             ghost raised: seq<real>, ghost toppedUp: real, ghost added: nat)
    requires remainingIntensity > 0.0
    requires Spreading(grid.tileSets, grid.delayedSpreaderIteration, iteration, intensities, tilesInIteration,
                       remainingIntensity, maxIntensityIndex, totalTiles, initialTiles, totalIntensity,
                       grid.intensityStepSize, grid.maxIntensity)
    requires Covered(grid.tileSets, grid.processed)
    requires CountsMatch(grid.tileSets, grid.delayedSpreaderIteration, tilesInIteration)
    modifies grid
    ensures outcome != OutOfFuel && outcome != SingleStep
    ensures ToppedUp(intensities, tilesInIteration, maxIntensityIndex, remainingIntensity, grid.intensityStepSize,
                     grid.maxIntensity, raised, toppedUp)
    ensures outcome == Spent <==> toppedUp == 0.0
    ensures outcome == Spent ==>
      && unchanged(grid) && intensities' == raised && remainingIntensity' == 0.0
      && tilesInIteration' == counts == tilesInIteration && left == 0.0
    ensures outcome != Spent ==> |grid.tileSets| == iteration + 1 && counts == tilesInIteration + [added]
    ensures outcome == Shared <==> toppedUp > 0.0 && toppedUp <= Weighted(added, grid.intensityStepSize)
    ensures outcome == Shared ==>
      && added > 0 && left == 0.0 && tilesInIteration' == tilesInIteration
      && intensities' == raised + [toppedUp / added as real]
    ensures outcome == Capped <==>
      toppedUp > 0.0 && Weighted(added, grid.intensityStepSize) < toppedUp && totalTiles + added >= MaxArea
    ensures outcome == Settled <==>
      && toppedUp > 0.0 && Weighted(added, grid.intensityStepSize) < toppedUp && totalTiles + added < MaxArea
      && remainingIntensity' == remainingIntensity && iteration + 1 !in grid.delayedNeighbors
    ensures outcome == Continue <==>
      && toppedUp > 0.0 && Weighted(added, grid.intensityStepSize) < toppedUp && totalTiles + added < MaxArea
      && !(remainingIntensity' == remainingIntensity && iteration + 1 !in grid.delayedNeighbors)
    ensures outcome != Spent && outcome != Shared ==>
      && remainingIntensity' == toppedUp - Weighted(added, grid.intensityStepSize) == left
      && intensities' == raised + [grid.intensityStepSize as real]
      && tilesInIteration' == counts && totalTiles' == totalTiles + added == Sum(counts[3..])
    ensures outcome == Continue ==>
      && Spreading(grid.tileSets, grid.delayedSpreaderIteration, iteration + 1, intensities', tilesInIteration',
                   remainingIntensity', maxIntensityIndex', totalTiles', initialTiles, totalIntensity,
                   grid.intensityStepSize, grid.maxIntensity)
      && Covered(grid.tileSets, grid.processed)
    ensures Accounted(grid.tileSets, grid.delayedSpreaderIteration, intensities', counts, left, initialTiles,
                      totalIntensity, grid.intensityStepSize, grid.maxIntensity)
    ensures CountsMatch(grid.tileSets, grid.delayedSpreaderIteration, counts)
    ensures outcome != Continue ==>
      Ended(outcome, grid.tileSets, counts, left, remainingIntensity, grid.delayedNeighbors.Keys, iteration - 2)
  {
    var step := grid.intensityStepSize;
    var previousIntensity := remainingIntensity;

    // first, increase the intensity of previous iterations
    var lifted, rest;
    lifted, rest, maxIntensityIndex' :=
      TopUp(intensities, tilesInIteration, maxIntensityIndex, remainingIntensity, step, grid.maxIntensity);
    raised, toppedUp, added := lifted, rest, 0;
    AfterTopUp(grid.tileSets, grid.delayedSpreaderIteration, iteration, intensities, tilesInIteration,
               remainingIntensity, maxIntensityIndex, totalTiles, initialTiles, totalIntensity, step,
               grid.maxIntensity, lifted, rest, maxIntensityIndex');
    if rest == 0.0 {
      intensities', tilesInIteration', remainingIntensity', totalTiles' := lifted, tilesInIteration, 0.0, totalTiles;
      counts, left := tilesInIteration, 0.0;
      outcome := Spent;
      SpentEnded(grid.tileSets, counts, remainingIntensity, grid.delayedNeighbors.Keys);
      return;
    }

    // next, add a new iteration of tiles
    intensities', tilesInIteration', remainingIntensity', totalTiles', outcome, counts, left, added :=
      NewIteration(grid, iteration, lifted, tilesInIteration, rest, maxIntensityIndex', totalTiles,
                   previousIntensity, initialTiles, totalIntensity);
  }

  /**
   * Why the main loop ended, in terms of what it left behind: the
   * intensity was spent, or shared out over a new iteration (or, in a
   * one-step explosion, over the epicenter); the counted tiles reached MaxArea;
   * the last pass, which started with `previous` left, distributed
   * nothing and no delayed neighbour is due at the next iteration; or the
   * bound on the number of passes ran out with intensity still left and
   * the counted tiles below MaxArea. At most `fuel` passes ran.
   */
  ghost predicate Ended(outcome: Outcome, tileSets: seq<set<Tile>>, counts: seq<nat>, remaining: real,
                        previous: real, due: set<int>, fuel: nat) {
    && 3 <= |counts|
    && outcome != Continue
    && |tileSets| <= 3 + fuel
    && (outcome == Spent ==> remaining == 0.0)
    && (outcome == Shared ==> remaining == 0.0 && 3 < |tileSets|)
    && (outcome == SingleStep ==> remaining == 0.0 && |tileSets| == 3)
    && (outcome == Capped ==> 3 < |tileSets| && MaxArea <= Sum(counts[3..]))
    && (outcome == Settled ==>
          3 < |tileSets| && Sum(counts[3..]) < MaxArea && remaining == previous && |tileSets| !in due)
    && (outcome == OutOfFuel ==> |tileSets| == 3 + fuel && 0.0 < remaining && Sum(counts[3..]) < MaxArea)
  }

  /** A pass whose top-up spent the rest ends the loop within the passes that built its sets. */
  lemma SpentEnded(tileSets: seq<set<Tile>>, counts: seq<nat>, previous: real, due: set<int>)
    requires 3 <= |tileSets| == |counts|
    ensures Ended(Spent, tileSets, counts, 0.0, previous, due, |tileSets| - 3)
  {
  }

  /** A loop that ended within some number of passes ended within any larger number. */
  lemma EndedWithin(outcome: Outcome, tileSets: seq<set<Tile>>, counts: seq<nat>, remaining: real,
                    previous: real, due: set<int>, fuel: nat, fuel': nat)
    requires Ended(outcome, tileSets, counts, remaining, previous, due, fuel)
    requires outcome != OutOfFuel && fuel <= fuel'
    ensures Ended(outcome, tileSets, counts, remaining, previous, due, fuel')
  {
  }

  /**
   * The main loop of GetExplosionTiles: passes run, at most `fuel` of
   * them, while intensity is left and no pass has broken out. The
   * intensities, the counts and the remainder still account for the whole
   * total, the counts are the ones AddNewTiles returned, and `outcome`
   * says why the loop ended; `previous` is what was left when the last
   * pass began.
   */
  method RunPasses(grid: ExplosionGridData, intensities: seq<real>, tilesInIteration: seq<nat>,
                   remainingIntensity: real, ghost initialTiles: set<Tile>, ghost totalIntensity: real, fuel: nat)
    returns (intensities': seq<real>, outcome: Outcome, ghost counts: seq<nat>, ghost remaining: real,
             ghost previous: real)
    requires Spreading(grid.tileSets, grid.delayedSpreaderIteration, 3, intensities, tilesInIteration,
                       remainingIntensity, 1, 0, initialTiles, totalIntensity, grid.intensityStepSize,
                       grid.maxIntensity)
    requires Covered(grid.tileSets, grid.processed)
    requires CountsMatch(grid.tileSets, grid.delayedSpreaderIteration, tilesInIteration)
    modifies grid
    ensures Accounted(grid.tileSets, grid.delayedSpreaderIteration, intensities', counts, remaining, initialTiles,
                      totalIntensity, grid.intensityStepSize, grid.maxIntensity)
    ensures CountsMatch(grid.tileSets, grid.delayedSpreaderIteration, counts)
    ensures Ended(outcome, grid.tileSets, counts, remaining, previous, grid.delayedNeighbors.Keys, fuel)
    ensures outcome != SingleStep
  {
    var iteration := 3;
    var tiles, left, maxIntensityIndex, totalTiles := tilesInIteration, remainingIntensity, 1, 0;
    intensities', counts, remaining, previous := intensities, tilesInIteration, remainingIntensity, remainingIntensity;
    outcome := Continue;
    var passes: nat := fuel;
    while left > 0.0 && passes > 0
      invariant outcome == Continue && passes <= fuel && iteration == 3 + (fuel - passes)
      invariant Spreading(grid.tileSets, grid.delayedSpreaderIteration, iteration, intensities', tiles, left,
                          maxIntensityIndex, totalTiles, initialTiles, totalIntensity, grid.intensityStepSize,
                          grid.maxIntensity)
      invariant Covered(grid.tileSets, grid.processed)
      invariant CountsMatch(grid.tileSets, grid.delayedSpreaderIteration, tiles)
      invariant counts == tiles && remaining == left
      decreases passes
    {
      passes := passes - 1;
      previous := left;
      ghost var raised, toppedUp, added;
      intensities', tiles, left, maxIntensityIndex, totalTiles, outcome, counts, remaining, raised, toppedUp, added :=
        Pass(grid, iteration, intensities', tiles, left, maxIntensityIndex, totalTiles, initialTiles,
             totalIntensity);
      if outcome != Continue {
        EndedWithin(outcome, grid.tileSets, counts, remaining, previous, grid.delayedNeighbors.Keys, iteration - 2,
                    fuel);
        break;
      }
      iteration := iteration + 1;
    }
    if outcome == Continue {
      outcome := if left > 0.0 then OutOfFuel else Spent;
    }
  }

  /**
   * GetExplosionTiles. With no intensity or no slope there is no grid.
   * Otherwise the epicenter gets the step size (or, for a one-step
   * explosion, the whole intensity shared over its tiles), the main loop
   * runs its passes while intensity is left, and the final pass commits
   * the delayed spreaders and keeps each tile only in its first set.
   * `fuel` bounds the number of passes.
   *
   * `filled` is the tile sets as the main loop left them, before the
   * final pass; `counts` holds the tiles counted in each iteration and
   * `remaining` the intensity left over: together with the returned
   * intensities they account for the whole total. `outcome` says why the
   * main loop ended, or that a one-step explosion never entered it.
   */
  method GetExplosionTiles(gridId: GridId, airtightMaps: map<GridId, map<Tile, TileData>>,
                           initialTiles: set<Tile>, typeId: string, totalIntensity: real, slope: real,
                           maxIntensity: real, fuel: nat)
    returns (gridData: seq<ExplosionGridData>, iterationIntensity: seq<real>, outcome: Outcome,
             ghost counts: seq<nat>, ghost remaining: real, ghost filled: seq<set<Tile>>, ghost previous: real)
    ensures gridData == [] <==> totalIntensity <= 0.0 || slope <= 0.0
    ensures gridData == [] ==> iterationIntensity == []
    ensures |gridData| <= 1
    ensures gridData != [] ==>
      var grid := gridData[0];
      && fresh(grid)
      && grid.gridId == gridId && grid.typeId == typeId && grid.maxIntensity == maxIntensity
      && grid.intensityStepSize == slope / 2.0
      && grid.airtightMap == (if gridId in airtightMaps then airtightMaps[gridId] else map[])
      && Accounted(filled, grid.delayedSpreaderIteration, iterationIntensity, counts, remaining, initialTiles,
                   totalIntensity, slope / 2.0, maxIntensity)
      && CountsMatch(filled, grid.delayedSpreaderIteration, counts)
      && Ended(outcome, filled, counts, remaining, previous, grid.delayedNeighbors.Keys, fuel)
      && (totalIntensity < Weighted(|initialTiles|, slope / 2.0) <==> outcome == SingleStep)
      && (totalIntensity < Weighted(|initialTiles|, slope / 2.0) ==>
            |initialTiles| > 0 && iterationIntensity == [0.0, totalIntensity / |initialTiles| as real, 0.0])
      && PairwiseDisjoint(grid.tileSets)
      && Cleaned(filled, grid.delayedSpreaderIteration, grid.tileSets)
  {
    gridData := [];
    iterationIntensity := [];
    outcome := Spent;
    counts := [];
    remaining := totalIntensity;
    filled := [];
    previous := totalIntensity;
    if totalIntensity <= 0.0 || slope <= 0.0 {
      return;
    }
    var intensityStepSize: PosReal := slope / 2.0;
    var airtightMap := if gridId in airtightMaps then airtightMaps[gridId] else map[];
    var initialGrid := new ExplosionGridData(gridId, airtightMap, maxIntensity, intensityStepSize, typeId);
    gridData := [initialGrid];
    initialGrid.tileSets := [{}, initialTiles, {}];
    var iteration := 3;

    // is this even a multi-tile explosion?
    var epicenterCost := TileCost(|initialTiles|, intensityStepSize);
    if totalIntensity < epicenterCost {
      SingleStepAccounted(initialTiles, totalIntensity, intensityStepSize, maxIntensity);
      iterationIntensity := [0.0, totalIntensity / |initialTiles| as real, 0.0];
      outcome := SingleStep;
      counts := [0, |initialTiles|, 0];
      remaining := 0.0;
      filled := initialGrid.tileSets;
      assert Cleaned(filled, initialGrid.delayedSpreaderIteration, initialGrid.tileSets);
      return;
    }

    iterationIntensity, outcome, counts, remaining, filled, previous :=
      Spread(initialGrid, initialTiles, totalIntensity, epicenterCost, fuel);
  }

  /**
   * The multi-tile part of GetExplosionTiles, on the fresh grid holding
   * only the epicenter: the epicenter is processed and gets the step size,
   * the main loop runs, and the final pass cleans up.
   */
  method Spread(grid: ExplosionGridData, initialTiles: set<Tile>, totalIntensity: real, epicenterCost: real,
                fuel: nat)
    returns (iterationIntensity: seq<real>, outcome: Outcome, ghost counts: seq<nat>, ghost remaining: real,
             ghost filled: seq<set<Tile>>, ghost previous: real)
    requires grid.tileSets == [{}, initialTiles, {}] && grid.delayedSpreaderIteration == map[]
    requires epicenterCost == Weighted(|initialTiles|, grid.intensityStepSize) <= totalIntensity
    modifies grid
    ensures Accounted(filled, grid.delayedSpreaderIteration, iterationIntensity, counts, remaining, initialTiles,
                      totalIntensity, grid.intensityStepSize, grid.maxIntensity)
    ensures CountsMatch(filled, grid.delayedSpreaderIteration, counts)
    ensures Ended(outcome, filled, counts, remaining, previous, grid.delayedNeighbors.Keys, fuel)
    ensures outcome != SingleStep
    ensures PairwiseDisjoint(grid.tileSets)
    ensures Cleaned(filled, grid.delayedSpreaderIteration, grid.tileSets)
  {
    grid.processed := initialTiles;
    var tilesInIteration: seq<nat> := [0, |initialTiles|, 0];
    iterationIntensity := [0.0, grid.intensityStepSize as real, 0.0];
    var remainingIntensity := totalIntensity - epicenterCost;
    InitialSpreading(initialTiles, totalIntensity, grid.intensityStepSize, grid.maxIntensity);
    iterationIntensity, outcome, counts, remaining, previous :=
      RunPasses(grid, iterationIntensity, tilesInIteration, remainingIntensity, initialTiles, totalIntensity, fuel);
    filled := grid.tileSets;
    FinalPass(grid);
  }

}
