/**
 * AtmosphereSystem.GetAirtightData: the airtight summary of one tile, folded
 * over the entities anchored to it.
 */
module AtmosUtils {
  import opened Wrappers
  import opened Tiles

  /** The fields of an airtight component that the fold reads. */
  datatype AirtightComponent = AirtightComponent(
    airBlocked: bool,
    airBlockedDirection: Dirs,
    noAirWhenFullyAirBlocked: bool,
    fixVacuum: bool)

  /** An anchored entity, with its airtight component if it has one. */
  datatype AnchoredEntity = AnchoredEntity(airtight: Option<AirtightComponent>)

  /** The (Blocked, NoAir, FixVacuum) triple that GetAirtightData returns. */
  datatype AirtightData = AirtightData(blocked: Dirs, noAir: bool, fixVacuum: bool)

  /** The value the accumulators start from: (Invalid, false, false). */
  const NoAirtight := AirtightData({}, false, false)

  /** An entity takes part in the fold only if it is airtight and currently blocks air. */
  predicate Contributes(e: AnchoredEntity) {
    e.airtight.Some? && e.airtight.value.airBlocked
  }

  predicate BlocksDirection(e: AnchoredEntity, d: Cardinal) {
    Contributes(e) && d in e.airtight.value.airBlockedDirection
  }

  predicate DemandsNoAir(e: AnchoredEntity) {
    Contributes(e) && e.airtight.value.noAirWhenFullyAirBlocked
  }

  predicate DemandsFixVacuum(e: AnchoredEntity) {
    Contributes(e) && e.airtight.value.fixVacuum
  }

  /** One step of the fold: OR the entity's fields into the accumulators. */
  function Accumulate(acc: AirtightData, e: AnchoredEntity): (r: AirtightData)
    ensures acc.blocked <= r.blocked
    ensures acc.noAir ==> r.noAir
    ensures acc.fixVacuum ==> r.fixVacuum
  {
    if Contributes(e) then
      var a := e.airtight.value;
      AirtightData(acc.blocked + a.airBlockedDirection, acc.noAir || a.noAirWhenFullyAirBlocked,
                   acc.fixVacuum || a.fixVacuum)
    else
      acc
  }

  /** The fold over the whole sequence, without the early exit. */
  function FoldFrom(acc: AirtightData, ents: seq<AnchoredEntity>): AirtightData
    decreases |ents|
  {
    if ents == [] then acc else FoldFrom(Accumulate(acc, ents[0]), ents[1..])
  }

  function FullFold(ents: seq<AnchoredEntity>): AirtightData {
    FoldFrom(NoAirtight, ents)
  }

  /** All three accumulators have reached their maximum. */
  predicate Saturated(acc: AirtightData) {
    acc.blocked == AllDirs && acc.noAir && acc.fixVacuum
  }

  /** Once saturated, the rest of the fold changes nothing: the early break is sound. */
  lemma {:induction false} SaturatedFoldIsIdentity(acc: AirtightData, ents: seq<AnchoredEntity>)
    requires Saturated(acc)
    ensures FoldFrom(acc, ents) == acc
    decreases |ents|
  {
    if ents != [] {
      var next := Accumulate(acc, ents[0]);
      AllDirsComplete();
      assert next.blocked == AllDirs;
      SaturatedFoldIsIdentity(next, ents[1..]);
    }
  }

  /** Every accumulator only grows along the fold. */
  lemma {:induction false} FoldGrows(acc: AirtightData, ents: seq<AnchoredEntity>)
    ensures acc.blocked <= FoldFrom(acc, ents).blocked
    ensures acc.noAir ==> FoldFrom(acc, ents).noAir
    ensures acc.fixVacuum ==> FoldFrom(acc, ents).fixVacuum
    decreases |ents|
  {
    if ents != [] {
      FoldGrows(Accumulate(acc, ents[0]), ents[1..]);
    }
  }

  /**
   * The fold is the bitwise OR over the contributing entities: a direction is
   * blocked, and a flag is set, exactly when some contributing entity says so.
   */
  lemma {:induction false} FoldCharacterization(acc: AirtightData, ents: seq<AnchoredEntity>)
    ensures forall d: Cardinal :: d in FoldFrom(acc, ents).blocked <==>
      (d in acc.blocked || exists i :: 0 <= i < |ents| && BlocksDirection(ents[i], d))
    ensures FoldFrom(acc, ents).noAir <==> (acc.noAir || exists i :: 0 <= i < |ents| && DemandsNoAir(ents[i]))
    ensures FoldFrom(acc, ents).fixVacuum <==>
      (acc.fixVacuum || exists i :: 0 <= i < |ents| && DemandsFixVacuum(ents[i]))
    decreases |ents|
  {
    if ents != [] {
      var next := Accumulate(acc, ents[0]);
      FoldCharacterization(next, ents[1..]);
      forall d: Cardinal
        ensures (exists i :: 0 <= i < |ents| && BlocksDirection(ents[i], d)) <==>
          (BlocksDirection(ents[0], d) || exists i :: 0 <= i < |ents[1..]| && BlocksDirection(ents[1..][i], d))
      {
        if i :| 0 <= i < |ents| && BlocksDirection(ents[i], d) {
          if i > 0 { assert BlocksDirection(ents[1..][i - 1], d); }
        }
        if i :| 0 <= i < |ents[1..]| && BlocksDirection(ents[1..][i], d) {
          assert BlocksDirection(ents[i + 1], d);
        }
      }
      if i :| 0 <= i < |ents| && DemandsNoAir(ents[i]) {
        if i > 0 { assert DemandsNoAir(ents[1..][i - 1]); }
      }
      if i :| 0 <= i < |ents[1..]| && DemandsNoAir(ents[1..][i]) {
        assert DemandsNoAir(ents[i + 1]);
      }
      if i :| 0 <= i < |ents| && DemandsFixVacuum(ents[i]) {
        if i > 0 { assert DemandsFixVacuum(ents[1..][i - 1]); }
      }
      if i :| 0 <= i < |ents[1..]| && DemandsFixVacuum(ents[1..][i]) {
        assert DemandsFixVacuum(ents[i + 1]);
      }
    }
  }

  /**
   * GetAirtightData over the anchored entities of a tile, in enumeration
   * order, breaking out once everything is saturated.
   */
  method GetAirtightData(anchored: seq<AnchoredEntity>) returns (r: AirtightData)
    ensures r == FullFold(anchored)
    ensures forall d: Cardinal :: d in r.blocked <==> exists i :: 0 <= i < |anchored| && BlocksDirection(anchored[i], d)
    ensures r.noAir <==> exists i :: 0 <= i < |anchored| && DemandsNoAir(anchored[i])
    ensures r.fixVacuum <==> exists i :: 0 <= i < |anchored| && DemandsFixVacuum(anchored[i])
    ensures (forall i :: 0 <= i < |anchored| ==> !Contributes(anchored[i])) ==> r == NoAirtight
  {
    var directions: Dirs := {};
    var noAir := false;
    var fixVacuum := false;
    var i := 0;
    while i < |anchored|
      invariant 0 <= i <= |anchored|
      invariant FoldFrom(AirtightData(directions, noAir, fixVacuum), anchored[i..]) == FullFold(anchored)
    {
      assert anchored[i..] == [anchored[i]] + anchored[i + 1..];
      var ent := anchored[i];
      i := i + 1;
      if ent.airtight.None? {
        continue;
      }
      var airtight := ent.airtight.value;
      if !airtight.airBlocked {
        continue;
      }
      directions := directions + airtight.airBlockedDirection;
      noAir := noAir || airtight.noAirWhenFullyAirBlocked;
      fixVacuum := fixVacuum || airtight.fixVacuum;
      if directions == AllDirs && noAir && fixVacuum {
        SaturatedFoldIsIdentity(AirtightData(directions, noAir, fixVacuum), anchored[i..]);
        break;
      }
    }
    r := AirtightData(directions, noAir, fixVacuum);
    if i == |anchored| {
      assert anchored[i..] == [];
    }
    FoldCharacterization(NoAirtight, anchored);
    if forall j :: 0 <= j < |anchored| ==> !Contributes(anchored[j]) {
      assert forall d: Cardinal :: d !in r.blocked;
      assert r.blocked == {};
    }
  }
}
