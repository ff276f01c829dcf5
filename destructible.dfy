/**
 * DestructibleSystem.DestroyedAt: the smallest total damage at which some
 * threshold destroys or breaks an entity.
 */
module Destructible {
  import opened Wrappers
  import opened Tiles

  newtype int32 = x: int | -0x8000_0000 <= x < 0x8000_0000

  /** The ThresholdActs flags that DestroyedAt looks at, and the rest. */
  datatype Act = Breakage | Destruction | OtherAct

  /** A threshold trigger: only a DamageTrigger carries a damage amount. */
  datatype Trigger = DamageTrigger(damage: int32) | OtherTrigger

  /** A threshold behaviour: only a DoActsBehavior carries acts. */
  datatype Behavior = DoActsBehavior(acts: set<Act>) | OtherBehavior

  datatype DamageThreshold = DamageThreshold(trigger: Trigger, behaviors: seq<Behavior>)

  datatype DestructibleComponent = DestructibleComponent(thresholds: seq<DamageThreshold>)

  /** `ThresholdActs.Destruction | ThresholdActs.Breakage`. */
  const DestroyingActs: set<Act> := {Destruction, Breakage}

  /** `DoActsBehavior.HasAct(mask)`: the behaviour performs at least one act of the mask. */
  predicate HasAct(b: Behavior, mask: set<Act>) {
    b.DoActsBehavior? && b.acts * mask != {}
  }

  /** A threshold that counts: a damage trigger with a destroying or breaking behaviour. */
  predicate Destroys(th: DamageThreshold) {
    th.trigger.DamageTrigger? && exists j :: 0 <= j < |th.behaviors| && HasAct(th.behaviors[j], DestroyingActs)
  }

  function Min(a: real, b: real): (m: real)
    ensures m <= a && m <= b && (m == a || m == b)
  {
    if a <= b then a else b
  }

  /** The damage a threshold contributes: its trigger damage if it counts, the sentinel otherwise. */
  function ThresholdDamage(th: DamageThreshold): real {
    if Destroys(th) then th.trigger.damage as real else FloatMax
  }

  /** The reference minimum over a sequence of thresholds, starting from float.MaxValue. */
  function MinDamage(ths: seq<DamageThreshold>): real
    decreases |ths|
  {
    if ths == [] then FloatMax else Min(MinDamage(ths[..|ths| - 1]), ThresholdDamage(ths[|ths| - 1]))
  }

  /** The minimum is a lower bound of every counting threshold's damage and of the sentinel. */
  lemma {:induction false} MinDamageIsLowerBound(ths: seq<DamageThreshold>)
    ensures MinDamage(ths) <= FloatMax
    ensures forall i :: 0 <= i < |ths| && Destroys(ths[i]) ==> MinDamage(ths) <= ths[i].trigger.damage as real
    decreases |ths|
  {
    if ths != [] {
      var init := ths[..|ths| - 1];
      MinDamageIsLowerBound(init);
      forall i | 0 <= i < |ths| && Destroys(ths[i])
        ensures MinDamage(ths) <= ths[i].trigger.damage as real
      {
        if i < |ths| - 1 {
          assert init[i] == ths[i];
        }
      }
    }
  }

  /** The minimum is attained: it is the sentinel only when no threshold counts, else some counting damage. */
  lemma {:induction false} MinDamageIsAttained(ths: seq<DamageThreshold>)
    ensures (forall i :: 0 <= i < |ths| ==> !Destroys(ths[i])) ==> MinDamage(ths) == FloatMax
    ensures (exists i :: 0 <= i < |ths| && Destroys(ths[i])) ==>
      exists i :: 0 <= i < |ths| && Destroys(ths[i]) && MinDamage(ths) == ths[i].trigger.damage as real
    decreases |ths|
  {
    if ths != [] {
      var n := |ths| - 1;
      var init := ths[..n];
      MinDamageIsAttained(init);
      MinDamageIsLowerBound(init);
      if forall i :: 0 <= i < |ths| ==> !Destroys(ths[i]) {
        assert forall i :: 0 <= i < |init| ==> !Destroys(init[i]) by {
          forall i | 0 <= i < |init| ensures !Destroys(init[i]) { assert init[i] == ths[i]; }
        }
      } else {
        if !(Destroys(ths[n]) && MinDamage(ths) == ThresholdDamage(ths[n])) {
          var k :| 0 <= k < |ths| && Destroys(ths[k]);
          if k < n {
            assert init[k] == ths[k];
          }
          var i :| 0 <= i < |init| && Destroys(init[i]) && MinDamage(init) == init[i].trigger.damage as real;
          assert ths[i] == init[i];
        }
      }
    }
  }

  /**
   * DestroyedAt: None stands for the NaN returned when no component can be
   * resolved; otherwise the minimum over the counting thresholds, or the
   * float.MaxValue sentinel when none counts.
   */
  method DestroyedAt(destructible: Option<DestructibleComponent>) returns (r: Option<real>)
    ensures r.None? <==> destructible.None?
    ensures r.Some? ==> r.value == MinDamage(destructible.value.thresholds)
    ensures r.Some? ==> r.value <= FloatMax
    ensures r.Some? ==> (forall i :: 0 <= i < |destructible.value.thresholds| && Destroys(destructible.value.thresholds[i])
                           ==> r.value <= destructible.value.thresholds[i].trigger.damage as real)
    ensures r.Some? && (forall i :: 0 <= i < |destructible.value.thresholds| ==> !Destroys(destructible.value.thresholds[i]))
      ==> r.value == FloatMax
    ensures r.Some? && (exists i :: 0 <= i < |destructible.value.thresholds| && Destroys(destructible.value.thresholds[i]))
      ==> exists i :: 0 <= i < |destructible.value.thresholds| && Destroys(destructible.value.thresholds[i])
            && r.value == destructible.value.thresholds[i].trigger.damage as real
  {
    if destructible.None? {
      return None;
    }
    var ths := destructible.value.thresholds;
    var damageNeeded := FloatMax;
    var i := 0;
    while i < |ths|
      invariant 0 <= i <= |ths|
      invariant damageNeeded == MinDamage(ths[..i])
    {
      assert ths[..i + 1][..i] == ths[..i];
      var threshold := ths[i];
      i := i + 1;
      if !threshold.trigger.DamageTrigger? {
        continue;
      }
      var trigger := threshold.trigger;
      var before := damageNeeded;
      var k := 0;
      while k < |threshold.behaviors|
        invariant 0 <= k <= |threshold.behaviors|
        invariant (exists j :: 0 <= j < k && HasAct(threshold.behaviors[j], DestroyingActs))
          ==> damageNeeded == Min(before, trigger.damage as real)
        invariant (forall j :: 0 <= j < k ==> !HasAct(threshold.behaviors[j], DestroyingActs))
          ==> damageNeeded == before
      {
        var behavior := threshold.behaviors[k];
        if behavior.DoActsBehavior? && HasAct(behavior, DestroyingActs) {
          damageNeeded := Min(damageNeeded, trigger.damage as real);
        }
        k := k + 1;
      }
    }
    assert ths[..i] == ths;
    MinDamageIsLowerBound(ths);
    MinDamageIsAttained(ths);
    r := Some(damageNeeded);
  }
}
