/** Warm-up and cool-down of a delegated stake (program/src/stake.rs): how much of it is effective
    at an epoch, given the cluster's stake history. */
module Delegations {
  import opened Basics

  datatype ClusterStake = ClusterStake(effective: u64, activating: u64, deactivating: u64)

  type History = map<u64, ClusterStake>

  datatype Delegation = Delegation(stake: u64, activationEpoch: u64, deactivationEpoch: u64) {
    /** The epoch of a bootstrap stake is the largest one. */
    predicate IsBootstrap() {
      activationEpoch == U64_RANGE - 1
    }
  }

  /** The rounded floating-point product, cut to 64 bits, as any function of the own stake, the cluster
      stake it competes with, and the cluster's effective stake. */
  type Share = (u64, u64, u64) -> u64

  datatype Status = Status(effective: u64, activating: u64, deactivating: u64)

  /** The stake that changes state in one epoch: at least one lamport. */
  function Newly(share: Share, own: u64, competing: u64, clusterEffective: u64): u64 {
    var portion := share(own, competing, clusterEffective);
    if portion < 1 then 1 else portion
  }

  /** The effective stake after warming up from epoch `prev`, where it was `effective`. The addition is
      unchecked. */
  function WarmUp(d: Delegation, target: u64, history: History, share: Share, prev: u64, effective: u64): (r: u64)
    requires prev in history && prev < target && effective <= d.stake
    ensures r <= d.stake
    decreases target - prev
  {
    var cluster := history[prev];
    if cluster.activating == 0 then effective
    else
      var raised := WrapAdd(effective, Newly(share, d.stake - effective, cluster.activating, cluster.effective));
      if raised >= d.stake then d.stake
      else if prev + 1 >= target || prev + 1 >= d.deactivationEpoch || prev + 1 !in history then raised
      else WarmUp(d, target, history, share, prev + 1, raised)
  }

  /** The additions on the way from epoch `prev` stay below 2^64. */
  predicate WarmUpFits(d: Delegation, target: u64, history: History, share: Share, prev: u64, effective: u64)
    requires prev in history && prev < target && effective <= d.stake
    decreases target - prev
  {
    var cluster := history[prev];
    cluster.activating == 0 ||
    (var raised := effective + Newly(share, d.stake - effective, cluster.activating, cluster.effective);
     && raised < U64_RANGE
     && (raised >= d.stake || prev + 1 >= target || prev + 1 >= d.deactivationEpoch || prev + 1 !in history
         || WarmUpFits(d, target, history, share, prev + 1, raised)))
  }

  /** The effective stake after cooling down from epoch `prev`, where it was `effective`. */
  function CoolDown(target: u64, history: History, share: Share, prev: u64, effective: u64): (r: u64)
    requires prev in history && prev < target
    ensures r <= effective
    decreases target - prev
  {
    var cluster := history[prev];
    if cluster.deactivating == 0 then effective
    else
      var newly := Newly(share, effective, cluster.deactivating, cluster.effective);
      if effective <= newly then 0
      else if prev + 1 >= target || prev + 1 !in history then effective - newly
      else CoolDown(target, history, share, prev + 1, effective - newly)
  }

  /** The effective and activating stake before any deactivation. */
  function Activation(d: Delegation, target: u64, history: Option<History>, fix: bool, share: Share): Status {
    if d.IsBootstrap() then Status(d.stake, 0, 0)
    else if fix && d.activationEpoch == d.deactivationEpoch then Status(0, 0, 0)
    else if target == d.activationEpoch then Status(0, d.stake, 0)
    else if target < d.activationEpoch then Status(0, 0, 0)
    else if history.Some? && d.activationEpoch in history.value then
      var effective := WarmUp(d, target, history.value, share, d.activationEpoch, 0);
      Status(effective, d.stake - effective, 0)
    else Status(d.stake, 0, 0)
  }

  /** The effective, activating and deactivating stake at an epoch. */
  function StatusAt(d: Delegation, target: u64, history: Option<History>, fix: bool, share: Share): Status {
    var a := Activation(d, target, history, fix, share);
    if target < d.deactivationEpoch then a
    else if target == d.deactivationEpoch then Status(a.effective, 0, Min(a.effective, d.stake))
    else if history.Some? && d.deactivationEpoch in history.value then
      var left := CoolDown(target, history.value, share, d.deactivationEpoch, a.effective);
      Status(left, 0, left)
    else Status(0, 0, 0)
  }

  // ---------- the two loops ----------

  method StakeAndActivating(d: Delegation, target: u64, history: Option<History>, fix: bool, share: Share)
    returns (effective: u64, activating: u64)
    ensures Status(effective, activating, 0) == Activation(d, target, history, fix, share)
  {
    if d.IsBootstrap() {
      return d.stake, 0;
    } else if fix && d.activationEpoch == d.deactivationEpoch {
      return 0, 0;
    } else if target == d.activationEpoch {
      return 0, d.stake;
    } else if target < d.activationEpoch {
      return 0, 0;
    } else if history.Some? && d.activationEpoch in history.value {
      var prevEpoch := d.activationEpoch;
      var prevStake := history.value[prevEpoch];
      effective := 0;
      while true
        invariant prevEpoch in history.value && prevStake == history.value[prevEpoch]
        invariant prevEpoch < target && 0 <= effective <= d.stake
        invariant WarmUp(d, target, history.value, share, prevEpoch, effective)
                  == WarmUp(d, target, history.value, share, d.activationEpoch, 0)
        decreases target - prevEpoch
      {
        var currentEpoch: u64 := prevEpoch + 1;
        if prevStake.activating == 0 {
          break;
        }
        effective := WrapAdd(effective, Newly(share, d.stake - effective, prevStake.activating, prevStake.effective));
        if effective >= d.stake {
          effective := d.stake;
          break;
        }
        if currentEpoch >= target || currentEpoch >= d.deactivationEpoch {
          break;
        }
        if currentEpoch in history.value {
          prevEpoch, prevStake := currentEpoch, history.value[currentEpoch];
        } else {
          break;
        }
      }
      activating := d.stake - effective;
    } else {
      return d.stake, 0;
    }
  }

  method StakeActivatingAndDeactivating(d: Delegation, target: u64, history: Option<History>, fix: bool, share: Share)
    returns (effective: u64, activating: u64, deactivating: u64)
    ensures Status(effective, activating, deactivating) == StatusAt(d, target, history, fix, share)
  {
    effective, activating := StakeAndActivating(d, target, history, fix, share);
    if target < d.deactivationEpoch {
      deactivating := 0;
    } else if target == d.deactivationEpoch {
      activating, deactivating := 0, Min(effective, d.stake);
    } else if history.Some? && d.deactivationEpoch in history.value {
      ghost var entering := effective;
      var prevEpoch := d.deactivationEpoch;
      var prevStake := history.value[prevEpoch];
      while true
        invariant prevEpoch in history.value && prevStake == history.value[prevEpoch]
        invariant prevEpoch < target
        invariant CoolDown(target, history.value, share, prevEpoch, effective)
                  == CoolDown(target, history.value, share, d.deactivationEpoch, entering)
        decreases target - prevEpoch
      {
        var currentEpoch: u64 := prevEpoch + 1;
        if prevStake.deactivating == 0 {
          break;
        }
        var newly := Newly(share, effective, prevStake.deactivating, prevStake.effective);
        effective := if newly <= effective then effective - newly else 0;
        if effective == 0 {
          break;
        }
        if currentEpoch >= target {
          break;
        }
        if currentEpoch in history.value {
          prevEpoch, prevStake := currentEpoch, history.value[currentEpoch];
        } else {
          break;
        }
      }
      activating, deactivating := 0, effective;
    } else {
      effective, activating, deactivating := 0, 0, 0;
    }
  }

  // ---------- bounds ----------

  /** The stake counts from the activation epoch on, unless it was deactivated at once. */
  predicate Counts(d: Delegation, target: u64, fix: bool) {
    d.IsBootstrap() || (d.activationEpoch <= target && !(fix && d.activationEpoch == d.deactivationEpoch))
  }

  /** Every exit: before deactivation the whole stake is effective or activating, or none is; from it
      on, what is effective is deactivating, and is at most what was effective before. */
  lemma StatusBounds(d: Delegation, target: u64, history: Option<History>, fix: bool, share: Share)
    ensures var s := StatusAt(d, target, history, fix, share);
            var a := Activation(d, target, history, fix, share);
            && a.effective + a.activating == (if Counts(d, target, fix) then d.stake else 0)
            && s.effective + s.activating <= d.stake
            && s.deactivating <= s.effective <= a.effective
            && (if target < d.deactivationEpoch then s == a else s.activating == 0 && s.deactivating == s.effective)
  {
  }

  // ---------- the value at every exit ----------

  /** Before its activation epoch, or deactivated at once, a delegation has no stake in any state. */
  lemma NothingBeforeActivation(d: Delegation, target: u64, history: Option<History>, fix: bool, share: Share)
    requires !Counts(d, target, fix)
    ensures StatusAt(d, target, history, fix, share) == Status(0, 0, 0)
  {
  }

  /** In its activation epoch all of it is activating, unless it is being deactivated already. */
  lemma AllActivatingAtFirst(d: Delegation, history: Option<History>, fix: bool, share: Share)
    requires !d.IsBootstrap() && !(fix && d.activationEpoch == d.deactivationEpoch)
    ensures StatusAt(d, d.activationEpoch, history, fix, share)
            == if d.activationEpoch < d.deactivationEpoch then Status(0, d.stake, 0) else Status(0, 0, 0)
  {
  }

  /** The epoch the stake started to warm up in is no longer in the history, or there never was one to
      wait for. */
  predicate Settled(d: Delegation, target: u64, history: Option<History>) {
    d.IsBootstrap() || (d.activationEpoch < target && (history.None? || d.activationEpoch !in history.value))
  }

  /** Such a stake is all effective up to the deactivation epoch, in which all of it is deactivating. */
  lemma SettledIsEffective(d: Delegation, target: u64, history: Option<History>, fix: bool, share: Share)
    requires Settled(d, target, history) && Counts(d, target, fix) && target <= d.deactivationEpoch
    ensures StatusAt(d, target, history, fix, share)
            == if target < d.deactivationEpoch then Status(d.stake, 0, 0) else Status(d.stake, 0, d.stake)
  {
  }

  /** After a deactivation epoch that is no longer in the history nothing is left. */
  lemma LongDeactivatedIsGone(d: Delegation, target: u64, history: Option<History>, fix: bool, share: Share)
    requires d.deactivationEpoch < target && (history.None? || d.deactivationEpoch !in history.value)
    ensures StatusAt(d, target, history, fix, share) == Status(0, 0, 0)
  {
  }

  /** With nothing activating in the cluster at its activation epoch, a stake never becomes effective. */
  lemma IdleClusterActivatesNothing(d: Delegation, target: u64, history: History, fix: bool, share: Share)
    requires !d.IsBootstrap() && d.activationEpoch in history && history[d.activationEpoch].activating == 0
    requires d.activationEpoch < target && d.activationEpoch != d.deactivationEpoch
    ensures target < d.deactivationEpoch ==> StatusAt(d, target, Some(history), fix, share) == Status(0, d.stake, 0)
    ensures d.deactivationEpoch <= target ==> StatusAt(d, target, Some(history), fix, share) == Status(0, 0, 0)
  {
  }

  // ---------- from one epoch to the next ----------

  /** The cluster had stake activating in every epoch from `start` to `t`. */
  ghost predicate Warming(history: History, start: u64, t: u64) {
    forall e: u64 | start <= e <= t :: e in history && history[e].activating > 0
  }

  ghost predicate Cooling(history: History, start: u64, t: u64) {
    forall e: u64 | start <= e <= t :: e in history && history[e].deactivating > 0
  }

  /** What the cluster's stake in an epoch makes of `effective` lamports: its share of the rest, one
      lamport at least, is added, up to the whole. */
  function Raised(d: Delegation, share: Share, cluster: ClusterStake, effective: u64): u64
    requires effective <= d.stake
  {
    var portion := share(d.stake - effective, cluster.activating, cluster.effective);
    Min(d.stake, WrapAdd(effective, if portion == 0 then 1 else portion))
  }

  function Lowered(share: Share, cluster: ClusterStake, effective: u64): u64 {
    var portion := share(effective, cluster.deactivating, cluster.effective);
    if effective <= 1 || effective <= portion then 0 else if portion == 0 then effective - 1 else effective - portion
  }

  lemma {:induction false} WarmUpStep(d: Delegation, t: u64, history: History, share: Share, prev: u64, effective: u64)
    requires prev in history && prev < t < d.deactivationEpoch && effective <= d.stake
    ensures var now := WarmUp(d, t, history, share, prev, effective);
            WarmUp(d, t + 1, history, share, prev, effective)
            == if Warming(history, prev, t) && now < d.stake then Raised(d, share, history[t], now) else now
    decreases t - prev
  {
    var cluster := history[prev];
    if cluster.activating != 0 {
      var raised := WrapAdd(effective, Newly(share, d.stake - effective, cluster.activating, cluster.effective));
      if raised < d.stake && prev + 1 in history {
        assert Warming(history, prev, t) <==> Warming(history, prev + 1, t);
        if prev + 1 < t {
          WarmUpStep(d, t, history, share, prev + 1, raised);
        }
      }
    }
  }

  /** The warm-up, epoch by epoch: none is effective in the activation epoch, and each epoch raises it
      while no epoch without activating stake, or missing from the history, has come and some is
      missing; otherwise it stays as it is. */
  lemma WarmsUpEpochByEpoch(d: Delegation, t: u64, history: History, fix: bool, share: Share)
    requires !d.IsBootstrap() && d.activationEpoch in history && d.activationEpoch <= t < d.deactivationEpoch
    ensures var now := StatusAt(d, t, Some(history), fix, share).effective;
            && now <= d.stake && (t == d.activationEpoch ==> now == 0)
            && StatusAt(d, t + 1, Some(history), fix, share).effective
               == if Warming(history, d.activationEpoch, t) && now < d.stake then Raised(d, share, history[t], now) else now
  {
    if d.activationEpoch < t {
      WarmUpStep(d, t, history, share, d.activationEpoch, 0);
    }
  }

  lemma {:induction false} CoolDownStep(t: u64, history: History, share: Share, prev: u64, effective: u64)
    requires prev in history && prev < t < U64_RANGE - 1
    ensures var now := CoolDown(t, history, share, prev, effective);
            CoolDown(t + 1, history, share, prev, effective)
            == if Cooling(history, prev, t) then Lowered(share, history[t], now) else now
    decreases t - prev
  {
    var cluster := history[prev];
    if cluster.deactivating != 0 {
      var newly := Newly(share, effective, cluster.deactivating, cluster.effective);
      if newly < effective && prev + 1 in history {
        assert Cooling(history, prev, t) <==> Cooling(history, prev + 1, t);
        if prev + 1 < t {
          CoolDownStep(t, history, share, prev + 1, effective - newly);
        }
      }
    }
  }

  /** The cool-down likewise: each epoch lowers what is left while none without deactivating stake, or
      missing from the history, has come. */
  lemma CoolsDownEpochByEpoch(d: Delegation, t: u64, history: History, fix: bool, share: Share)
    requires DeactivatedInOrder(d, fix) && d.deactivationEpoch in history && d.deactivationEpoch <= t < U64_RANGE - 1
    ensures var now := StatusAt(d, t, Some(history), fix, share).effective;
            StatusAt(d, t + 1, Some(history), fix, share).effective
            == if Cooling(history, d.deactivationEpoch, t) then Lowered(share, history[t], now) else now
  {
    var entering := Activation(d, t, Some(history), fix, share).effective;
    EnteringStays(d, t, t + 1, Some(history), fix, share);
    if d.deactivationEpoch < t {
      CoolDownStep(t, history, share, d.deactivationEpoch, entering);
    }
  }

  // ---------- shape over time ----------

  lemma {:induction false} WarmUpMono(d: Delegation, t: u64, t': u64, history: History, share: Share, prev: u64, effective: u64)
    requires prev in history && prev < t <= t' && effective <= d.stake
    requires WarmUpFits(d, t', history, share, prev, effective)
    ensures effective <= WarmUp(d, t, history, share, prev, effective) <= WarmUp(d, t', history, share, prev, effective)
    decreases t' - prev
  {
    var cluster := history[prev];
    if cluster.activating != 0 {
      var raised := effective + Newly(share, d.stake - effective, cluster.activating, cluster.effective);
      if raised < d.stake && prev + 1 < t' && prev + 1 < d.deactivationEpoch && prev + 1 in history {
        if prev + 1 < t {
          WarmUpMono(d, t, t', history, share, prev + 1, raised);
        } else {
          WarmUpMono(d, t', t', history, share, prev + 1, raised);
        }
      }
    }
  }

  /** Where an addition wraps, the effective stake falls from that epoch to the next. */
  lemma {:induction false} OverflowFalls(d: Delegation, history: History, share: Share, prev: u64, effective: u64)
    returns (e: u64)
    requires prev in history && prev < d.deactivationEpoch && effective <= d.stake
    requires !WarmUpFits(d, d.deactivationEpoch, history, share, prev, effective)
    ensures prev <= e < d.deactivationEpoch
    ensures WarmUp(d, e + 1, history, share, prev, effective)
            < if e == prev then effective else WarmUp(d, e, history, share, prev, effective)
    decreases d.deactivationEpoch - prev
  {
    var cluster := history[prev];
    var raised := effective + Newly(share, d.stake - effective, cluster.activating, cluster.effective);
    if raised >= U64_RANGE {
      e := prev;
    } else {
      e := OverflowFalls(d, history, share, prev + 1, raised);
    }
  }

  /** Warming up stops at the deactivation epoch. */
  lemma {:induction false} WarmUpStops(d: Delegation, t: u64, t': u64, history: History, share: Share, prev: u64, effective: u64)
    requires prev in history && prev < d.deactivationEpoch <= t <= t' && effective <= d.stake
    ensures WarmUp(d, t, history, share, prev, effective) == WarmUp(d, t', history, share, prev, effective)
    decreases t - prev
  {
    var cluster := history[prev];
    if cluster.activating != 0 {
      var raised := WrapAdd(effective, Newly(share, d.stake - effective, cluster.activating, cluster.effective));
      if raised < d.stake && prev + 1 < d.deactivationEpoch && prev + 1 in history {
        WarmUpStops(d, t, t', history, share, prev + 1, raised);
      }
    }
  }

  lemma {:induction false} CoolDownMono(t: u64, t': u64, history: History, share: Share, prev: u64, effective: u64)
    requires prev in history && prev < t <= t'
    ensures CoolDown(t, history, share, prev, effective) >= CoolDown(t', history, share, prev, effective)
    decreases t - prev
  {
    var cluster := history[prev];
    if cluster.deactivating != 0 {
      var newly := Newly(share, effective, cluster.deactivating, cluster.effective);
      if newly < effective && prev + 1 < t && prev + 1 in history {
        CoolDownMono(t, t', history, share, prev + 1, effective - newly);
      }
    }
  }

  /** No addition wraps while the delegation warms up. */
  predicate ActivationFits(d: Delegation, history: Option<History>, fix: bool, share: Share) {
    || d.IsBootstrap()
    || (fix && d.activationEpoch == d.deactivationEpoch)
    || d.deactivationEpoch <= d.activationEpoch
    || history.None? || d.activationEpoch !in history.value
    || WarmUpFits(d, d.deactivationEpoch, history.value, share, d.activationEpoch, 0)
  }

  lemma {:induction false} FitsForEarlier(d: Delegation, t: u64, history: History, share: Share, prev: u64, effective: u64)
    requires prev in history && prev < t <= d.deactivationEpoch && effective <= d.stake
    requires WarmUpFits(d, d.deactivationEpoch, history, share, prev, effective)
    ensures WarmUpFits(d, t, history, share, prev, effective)
    decreases t - prev
  {
    var cluster := history[prev];
    if cluster.activating != 0 {
      var raised := effective + Newly(share, d.stake - effective, cluster.activating, cluster.effective);
      if raised < d.stake && prev + 1 < t && prev + 1 in history {
        FitsForEarlier(d, t, history, share, prev + 1, raised);
      }
    }
  }

  /** Without a wrap the effective stake never falls up to the deactivation epoch, whatever the history
      and the rounding. */
  lemma RisesUntilDeactivation(d: Delegation, t: u64, t': u64, history: Option<History>, fix: bool, share: Share)
    requires t <= t' <= d.deactivationEpoch && ActivationFits(d, history, fix, share)
    ensures StatusAt(d, t, history, fix, share).effective <= StatusAt(d, t', history, fix, share).effective
  {
    if !d.IsBootstrap() && d.activationEpoch < t' && history.Some? && d.activationEpoch in history.value
       && !(fix && d.activationEpoch == d.deactivationEpoch) {
      FitsForEarlier(d, t', history.value, share, d.activationEpoch, 0);
      if d.activationEpoch < t {
        WarmUpMono(d, t, t', history.value, share, d.activationEpoch, 0);
      }
    }
  }

  /** And with one it falls from some epoch to the next. */
  lemma FallsWhereItWraps(d: Delegation, history: Option<History>, fix: bool, share: Share) returns (t: u64)
    requires !ActivationFits(d, history, fix, share)
    ensures t < d.deactivationEpoch
    ensures StatusAt(d, t, history, fix, share).effective > StatusAt(d, t + 1, history, fix, share).effective
  {
    t := OverflowFalls(d, history.value, share, d.activationEpoch, 0);
  }

  /** So it rises up to the deactivation epoch if and only if no addition wraps. */
  lemma RisesIffItFits(d: Delegation, history: Option<History>, fix: bool, share: Share)
    ensures (forall t: u64, t': u64 | t <= t' <= d.deactivationEpoch ::
               StatusAt(d, t, history, fix, share).effective <= StatusAt(d, t', history, fix, share).effective)
            <==> ActivationFits(d, history, fix, share)
  {
    if ActivationFits(d, history, fix, share) {
      forall t: u64, t': u64 | t <= t' <= d.deactivationEpoch
        ensures StatusAt(d, t, history, fix, share).effective <= StatusAt(d, t', history, fix, share).effective
      {
        RisesUntilDeactivation(d, t, t', history, fix, share);
      }
    } else {
      var t := FallsWhereItWraps(d, history, fix, share);
    }
  }

  /** Shares that leave room for the whole stake never wrap. */
  lemma {:induction false} SmallSharesFit(d: Delegation, target: u64, history: History, share: Share, prev: u64, effective: u64)
    requires prev in history && prev < target && effective <= d.stake < U64_RANGE - 1
    requires forall own: u64, competing: u64, clusterEffective: u64 :: share(own, competing, clusterEffective) < U64_RANGE - d.stake
    ensures WarmUpFits(d, target, history, share, prev, effective)
    decreases target - prev
  {
    var cluster := history[prev];
    if cluster.activating != 0 {
      var raised := effective + Newly(share, d.stake - effective, cluster.activating, cluster.effective);
      if raised < d.stake && prev + 1 < target && prev + 1 < d.deactivationEpoch && prev + 1 in history {
        SmallSharesFit(d, target, history, share, prev + 1, raised);
      }
    }
  }

  /** A share cut to 2^64 - 1 on top of five effective lamports leaves four. */
  lemma SaturatedShareWraps()
    ensures var d := Delegation(10, 1, 100);
            var history := Some(map[1 := ClusterStake(1, 1, 0), 2 := ClusterStake(1, 1, 0)]);
            var share: Share := (own: u64, competing: u64, clusterEffective: u64) => if own == 10 then 5 else U64_RANGE - 1;
            && StatusAt(d, 2, history, true, share).effective == 5
            && StatusAt(d, 3, history, true, share).effective == 4
  {
    var d := Delegation(10, 1, 100);
    var history: History := map[1 := ClusterStake(1, 1, 0), 2 := ClusterStake(1, 1, 0)];
    var share: Share := (own: u64, competing: u64, clusterEffective: u64) => if own == 10 then 5 else U64_RANGE - 1;
    assert WarmUp(d, 3, history, share, 2, 5) == 4;
  }

  /** A stake that was active before its deactivation, or never is. */
  predicate DeactivatedInOrder(d: Delegation, fix: bool) {
    || d.IsBootstrap()
    || d.activationEpoch < d.deactivationEpoch
    || (fix && d.activationEpoch == d.deactivationEpoch)
    || d.stake == 0
  }

  /** What such a delegation takes into its cool-down no longer depends on the epoch. */
  lemma EnteringStays(d: Delegation, t: u64, t': u64, history: Option<History>, fix: bool, share: Share)
    requires DeactivatedInOrder(d, fix) && d.deactivationEpoch <= t <= t'
    ensures Activation(d, t, history, fix, share).effective == Activation(d, t', history, fix, share).effective
  {
    if d.activationEpoch < d.deactivationEpoch && history.Some? && d.activationEpoch in history.value {
      WarmUpStops(d, t, t', history.value, share, d.activationEpoch, 0);
    }
  }

  /** From the deactivation epoch on, the effective stake of such a delegation never rises. */
  lemma FallsFromDeactivation(d: Delegation, t: u64, t': u64, history: Option<History>, fix: bool, share: Share)
    requires DeactivatedInOrder(d, fix) && d.deactivationEpoch <= t <= t'
    ensures StatusAt(d, t, history, fix, share).effective >= StatusAt(d, t', history, fix, share).effective
  {
    var entering := Activation(d, t, history, fix, share).effective;
    EnteringStays(d, t, t', history, fix, share);
    if d.deactivationEpoch < t && history.Some? && d.deactivationEpoch in history.value {
      CoolDownMono(t, t', history.value, share, d.deactivationEpoch, entering);
    }
  }

  /** For any other delegation some history makes it rise again: its stake warms up after the
      deactivation epoch. */
  lemma RisesAfterDeactivationOtherwise(d: Delegation, fix: bool) returns (t: u64, history: Option<History>, share: Share)
    requires !DeactivatedInOrder(d, fix)
    ensures d.deactivationEpoch < t
    ensures StatusAt(d, d.deactivationEpoch, history, fix, share).effective < StatusAt(d, t, history, fix, share).effective
  {
    t := d.activationEpoch + 1;
    share := (own: u64, competing: u64, clusterEffective: u64) => own;
    history := Some(map[d.activationEpoch := ClusterStake(1, 1, 0), d.deactivationEpoch := ClusterStake(1, 1, 0)]);
  }

  // ---------- one lamport at least per epoch ----------

  /** With stake activating in every epoch and no wrap, a delegation is fully effective after at most as
      many epochs as it has lamports, however small its shares. */
  lemma {:induction false} WarmUpCompletes(d: Delegation, target: u64, history: History, share: Share, prev: u64, effective: u64)
    requires prev < target <= d.deactivationEpoch && effective <= d.stake <= effective + (target - prev)
    requires forall e: u64 | prev <= e < target :: e in history && history[e].activating > 0
    requires WarmUpFits(d, target, history, share, prev, effective)
    ensures WarmUp(d, target, history, share, prev, effective) == d.stake
    decreases target - prev
  {
    var raised := effective + Newly(share, d.stake - effective, history[prev].activating, history[prev].effective);
    if raised < d.stake {
      WarmUpCompletes(d, target, history, share, prev + 1, raised);
    }
  }

  lemma {:induction false} CoolDownCompletes(target: u64, history: History, share: Share, prev: u64, effective: u64)
    requires prev < target && effective <= target - prev
    requires forall e: u64 | prev <= e < target :: e in history && history[e].deactivating > 0
    ensures CoolDown(target, history, share, prev, effective) == 0
    decreases target - prev
  {
    var newly := Newly(share, effective, history[prev].deactivating, history[prev].effective);
    if newly < effective {
      CoolDownCompletes(target, history, share, prev + 1, effective - newly);
    }
  }

  /** So a delegation is fully effective once it warmed up for as many epochs as it has lamports, and
      gone once it cooled down for as many. */
  lemma OneLamportAnEpoch(d: Delegation, t: u64, history: History, fix: bool, share: Share)
    requires !d.IsBootstrap() && d.activationEpoch < d.deactivationEpoch
    requires forall e: u64 | d.activationEpoch <= e < Min(t, d.deactivationEpoch) :: e in history && history[e].activating > 0
    requires forall e: u64 | d.deactivationEpoch <= e < t :: e in history && history[e].deactivating > 0
    ensures var s := StatusAt(d, t, Some(history), fix, share);
            && (d.activationEpoch + d.stake <= t <= d.deactivationEpoch && d.activationEpoch < t && d.activationEpoch in history ==>
                  WarmUpFits(d, t, history, share, d.activationEpoch, 0) ==> s.effective == d.stake)
            && (d.deactivationEpoch + d.stake <= t && d.deactivationEpoch < t ==> s == Status(0, 0, 0))
  {
    if d.activationEpoch + d.stake <= t <= d.deactivationEpoch && d.activationEpoch < t
       && WarmUpFits(d, t, history, share, d.activationEpoch, 0) {
      WarmUpCompletes(d, t, history, share, d.activationEpoch, 0);
    }
    if d.deactivationEpoch + d.stake <= t && d.deactivationEpoch < t {
      StatusBounds(d, t, Some(history), fix, share);
      CoolDownCompletes(t, history, share, d.deactivationEpoch, Activation(d, t, Some(history), fix, share).effective);
    }
  }
}
