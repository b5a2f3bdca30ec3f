/**
 * What the rewind bookkeeping does to one tracked object and its live handle, as pure
 * functions, and the passes over a whole registry that the loops of the rewind data compute.
 */
module RewindSteps {
  import opened Wrappers
  import opened FramePhase
  import opened PropertyHistory
  import opened ChaosObjects
  import opened RegistryPasses

  type PInfo = DirtyInfo<ParticleHistory>
  type JInfo = DirtyInfo<JointHistory>

  // ---------------------------------------------------------------- desync

  /** Marks a particle desynced from k on: its history from k is dropped and it is hard-desynced. */
  function DesyncObject(info: PInfo, p: Particle, k: FrameAndPhase): (r: (PInfo, Particle))
    ensures ParticleHistoryClean(r.0.history, k) && r.1.syncState == HardDesync
    ensures r.0 == info.(history := r.0.history) && r.1 == p.(syncState := HardDesync)
  {
    (info.(history := ClearParticleHistory(info.history, k)), p.(syncState := HardDesync))
  }

  /**
   * The desync test: an object that is in sync but whose history disagrees with it at k gets its
   * history cleared from k onwards and becomes hard-desynced, unless the desync test is skipped.
   */
  function DesyncParticle(info: PInfo, p: Particle, k: FrameAndPhase, skipDynamics: bool, ctx: DesyncContext): (r: (PInfo, Particle))
    ensures var fires := p.syncState == InSync && !ctx.skipDesyncTest
                         && !ParticleHistoryInSync(info.history, p, k, skipDynamics, ctx.networkPrediction, IsResimFrameValid(ctx, info.obj));
            (fires ==> r.0 == info.(history := ClearParticleHistory(info.history, k)) && r.1 == p.(syncState := HardDesync))
            && (!fires ==> r == (info, p))
    ensures r.1.syncState == InSync ==> p.syncState == InSync
  {
    if p.syncState == InSync && !ParticleHistoryInSync(info.history, p, k, skipDynamics, ctx.networkPrediction, IsResimFrameValid(ctx, info.obj)) then
      if !ctx.skipDesyncTest then DesyncObject(info, p, k)
      else (info, p)
    else (info, p)
  }

  function DesyncJoint(info: JInfo, j: Joint, k: FrameAndPhase, skipDesyncTest: bool): (r: (JInfo, Joint))
    ensures var fires := j.syncState == InSync && !skipDesyncTest && !JointHistoryInSync(info.history, j, k);
            (fires ==> r.0 == info.(history := ClearJointHistory(info.history, k)) && r.1 == j.(syncState := HardDesync))
            && (!fires ==> r == (info, j))
  {
    if j.syncState == InSync && !JointHistoryInSync(info.history, j, k) then
      if !skipDesyncTest then (info.(history := ClearJointHistory(info.history, k)), j.(syncState := HardDesync))
      else (info, j)
    else (info, j)
  }

  /** A desynced object is not desynced again: once its history is cleared from k it agrees there. */
  lemma DesyncIsIdempotent(info: PInfo, p: Particle, k: FrameAndPhase, skipDynamics: bool, ctx: DesyncContext)
    ensures var once := DesyncParticle(info, p, k, skipDynamics, ctx);
            DesyncParticle(once.0, once.1, k, skipDynamics, ctx) == once
  {
  }

  // ---------------------------------------------------------------- rewind

  datatype ChannelRewind<T> = ChannelRewind(channel: Channel<T>, live: T, changed: bool)

  /**
   * The head save of one property during a rewind: an object that is not a follower, whose property the
   * handle has and which has a value recorded at or after the rewind key, first saves its live value at the
   * head key; every other channel is left as it is.
   */
  ghost predicate HeadSaved<T>(c: Channel<T>, c': Channel<T>, live: T, applies: bool, follower: bool, rewindKey: FrameAndPhase, headKey: FrameAndPhase) {
    if applies && !follower && !IsClean(c, rewindKey) then c' == WriteAccessMonotonic(c, headKey, live) else c' == c
  }

  /**
   * One property after a rewind: the channel is head-saved, and the live value becomes the value the
   * saved channel holds at the rewind key, or stays when nothing is recorded there or the handle does
   * not have the property.
   */
  ghost predicate ChannelRewound<T>(c: Channel<T>, c': Channel<T>, live: T, live': T, applies: bool, follower: bool, rewindKey: FrameAndPhase, headKey: FrameAndPhase) {
    HeadSaved(c, c', live, applies, follower, rewindKey, headKey)
    && live' == if applies then Read(c', rewindKey).GetOr(live) else live
  }

  /** A channel dirty at the rewind key and clean at the later head key has a value recorded between them. */
  lemma DirtyThenCleanIsBetween<T>(c: Channel<T>, rewindKey: FrameAndPhase, headKey: FrameAndPhase)
    requires !IsClean(c, rewindKey) && IsClean(c, headKey)
    ensures RecordedBetween(c, rewindKey, headKey)
  {
  }

  /**
   * A rewound property returns to the value recorded at the rewind key before the rewind, unless the
   * head save overwrote the only entry from the rewind key on; it cannot when nothing was recorded
   * from the head key on.
   */
  lemma RewoundToRecorded<T>(c: Channel<T>, c': Channel<T>, live: T, live': T, applies: bool, follower: bool, rewindKey: FrameAndPhase, headKey: FrameAndPhase)
    requires ChannelRewound(c, c', live, live', applies, follower, rewindKey, headKey)
    requires follower || IsClean(c, rewindKey) || RecordedBetween(c, rewindKey, headKey) || IsClean(c, headKey)
    ensures applies ==> live' == Read(c, rewindKey).GetOr(live)
  {
    if applies && !follower && !IsClean(c, rewindKey) {
      if IsClean(c, headKey) {
        DirtyThenCleanIsBetween(c, rewindKey, headKey);
      }
      WriteKeepsEarlierReads(c, headKey, live, rewindKey);
    }
  }

  /**
   * Rewinds one property (the head save, then the restore) and reports whether it had changed since
   * the rewind key, which is when an object that is not a follower saves its head.
   */
  function RewindChannel<T>(c: Channel<T>, live: T, applies: bool, follower: bool, rewindKey: FrameAndPhase, headKey: FrameAndPhase): (r: ChannelRewind<T>)
    ensures ChannelRewound(c, r.channel, live, r.live, applies, follower, rewindKey, headKey)
    ensures r.changed <==> applies && !follower && !IsClean(c, rewindKey)
    ensures r.changed ==> Read(r.channel, rewindKey).Some?
  {
    if !applies then ChannelRewind(c, live, false)
    else if follower then ChannelRewind(c, Read(c, rewindKey).GetOr(live), false)
    else if !IsClean(c, rewindKey) then
      var c' := WriteAccessMonotonic(c, headKey, live);
      WriteKeepsDirty(c, headKey, live, rewindKey);
      ChannelRewind(c', Read(c', rewindKey).value, true)
    else ChannelRewind(c, live, false)
  }

  /**
   * When nothing is recorded after the head key, the head save makes the pre-rewind value readable at
   * the head key, overwriting a value already recorded there.
   */
  lemma RewindSavesHead<T>(c: Channel<T>, live: T, rewindKey: FrameAndPhase, headKey: FrameAndPhase)
    requires Sorted(c) && !IsClean(c, rewindKey) && NothingAfter(c, headKey)
    ensures Read(RewindChannel(c, live, true, false, rewindKey, headKey).channel, headKey) == Some(live)
  {
    WriteThenRead(c, headKey, live);
  }

  function RewindKey(frame: int): FrameAndPhase { FrameAndPhase(frame, PostPushData) }

  function HeadKey(curFrame: int): FrameAndPhase { FrameAndPhase(curFrame, PrePushData) }

  /** Some property the particle's handle has was recorded at or after the rewind key. */
  predicate RewindChanges(h: ParticleHistory, kind: ParticleKind, rewindKey: FrameAndPhase) {
    !IsClean(h.xr, rewindKey) || !IsClean(h.nonFrequent, rewindKey)
    || (IsKinematic(kind) && (!IsClean(h.velocities, rewindKey) || !IsClean(h.kinematicTarget, rewindKey)))
    || (IsRigid(kind) && (!IsClean(h.dynamics, rewindKey) || !IsClean(h.dynamicsMisc, rewindKey) || !IsClean(h.massProps, rewindKey)))
  }

  /** The rewind of the properties every particle has: position and rotation, and the non-frequent data. */
  function RewindCommon(h: ParticleHistory, p: Particle, f: bool, rk: FrameAndPhase, hk: FrameAndPhase): (r: (ParticleHistory, Particle, bool))
    ensures r.0 == h.(xr := r.0.xr, nonFrequent := r.0.nonFrequent) && r.1 == p.(xr := r.1.xr, nonFrequent := r.1.nonFrequent)
    ensures ChannelRewound(h.xr, r.0.xr, p.xr, r.1.xr, true, f, rk, hk)
    ensures ChannelRewound(h.nonFrequent, r.0.nonFrequent, p.nonFrequent, r.1.nonFrequent, true, f, rk, hk)
    ensures r.2 <==> !f && (!IsClean(h.xr, rk) || !IsClean(h.nonFrequent, rk))
  {
    var a := RewindChannel(h.xr, p.xr, true, f, rk, hk);
    var c := RewindChannel(h.nonFrequent, p.nonFrequent, true, f, rk, hk);
    (h.(xr := a.channel, nonFrequent := c.channel), p.(xr := a.live, nonFrequent := c.live), a.changed || c.changed)
  }

  /** The rewind of the properties a kinematic handle has: velocities and the kinematic target. */
  function RewindKinematic(h: ParticleHistory, p: Particle, f: bool, rk: FrameAndPhase, hk: FrameAndPhase): (r: (ParticleHistory, Particle, bool))
    ensures r.0 == h.(velocities := r.0.velocities, kinematicTarget := r.0.kinematicTarget)
    ensures r.1 == p.(velocities := r.1.velocities, kinematicTarget := r.1.kinematicTarget)
    ensures ChannelRewound(h.velocities, r.0.velocities, p.velocities, r.1.velocities, IsKinematic(p.kind), f, rk, hk)
    ensures ChannelRewound(h.kinematicTarget, r.0.kinematicTarget, p.kinematicTarget, r.1.kinematicTarget, IsKinematic(p.kind), f, rk, hk)
    ensures r.2 <==> !f && IsKinematic(p.kind) && (!IsClean(h.velocities, rk) || !IsClean(h.kinematicTarget, rk))
  {
    var kin := IsKinematic(p.kind);
    var b := RewindChannel(h.velocities, p.velocities, kin, f, rk, hk);
    var d := RewindChannel(h.kinematicTarget, p.kinematicTarget, kin, f, rk, hk);
    (h.(velocities := b.channel, kinematicTarget := d.channel), p.(velocities := b.live, kinematicTarget := d.live), b.changed || d.changed)
  }

  /** The rewind of the properties a rigid handle has: dynamics, the misc state and the mass properties. */
  function RewindRigid(h: ParticleHistory, p: Particle, f: bool, rk: FrameAndPhase, hk: FrameAndPhase): (r: (ParticleHistory, Particle, bool))
    ensures r.0 == h.(dynamics := r.0.dynamics, dynamicsMisc := r.0.dynamicsMisc, massProps := r.0.massProps)
    ensures r.1 == p.(dynamics := r.1.dynamics, misc := r.1.misc, massProps := r.1.massProps)
    ensures ChannelRewound(h.dynamics, r.0.dynamics, p.dynamics, r.1.dynamics, IsRigid(p.kind), f, rk, hk)
    ensures ChannelRewound(h.dynamicsMisc, r.0.dynamicsMisc, p.misc, r.1.misc, IsRigid(p.kind), f, rk, hk)
    ensures ChannelRewound(h.massProps, r.0.massProps, p.massProps, r.1.massProps, IsRigid(p.kind), f, rk, hk)
    ensures r.2 <==> !f && IsRigid(p.kind) && (!IsClean(h.dynamics, rk) || !IsClean(h.dynamicsMisc, rk) || !IsClean(h.massProps, rk))
  {
    var rigid := IsRigid(p.kind);
    var e := RewindChannel(h.dynamics, p.dynamics, rigid, f, rk, hk);
    var g := RewindChannel(h.dynamicsMisc, p.misc, rigid, f, rk, hk);
    var m := RewindChannel(h.massProps, p.massProps, rigid, f, rk, hk);
    (h.(dynamics := e.channel, dynamicsMisc := g.channel, massProps := m.channel),
     p.(dynamics := e.live, misc := g.live, massProps := m.live),
     e.changed || g.changed || m.changed)
  }

  /**
   * The rewind of one tracked particle from curFrame back to frame. Every property its handle has is
   * head-saved and restored; a non-follower with any change since the rewind key must record dynamics
   * again and is enabled for the resim; a non-follower initialized after the frame is disabled.
   */
  function RewindParticle(info: PInfo, p: Particle, frame: int, curFrame: int): (r: (PInfo, Particle))
    // only the seven recorded channels, the pending-dynamics frame and the restored properties change
    ensures r.0 == info.(history := r.0.history, dirtyDynamics := r.0.dirtyDynamics)
    ensures r.0.history == info.history.(xr := r.0.history.xr, velocities := r.0.history.velocities,
              nonFrequent := r.0.history.nonFrequent, kinematicTarget := r.0.history.kinematicTarget,
              dynamics := r.0.history.dynamics, dynamicsMisc := r.0.history.dynamicsMisc, massProps := r.0.history.massProps)
    ensures r.1 == p.(xr := r.1.xr, velocities := r.1.velocities, nonFrequent := r.1.nonFrequent,
              kinematicTarget := r.1.kinematicTarget, dynamics := r.1.dynamics, misc := r.1.misc,
              massProps := r.1.massProps, enabledDuringResim := r.1.enabledDuringResim)
    // each property the handle has is head-saved, then restored from the history at the rewind key
    ensures var rk, hk, f, h, h' := RewindKey(frame), HeadKey(curFrame), info.resimAsFollower, info.history, r.0.history;
            var kin, rigid := IsKinematic(p.kind), IsRigid(p.kind);
            ChannelRewound(h.xr, h'.xr, p.xr, r.1.xr, true, f, rk, hk)
            && ChannelRewound(h.nonFrequent, h'.nonFrequent, p.nonFrequent, r.1.nonFrequent, true, f, rk, hk)
            && ChannelRewound(h.velocities, h'.velocities, p.velocities, r.1.velocities, kin, f, rk, hk)
            && ChannelRewound(h.kinematicTarget, h'.kinematicTarget, p.kinematicTarget, r.1.kinematicTarget, kin, f, rk, hk)
            && ChannelRewound(h.dynamics, h'.dynamics, p.dynamics, r.1.dynamics, rigid, f, rk, hk)
            && ChannelRewound(h.massProps, h'.massProps, p.massProps, r.1.massProps, rigid, f, rk, hk)
    // the misc state is restored too, and a non-follower initialized after the frame is disabled
    ensures var rk, hk, f, h, h' := RewindKey(frame), HeadKey(curFrame), info.resimAsFollower, info.history, r.0.history;
            var m := if IsRigid(p.kind) then Read(h'.dynamicsMisc, rk).GetOr(p.misc) else p.misc;
            HeadSaved(h.dynamicsMisc, h'.dynamicsMisc, p.misc, IsRigid(p.kind), f, rk, hk)
            && r.1.misc == if !f && info.initializedOnStep > frame then m.(disabled := true) else m
    // a non-follower that changed must record dynamics again and takes part in the resim
    ensures !info.resimAsFollower && RewindChanges(info.history, p.kind, RewindKey(frame)) ==>
              r.0.dirtyDynamics == IndexNone && r.1.enabledDuringResim
    ensures info.resimAsFollower || !RewindChanges(info.history, p.kind, RewindKey(frame)) ==>
              r.0.dirtyDynamics == info.dirtyDynamics && r.1.enabledDuringResim == p.enabledDuringResim
  {
    var rk, hk, f := RewindKey(frame), HeadKey(curFrame), info.resimAsFollower;
    var s1 := RewindCommon(info.history, p, f, rk, hk);
    var s2 := RewindKinematic(s1.0, s1.1, f, rk, hk);
    var s3 := RewindRigid(s2.0, s2.1, f, rk, hk);
    var anyChange := s1.2 || s2.2 || s3.2;
    assert anyChange <==> !f && RewindChanges(info.history, p.kind, rk);
    var info1 := info.(history := s3.0);
    if f then (info1, s3.1)
    else
      var info2 := if anyChange then info1.(dirtyDynamics := IndexNone) else info1;
      var p2 := if anyChange then s3.1.(enabledDuringResim := true) else s3.1;
      var p3 := if info.initializedOnStep > frame then p2.(misc := p2.misc.(disabled := true)) else p2;
      (info2, p3)
  }

  /** With nothing recorded from the head key on, a rewind returns every property to its value at the rewind key. */
  lemma RewindRestoresRecorded(info: PInfo, p: Particle, frame: int, curFrame: int)
    requires ParticleHistoryClean(info.history, HeadKey(curFrame))
    ensures var r, rk, h := RewindParticle(info, p, frame, curFrame), RewindKey(frame), info.history;
            r.1.xr == Read(h.xr, rk).GetOr(p.xr) && r.1.nonFrequent == Read(h.nonFrequent, rk).GetOr(p.nonFrequent)
            && (IsKinematic(p.kind) ==> r.1.velocities == Read(h.velocities, rk).GetOr(p.velocities)
                                        && r.1.kinematicTarget == Read(h.kinematicTarget, rk).GetOr(p.kinematicTarget))
            && (IsRigid(p.kind) ==> r.1.dynamics == Read(h.dynamics, rk).GetOr(p.dynamics)
                                    && r.1.massProps == Read(h.massProps, rk).GetOr(p.massProps))
  {
    var r, rk, hk, f, h := RewindParticle(info, p, frame, curFrame), RewindKey(frame), HeadKey(curFrame), info.resimAsFollower, info.history;
    var h' := r.0.history;
    var kin, rigid := IsKinematic(p.kind), IsRigid(p.kind);
    RewoundToRecorded(h.xr, h'.xr, p.xr, r.1.xr, true, f, rk, hk);
    RewoundToRecorded(h.nonFrequent, h'.nonFrequent, p.nonFrequent, r.1.nonFrequent, true, f, rk, hk);
    RewoundToRecorded(h.velocities, h'.velocities, p.velocities, r.1.velocities, kin, f, rk, hk);
    RewoundToRecorded(h.kinematicTarget, h'.kinematicTarget, p.kinematicTarget, r.1.kinematicTarget, kin, f, rk, hk);
    RewoundToRecorded(h.dynamics, h'.dynamics, p.dynamics, r.1.dynamics, rigid, f, rk, hk);
    RewoundToRecorded(h.massProps, h'.massProps, p.massProps, r.1.massProps, rigid, f, rk, hk);
  }

  // ---------------------------------------------------------------- targets

  /** Applies a target state: enable flag, object state (rebuilding inertia conditioning when it changes) and resim type. */
  function ApplyTargetState(p: Particle, data: DynamicMisc): (p': Particle)
    ensures p'.misc.disabled == data.disabled && p'.misc.objectState == data.objectState && p'.misc.other == p.misc.other
    ensures p'.inertiaConditioningDirty <==> p.inertiaConditioningDirty || p.misc.objectState != data.objectState
    ensures data.objectState == Dynamic ==> p'.resimType == FullResim
    ensures data.objectState in {Static, Kinematic} ==> p'.resimType == ResimAsFollower
    ensures data.objectState !in {Dynamic, Static, Kinematic} ==> p'.resimType == p.resimType
    ensures p'.xr == p.xr && p'.velocities == p.velocities && p'.syncState == p.syncState && p'.kind == p.kind
  {
    var resimType :=
      if data.objectState == Dynamic then FullResim
      else if data.objectState == Static || data.objectState == Kinematic then ResimAsFollower
      else p.resimType;
    p.(inertiaConditioningDirty := p.inertiaConditioningDirty || p.misc.objectState != data.objectState,
       misc := p.misc.(disabled := data.disabled, objectState := data.objectState),
       resimType := resimType)
  }

  /** Moves a non-follower particle to the targets recorded at the rewind key, where there are any. */
  function ApplyTargetsParticle(info: PInfo, p: Particle, frame: int): (p': Particle)
    ensures info.resimAsFollower ==> p' == p
    ensures p' == p.(xr := p'.xr, velocities := p'.velocities, misc := p'.misc, resimType := p'.resimType,
                     inertiaConditioningDirty := p'.inertiaConditioningDirty)
    ensures !info.resimAsFollower ==> p'.xr == Read(info.history.targetPositions, RewindKey(frame)).GetOr(p.xr)
    ensures !info.resimAsFollower && IsKinematic(p.kind) ==>
              p'.velocities == Read(info.history.targetVelocities, RewindKey(frame)).GetOr(p.velocities)
    ensures !IsKinematic(p.kind) ==> p'.velocities == p.velocities
    ensures !info.resimAsFollower && IsRigid(p.kind) && !IsClean(info.history.targetStates, RewindKey(frame)) ==>
              p' == ApplyTargetState(p'.(resimType := p.resimType, misc := p.misc, inertiaConditioningDirty := p.inertiaConditioningDirty),
                                     Read(info.history.targetStates, RewindKey(frame)).value)
    ensures (info.resimAsFollower || !IsRigid(p.kind) || IsClean(info.history.targetStates, RewindKey(frame))) ==>
              p'.misc == p.misc && p'.resimType == p.resimType && p'.inertiaConditioningDirty == p.inertiaConditioningDirty
  {
    var rk := RewindKey(frame);
    var f := info.resimAsFollower;
    var h := info.history;
    var p1 := if !f && !IsClean(h.targetPositions, rk) then p.(xr := Read(h.targetPositions, rk).value) else p;
    var p2 := if IsKinematic(p.kind) && !f && !IsClean(h.targetVelocities, rk) then p1.(velocities := Read(h.targetVelocities, rk).value) else p1;
    if IsRigid(p.kind) && !f && !IsClean(h.targetStates, rk) then ApplyTargetState(p2, Read(h.targetStates, rk).value) else p2
  }

  // ---------------------------------------------------------------- finish frame

  function FutureKey(curFrame: int): FrameAndPhase { FrameAndPhase(curFrame + 1, PrePushData) }

  /**
   * The end-of-frame step during a resimulation. Followers and partial resims are untouched. On the
   * final resim a full-resim object is back in sync, no longer enabled for resim, its history from the
   * next frame is dropped, and its correction error is recorded when it exceeds the threshold.
   * Before that, the object is tested for desync, ignoring dynamics.
   */
  function FinishParticle(info: PInfo, p: Particle, curFrame: int, finalResim: bool, exceedsError: set<Id>, ctx: DesyncContext): (r: (PInfo, Particle, bool))
    ensures info.resimAsFollower || p.resimType != FullResim ==> r == (info, p, false)
    ensures !info.resimAsFollower && p.resimType == FullResim && finalResim ==>
              r.1 == p.(syncState := InSync, enabledDuringResim := false)
              && r.0 == info.(history := ClearParticleHistory(info.history, FutureKey(curFrame)))
              && (r.2 <==> info.obj in exceedsError)
    ensures !info.resimAsFollower && p.resimType == FullResim && !finalResim ==>
              (r.0, r.1) == DesyncParticle(info, p, FutureKey(curFrame), true, ctx) && !r.2
    ensures r.2 ==> info.obj in exceedsError
  {
    if info.resimAsFollower then (info, p, false)
    else if p.resimType == FullResim then
      if finalResim then
        (info.(history := ClearParticleHistory(info.history, FutureKey(curFrame))),
         p.(syncState := InSync, enabledDuringResim := false),
         info.obj in exceedsError)
      else
        var d := DesyncParticle(info, p, FutureKey(curFrame), true, ctx);
        (d.0, d.1, false)
    else (info, p, false)
  }

  function FinishJoint(info: JInfo, j: Joint, curFrame: int, finalResim: bool, skipDesyncTest: bool): (r: (JInfo, Joint))
    ensures info.resimAsFollower || j.resimType != FullResim ==> r == (info, j)
    ensures !info.resimAsFollower && j.resimType == FullResim && finalResim ==>
              r.1 == j.(syncState := InSync, enabledDuringResim := false)
              && r.0 == info.(history := ClearJointHistory(info.history, FutureKey(curFrame)))
    ensures !info.resimAsFollower && j.resimType == FullResim && !finalResim ==>
              r == DesyncJoint(info, j, FutureKey(curFrame), skipDesyncTest)
  {
    if info.resimAsFollower then (info, j)
    else if j.resimType == FullResim then
      if finalResim then
        (info.(history := ClearJointHistory(info.history, FutureKey(curFrame))), j.(syncState := InSync, enabledDuringResim := false))
      else DesyncJoint(info, j, FutureKey(curFrame), skipDesyncTest)
    else (info, j)
  }

  /** After the final resim every full-resim, non-follower particle is in sync. */
  lemma FinalResimRestoresSync(info: PInfo, p: Particle, curFrame: int, exceedsError: set<Id>, ctx: DesyncContext)
    requires !info.resimAsFollower && p.resimType == FullResim
    ensures FinishParticle(info, p, curFrame, true, exceedsError, ctx).1.syncState == InSync
    ensures ParticleHistoryClean(FinishParticle(info, p, curFrame, true, exceedsError, ctx).0.history, FutureKey(curFrame))
  {
  }

  // ---------------------------------------------------------------- forward passes

  /** The three loops that visit every tracked particle once, front to back. */
  datatype ParticlePass =
    | RewindPass(frame: int, curFrame: int)
    | ApplyTargetsPass(targetFrame: int)
    | FinishPass(finishFrame: int, finalResim: bool, exceedsError: set<Id>, ctx: DesyncContext)

  /** One object's step in a pass; the flag says the object's correction error was recorded. */
  function ParticleStep(pass: ParticlePass, info: PInfo, p: Particle): (r: (PInfo, Particle, bool))
    ensures r.0.obj == info.obj
    ensures r.2 ==> pass.FinishPass? && info.obj in pass.exceedsError
  {
    match pass
    case RewindPass(frame, curFrame) =>
      var s := RewindParticle(info, p, frame, curFrame); (s.0, s.1, false)
    case ApplyTargetsPass(frame) => (info, ApplyTargetsParticle(info, p, frame), false)
    case FinishPass(curFrame, finalResim, exceedsError, ctx) => FinishParticle(info, p, curFrame, finalResim, exceedsError, ctx)
  }

  function ParticleStepOf(pass: ParticlePass): (step: Step<ParticleHistory, Particle>)
    ensures KeepsObject(step)
  {
    (info, p) => ParticleStep(pass, info, p)
  }

  function JointFinishStep(curFrame: int, finalResim: bool, skipDesyncTest: bool): (step: Step<JointHistory, Joint>)
    ensures KeepsObject(step)
  {
    (info, j) => var r := FinishJoint(info, j, curFrame, finalResim, skipDesyncTest); (r.0, r.1, false)
  }

  // ---------------------------------------------------------------- advance frame

  function PostCallbacksKey(curFrame: int): FrameAndPhase { FrameAndPhase(curFrame, PostCallbacks) }

  /** The advance step's desync test fires: during a resim, a non-follower still in sync disagrees with its history at k. */
  predicate AdvanceDesyncs(info: PInfo, p: Particle, curFrame: int, resim: bool, ctx: DesyncContext) {
    resim && p.resimType != ResimAsFollower && p.syncState == InSync && !ctx.skipDesyncTest
    && !ParticleHistoryInSync(info.history, p, PostCallbacksKey(curFrame), false, ctx.networkPrediction, IsResimFrameValid(ctx, info.obj))
  }

  /**
   * The per-frame step of a particle that stays tracked: refresh the follower flag from the resim type;
   * during a resim, a non-follower that disagrees with its history has that history cleared from
   * PostCallbacks on and becomes hard-desynced; a particle out of sync during a resim is enabled for it
   * and reported; and dynamics a callback touched this frame are recorded at PostCallbacks unless the
   * particle is resimulating in sync.
   */
  function AdvanceParticle(info: PInfo, p: Particle, curFrame: int, resim: bool, ctx: DesyncContext): (r: (PInfo, Particle, bool))
    ensures r.0 == info.(resimAsFollower := p.resimType == ResimAsFollower, history := r.0.history, lastDirtyFrame := r.0.lastDirtyFrame)
    ensures r.1 == p.(syncState := r.1.syncState, enabledDuringResim := r.1.enabledDuringResim)
    // the desync test
    ensures var fires := AdvanceDesyncs(info, p, curFrame, resim, ctx);
            var h := if fires then ClearParticleHistory(info.history, PostCallbacksKey(curFrame)) else info.history;
            r.0.history == h.(dynamics := r.0.history.dynamics)
            && r.1.syncState == if fires then HardDesync else p.syncState
    // out of sync during a resim: enabled for it and reported, unless the desync test is skipped
    ensures r.2 <==> resim && r.1.syncState != InSync && !ctx.skipDesyncTest
    ensures r.1.enabledDuringResim == (r.2 || p.enabledDuringResim)
    // the dynamics a callback touched this frame
    ensures var k, fires := PostCallbacksKey(curFrame), AdvanceDesyncs(info, p, curFrame, resim, ctx);
            var pre := if fires then ClearPhaseAndFuture(info.history.dynamics, k) else info.history.dynamics;
            var record := info.dirtyDynamics == curFrame && IsRigid(p.kind) && !(resim && r.1.syncState == InSync);
            (record ==> r.0.history.dynamics == WriteAccessMonotonic(pre, k, p.dynamics) && r.0.lastDirtyFrame == curFrame)
            && (!record ==> r.0.history.dynamics == pre && r.0.lastDirtyFrame == info.lastDirtyFrame)
  {
    var k := PostCallbacksKey(curFrame);
    var i1 := info.(resimAsFollower := p.resimType == ResimAsFollower);
    var d := if resim && !i1.resimAsFollower then DesyncParticle(i1, p, k, false, ctx) else (i1, p);
    var fires := AdvanceDesyncs(info, p, curFrame, resim, ctx);
    assert d == if fires then (i1.(history := ClearParticleHistory(info.history, k)), p.(syncState := HardDesync)) else (i1, p);
    var desynced := resim && d.1.syncState != InSync && !ctx.skipDesyncTest;
    var p3 := if desynced then d.1.(enabledDuringResim := true) else d.1;
    var i2 := d.0;
    var i3 :=
      if i2.dirtyDynamics == curFrame && !(resim && p3.syncState == InSync) && IsRigid(p3.kind) then
        AddFrame(i2, curFrame).(history := i2.history.(dynamics := WriteAccessMonotonic(i2.history.dynamics, k, p3.dynamics)))
      else i2;
    (i3, p3, desynced)
  }

  /**
   * When the history was clean at PostCallbacks, as the advance step expects of any particle that is not
   * resimulating in sync, the dynamics it records are read back there.
   */
  lemma AdvanceRecordsDynamics(info: PInfo, p: Particle, curFrame: int, resim: bool, ctx: DesyncContext)
    requires IsClean(info.history.dynamics, PostCallbacksKey(curFrame))
    requires info.dirtyDynamics == curFrame && IsRigid(p.kind)
    ensures var r := AdvanceParticle(info, p, curFrame, resim, ctx);
            (resim && r.1.syncState == InSync) || Read(r.0.history.dynamics, PostCallbacksKey(curFrame)) == Some(p.dynamics)
  {
    var k := PostCallbacksKey(curFrame);
    var c := info.history.dynamics;
    if AdvanceDesyncs(info, p, curFrame, resim, ctx) {
      WriteThenRead(ClearPhaseAndFuture(c, k), k, p.dynamics);
    } else {
      WriteThenRead(c, k, p.dynamics);
    }
  }

  /** The advance step's desync test for a joint. */
  predicate AdvanceJointDesyncs(info: JInfo, j: Joint, curFrame: int, resim: bool, skipDesyncTest: bool) {
    resim && j.resimType != ResimAsFollower && j.syncState == InSync && !skipDesyncTest
    && !JointHistoryInSync(info.history, j, PostCallbacksKey(curFrame))
  }

  /** The per-frame step of a joint that stays tracked: as for a particle, with no dynamics to record. */
  function AdvanceJoint(info: JInfo, j: Joint, curFrame: int, resim: bool, skipDesyncTest: bool): (r: (JInfo, Joint))
    ensures var fires := AdvanceJointDesyncs(info, j, curFrame, resim, skipDesyncTest);
            r.0 == info.(resimAsFollower := j.resimType == ResimAsFollower,
                         history := if fires then ClearJointHistory(info.history, PostCallbacksKey(curFrame)) else info.history)
            && r.1.syncState == if fires then HardDesync else j.syncState
    ensures r.1 == j.(syncState := r.1.syncState, enabledDuringResim := r.1.enabledDuringResim)
    ensures r.1.enabledDuringResim == ((resim && r.1.syncState != InSync && !skipDesyncTest) || j.enabledDuringResim)
  {
    var k := PostCallbacksKey(curFrame);
    var i1 := info.(resimAsFollower := j.resimType == ResimAsFollower);
    var d := if resim && !i1.resimAsFollower then DesyncJoint(i1, j, k, skipDesyncTest) else (i1, j);
    var j3 := if resim && d.1.syncState != InSync && !skipDesyncTest then d.1.(enabledDuringResim := true) else d.1;
    (d.0, j3)
  }

  function AdvanceParticleStep(curFrame: int, resim: bool, ctx: DesyncContext): (step: Step<ParticleHistory, Particle>)
    ensures KeepsObject(step)
  {
    (info, p) => AdvanceParticle(info, p, curFrame, resim, ctx)
  }

  function AdvanceJointStep(curFrame: int, resim: bool, skipDesyncTest: bool): (step: Step<JointHistory, Joint>)
    ensures KeepsObject(step)
  {
    (info, j) => var r := AdvanceJoint(info, j, curFrame, resim, skipDesyncTest); (r.0, r.1, false)
  }

  /**
   * Advancing a frame keeps tracking exactly the objects changed at or after the earliest kept frame,
   * each with its advance step applied and its follower flag taken from its resim type; a particle the
   * desync test catches ends hard-desynced, enabled for the resimulation and reported, and every reported
   * particle is enabled and out of sync; outside a resimulation no live particle changes and none is reported.
   */
  lemma AdvanceParticlesOutcome(reg: seq<PInfo>, objs: map<Id, Particle>, curFrame: int, resim: bool, ctx: DesyncContext, earliest: int)
    requires UniqueIds(reg) && IdsOf(reg) <= objs.Keys
    ensures var r := RetirePass(AdvanceParticleStep(curFrame, resim, ctx), reg, objs, earliest);
            IdsOf(r.0) == (set x | x in reg && Retained(x, earliest) :: x.obj)
            && (forall y :: y in r.0 ==> y.obj in objs && y.resimAsFollower == (objs[y.obj].resimType == ResimAsFollower))
            && (forall x :: x in reg && Retained(x, earliest) ==>
                  var s := AdvanceParticle(x, objs[x.obj], curFrame, resim, ctx);
                  s.0 in r.0 && r.1[x.obj] == s.1 && (x.obj in r.2 <==> s.2))
            && (forall x :: x in reg && Retained(x, earliest) && AdvanceDesyncs(x, objs[x.obj], curFrame, resim, ctx) ==>
                  x.obj in r.2 && r.1[x.obj].syncState == HardDesync && r.1[x.obj].enabledDuringResim)
            && (forall id :: id in r.2 ==> id in r.1 && r.1[id].enabledDuringResim && r.1[id].syncState != InSync)
            && (!resim ==> r.2 == [] && r.1 == objs)
  {
    var step := AdvanceParticleStep(curFrame, resim, ctx);
    assert KeepsObject(step);
    RetirePassIds(step, reg, objs, earliest);
    AdvancedParticlesFollow(reg, objs, curFrame, resim, ctx, earliest);
    AdvancedParticlesPerObject(reg, objs, curFrame, resim, ctx, earliest);
    AdvancedParticlesReported(reg, objs, curFrame, resim, ctx, earliest);
    if !resim {
      AdvanceOutsideResimKeepsParticles(reg, objs, curFrame, ctx, earliest);
    }
  }

  lemma AdvancedParticlesPerObject(reg: seq<PInfo>, objs: map<Id, Particle>, curFrame: int, resim: bool, ctx: DesyncContext, earliest: int)
    requires UniqueIds(reg) && IdsOf(reg) <= objs.Keys
    ensures var r := RetirePass(AdvanceParticleStep(curFrame, resim, ctx), reg, objs, earliest);
            forall x :: x in reg && Retained(x, earliest) ==>
              var s := AdvanceParticle(x, objs[x.obj], curFrame, resim, ctx);
              s.0 in r.0 && r.1[x.obj] == s.1 && (x.obj in r.2 <==> s.2)
  {
    var step := AdvanceParticleStep(curFrame, resim, ctx);
    var r := RetirePass(step, reg, objs, earliest);
    RetirePassPerObject(step, reg, objs, earliest);
    RetirePassFlags(step, reg, objs, earliest);
    forall x | x in reg && Retained(x, earliest) ensures x.obj in r.2 <==> step(x, objs[x.obj]).2 {
      if x.obj in r.2 {
        var y :| y in reg && y.obj == x.obj && Retained(y, earliest) && step(y, objs[y.obj]).2;
        UniqueEntry(reg, x, y);
      }
    }
  }

  lemma AdvancedParticlesFollow(reg: seq<PInfo>, objs: map<Id, Particle>, curFrame: int, resim: bool, ctx: DesyncContext, earliest: int)
    requires UniqueIds(reg) && IdsOf(reg) <= objs.Keys
    ensures var r := RetirePass(AdvanceParticleStep(curFrame, resim, ctx), reg, objs, earliest);
            forall y :: y in r.0 ==> y.obj in objs && y.resimAsFollower == (objs[y.obj].resimType == ResimAsFollower)
  {
    var step := AdvanceParticleStep(curFrame, resim, ctx);
    var r := RetirePass(step, reg, objs, earliest);
    RetirePassSurvivors(step, reg, objs, earliest);
    forall y | y in r.0 ensures y.obj in objs && y.resimAsFollower == (objs[y.obj].resimType == ResimAsFollower) {
      var x :| x in reg && Retained(x, earliest) && y == step(x, objs[x.obj]).0;
      assert x.obj in IdsOf(reg);
    }
  }

  lemma AdvancedParticlesReported(reg: seq<PInfo>, objs: map<Id, Particle>, curFrame: int, resim: bool, ctx: DesyncContext, earliest: int)
    requires UniqueIds(reg) && IdsOf(reg) <= objs.Keys
    ensures var r := RetirePass(AdvanceParticleStep(curFrame, resim, ctx), reg, objs, earliest);
            (forall id :: id in r.2 ==> id in r.1 && r.1[id].enabledDuringResim && r.1[id].syncState != InSync)
            && (!resim ==> r.2 == [])
  {
    var step := AdvanceParticleStep(curFrame, resim, ctx);
    var r := RetirePass(step, reg, objs, earliest);
    RetirePassPerObject(step, reg, objs, earliest);
    RetirePassFlags(step, reg, objs, earliest);
    forall id | id in r.2 ensures id in r.1 && r.1[id].enabledDuringResim && r.1[id].syncState != InSync {
      var x :| x in reg && x.obj == id && Retained(x, earliest) && step(x, objs[x.obj]).2;
      assert x.obj in IdsOf(reg);
    }
  }

  lemma AdvanceOutsideResimKeepsParticles(reg: seq<PInfo>, objs: map<Id, Particle>, curFrame: int, ctx: DesyncContext, earliest: int)
    requires UniqueIds(reg) && IdsOf(reg) <= objs.Keys
    ensures RetirePass(AdvanceParticleStep(curFrame, false, ctx), reg, objs, earliest).1 == objs
  {
    var step := AdvanceParticleStep(curFrame, false, ctx);
    var r := RetirePass(step, reg, objs, earliest);
    RetirePassPerObject(step, reg, objs, earliest);
    RetirePassUntouched(step, reg, objs, earliest);
    forall id | id in objs ensures r.1[id] == objs[id] {
      if id in IdsOf(reg) {
        var i :| 0 <= i < |reg| && reg[i].obj == id;
        assert reg[i] in reg;
      }
    }
  }

  lemma AdvancedJointsFollow(reg: seq<JInfo>, objs: map<Id, Joint>, curFrame: int, resim: bool, skipDesyncTest: bool, earliest: int)
    requires UniqueIds(reg) && IdsOf(reg) <= objs.Keys
    ensures var r := RetirePass(AdvanceJointStep(curFrame, resim, skipDesyncTest), reg, objs, earliest);
            forall y :: y in r.0 ==> y.obj in objs && y.resimAsFollower == (objs[y.obj].resimType == ResimAsFollower)
  {
    var step := AdvanceJointStep(curFrame, resim, skipDesyncTest);
    var r := RetirePass(step, reg, objs, earliest);
    RetirePassSurvivors(step, reg, objs, earliest);
    forall y | y in r.0 ensures y.obj in objs && y.resimAsFollower == (objs[y.obj].resimType == ResimAsFollower) {
      var x :| x in reg && Retained(x, earliest) && y == step(x, objs[x.obj]).0;
      assert x.obj in IdsOf(reg);
    }
  }

  lemma AdvanceOutsideResimKeepsJoints(reg: seq<JInfo>, objs: map<Id, Joint>, curFrame: int, skipDesyncTest: bool, earliest: int)
    requires UniqueIds(reg) && IdsOf(reg) <= objs.Keys
    ensures RetirePass(AdvanceJointStep(curFrame, false, skipDesyncTest), reg, objs, earliest).1 == objs
  {
    var step := AdvanceJointStep(curFrame, false, skipDesyncTest);
    var r := RetirePass(step, reg, objs, earliest);
    RetirePassPerObject(step, reg, objs, earliest);
    RetirePassUntouched(step, reg, objs, earliest);
    forall id | id in objs ensures r.1[id] == objs[id] {
      if id in IdsOf(reg) {
        var i :| 0 <= i < |reg| && reg[i].obj == id;
        assert reg[i] in reg;
      }
    }
  }

  /**
   * Advancing a frame keeps tracking exactly the recently changed joints, each with its advance step
   * applied; a joint the desync test catches ends hard-desynced with its history cleared from PostCallbacks
   * on and enabled for the resimulation; outside a resimulation no live joint changes.
   */
  lemma AdvanceJointsOutcome(reg: seq<JInfo>, objs: map<Id, Joint>, curFrame: int, resim: bool, skipDesyncTest: bool, earliest: int)
    requires UniqueIds(reg) && IdsOf(reg) <= objs.Keys
    ensures var r := RetirePass(AdvanceJointStep(curFrame, resim, skipDesyncTest), reg, objs, earliest);
            IdsOf(r.0) == (set x | x in reg && Retained(x, earliest) :: x.obj)
            && (forall y :: y in r.0 ==> y.obj in objs && y.resimAsFollower == (objs[y.obj].resimType == ResimAsFollower))
            && (forall x :: x in reg && Retained(x, earliest) ==>
                  var s := AdvanceJoint(x, objs[x.obj], curFrame, resim, skipDesyncTest);
                  s.0 in r.0 && r.1[x.obj] == s.1)
            && (forall x :: x in reg && Retained(x, earliest) && AdvanceJointDesyncs(x, objs[x.obj], curFrame, resim, skipDesyncTest) ==>
                  r.1[x.obj].syncState == HardDesync && r.1[x.obj].enabledDuringResim
                  && x.(resimAsFollower := false, history := ClearJointHistory(x.history, PostCallbacksKey(curFrame))) in r.0)
            && r.2 == []
            && (!resim ==> r.1 == objs)
  {
    var step := AdvanceJointStep(curFrame, resim, skipDesyncTest);
    var r := RetirePass(step, reg, objs, earliest);
    RetirePassIds(step, reg, objs, earliest);
    RetirePassPerObject(step, reg, objs, earliest);
    RetirePassFlags(step, reg, objs, earliest);
    AdvancedJointsFollow(reg, objs, curFrame, resim, skipDesyncTest, earliest);
    if !resim {
      AdvanceOutsideResimKeepsJoints(reg, objs, curFrame, skipDesyncTest, earliest);
    }
  }

  // ---------------------------------------------------------------- recording

  /** What the evolution does to a particle it (re-)enables: the particle is no longer disabled. */
  function EnableParticle(p: Particle): (p': Particle)
    ensures !p'.misc.disabled
    ensures p' == p.(misc := p'.misc) && p'.misc == p.misc.(disabled := false)
  {
    p.(misc := p.misc.(disabled := false))
  }

  /** The properties a game-thread push can mark dirty. */
  datatype DirtyFlag = XRDirty | NonFrequentDirty | VelocitiesDirty | KinematicTargetDirty | DynamicMiscDirty | MassPropsDirty | JointSettingsDirty

  function WriteIf<T>(cond: bool, c: Channel<T>, k: FrameAndPhase, v: T): (c': Channel<T>)
    ensures cond ==> c' == WriteAccessMonotonic(c, k, v)
    ensures !cond ==> c' == c
  {
    if cond then WriteAccessMonotonic(c, k, v) else c
  }

  /**
   * What a game-thread push records for a particle entry: the frame is marked dirty; if the particle
   * was initialized before this frame, each dirty property its handle has saves its live value before
   * the push is applied (PrePushData); pushed dynamics are recorded after it (PostPushData) and kept pending.
   */
  function RecordGTParticle(info: PInfo, p: Particle, dirty: set<DirtyFlag>, newDynamics: Option<Payload>, curFrame: int): (info': PInfo)
    ensures info' == info.(lastDirtyFrame := curFrame, dirtyDynamics := info'.dirtyDynamics, history := info'.history)
    ensures newDynamics.Some? ==> info'.dirtyDynamics == curFrame
    ensures newDynamics.Some? ==> info'.history.dynamics == WriteAccessMonotonic(info.history.dynamics, FrameAndPhase(curFrame, PostPushData), newDynamics.value)
    ensures newDynamics.None? ==> info'.dirtyDynamics == info.dirtyDynamics && info'.history.dynamics == info.history.dynamics
    ensures info.initializedOnStep >= curFrame ==> info'.history == info.history.(dynamics := info'.history.dynamics)
    ensures var h, k, kin, rigid := info.history, HeadKey(curFrame), IsKinematic(p.kind), IsRigid(p.kind);
            info.initializedOnStep < curFrame ==>
              info'.history == h.(xr := WriteIf(XRDirty in dirty, h.xr, k, p.xr),
                                  nonFrequent := WriteIf(NonFrequentDirty in dirty, h.nonFrequent, k, p.nonFrequent),
                                  velocities := WriteIf(kin && VelocitiesDirty in dirty, h.velocities, k, p.velocities),
                                  kinematicTarget := WriteIf(kin && KinematicTargetDirty in dirty, h.kinematicTarget, k, p.kinematicTarget),
                                  dynamicsMisc := WriteIf(rigid && DynamicMiscDirty in dirty, h.dynamicsMisc, k, p.misc),
                                  massProps := WriteIf(rigid && MassPropsDirty in dirty, h.massProps, k, p.massProps),
                                  dynamics := info'.history.dynamics)
  {
    var k := HeadKey(curFrame);
    var h := info.history;
    var kin := IsKinematic(p.kind);
    var rigid := IsRigid(p.kind);
    var h1 :=
      if info.initializedOnStep < curFrame then
        h.(xr := WriteIf(XRDirty in dirty, h.xr, k, p.xr),
           nonFrequent := WriteIf(NonFrequentDirty in dirty, h.nonFrequent, k, p.nonFrequent),
           velocities := WriteIf(kin && VelocitiesDirty in dirty, h.velocities, k, p.velocities),
           kinematicTarget := WriteIf(kin && KinematicTargetDirty in dirty, h.kinematicTarget, k, p.kinematicTarget),
           dynamicsMisc := WriteIf(rigid && DynamicMiscDirty in dirty, h.dynamicsMisc, k, p.misc),
           massProps := WriteIf(rigid && MassPropsDirty in dirty, h.massProps, k, p.massProps))
      else h;
    var info1 := AddFrame(info, curFrame).(history := h1);
    match newDynamics
    case None => info1
    case Some(d) =>
      info1.(history := h1.(dynamics := WriteAccessMonotonic(h1.dynamics, FrameAndPhase(curFrame, PostPushData), d)),
             dirtyDynamics := curFrame)
  }

  /** A property pushed at k is read back there, and one not pushed stays clean there. */
  lemma WriteIfFromClean<T>(cond: bool, c: Channel<T>, k: FrameAndPhase, v: T)
    requires IsClean(c, k)
    ensures cond ==> Read(WriteIf(cond, c, k, v), k) == Some(v)
    ensures !cond ==> IsClean(WriteIf(cond, c, k, v), k)
  {
    if cond {
      WriteThenRead(c, k, v);
    }
  }

  /**
   * With the history clean at the frame's PrePushData, as a game-thread push expects, each dirty property
   * the handle has reads back its value from before the push there, and every other property stays clean.
   */
  lemma GTPushSavesPrePushValue(info: PInfo, p: Particle, dirty: set<DirtyFlag>, newDynamics: Option<Payload>, curFrame: int)
    requires info.initializedOnStep < curFrame
    requires ParticleHistoryClean(info.history, HeadKey(curFrame))
    ensures var h', k := RecordGTParticle(info, p, dirty, newDynamics, curFrame).history, HeadKey(curFrame);
            var kin, rigid := IsKinematic(p.kind), IsRigid(p.kind);
            (if XRDirty in dirty then Read(h'.xr, k) == Some(p.xr) else IsClean(h'.xr, k))
            && (if NonFrequentDirty in dirty then Read(h'.nonFrequent, k) == Some(p.nonFrequent) else IsClean(h'.nonFrequent, k))
            && (if kin && VelocitiesDirty in dirty then Read(h'.velocities, k) == Some(p.velocities) else IsClean(h'.velocities, k))
            && (if kin && KinematicTargetDirty in dirty then Read(h'.kinematicTarget, k) == Some(p.kinematicTarget) else IsClean(h'.kinematicTarget, k))
            && (if rigid && DynamicMiscDirty in dirty then Read(h'.dynamicsMisc, k) == Some(p.misc) else IsClean(h'.dynamicsMisc, k))
            && (if rigid && MassPropsDirty in dirty then Read(h'.massProps, k) == Some(p.massProps) else IsClean(h'.massProps, k))
  {
    var h, k, kin, rigid := info.history, HeadKey(curFrame), IsKinematic(p.kind), IsRigid(p.kind);
    WriteIfFromClean(XRDirty in dirty, h.xr, k, p.xr);
    WriteIfFromClean(NonFrequentDirty in dirty, h.nonFrequent, k, p.nonFrequent);
    WriteIfFromClean(kin && VelocitiesDirty in dirty, h.velocities, k, p.velocities);
    WriteIfFromClean(kin && KinematicTargetDirty in dirty, h.kinematicTarget, k, p.kinematicTarget);
    WriteIfFromClean(rigid && DynamicMiscDirty in dirty, h.dynamicsMisc, k, p.misc);
    WriteIfFromClean(rigid && MassPropsDirty in dirty, h.massProps, k, p.massProps);
  }

  function RecordGTJoint(info: JInfo, j: Joint, dirty: set<DirtyFlag>, curFrame: int): (info': JInfo)
    ensures info'.obj == info.obj && info'.lastDirtyFrame == curFrame
    ensures info'.history.settings ==
              WriteIf(info.initializedOnStep < curFrame && JointSettingsDirty in dirty, info.history.settings, HeadKey(curFrame), j.settings)
    ensures info' == info.(lastDirtyFrame := curFrame, history := info'.history)
  {
    var h := info.history;
    var h1 := h.(settings := WriteIf(info.initializedOnStep < curFrame && JointSettingsDirty in dirty, h.settings, HeadKey(curFrame), j.settings));
    AddFrame(info, curFrame).(history := h1)
  }

  /**
   * A non-decreasing write attempted only while recording or while the channel is still clean at k.
   * While recording it records v whenever nothing is recorded after k, overwriting a value recorded at k;
   * otherwise only a write into a clean channel happens.
   */
  function GuardedWrite<T>(recording: bool, c: Channel<T>, k: FrameAndPhase, v: T): (c': Channel<T>)
    ensures IsClean(c, k) ==> c'.entries == c.entries + [Entry(k, v)]
    ensures recording ==> c' == WriteAccessMonotonic(c, k, v)
    ensures !recording && !IsClean(c, k) ==> c' == c
    ensures !NothingAfter(c, k) ==> c' == c
  {
    if recording || IsClean(c, k) then WriteAccessNonDecreasing(c, k, v).0 else c
  }

  /**
   * A guarded write is read back at its key when the channel was clean there, or, while recording in a
   * sorted channel, when nothing was recorded after the key (a value at the key is overwritten).
   */
  lemma GuardedWriteThenRead<T>(recording: bool, c: Channel<T>, k: FrameAndPhase, v: T)
    requires IsClean(c, k) || (recording && Sorted(c) && NothingAfter(c, k))
    ensures Read(GuardedWrite(recording, c, k, v), k) == Some(v)
  {
    WriteThenRead(c, k, v);
  }

  /**
   * What a physics-thread callback records for a particle it touched: pending dynamics, the dirty frame,
   * and the position, velocities and misc state at PostPushData for the casts the particle supports.
   */
  function RecordPTParticle(info: PInfo, p: Particle, curFrame: int, recording: bool): (info': PInfo)
    ensures info' == info.(lastDirtyFrame := curFrame, dirtyDynamics := curFrame, history := info'.history)
    ensures info'.history == info.history.(xr := info'.history.xr, velocities := info'.history.velocities, dynamicsMisc := info'.history.dynamicsMisc)
    ensures info'.history.xr == GuardedWrite(recording, info.history.xr, FrameAndPhase(curFrame, PostPushData), p.xr)
    ensures IsKinematic(p.kind) ==> info'.history.velocities == GuardedWrite(recording, info.history.velocities, FrameAndPhase(curFrame, PostPushData), p.velocities)
    ensures !IsKinematic(p.kind) ==> info'.history.velocities == info.history.velocities
    ensures IsRigid(p.kind) ==> info'.history.dynamicsMisc == GuardedWrite(recording, info.history.dynamicsMisc, FrameAndPhase(curFrame, PostPushData), p.misc)
    ensures !IsRigid(p.kind) ==> info'.history.dynamicsMisc == info.history.dynamicsMisc
  {
    var k := FrameAndPhase(curFrame, PostPushData);
    var h := info.history;
    var h1 := h.(xr := GuardedWrite(recording, h.xr, k, p.xr),
                 velocities := if IsKinematic(p.kind) then GuardedWrite(recording, h.velocities, k, p.velocities) else h.velocities,
                 dynamicsMisc := if IsRigid(p.kind) then GuardedWrite(recording, h.dynamicsMisc, k, p.misc) else h.dynamicsMisc);
    AddFrame(info.(dirtyDynamics := curFrame), curFrame).(history := h1)
  }

  function RecordPTJoint(info: JInfo, j: Joint, curFrame: int, recording: bool): (info': JInfo)
    ensures info' == info.(lastDirtyFrame := curFrame, history := info'.history)
    ensures info'.history.settings == GuardedWrite(recording, info.history.settings, FrameAndPhase(curFrame, PostPushData), j.settings)
  {
    AddFrame(info, curFrame).(history := JointHistory(GuardedWrite(recording, info.history.settings, FrameAndPhase(curFrame, PostPushData), j.settings)))
  }

  /**
   * What the end of the physics-thread push records for a rigid particle at PostCallbacks: its position,
   * its velocities before the callbacks, and its misc state with the object state before the callbacks.
   */
  function RecordPTPush(info: PInfo, p: Particle, curFrame: int, recording: bool): (info': PInfo)
    ensures info' == info.(lastDirtyFrame := curFrame, history := info'.history)
    ensures info'.history == info.history.(xr := info'.history.xr, velocities := info'.history.velocities, dynamicsMisc := info'.history.dynamicsMisc)
    ensures info'.history.xr == GuardedWrite(recording, info.history.xr, PostCallbacksKey(curFrame), p.xr)
    ensures info'.history.velocities == GuardedWrite(recording, info.history.velocities, PostCallbacksKey(curFrame), p.preVelocities)
    ensures info'.history.dynamicsMisc ==
              GuardedWrite(recording, info.history.dynamicsMisc, PostCallbacksKey(curFrame), p.misc.(objectState := p.preObjectState))
  {
    var k := PostCallbacksKey(curFrame);
    var h := info.history;
    var h1 := h.(xr := GuardedWrite(recording, h.xr, k, p.xr),
                 velocities := GuardedWrite(recording, h.velocities, k, p.preVelocities),
                 dynamicsMisc := GuardedWrite(recording, h.dynamicsMisc, k, p.misc.(objectState := p.preObjectState)));
    AddFrame(info, curFrame).(history := h1)
  }

  /** The target state a network-prediction push records: awake or asleep, never disabled. */
  function TargetState(shouldSleep: bool): (m: DynamicMisc)
    ensures !m.disabled
    ensures m.objectState == (if shouldSleep then Sleeping else Dynamic)
  {
    DynamicMisc(false, if shouldSleep then Sleeping else Dynamic, 0)
  }

  /**
   * Records externally supplied targets at an arbitrary key, replacing what is there, unless the
   * particle is resimulating in sync and a target is already recorded at or after the key.
   */
  function RecordTargets(info: PInfo, k: FrameAndPhase, position: Payload, velocity: Payload, shouldSleep: bool, recording: bool): (info': PInfo)
    ensures info' == info.(history := info'.history)
    ensures info'.history == info.history.(targetPositions := info'.history.targetPositions,
              targetVelocities := info'.history.targetVelocities, targetStates := info'.history.targetStates)
    ensures recording || IsClean(info.history.targetPositions, k) ==> info'.history.targetPositions == Insert(info.history.targetPositions, k, position)
    ensures !(recording || IsClean(info.history.targetPositions, k)) ==> info'.history.targetPositions == info.history.targetPositions
    ensures recording || IsClean(info.history.targetVelocities, k) ==> info'.history.targetVelocities == Insert(info.history.targetVelocities, k, velocity)
    ensures !(recording || IsClean(info.history.targetVelocities, k)) ==> info'.history.targetVelocities == info.history.targetVelocities
    ensures recording || IsClean(info.history.targetStates, k) ==> info'.history.targetStates == Insert(info.history.targetStates, k, TargetState(shouldSleep))
    ensures !(recording || IsClean(info.history.targetStates, k)) ==> info'.history.targetStates == info.history.targetStates
  {
    var h := info.history;
    var h1 := h.(targetPositions := if recording || IsClean(h.targetPositions, k) then Insert(h.targetPositions, k, position) else h.targetPositions,
                 targetVelocities := if recording || IsClean(h.targetVelocities, k) then Insert(h.targetVelocities, k, velocity) else h.targetVelocities,
                 targetStates := if recording || IsClean(h.targetStates, k) then Insert(h.targetStates, k, TargetState(shouldSleep)) else h.targetStates);
    info.(history := h1)
  }

  /** Targets recorded while recording are read back at their key. */
  lemma RecordedTargetsReadBack(info: PInfo, k: FrameAndPhase, position: Payload, velocity: Payload, shouldSleep: bool)
    requires Sorted(info.history.targetPositions) && Sorted(info.history.targetVelocities) && Sorted(info.history.targetStates)
    ensures var h' := RecordTargets(info, k, position, velocity, shouldSleep, true).history;
            Read(h'.targetPositions, k) == Some(position) && Read(h'.targetVelocities, k) == Some(velocity)
            && Read(h'.targetStates, k) == Some(TargetState(shouldSleep))
  {
    InsertThenRead(info.history.targetPositions, k, position);
    InsertThenRead(info.history.targetVelocities, k, velocity);
    InsertThenRead(info.history.targetStates, k, TargetState(shouldSleep));
  }

  // ---------------------------------------------------------------- resim frame search

  /**
   * Whether a particle's targets cover frame f: an awake, enabled particle with all three target
   * channels in use must be a non-follower with every target recorded at or after f.
   * A particle with no misc state recorded there imposes nothing.
   */
  predicate ParticleHasTargetHistory(info: PInfo, f: int) {
    var k := RewindKey(f);
    var h := info.history;
    match Read(h.dynamicsMisc, k)
    case None => true
    case Some(m) =>
      !(!m.disabled && m.objectState == Dynamic && !IsEmpty(h.targetPositions) && !IsEmpty(h.targetVelocities) && !IsEmpty(h.targetStates)
        && (info.resimAsFollower || IsClean(h.targetPositions, k) || IsClean(h.targetVelocities, k) || IsClean(h.targetStates, k)))
  }

  /** Frame f can be resimulated from: every particle's targets, every input history and every state history cover it. */
  predicate FrameIsValidResimFrame(reg: seq<PInfo>, inputFrames: seq<set<int>>, stateFrames: seq<set<int>>, f: int) {
    (forall i :: 0 <= i < |reg| ==> ParticleHasTargetHistory(reg[i], f))
    && (forall i :: 0 <= i < |inputFrames| ==> f in inputFrames[i])
    && (forall i :: 0 <= i < |stateFrames| ==> f in stateFrames[i])
  }
}
