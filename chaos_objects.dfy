/**
 * The objects the rewind bookkeeping tracks: the live state of particle and joint
 * handles as the physics thread sees it, the per-object property histories, the
 * per-object registry entries, and the in-sync test that compares the two.
 *
 * Vector, quaternion and mass data are opaque bundles (Payload) compared only for equality.
 */
module ChaosObjects {
  import opened Sequences
  import opened FramePhase
  import opened PropertyHistory

  type Id = nat
  type Payload = int

  /** The index value the source uses for "no frame". */
  const IndexNone: int := -1

  datatype ObjectState = Uninitialized | Sleeping | Kinematic | Static | Dynamic

  datatype DynamicMisc = DynamicMisc(disabled: bool, objectState: ObjectState, other: Payload)

  datatype ParticleKind = GeometryParticle | KinematicParticle | RigidParticle

  /** A rigid particle is also a kinematic particle (the kinematic cast succeeds on both). */
  predicate IsKinematic(k: ParticleKind) { k != GeometryParticle }

  predicate IsRigid(k: ParticleKind) { k == RigidParticle }

  datatype SyncState = InSync | HardDesync

  datatype ResimType = FullResim | ResimAsFollower

  /** The live physics-thread particle handle. */
  datatype Particle = Particle(
    kind: ParticleKind,
    xr: Payload,
    velocities: Payload,
    nonFrequent: Payload,
    kinematicTarget: Payload,
    dynamics: Payload,
    misc: DynamicMisc,
    massProps: Payload,
    preVelocities: Payload,
    preObjectState: ObjectState,
    syncState: SyncState,
    enabledDuringResim: bool,
    resimType: ResimType,
    inertiaConditioningDirty: bool)

  /** The live joint constraint handle. */
  datatype Joint = Joint(settings: Payload, syncState: SyncState, enabledDuringResim: bool, resimType: ResimType)

  /** One history channel per recorded particle property, plus the externally supplied targets. */
  datatype ParticleHistory = ParticleHistory(
    xr: Channel<Payload>,
    velocities: Channel<Payload>,
    nonFrequent: Channel<Payload>,
    kinematicTarget: Channel<Payload>,
    dynamics: Channel<Payload>,
    dynamicsMisc: Channel<DynamicMisc>,
    massProps: Channel<Payload>,
    targetPositions: Channel<Payload>,
    targetVelocities: Channel<Payload>,
    targetStates: Channel<DynamicMisc>)

  datatype JointHistory = JointHistory(settings: Channel<Payload>)

  function EmptyParticleHistory(): (h: ParticleHistory)
    ensures forall k :: ParticleHistoryClean(h, k)
  {
    var e := EmptyChannel<Payload>();
    var m := EmptyChannel<DynamicMisc>();
    ParticleHistory(e, e, e, e, e, m, e, e, e, m)
  }

  function EmptyJointHistory(): (h: JointHistory)
    ensures forall k :: IsClean(h.settings, k)
  {
    JointHistory(EmptyChannel())
  }

  /** Nothing is recorded at or after k in any channel of the history. */
  predicate ParticleHistoryClean(h: ParticleHistory, k: FrameAndPhase) {
    IsClean(h.xr, k) && IsClean(h.velocities, k) && IsClean(h.nonFrequent, k) && IsClean(h.kinematicTarget, k)
    && IsClean(h.dynamics, k) && IsClean(h.dynamicsMisc, k) && IsClean(h.massProps, k)
    && IsClean(h.targetPositions, k) && IsClean(h.targetVelocities, k) && IsClean(h.targetStates, k)
  }

  /** Whether the island manager allows resimulating the particle (the island test is a collaborator). */
  datatype DesyncContext = DesyncContext(
    networkPrediction: bool,
    evolutionResimming: bool,
    particlesWithResimFrame: set<Id>,
    skipDesyncTest: bool)

  predicate IsResimFrameValid(ctx: DesyncContext, id: Id) {
    !(ctx.evolutionResimming && id in ctx.particlesWithResimFrame)
  }

  /**
   * The particle history agrees with the live particle at k. With network prediction and all three
   * target channels in use, only the island manager's verdict counts; otherwise every channel that
   * applies to the particle's kind must agree, dynamics only when not skipped.
   */
  predicate ParticleHistoryInSync(h: ParticleHistory, p: Particle, k: FrameAndPhase, skipDynamics: bool, networkPrediction: bool, resimFrameValid: bool) {
    if networkPrediction && !IsEmpty(h.targetPositions) && !IsEmpty(h.targetVelocities) && !IsEmpty(h.targetStates) then
      resimFrameValid
    else
      IsInSync(h.xr, k, p.xr) && IsInSync(h.nonFrequent, k, p.nonFrequent)
      && (IsKinematic(p.kind) ==> IsInSync(h.velocities, k, p.velocities) && IsInSync(h.kinematicTarget, k, p.kinematicTarget))
      && (IsRigid(p.kind) ==> (skipDynamics || IsInSync(h.dynamics, k, p.dynamics)) && IsInSync(h.dynamicsMisc, k, p.misc) && IsInSync(h.massProps, k, p.massProps))
  }

  predicate JointHistoryInSync(h: JointHistory, j: Joint, k: FrameAndPhase) {
    IsInSync(h.settings, k, j.settings)
  }

  /**
   * Outside the network-prediction branch, a particle is out of sync exactly when some channel that
   * applies to it recorded a value at k that differs from the live value.
   */
  lemma OutOfSyncMeansRecordedMismatch(h: ParticleHistory, p: Particle, k: FrameAndPhase, skipDynamics: bool, resimFrameValid: bool)
    ensures !ParticleHistoryInSync(h, p, k, skipDynamics, false, resimFrameValid) <==>
      (Read(h.xr, k).Some? && Read(h.xr, k).value != p.xr)
      || (Read(h.nonFrequent, k).Some? && Read(h.nonFrequent, k).value != p.nonFrequent)
      || (IsKinematic(p.kind) && Read(h.velocities, k).Some? && Read(h.velocities, k).value != p.velocities)
      || (IsKinematic(p.kind) && Read(h.kinematicTarget, k).Some? && Read(h.kinematicTarget, k).value != p.kinematicTarget)
      || (IsRigid(p.kind) && !skipDynamics && Read(h.dynamics, k).Some? && Read(h.dynamics, k).value != p.dynamics)
      || (IsRigid(p.kind) && Read(h.dynamicsMisc, k).Some? && Read(h.dynamicsMisc, k).value != p.misc)
      || (IsRigid(p.kind) && Read(h.massProps, k).Some? && Read(h.massProps, k).value != p.massProps)
  {
  }

  /** Clears every channel of the history from k onwards. */
  function ClearParticleHistory(h: ParticleHistory, k: FrameAndPhase): (h': ParticleHistory)
    ensures ParticleHistoryClean(h', k)
  {
    ParticleHistory(
      ClearPhaseAndFuture(h.xr, k), ClearPhaseAndFuture(h.velocities, k), ClearPhaseAndFuture(h.nonFrequent, k),
      ClearPhaseAndFuture(h.kinematicTarget, k), ClearPhaseAndFuture(h.dynamics, k), ClearPhaseAndFuture(h.dynamicsMisc, k),
      ClearPhaseAndFuture(h.massProps, k), ClearPhaseAndFuture(h.targetPositions, k), ClearPhaseAndFuture(h.targetVelocities, k),
      ClearPhaseAndFuture(h.targetStates, k))
  }

  function ClearJointHistory(h: JointHistory, k: FrameAndPhase): (h': JointHistory)
    ensures IsClean(h'.settings, k)
  {
    JointHistory(ClearPhaseAndFuture(h.settings, k))
  }

  /** A history with nothing recorded at or after k agrees with any live particle there. */
  lemma CleanHistoryIsInSync(h: ParticleHistory, p: Particle, k: FrameAndPhase, skipDynamics: bool, networkPrediction: bool)
    requires ParticleHistoryClean(h, k)
    ensures ParticleHistoryInSync(h, p, k, skipDynamics, networkPrediction, true)
  {
  }

  /** The registry entry of one tracked object. */
  datatype DirtyInfo<H> = DirtyInfo(
    obj: Id,
    history: H,
    lastDirtyFrame: int,
    initializedOnStep: int,
    resimAsFollower: bool,
    dirtyDynamics: int)

  /** The entry created the first time an object is tracked. */
  function NewDirtyInfo<H>(id: Id, history: H, curFrame: int, initializedOnStep: int): (info: DirtyInfo<H>)
    ensures info.obj == id && info.history == history
    ensures info.lastDirtyFrame == curFrame && info.initializedOnStep == initializedOnStep
    ensures info.resimAsFollower && info.dirtyDynamics == IndexNone
  {
    DirtyInfo(id, history, curFrame, initializedOnStep, true, IndexNone)
  }

  /** Marks the object as changed on frame f. */
  function AddFrame<H>(info: DirtyInfo<H>, f: int): (info': DirtyInfo<H>)
    ensures info'.lastDirtyFrame == f
    ensures info' == info.(lastDirtyFrame := f)
  {
    info.(lastDirtyFrame := f)
  }

  /** No object is tracked twice. */
  ghost predicate UniqueIds<H>(reg: seq<DirtyInfo<H>>) {
    forall a, b :: 0 <= a < b < |reg| ==> reg[a].obj != reg[b].obj
  }

  /** In a registry that tracks every object once, an entry is determined by its object. */
  lemma UniqueEntry<H>(reg: seq<DirtyInfo<H>>, x: DirtyInfo<H>, y: DirtyInfo<H>)
    requires UniqueIds(reg) && x in reg && y in reg && x.obj == y.obj
    ensures x == y
  {
    var a :| 0 <= a < |reg| && reg[a] == x;
    var b :| 0 <= b < |reg| && reg[b] == y;
    assert !(a < b) && !(b < a);
  }

  function IdsOf<H>(reg: seq<DirtyInfo<H>>): set<Id> {
    set i | 0 <= i < |reg| :: reg[i].obj
  }

  /** The position of the entry tracking id, or |reg| when id is not tracked. */
  function IndexOf<H>(reg: seq<DirtyInfo<H>>, id: Id): (i: nat)
    ensures i <= |reg|
    ensures forall j :: 0 <= j < i ==> reg[j].obj != id
    ensures i < |reg| ==> reg[i].obj == id
    ensures i == |reg| <==> id !in IdsOf(reg)
  {
    if reg == [] then 0
    else if reg[0].obj == id then 0
    else
      var r := 1 + IndexOf(reg[1..], id);
      assert r < |reg| ==> reg[r] == reg[1..][r - 1];
      assert id in IdsOf(reg) ==> id in IdsOf(reg[1..]) by {
        if id in IdsOf(reg) {
          var m :| 0 <= m < |reg| && reg[m].obj == id;
          assert reg[1..][m - 1] == reg[m];
        }
      }
      r
  }

  /**
   * The entry tracking id: the existing one, or a new entry appended at the end.
   * Returns the registry and the entry's position.
   */
  function FindOrAddDirtyObj<H>(reg: seq<DirtyInfo<H>>, id: Id, empty: H, curFrame: int, initializedOnStep: int): (r: (seq<DirtyInfo<H>>, nat))
    ensures r.1 < |r.0| && r.0[r.1].obj == id
    ensures id in IdsOf(reg) ==> r.0 == reg
    ensures id !in IdsOf(reg) ==> r.0 == reg + [NewDirtyInfo(id, empty, curFrame, initializedOnStep)] && r.1 == |reg|
    ensures IdsOf(r.0) == IdsOf(reg) + {id}
    ensures UniqueIds(reg) ==> UniqueIds(r.0)
  {
    var i := IndexOf(reg, id);
    if i < |reg| then (reg, i)
    else
      var reg' := reg + [NewDirtyInfo(id, empty, curFrame, initializedOnStep)];
      assert reg'[|reg|].obj == id;
      assert forall j :: 0 <= j < |reg| ==> reg'[j] == reg[j];
      (reg', i)
  }

  /** Replacing an entry by one for the same object keeps the tracked ids and their uniqueness. */
  lemma SetEntryKeepsIds<H>(reg: seq<DirtyInfo<H>>, i: nat, x: DirtyInfo<H>)
    requires i < |reg| && x.obj == reg[i].obj
    ensures IdsOf(reg[i := x]) == IdsOf(reg)
    ensures UniqueIds(reg) ==> UniqueIds(reg[i := x])
  {
    var reg' := reg[i := x];
    assert forall j :: 0 <= j < |reg| ==> reg'[j].obj == reg[j].obj;
  }

  /** Two registries that track the same object at every position track the same ids. */
  lemma SameIds<H>(a: seq<DirtyInfo<H>>, b: seq<DirtyInfo<H>>)
    requires |a| == |b| && forall j :: 0 <= j < |a| ==> a[j].obj == b[j].obj
    ensures IdsOf(a) == IdsOf(b)
    ensures UniqueIds(a) <==> UniqueIds(b)
  {
  }

  /** Swap-removing an entry keeps every object tracked at most once and tracks no new object. */
  lemma RemoveAtSwapIds<H>(reg: seq<DirtyInfo<H>>, i: nat)
    requires i < |reg|
    ensures UniqueIds(reg) ==> UniqueIds(RemoveAtSwap(reg, i))
    ensures IdsOf(RemoveAtSwap(reg, i)) <= IdsOf(reg)
  {
    var r := RemoveAtSwap(reg, i);
    forall id | id in IdsOf(r) ensures id in IdsOf(reg) {
      var j :| 0 <= j < |r| && r[j].obj == id;
      assert r[j] in r;
      var k :| 0 <= k < |reg| && reg[k] == r[j];
    }
    if UniqueIds(reg) && i < |reg| - 1 {
      var last := |reg| - 1;
      forall a, b | 0 <= a < b < |r| ensures r[a].obj != r[b].obj {
        var a' := if a == i then last else a;
        var b' := if b == i then last else b;
        assert r[a] == reg[a'] && r[b] == reg[b'];
      }
    }
  }
}
