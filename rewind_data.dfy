/**
 * The rewind data of a physics solver: frame counters, the registries of tracked particles and
 * joints with their property histories, and the operations that record history, rewind to a past
 * frame, advance and finish frames during a resimulation, apply targets and search for a frame to
 * resimulate from.
 *
 * The solver is a collaborator that owns the live particle and joint handles; the island manager's
 * verdict and network prediction are its state.
 */
module ChaosRewind {
  import opened Wrappers
  import opened FramePhase
  import opened PropertyHistory
  import opened ChaosObjects
  import opened RegistryPasses
  import opened RewindSteps
  import opened Sequences

  class Solver {
    var particles: map<Id, Particle>
    var joints: map<Id, Joint>
    /** The evolution is resimulating. */
    var evolutionResimming: bool
    /** The particles the island manager has a resim frame for. */
    var particlesWithResimFrame: set<Id>
    const networkPrediction: bool

    constructor(networkPrediction: bool, particles: map<Id, Particle>, joints: map<Id, Joint>)
      ensures this.networkPrediction == networkPrediction && this.particles == particles && this.joints == joints
      ensures !evolutionResimming && particlesWithResimFrame == {}
    {
      this.networkPrediction := networkPrediction;
      this.particles := particles;
      this.joints := joints;
      evolutionResimming := false;
      particlesWithResimFrame := {};
    }
  }

  /** The game-thread change of one physics proxy, as handed to the rewind data. */
  datatype DirtyProxy =
    | ParticleProxy(handle: Option<Id>, isInitialized: bool, initializedStep: int, dirty: set<DirtyFlag>, newDynamics: Option<Payload>)
    | JointProxy(jointHandle: Id, isInitialized: bool, initializedStep: int, dirty: set<DirtyFlag>)
    | OtherProxy

  class RewindData {
    const solver: Solver
    /** The number of frames the history buffers hold. */
    const capacity: int
    /** The global switch that assumes every object stays in sync. */
    const skipDesyncTest: bool

    var curFrame: int
    var latestFrame: int
    var framesSaved: int
    var needsSave: bool
    var dirtyParticles: seq<PInfo>
    var dirtyJoints: seq<JInfo>
    /** The particles whose correction error was accumulated since the last hand-over. */
    var particleErrors: set<Id>

    ghost predicate Valid()
      reads this, solver
    {
      capacity >= 1 && framesSaved >= 0
      && UniqueIds(dirtyParticles) && IdsOf(dirtyParticles) <= solver.particles.Keys
      && UniqueIds(dirtyJoints) && IdsOf(dirtyJoints) <= solver.joints.Keys
    }

    constructor(solver: Solver, capacity: int, skipDesyncTest: bool, currentFrame: int)
      requires capacity >= 1
      ensures Valid() && fresh(this)
      ensures this.solver == solver && this.capacity == capacity && this.skipDesyncTest == skipDesyncTest
      ensures curFrame == currentFrame && latestFrame == currentFrame && framesSaved == 0 && !needsSave
      ensures dirtyParticles == [] && dirtyJoints == [] && particleErrors == {}
    {
      this.solver := solver;
      this.capacity := capacity;
      this.skipDesyncTest := skipDesyncTest;
      curFrame := currentFrame;
      latestFrame := currentFrame;
      framesSaved := 0;
      needsSave := false;
      dirtyParticles := [];
      dirtyJoints := [];
      particleErrors := {};
    }

    function EarliestFrame(): int
      reads this
    {
      curFrame - framesSaved
    }

    predicate IsResim()
      reads this
    {
      curFrame < latestFrame
    }

    predicate IsFinalResim()
      reads this
    {
      curFrame + 1 == latestFrame
    }

    predicate IsResimAndInSync(s: SyncState)
      reads this
    {
      IsResim() && s == InSync
    }

    function Ctx(): DesyncContext
      reads this, solver
    {
      DesyncContext(solver.networkPrediction, solver.evolutionResimming, solver.particlesWithResimFrame, skipDesyncTest)
    }

    /** A rewind is refused below the earliest kept frame, and at it when a save is pending and the buffer is full. */
    predicate RewindRejected(frame: int)
      reads this
    {
      frame < EarliestFrame() || (frame == EarliestFrame() && needsSave && framesSaved == capacity)
    }

    // ------------------------------------------------------------ loops over the registries

    /** Visits every tracked particle once, front to back. */
    method VisitParticles(step: Step<ParticleHistory, Particle>) returns (flagged: set<Id>)
      requires Valid() && KeepsObject(step)
      modifies this`dirtyParticles, solver`particles
      ensures Valid()
      ensures var r := PassAll(step, old(dirtyParticles), old(solver.particles));
              dirtyParticles == r.0 && solver.particles == r.1 && flagged == r.2
    {
      PassKeepsIds(step, dirtyParticles, solver.particles);
      dirtyParticles, solver.particles, flagged := VisitAll(step, dirtyParticles, solver.particles);
    }

    /** Visits every tracked joint once, front to back. */
    method VisitJoints(step: Step<JointHistory, Joint>)
      requires Valid() && KeepsObject(step)
      modifies this`dirtyJoints, solver`joints
      ensures Valid()
      ensures var r := PassAll(step, old(dirtyJoints), old(solver.joints));
              dirtyJoints == r.0 && solver.joints == r.1
    {
      PassKeepsIds(step, dirtyJoints, solver.joints);
      var reg, js, _ := VisitAll(step, dirtyJoints, solver.joints);
      dirtyJoints, solver.joints := reg, js;
    }

    // ------------------------------------------------------------ rewind, targets, frames

    /**
     * Rewinds every tracked particle to frame. Refused, with nothing changed, below the earliest kept
     * frame and at the earliest frame when a save is pending and the buffer is full.
     */
    method RewindToFrame(frame: int) returns (ok: bool)
      requires Valid()
      modifies this`curFrame, this`needsSave, this`dirtyParticles, solver`particles
      ensures Valid()
      ensures old(RewindRejected(frame)) ==> !ok && unchanged(this) && unchanged(solver)
      ensures !old(RewindRejected(frame)) ==>
                ok && curFrame == frame && !needsSave
                && var r := PassAll(ParticleStepOf(RewindPass(frame, old(curFrame))), old(dirtyParticles), old(solver.particles));
                   dirtyParticles == r.0 && solver.particles == r.1
    {
      var earliestFrame := EarliestFrame();
      if frame < earliestFrame {
        return false;
      }
      if frame == earliestFrame && needsSave && framesSaved == capacity {
        return false;
      }
      var _ := VisitParticles(ParticleStepOf(RewindPass(frame, curFrame)));
      curFrame := frame;
      needsSave := false;
      ok := true;
    }

    /** Moves every non-follower particle to the targets recorded for frame; the registry is untouched. */
    method ApplyTargets(frame: int)
      requires Valid()
      modifies this`dirtyParticles, solver`particles
      ensures Valid()
      ensures dirtyParticles == old(dirtyParticles)
      ensures solver.particles == PassAll(ParticleStepOf(ApplyTargetsPass(frame)), old(dirtyParticles), old(solver.particles)).1
    {
      ghost var reg0 := dirtyParticles;
      ghost var ps0 := solver.particles;
      var _ := VisitParticles(ParticleStepOf(ApplyTargetsPass(frame)));
      PassPerObject(ParticleStepOf(ApplyTargetsPass(frame)), reg0, ps0);
      assert dirtyParticles == reg0;
    }

    /**
     * Ends the current frame. During a resimulation every tracked particle and joint goes through the
     * finish step (on the final resim it is back in sync; before that it is tested for desync), and the
     * particles whose correction error exceeds the threshold (exceedsError) have it recorded.
     */
    method FinishFrame(exceedsError: set<Id>)
      requires Valid()
      modifies this`curFrame, this`latestFrame, this`dirtyParticles, this`dirtyJoints, this`particleErrors, solver`particles, solver`joints
      ensures Valid()
      ensures curFrame == old(curFrame) + 1
      ensures latestFrame == (if old(latestFrame) > curFrame then old(latestFrame) else curFrame)
      ensures latestFrame >= curFrame && latestFrame >= old(latestFrame)
      ensures old(IsResim()) ==>
                var r := PassAll(ParticleStepOf(FinishPass(old(curFrame), old(IsFinalResim()), exceedsError, old(Ctx()))),
                                 old(dirtyParticles), old(solver.particles));
                var rj := PassAll(JointFinishStep(old(curFrame), old(IsFinalResim()), skipDesyncTest), old(dirtyJoints), old(solver.joints));
                dirtyParticles == r.0 && solver.particles == r.1 && particleErrors == old(particleErrors) + r.2
                && dirtyJoints == rj.0 && solver.joints == rj.1
      ensures !old(IsResim()) ==>
                dirtyParticles == old(dirtyParticles) && solver.particles == old(solver.particles)
                && dirtyJoints == old(dirtyJoints) && solver.joints == old(solver.joints) && particleErrors == old(particleErrors)
    {
      if IsResim() {
        var flagged := VisitParticles(ParticleStepOf(FinishPass(curFrame, IsFinalResim(), exceedsError, Ctx())));
        particleErrors := particleErrors + flagged;
        VisitJoints(JointFinishStep(curFrame, IsFinalResim(), skipDesyncTest));
      }
      curFrame := curFrame + 1;
      latestFrame := if latestFrame > curFrame then latestFrame else curFrame;
    }

    /**
     * Starts a new frame: the saved-frame count grows up to capacity - 1, objects unchanged since before
     * the earliest kept frame stop being tracked, and the others go through the advance step.
     * Returns the particles found desynced during a resimulation, in the order they were met.
     */
    method AdvanceFrameImp() returns (desynced: seq<Id>)
      requires Valid()
      modifies this`framesSaved, this`dirtyParticles, this`dirtyJoints, solver`particles, solver`joints
      ensures Valid()
      ensures framesSaved == (if old(framesSaved) + 1 < capacity - 1 then old(framesSaved) + 1 else capacity - 1)
      ensures 0 <= framesSaved < capacity
      ensures var earliest := curFrame - 1 - framesSaved;
              var r := RetirePass(AdvanceParticleStep(curFrame, old(IsResim()), old(Ctx())), old(dirtyParticles), old(solver.particles), earliest);
              var rj := RetirePass(AdvanceJointStep(curFrame, old(IsResim()), skipDesyncTest), old(dirtyJoints), old(solver.joints), earliest);
              multiset(dirtyParticles) == multiset(r.0) && solver.particles == r.1 && desynced == r.2
              && multiset(dirtyJoints) == multiset(rj.0) && solver.joints == rj.1
    {
      var resim, ctx := IsResim(), Ctx();
      framesSaved := if framesSaved + 1 < capacity - 1 then framesSaved + 1 else capacity - 1;
      var earliestFrame := curFrame - 1 - framesSaved;
      var pStep := AdvanceParticleStep(curFrame, resim, ctx);
      var jStep := AdvanceJointStep(curFrame, resim, skipDesyncTest);
      var regP, ps;
      regP, ps, desynced := RetireAll(pStep, dirtyParticles, solver.particles, earliestFrame);
      var regJ, js, _ := RetireAll(jStep, dirtyJoints, solver.joints, earliestFrame);
      dirtyParticles, solver.particles, dirtyJoints, solver.joints := regP, ps, regJ, js;
      assert earliestFrame == curFrame - 1 - framesSaved;
      assert pStep == AdvanceParticleStep(curFrame, old(IsResim()), old(Ctx()));
      assert jStep == AdvanceJointStep(curFrame, old(IsResim()), skipDesyncTest);
    }

    /** Makes sure the history reaches back to frame. */
    method ExtendHistoryWithFrame(frame: int)
      requires Valid()
      modifies this`framesSaved
      ensures Valid()
      ensures framesSaved >= old(framesSaved) && EarliestFrame() <= frame - 1
      ensures framesSaved == old(framesSaved) || framesSaved == curFrame - frame + 1
    {
      framesSaved := if curFrame - frame + 1 > framesSaved then curFrame - frame + 1 else framesSaved;
    }

    /** Hands over the accumulated correction errors and forgets them. */
    method BufferPhysicsResults() returns (errors: set<Id>)
      modifies this`particleErrors
      ensures errors == old(particleErrors) && particleErrors == {}
    {
      errors := particleErrors;
      particleErrors := {};
    }

    // ------------------------------------------------------------ ingestion

    /** The entry tracking particle id, added with the given initialization step when it is not tracked yet. */
    method TrackParticle(id: Id, initializedOnStep: int) returns (i: nat)
      requires Valid() && id in solver.particles
      modifies this`dirtyParticles
      ensures Valid()
      ensures var r := FindOrAddDirtyObj(old(dirtyParticles), id, EmptyParticleHistory(), curFrame, initializedOnStep);
              dirtyParticles == r.0 && i == r.1
    {
      var r := FindOrAddDirtyObj(dirtyParticles, id, EmptyParticleHistory(), curFrame, initializedOnStep);
      dirtyParticles, i := r.0, r.1;
    }

    method TrackJoint(id: Id, initializedOnStep: int) returns (i: nat)
      requires Valid() && id in solver.joints
      modifies this`dirtyJoints
      ensures Valid()
      ensures var r := FindOrAddDirtyObj(old(dirtyJoints), id, EmptyJointHistory(), curFrame, initializedOnStep);
              dirtyJoints == r.0 && i == r.1
    {
      var r := FindOrAddDirtyObj(dirtyJoints, id, EmptyJointHistory(), curFrame, initializedOnStep);
      dirtyJoints, i := r.0, r.1;
    }

    /** Replaces the tracked entry at i by one for the same object. */
    method SetParticleInfo(i: nat, info: PInfo)
      requires Valid() && i < |dirtyParticles| && info.obj == dirtyParticles[i].obj
      modifies this`dirtyParticles
      ensures Valid() && dirtyParticles == old(dirtyParticles)[i := info]
    {
      SetEntryKeepsIds(dirtyParticles, i, info);
      dirtyParticles := dirtyParticles[i := info];
    }

    method SetJointInfo(i: nat, info: JInfo)
      requires Valid() && i < |dirtyJoints| && info.obj == dirtyJoints[i].obj
      modifies this`dirtyJoints
      ensures Valid() && dirtyJoints == old(dirtyJoints)[i := info]
    {
      SetEntryKeepsIds(dirtyJoints, i, info);
      dirtyJoints := dirtyJoints[i := info];
    }

    /** Whether a game-thread push of proxy reaches the history: during a resimulation an object in sync is skipped. */
    predicate GTPushRecords(proxy: DirtyProxy)
      requires proxy.ParticleProxy? && proxy.handle.Some? ==> proxy.handle.value in solver.particles
      requires proxy.JointProxy? ==> proxy.jointHandle in solver.joints
      reads this, solver
    {
      match proxy
      case ParticleProxy(handle, _, _, _, _) => handle.Some? && !IsResimAndInSync(solver.particles[handle.value].syncState)
      case JointProxy(id, _, _, _) => !IsResimAndInSync(solver.joints[id].syncState)
      case OtherProxy => false
    }

    /**
     * Records the properties the game thread changed for one proxy, at PrePushData of the current frame,
     * and the new dynamics at PostPushData. A proxy reinitialized at this frame during a resimulation is
     * enabled for the resimulation. Always marks that a save is needed.
     */
    method PushGTDirtyData(proxy: DirtyProxy)
      requires Valid()
      requires proxy.ParticleProxy? && proxy.handle.Some? ==> proxy.handle.value in solver.particles
      requires proxy.JointProxy? ==> proxy.jointHandle in solver.joints
      modifies this`needsSave, this`dirtyParticles, this`dirtyJoints, solver`particles, solver`joints
      ensures Valid() && needsSave
      ensures !old(GTPushRecords(proxy)) ==>
                dirtyParticles == old(dirtyParticles) && dirtyJoints == old(dirtyJoints)
                && solver.particles == old(solver.particles) && solver.joints == old(solver.joints)
      ensures proxy.ParticleProxy? && old(GTPushRecords(proxy)) ==>
                var id := proxy.handle.value;
                var p := old(solver.particles[id]);
                var p' := if old(IsResim()) && proxy.initializedStep == curFrame then p.(enabledDuringResim := true) else p;
                var r := FindOrAddDirtyObj(old(dirtyParticles), id, EmptyParticleHistory(), curFrame, if proxy.isInitialized then IndexNone else curFrame);
                solver.particles == old(solver.particles)[id := p'] && solver.joints == old(solver.joints)
                && dirtyParticles == r.0[r.1 := RecordGTParticle(r.0[r.1], p', proxy.dirty, proxy.newDynamics, curFrame)]
                && dirtyJoints == old(dirtyJoints)
      ensures proxy.JointProxy? && old(GTPushRecords(proxy)) ==>
                var id := proxy.jointHandle;
                var j := old(solver.joints[id]);
                var j' := if old(IsResim()) && proxy.initializedStep == curFrame then j.(enabledDuringResim := true) else j;
                var r := FindOrAddDirtyObj(old(dirtyJoints), id, EmptyJointHistory(), curFrame, if proxy.isInitialized then IndexNone else curFrame);
                solver.joints == old(solver.joints)[id := j'] && solver.particles == old(solver.particles)
                && dirtyJoints == r.0[r.1 := RecordGTJoint(r.0[r.1], j', proxy.dirty, curFrame)]
                && dirtyParticles == old(dirtyParticles)
    {
      needsSave := true;
      match proxy
      case ParticleProxy(handle, isInitialized, initializedStep, dirty, newDynamics) =>
        if handle.Some? && !IsResimAndInSync(solver.particles[handle.value].syncState) {
          PushGTParticle(handle.value, isInitialized, initializedStep, dirty, newDynamics);
        }
      case JointProxy(id, isInitialized, initializedStep, dirty) =>
        if !IsResimAndInSync(solver.joints[id].syncState) {
          PushGTJoint(id, isInitialized, initializedStep, dirty);
        }
      case OtherProxy =>
    }

    /** The particle half of PushGTDirtyData, for a particle whose push is recorded. */
    method PushGTParticle(id: Id, isInitialized: bool, initializedStep: int, dirty: set<DirtyFlag>, newDynamics: Option<Payload>)
      requires Valid() && id in solver.particles && !IsResimAndInSync(solver.particles[id].syncState)
      modifies this`dirtyParticles, solver`particles
      ensures Valid()
      ensures var p := old(solver.particles[id]);
              var p' := if IsResim() && initializedStep == curFrame then p.(enabledDuringResim := true) else p;
              var r := FindOrAddDirtyObj(old(dirtyParticles), id, EmptyParticleHistory(), curFrame, if isInitialized then IndexNone else curFrame);
              solver.particles == old(solver.particles)[id := p']
              && dirtyParticles == r.0[r.1 := RecordGTParticle(r.0[r.1], p', dirty, newDynamics, curFrame)]
    {
      var p := solver.particles[id];
      if IsResim() && initializedStep == curFrame {
        p := p.(enabledDuringResim := true);
        solver.particles := solver.particles[id := p];
      }
      var i := TrackParticle(id, if isInitialized then IndexNone else curFrame);
      SetParticleInfo(i, RecordGTParticle(dirtyParticles[i], p, dirty, newDynamics, curFrame));
    }

    /** The joint half of PushGTDirtyData, for a joint whose push is recorded. */
    method PushGTJoint(id: Id, isInitialized: bool, initializedStep: int, dirty: set<DirtyFlag>)
      requires Valid() && id in solver.joints && !IsResimAndInSync(solver.joints[id].syncState)
      modifies this`dirtyJoints, solver`joints
      ensures Valid()
      ensures var j := old(solver.joints[id]);
              var j' := if IsResim() && initializedStep == curFrame then j.(enabledDuringResim := true) else j;
              var r := FindOrAddDirtyObj(old(dirtyJoints), id, EmptyJointHistory(), curFrame, if isInitialized then IndexNone else curFrame);
              solver.joints == old(solver.joints)[id := j']
              && dirtyJoints == r.0[r.1 := RecordGTJoint(r.0[r.1], j', dirty, curFrame)]
    {
      var j := solver.joints[id];
      if IsResim() && initializedStep == curFrame {
        j := j.(enabledDuringResim := true);
        solver.joints := solver.joints[id := j];
      }
      var i := TrackJoint(id, if isInitialized then IndexNone else curFrame);
      SetJointInfo(i, RecordGTJoint(dirtyJoints[i], j, dirty, curFrame));
    }

    /**
     * A proxy whose initialization step lies in the future was spawned by a frame that is being
     * resimulated: it is tracked, enabled, desynced from its initialization step and reinitialized at
     * the current frame, which is returned as its new initialization step.
     */
    method SpawnProxyIfNeeded(id: Id, initializedStep: int) returns (newInitializedStep: int)
      requires Valid() && id in solver.particles
      modifies this`dirtyParticles, solver`particles
      ensures Valid()
      ensures initializedStep <= curFrame ==>
                newInitializedStep == initializedStep && dirtyParticles == old(dirtyParticles) && solver.particles == old(solver.particles)
      ensures initializedStep > curFrame ==>
                newInitializedStep == curFrame
                && var r := FindOrAddDirtyObj(old(dirtyParticles), id, EmptyParticleHistory(), curFrame, curFrame);
                   var d := DesyncObject(r.0[r.1], EnableParticle(old(solver.particles[id])), FrameAndPhase(initializedStep, PrePushData));
                   dirtyParticles == r.0[r.1 := d.0.(initializedOnStep := curFrame)] && solver.particles == old(solver.particles)[id := d.1]
      ensures initializedStep > curFrame ==>
                id in IdsOf(dirtyParticles) && solver.particles[id].syncState == HardDesync && !solver.particles[id].misc.disabled
    {
      newInitializedStep := initializedStep;
      if initializedStep > curFrame {
        var i := TrackParticle(id, curFrame);
        var p := EnableParticle(solver.particles[id]);
        // The initialization step lies after the current frame, so it always differs from it.
        var d := DesyncObject(dirtyParticles[i], p, FrameAndPhase(initializedStep, PrePushData));
        solver.particles := solver.particles[id := d.1];
        newInitializedStep := curFrame;
        SetParticleInfo(i, d.0.(initializedOnStep := curFrame));
        assert dirtyParticles[i].obj == id;
      }
    }

    /**
     * Records what a physics-thread callback may have changed on a particle at PostPushData of the
     * current frame, and marks its dynamics pending. An in-sync particle during a resimulation only
     * fills channels that are still clean.
     */
    method MarkDirtyFromPT(id: Id)
      requires Valid() && id in solver.particles
      modifies this`dirtyParticles
      ensures Valid()
      ensures var p := solver.particles[id];
              var r := FindOrAddDirtyObj(old(dirtyParticles), id, EmptyParticleHistory(), curFrame, IndexNone);
              dirtyParticles == r.0[r.1 := RecordPTParticle(r.0[r.1], p, curFrame, !IsResimAndInSync(p.syncState))]
    {
      var p := solver.particles[id];
      var i := TrackParticle(id, IndexNone);
      SetParticleInfo(i, RecordPTParticle(dirtyParticles[i], p, curFrame, !IsResimAndInSync(p.syncState)));
    }

    method MarkDirtyJointFromPT(id: Id)
      requires Valid() && id in solver.joints
      modifies this`dirtyJoints
      ensures Valid()
      ensures var j := solver.joints[id];
              var r := FindOrAddDirtyObj(old(dirtyJoints), id, EmptyJointHistory(), curFrame, IndexNone);
              dirtyJoints == r.0[r.1 := RecordPTJoint(r.0[r.1], j, curFrame, !IsResimAndInSync(j.syncState))]
    {
      var j := solver.joints[id];
      var i := TrackJoint(id, IndexNone);
      SetJointInfo(i, RecordPTJoint(dirtyJoints[i], j, curFrame, !IsResimAndInSync(j.syncState)));
    }

    /** Records the state of a rigid particle after the callbacks, at PostCallbacks of the current frame. */
    method PushPTDirtyData(id: Id)
      requires Valid() && id in solver.particles && IsRigid(solver.particles[id].kind)
      modifies this`dirtyParticles
      ensures Valid()
      ensures var p := solver.particles[id];
              var r := FindOrAddDirtyObj(old(dirtyParticles), id, EmptyParticleHistory(), curFrame, IndexNone);
              dirtyParticles == r.0[r.1 := RecordPTPush(r.0[r.1], p, curFrame, !IsResimAndInSync(p.syncState))]
    {
      var p := solver.particles[id];
      var i := TrackParticle(id, IndexNone);
      SetParticleInfo(i, RecordPTPush(dirtyParticles[i], p, curFrame, !IsResimAndInSync(p.syncState)));
    }

    /** Records network-prediction targets for a particle at an arbitrary frame and phase. */
    method PushStateAtFrame(id: Id, frame: int, phase: Phase, position: Payload, velocity: Payload, shouldSleep: bool)
      requires Valid() && id in solver.particles
      modifies this`dirtyParticles
      ensures Valid()
      ensures var p := solver.particles[id];
              var r := FindOrAddDirtyObj(old(dirtyParticles), id, EmptyParticleHistory(), curFrame, IndexNone);
              dirtyParticles == r.0[r.1 := RecordTargets(r.0[r.1], FrameAndPhase(frame, phase), position, velocity, shouldSleep, !IsResimAndInSync(p.syncState))]
    {
      var recording := !IsResimAndInSync(solver.particles[id].syncState);
      var i := TrackParticle(id, IndexNone);
      SetParticleInfo(i, RecordTargets(dirtyParticles[i], FrameAndPhase(frame, phase), position, velocity, shouldSleep, recording));
    }

    /** Forgets everything a particle recorded at and after the given frame and phase. */
    method ClearPhaseAndFuture(id: Id, frame: int, phase: Phase)
      requires Valid() && id in solver.particles
      modifies this`dirtyParticles
      ensures Valid()
      ensures var r := FindOrAddDirtyObj(old(dirtyParticles), id, EmptyParticleHistory(), curFrame, IndexNone);
              dirtyParticles == r.0[r.1 := r.0[r.1].(history := ClearParticleHistory(r.0[r.1].history, FrameAndPhase(frame, phase)))]
      ensures exists i :: 0 <= i < |dirtyParticles| && dirtyParticles[i].obj == id
                          && ParticleHistoryClean(dirtyParticles[i].history, FrameAndPhase(frame, phase))
    {
      var i := TrackParticle(id, IndexNone);
      SetParticleInfo(i, dirtyParticles[i].(history := ClearParticleHistory(dirtyParticles[i].history, FrameAndPhase(frame, phase))));
      assert dirtyParticles[i].obj == id;
    }

    // ------------------------------------------------------------ resim frame search

    /** Whether frame f can be resimulated from, given which frames each input and state history holds. */
    method HasTargetHistory(f: int, inputFrames: seq<set<int>>, stateFrames: seq<set<int>>) returns (b: bool)
      ensures b == FrameIsValidResimFrame(dirtyParticles, inputFrames, stateFrames, f)
    {
      b := true;
      var i := 0;
      while i < |dirtyParticles|
        invariant 0 <= i <= |dirtyParticles|
        invariant b == forall j :: 0 <= j < i ==> ParticleHasTargetHistory(dirtyParticles[j], f)
      {
        if !ParticleHasTargetHistory(dirtyParticles[i], f) {
          b := false;
          break;
        }
        i := i + 1;
      }
      if b {
        i := 0;
        while i < |inputFrames|
          invariant 0 <= i <= |inputFrames|
          invariant b == forall j :: 0 <= j < i ==> f in inputFrames[j]
        {
          if f !in inputFrames[i] {
            b := false;
            break;
          }
          i := i + 1;
        }
      }
      if b {
        i := 0;
        while i < |stateFrames|
          invariant 0 <= i <= |stateFrames|
          invariant b == forall j :: 0 <= j < i ==> f in stateFrames[j]
        {
          if f !in stateFrames[i] {
            b := false;
            break;
          }
          i := i + 1;
        }
      }
    }

    /**
     * The latest frame at or before requested, and not before the earliest kept frame (nor 0), that can
     * be resimulated from. When none can, the frame just below the searched range; for a requested frame
     * that is not positive, INDEX_NONE.
     */
    method FindValidResimFrame(requested: int, inputFrames: seq<set<int>>, stateFrames: seq<set<int>>) returns (valid: int)
      ensures requested <= 0 ==> valid == IndexNone
      ensures var earliest := if EarliestFrame() > 0 then EarliestFrame() else 0;
              requested > 0 && valid >= earliest ==>
                valid <= requested && FrameIsValidResimFrame(dirtyParticles, inputFrames, stateFrames, valid)
      ensures var earliest := if EarliestFrame() > 0 then EarliestFrame() else 0;
              requested > 0 ==>
                forall f :: valid < f <= requested && earliest <= f ==> !FrameIsValidResimFrame(dirtyParticles, inputFrames, stateFrames, f)
      ensures var earliest := if EarliestFrame() > 0 then EarliestFrame() else 0;
              requested > 0 && valid < earliest ==> valid == (if requested < earliest then requested else earliest - 1)
    {
      valid := IndexNone;
      if requested > 0 {
        var earliest := if EarliestFrame() > 0 then EarliestFrame() else 0;
        valid := requested;
        while valid >= earliest
          invariant valid <= requested
          invariant requested >= earliest ==> valid >= earliest - 1
          invariant requested < earliest ==> valid == requested
          invariant forall f :: valid < f <= requested ==> !FrameIsValidResimFrame(dirtyParticles, inputFrames, stateFrames, f)
        {
          var ok := HasTargetHistory(valid, inputFrames, stateFrames);
          if ok {
            break;
          }
          valid := valid - 1;
        }
      }
    }
  }
}
