/**
 * The key that addresses every recorded value of the rewind history: a simulation
 * frame and a phase within that frame.
 */
module FramePhase {

  /** The phases of one frame, in the order they happen. */
  datatype Phase = PrePushData | PostPushData | PostCallbacks

  /** The ordinal of a phase. */
  function PhaseIndex(p: Phase): (n: nat)
    ensures n < NumPhases
    ensures p == PrePushData <==> n == 0
    ensures p == PostCallbacks <==> n == NumPhases - 1
  {
    match p
    case PrePushData => 0
    case PostPushData => 1
    case PostCallbacks => 2
  }

  const NumPhases: nat := 3

  datatype FrameAndPhase = FrameAndPhase(frame: int, phase: Phase)

  /** The strict order on keys: first by frame, then by phase. */
  predicate Before(a: FrameAndPhase, b: FrameAndPhase) {
    a.frame < b.frame || (a.frame == b.frame && PhaseIndex(a.phase) < PhaseIndex(b.phase))
  }

  /** `Before` is a strict total order. */
  lemma BeforeIsStrictTotalOrder(a: FrameAndPhase, b: FrameAndPhase, c: FrameAndPhase)
    ensures !Before(a, a)
    ensures Before(a, b) && Before(b, c) ==> Before(a, c)
    ensures a == b || Before(a, b) || Before(b, a)
    ensures !(Before(a, b) && Before(b, a))
  {
  }

  /** Every phase of frame f comes before the first phase of frame f + 1, and after every phase of earlier frames. */
  lemma FrameBoundary(f: int, p: Phase, q: Phase)
    ensures Before(FrameAndPhase(f, p), FrameAndPhase(f + 1, PrePushData))
    ensures !Before(FrameAndPhase(f, p), FrameAndPhase(f, PrePushData))
    ensures Before(FrameAndPhase(f, p), FrameAndPhase(f, q)) <==> PhaseIndex(p) < PhaseIndex(q)
  {
  }
}
