/** The splash loader: a progress counter advanced every 50 ms by 2 until it reaches 100, when
    its interval stops and the completion callback is scheduled, and a caption stage that
    cycles every second through four captions. */
module ImmersiveLoader {

  /** The step added on each progress tick. */
  const Step: nat := 2

  /** The progress value at which the loader stops. */
  const Full: nat := 100

  /** The number of captions the stage counter cycles through. */
  const StageCount: nat := 4

  /** The loader state: progress, caption stage, whether the progress interval is still armed,
      and how many times the completion callback has been scheduled. */
  datatype Loader = Loader(progress: nat, stage: nat, running: bool, completions: nat)

  /** The state on mount. */
  const Initial: Loader := Loader(0, 0, true, 0)

  /** One firing of the progress interval. Below `Full` the progress grows by `Step`; at or
      above it the progress is pinned to `Full`, the interval is cleared and completion is
      scheduled once. A cleared interval never fires again. */
  function ProgressTick(s: Loader): (t: Loader)
    ensures t.stage == s.stage
    ensures s.running && s.progress < Full ==> t == s.(progress := s.progress + Step)
    ensures s.running && s.progress >= Full ==>
      t.progress == Full && !t.running && t.completions == s.completions + 1
    ensures !s.running ==> t == s
  {
    if !s.running then s
    else if s.progress >= Full then s.(progress := Full, running := false, completions := s.completions + 1)
    else s.(progress := s.progress + Step)
  }

  /** One firing of the caption interval: the next caption, wrapping after the last. */
  function StageTick(s: Loader): (t: Loader)
    requires s.stage < StageCount
    ensures t.stage < StageCount
    ensures s.stage < StageCount - 1 ==> t.stage == s.stage + 1
    ensures s.stage == StageCount - 1 ==> t.stage == 0
    ensures t.(stage := s.stage) == s
  {
    s.(stage := (s.stage + 1) % StageCount)
  }

  /** The states reachable from `Initial`: progress even and within [0, `Full`], stage a
      valid caption, and completion scheduled exactly when the interval has stopped, which
      happens only at `Full`. */
  predicate Reachable(s: Loader)
  {
    && s.progress <= Full && s.progress % 2 == 0
    && s.stage < StageCount
    && (s.running ==> s.completions == 0)
    && (!s.running ==> s.completions == 1 && s.progress == Full)
  }

  /** The two intervals, as events. */
  datatype Beat = ProgressBeat | StageBeat

  /** The state after the events `beats`, in order. */
  function Run(s: Loader, beats: seq<Beat>): (t: Loader)
    requires Reachable(s)
    ensures Reachable(t)
    ensures t.progress >= s.progress
    decreases |beats|
  {
    if |beats| == 0 then s
    else
      var next := match beats[0]
        case ProgressBeat => ProgressTick(s)
        case StageBeat => StageTick(s);
      Run(next, beats[1..])
  }

  /** Every interleaving of the two intervals keeps the loader in a reachable state, with
      progress that never goes down. */
  lemma InitialIsReachable()
    ensures Reachable(Initial)
    ensures forall beats: seq<Beat> :: Reachable(Run(Initial, beats))
  {
  }

  /** The state after `k` progress ticks and no caption ticks. */
  function ProgressTicks(s: Loader, k: nat): Loader
    decreases k
  {
    if k == 0 then s else ProgressTick(ProgressTicks(s, k - 1))
  }

  /** From mount, the first 50 ticks each add 2, reaching 100 exactly at tick 50 with the
      interval still armed; tick 51 stops it and schedules completion once, and later ticks
      change nothing. */
  lemma {:induction false} ProgressSchedule(k: nat)
    ensures k <= 50 ==> ProgressTicks(Initial, k) == Loader(2 * k, 0, true, 0)
    ensures k > 50 ==> ProgressTicks(Initial, k) == Loader(Full, 0, false, 1)
    decreases k
  {
    if k > 0 {
      ProgressSchedule(k - 1);
    }
  }

  /** The state after `k` caption ticks. */
  function StageTicks(s: Loader, k: nat): Loader
    requires s.stage < StageCount
    decreases k
  {
    if k == 0 then s else StageTicks(StageTick(s), k - 1)
  }

  /** Four caption ticks bring the caption back to where it started. */
  lemma StageCycle(s: Loader)
    requires s.stage < StageCount
    ensures StageTicks(s, StageCount) == s
  {
  }
}
