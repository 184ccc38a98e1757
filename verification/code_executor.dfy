/**
 * The job-application simulation run by the code executor component: the
 * execution state a timer tick advances, the rejection message every tick
 * appends to the log, the job-posting cursor, the fast-forward speed and
 * the one-shot "sanity lost" latch.
 *
 * Every operation is a pure transition on an immutable `Executor` value.
 * `Math.random()` and `Date.now()` become fields of a `TickInput`, and the
 * sanity value the interval callback reads when it picks a message pool is
 * an explicit input too, so the model makes no claim about which snapshot
 * of the state that callback holds.
 */
module CodeExecutor {

  // ---------------------------------------------------------------------
  // Constants

  /** The line cursor advances modulo 8. */
  const LineCycle: nat := 8
  /** Number of lines in the rendered code snippet the cursor highlights. */
  const SnippetLines: nat := 16
  /** Number of postings in the job catalogue. */
  const JobCount: nat := 20
  /** Sanity of a fresh (or freshly reset) simulation. */
  const FullSanity: real := 100.0
  /** Sanity lost on every tick. */
  const SanityDecay: real := 0.5
  /** Sanity at or below which the desperate pool is used. */
  const DesperateSanity: real := 25.0
  /** Cap on the fast-forward multiplier. */
  const MaxSpeed: int := 8
  /** Tick interval at speed 1, in milliseconds. */
  const BaseIntervalMs: real := 1000.0
  /** Number of ticks after which sanity, starting full, first reads 0. */
  const BreakdownTick: nat := 200

  // ---------------------------------------------------------------------
  // Data model

  datatype ExecutionState = ExecutionState(
    currentLine: nat,
    applicationsSubmitted: nat,
    rejections: nat,
    timeWasted: nat,
    sanityLevel: real)

  /** The three message pools; the model keeps only their sizes. */
  datatype Pool = Breakdown | Desperate | Standard

  function PoolSize(p: Pool): nat {
    match p
    case Breakdown => 10
    case Desperate => 8
    case Standard => 28
  }

  /** A message taken from a pool, identified by its position in that pool. */
  datatype Reason = Reason(pool: Pool, index: nat)

  predicate InPool(m: Reason) {
    m.index < PoolSize(m.pool)
  }

  /** One log entry; `id` and `timestamp` are clock readings the model does not interpret. */
  datatype RejectionMessage = RejectionMessage(id: int, reason: Reason, timestamp: int)

  /**
   * What one timer callback takes from outside the state: the sanity value
   * it tests when choosing a pool, a `Math.random()` draw and the two
   * `Date.now()` readings used as the message id and timestamp.
   */
  datatype TickInput = TickInput(sanitySeen: real, random: real, id: int, timestamp: int)

  predicate ValidInput(input: TickInput) {
    0.0 <= input.random < 1.0
  }

  predicate AllValid(ins: seq<TickInput>) {
    forall i :: 0 <= i < |ins| ==> ValidInput(ins[i])
  }

  /** Everything the component keeps between ticks. */
  datatype Executor = Executor(
    state: ExecutionState,
    messages: seq<RejectionMessage>,
    jobIndex: nat,
    speed: int,
    breakdownTriggered: bool)

  const InitialState: ExecutionState := ExecutionState(0, 0, 0, 0, FullSanity)
  const Initial: Executor := Executor(InitialState, [], 0, 1, false)

  // ---------------------------------------------------------------------
  // One tick

  /** `Math.max(0, x)`. */
  function Max0(x: real): real {
    if x > 0.0 then x else 0.0
  }

  /** Sanity after one tick: half a point less, never below zero. */
  function DecaySanity(s: real): (r: real)
    ensures 0.0 <= r
    ensures 0.0 <= s ==> r <= s
    ensures s - r <= SanityDecay
    ensures r > 0.0 <==> s > SanityDecay
    ensures r > 0.0 ==> r == s - SanityDecay
  {
    Max0(s - SanityDecay)
  }

  /** The functional state update of one tick. */
  function NextState(st: ExecutionState): (r: ExecutionState)
    ensures r.applicationsSubmitted == st.applicationsSubmitted + 1
    ensures r.rejections == st.rejections + 1
    ensures r.timeWasted == st.timeWasted + 1
    ensures r.applicationsSubmitted - r.rejections == st.applicationsSubmitted - st.rejections
    ensures r.currentLine < LineCycle
    ensures st.currentLine < LineCycle ==>
              r.currentLine == if st.currentLine == LineCycle - 1 then 0 else st.currentLine + 1
    ensures r.sanityLevel == DecaySanity(st.sanityLevel)
    ensures 0.0 <= st.sanityLevel <= FullSanity ==> 0.0 <= r.sanityLevel <= st.sanityLevel
  {
    ExecutionState(
      (st.currentLine + 1) % LineCycle,
      st.applicationsSubmitted + 1,
      st.rejections + 1,
      st.timeWasted + 1,
      DecaySanity(st.sanityLevel))
  }

  /** The message pool used at a given sanity. */
  function Tier(sanity: real): (p: Pool)
    ensures p == Breakdown <==> sanity <= 0.0
    ensures p == Desperate <==> 0.0 < sanity <= DesperateSanity
    ensures p == Standard <==> DesperateSanity < sanity
  {
    if sanity <= 0.0 then Breakdown
    else if sanity <= DesperateSanity then Desperate
    else Standard
  }

  /** `pool[Math.floor(random * pool.length)]` for the pool `Tier` picks. */
  function Select(sanity: real, random: real): (m: Reason)
    requires 0.0 <= random < 1.0
    ensures m.pool == Tier(sanity)
    ensures InPool(m)
    ensures m.index as real <= random * PoolSize(m.pool) as real < m.index as real + 1.0
  {
    var p := Tier(sanity);
    var k := (random * PoolSize(p) as real).Floor;
    Reason(p, k)
  }

  /** The log entry one tick appends. */
  function Entry(input: TickInput): (e: RejectionMessage)
    requires ValidInput(input)
    ensures InPool(e.reason)
    ensures e.reason.pool == Tier(input.sanitySeen)
    ensures e.id == input.id && e.timestamp == input.timestamp
  {
    RejectionMessage(input.id, Select(input.sanitySeen, input.random), input.timestamp)
  }

  /** One interval callback: state update, log append and job cursor advance. */
  function Tick(ex: Executor, input: TickInput): (r: Executor)
    requires ValidInput(input)
    ensures r.state == NextState(ex.state)
    ensures |r.messages| == |ex.messages| + 1
    ensures r.messages[..|ex.messages|] == ex.messages
    ensures r.messages[|ex.messages|] == Entry(input)
    ensures r.jobIndex < JobCount
    ensures ex.jobIndex < JobCount ==>
              r.jobIndex == if ex.jobIndex == JobCount - 1 then 0 else ex.jobIndex + 1
    ensures r.speed == ex.speed && r.breakdownTriggered == ex.breakdownTriggered
  {
    Executor(
      NextState(ex.state),
      ex.messages + [Entry(input)],
      (ex.jobIndex + 1) % JobCount,
      ex.speed,
      ex.breakdownTriggered)
  }

  // ---------------------------------------------------------------------
  // The "sanity lost" latch

  /**
   * The effect that runs after the sanity changes: it fires the
   * notification when sanity is exactly 0 and the latch is still clear,
   * and sets the latch. The boolean is whether it fired.
   */
  function Observe(ex: Executor): (r: (Executor, bool))
    ensures r.1 <==> ex.state.sanityLevel == 0.0 && !ex.breakdownTriggered
    ensures r.0.breakdownTriggered <==> ex.breakdownTriggered || r.1
    ensures r.0 == ex.(breakdownTriggered := r.0.breakdownTriggered)
  {
    if ex.state.sanityLevel == 0.0 && !ex.breakdownTriggered then
      (ex.(breakdownTriggered := true), true)
    else
      (ex, false)
  }

  /** Running the latch effect again without a state change neither fires nor changes anything. */
  lemma ObserveIdempotent(ex: Executor)
    ensures Observe(Observe(ex).0) == (Observe(ex).0, false)
  {
  }

  // ---------------------------------------------------------------------
  // Fast-forward and reset

  predicate ValidSpeed(speed: int) {
    speed == 1 || speed == 2 || speed == 4 || speed == MaxSpeed
  }

  /** `Math.min(prev * 2, 8)`. */
  function NextSpeed(speed: int): (r: int)
    ensures r <= MaxSpeed
    ensures 2 * speed <= MaxSpeed ==> r == 2 * speed
    ensures 2 * speed >= MaxSpeed ==> r == MaxSpeed
    ensures ValidSpeed(speed) ==> ValidSpeed(r) && speed <= r
  {
    if speed * 2 < MaxSpeed then speed * 2 else MaxSpeed
  }

  /** Interval between ticks in milliseconds, `1000 / speed`. */
  function IntervalMs(speed: int): (r: real)
    requires speed > 0
    ensures r * speed as real == BaseIntervalMs
    ensures speed <= MaxSpeed ==> 125.0 <= r
  {
    var ms := BaseIntervalMs / speed as real;
    assert ms * speed as real == BaseIntervalMs;
    ms
  }

  function FastForward(ex: Executor): (r: Executor)
    ensures r.speed == NextSpeed(ex.speed)
    ensures r.speed <= MaxSpeed
    ensures ValidSpeed(ex.speed) ==> ValidSpeed(r.speed)
    ensures r == ex.(speed := r.speed)
  {
    ex.(speed := NextSpeed(ex.speed))
  }

  function Pow2(n: nat): (r: nat)
    ensures r >= 1
  {
    if n == 0 then 1 else 2 * Pow2(n - 1)
  }

  /** The speed after pressing fast-forward `n` times. */
  function FastForwardTimes(speed: int, n: nat): int {
    if n == 0 then speed else NextSpeed(FastForwardTimes(speed, n - 1))
  }

  /** From speed 1, `n` presses give `min(2^n, 8)`: always 1, 2, 4 or 8, fixed at 8. */
  lemma {:induction false} FastForwardFromOne(n: nat)
    ensures FastForwardTimes(1, n) == if Pow2(n) < MaxSpeed then Pow2(n) else MaxSpeed
    ensures ValidSpeed(FastForwardTimes(1, n))
    ensures 125.0 <= IntervalMs(FastForwardTimes(1, n))
    ensures n >= 3 ==> FastForwardTimes(1, n) == MaxSpeed
  {
    if n > 0 {
      FastForwardFromOne(n - 1);
    }
  }

  /** Every field back to its initial value, the latch included; the old value is ignored. */
  function Reset(ex: Executor): (r: Executor)
    ensures r.state == ExecutionState(0, 0, 0, 0, FullSanity)
    ensures r.messages == [] && r.jobIndex == 0 && r.speed == 1 && !r.breakdownTriggered
  {
    Initial
  }

  // ---------------------------------------------------------------------
  // Runs of ticks

  /** One tick followed by the latch effect it triggers. */
  function Step(ex: Executor, input: TickInput): (r: (Executor, bool))
    requires ValidInput(input)
    ensures r.1 <==> DecaySanity(ex.state.sanityLevel) == 0.0 && !ex.breakdownTriggered
    ensures r.0.breakdownTriggered <==> ex.breakdownTriggered || DecaySanity(ex.state.sanityLevel) == 0.0
    ensures r.0 == Tick(ex, input).(breakdownTriggered := r.0.breakdownTriggered)
  {
    Observe(Tick(ex, input))
  }

  /** A run of ticks: the final executor and how often the notification fired. */
  function Run(ex: Executor, ins: seq<TickInput>): (r: (Executor, nat))
    requires AllValid(ins)
    ensures |r.0.messages| == |ex.messages| + |ins|
    ensures r.0.state.applicationsSubmitted == ex.state.applicationsSubmitted + |ins|
    ensures r.0.state.rejections == ex.state.rejections + |ins|
    ensures r.0.state.timeWasted == ex.state.timeWasted + |ins|
    ensures r.0.speed == ex.speed
    ensures r.1 <= |ins|
    decreases |ins|
  {
    if |ins| == 0 then (ex, 0)
    else
      var (next, fired) := Step(ex, ins[0]);
      var (final, fires) := Run(next, ins[1..]);
      (final, fires + if fired then 1 else 0)
  }

  /** The entries a run of ticks appends, one per input, in order. */
  function Emitted(ins: seq<TickInput>): seq<RejectionMessage>
    requires AllValid(ins)
  {
    seq(|ins|, i requires 0 <= i < |ins| => Entry(ins[i]))
  }

  /** A non-empty run is its first step followed by the run of the rest. */
  lemma RunCons(ex: Executor, ins: seq<TickInput>)
    requires AllValid(ins) && |ins| > 0
    ensures AllValid(ins[1..])
    ensures Run(ex, ins).0 == Run(Step(ex, ins[0]).0, ins[1..]).0
    ensures Run(ex, ins).1 == Run(Step(ex, ins[0]).0, ins[1..]).1 + if Step(ex, ins[0]).1 then 1 else 0
  {
  }

  lemma EmittedCons(ins: seq<TickInput>)
    requires AllValid(ins) && |ins| > 0
    ensures Emitted(ins) == [Entry(ins[0])] + Emitted(ins[1..])
  {
    var tail := ins[1..];
    assert AllValid(tail) by {
      forall i | 0 <= i < |tail| ensures ValidInput(tail[i]) {
        assert tail[i] == ins[i + 1];
      }
    }
    assert forall i | 0 <= i < |tail| :: Emitted(ins)[i + 1] == Emitted(tail)[i];
  }

  /** A run appends exactly one entry per tick and leaves the earlier log untouched. */
  lemma {:induction false} RunLog(ex: Executor, ins: seq<TickInput>)
    requires AllValid(ins)
    ensures Run(ex, ins).0.messages == ex.messages + Emitted(ins)
    ensures Run(ex, ins).0.messages[..|ex.messages|] == ex.messages
    decreases |ins|
  {
    if |ins| > 0 {
      var next := Step(ex, ins[0]).0;
      RunCons(ex, ins);
      RunLog(next, ins[1..]);
      EmittedCons(ins);
    }
  }

  /** `max(0, s - k/2)`: the sanity left after `k` ticks from `s`. */
  function SanityAfterFrom(s: real, k: nat): real {
    Max0(s - k as real * SanityDecay)
  }

  // The modular facts below use the literal moduli 8 and 20 rather than
  // `LineCycle` and `JobCount`: the solver treats `%` by a named constant as
  // nonlinear arithmetic and does not close these goals.

  /** Reducing the line cursor before adding `y` does not change the reduced sum. */
  lemma LineMod(x: nat, y: nat)
    ensures (x % 8 + y) % 8 == (x + y) % 8
  {
  }

  /** Reducing the job cursor before adding `y` does not change the reduced sum. */
  lemma JobMod(x: nat, y: nat)
    ensures (x % 20 + y) % 20 == (x + y) % 20
  {
  }

  /** Decaying once and then `k` more times is decaying `k + 1` times. */
  lemma SanityShift(s: real, k: nat)
    ensures SanityAfterFrom(DecaySanity(s), k) == SanityAfterFrom(s, k + 1)
  {
  }

  /** A run of `k` ticks from sanity `s >= 0` leaves `max(0, s - k/2)`. */
  lemma {:induction false} RunSanity(ex: Executor, ins: seq<TickInput>)
    requires AllValid(ins) && 0.0 <= ex.state.sanityLevel
    ensures Run(ex, ins).0.state.sanityLevel == SanityAfterFrom(ex.state.sanityLevel, |ins|)
    decreases |ins|
  {
    if |ins| > 0 {
      var next := Step(ex, ins[0]).0;
      RunCons(ex, ins);
      RunSanity(next, ins[1..]);
      SanityShift(ex.state.sanityLevel, |ins| - 1);
    }
  }

  /** A run of `k` ticks moves the line cursor to `(line + k) % 8` and the job cursor to `(job + k) % 20`. */
  lemma {:induction false} RunCursors(ex: Executor, ins: seq<TickInput>)
    requires AllValid(ins) && ex.state.currentLine < LineCycle && ex.jobIndex < JobCount
    ensures Run(ex, ins).0.state.currentLine == (ex.state.currentLine + |ins|) % LineCycle
    ensures Run(ex, ins).0.jobIndex == (ex.jobIndex + |ins|) % JobCount
    decreases |ins|
  {
    if |ins| > 0 {
      var next := Step(ex, ins[0]).0;
      RunCons(ex, ins);
      assert next.state.currentLine == (ex.state.currentLine + 1) % LineCycle;
      assert next.jobIndex == (ex.jobIndex + 1) % JobCount;
      RunCursors(next, ins[1..]);
      LineMod(ex.state.currentLine + 1, |ins| - 1);
      JobMod(ex.jobIndex + 1, |ins| - 1);
    }
  }

  lemma LineWrap(c: nat)
    requires c < 8
    ensures (c + 8) % 8 == c
  {
  }

  /** Eight ticks bring the line cursor back to where it started. */
  lemma LinePeriod(ex: Executor, ins: seq<TickInput>)
    requires AllValid(ins) && |ins| == LineCycle
    requires ex.state.currentLine < LineCycle && ex.jobIndex < JobCount
    ensures Run(ex, ins).0.state.currentLine == ex.state.currentLine
  {
    RunCursors(ex, ins);
    LineWrap(ex.state.currentLine);
  }

  // ---------------------------------------------------------------------
  // Reachable states

  /** Sanity after `n` ticks from a full tank. */
  function SanityAfter(n: nat): (s: real)
    ensures 0.0 <= s <= FullSanity
    ensures s == 0.0 <==> n >= BreakdownTick
    ensures n < BreakdownTick ==> s == FullSanity - n as real * SanityDecay
  {
    SanityAfterFrom(FullSanity, n)
  }

  /** The executor is the one reached from the initial state by `n` ticks (at whatever speed). */
  predicate AfterTicks(ex: Executor, n: nat) {
    && ex.state == ExecutionState(n % LineCycle, n, n, n, SanityAfter(n))
    && |ex.messages| == n
    && (forall i :: 0 <= i < |ex.messages| ==> InPool(ex.messages[i].reason))
    && ex.jobIndex == n % JobCount
    && ex.breakdownTriggered == (n >= BreakdownTick)
  }

  /** The executors a session can reach: the tick count is read off the application counter. */
  predicate Invariant(ex: Executor) {
    AfterTicks(ex, ex.state.applicationsSubmitted) && ValidSpeed(ex.speed)
  }

  /** What every reachable executor satisfies. */
  lemma InvariantFacts(ex: Executor)
    requires Invariant(ex)
    ensures ex.state.applicationsSubmitted == ex.state.rejections == ex.state.timeWasted
    ensures 0.0 <= ex.state.sanityLevel <= FullSanity
    ensures ex.state.currentLine < LineCycle < SnippetLines
    ensures ex.jobIndex < JobCount
    ensures |ex.messages| == ex.state.applicationsSubmitted
    ensures ex.breakdownTriggered <==> ex.state.sanityLevel == 0.0
    ensures 0 < ex.speed <= MaxSpeed && 125.0 <= IntervalMs(ex.speed)
  {
  }

  /** A tick appends an entry from a pool and keeps every earlier entry, so the whole log stays in pools. */
  lemma TickKeepsPools(ex: Executor, input: TickInput)
    requires ValidInput(input)
    requires forall i :: 0 <= i < |ex.messages| ==> InPool(ex.messages[i].reason)
    ensures forall i :: 0 <= i < |Tick(ex, input).messages| ==> InPool(Tick(ex, input).messages[i].reason)
  {
    var t := Tick(ex, input);
    forall i | 0 <= i < |t.messages|
      ensures InPool(t.messages[i].reason)
    {
      if i < |ex.messages| {
        assert t.messages[i] == t.messages[..|ex.messages|][i];
      }
    }
  }

  /** One tick plus its latch effect moves from `n` ticks to `n + 1`; it fires exactly on tick 200. */
  lemma StepAdvances(ex: Executor, n: nat, input: TickInput)
    requires AfterTicks(ex, n) && ValidInput(input)
    ensures AfterTicks(Step(ex, input).0, n + 1)
    ensures Step(ex, input).1 <==> n + 1 == BreakdownTick
    ensures Step(ex, input).0.speed == ex.speed
  {
    TickAdvances(ex, n, input);
    TickKeepsPools(ex, input);
  }

  /** The state part of `StepAdvances`, before the latch effect. */
  lemma TickAdvances(ex: Executor, n: nat, input: TickInput)
    requires AfterTicks(ex, n) && ValidInput(input)
    ensures Tick(ex, input).state == ExecutionState((n + 1) % LineCycle, n + 1, n + 1, n + 1, SanityAfter(n + 1))
    ensures Tick(ex, input).jobIndex == (n + 1) % JobCount
  {
    LineMod(n, 1);
    JobMod(n, 1);
    SanityStep(n);
  }

  lemma SanityStep(n: nat)
    ensures DecaySanity(SanityAfter(n)) == SanityAfter(n + 1)
  {
  }

  /** How many of the ticks `n + 1 .. n + k` are tick 200 (zero or one). */
  function CrossesBreakdown(n: nat, k: nat): nat {
    if n < BreakdownTick <= n + k then 1 else 0
  }

  /**
   * From a state `n` ticks after the start, a run of `k` ticks ends `n + k`
   * ticks after the start, and the notification fires once if tick 200 is
   * among them and never otherwise.
   */
  lemma {:induction false} RunAdvances(ex: Executor, n: nat, ins: seq<TickInput>)
    requires AfterTicks(ex, n) && AllValid(ins)
    ensures AfterTicks(Run(ex, ins).0, n + |ins|)
    ensures Run(ex, ins).1 == CrossesBreakdown(n, |ins|)
    decreases |ins|
  {
    if |ins| > 0 {
      StepAdvances(ex, n, ins[0]);
      RunCons(ex, ins);
      RunAdvances(Step(ex, ins[0]).0, n + 1, ins[1..]);
    }
  }

  /**
   * From the initial state, after `k` ticks all three counters equal `k`,
   * sanity is `max(0, 100 - k/2)`, and the notification has fired once if
   * `k >= 200` and not at all before.
   */
  lemma RunFromInitial(ins: seq<TickInput>)
    requires AllValid(ins)
    ensures Run(Initial, ins).0.state.applicationsSubmitted == |ins|
    ensures Run(Initial, ins).0.state.rejections == |ins|
    ensures Run(Initial, ins).0.state.timeWasted == |ins|
    ensures Run(Initial, ins).0.state.sanityLevel == SanityAfter(|ins|)
    ensures |Run(Initial, ins).0.messages| == |ins|
    ensures Run(Initial, ins).1 == if |ins| >= BreakdownTick then 1 else 0
  {
    RunAdvances(Initial, 0, ins);
  }

  /** Reset re-arms the latch: whatever happened before, 200 ticks later it fires exactly once. */
  lemma ResetRearmsLatch(ex: Executor, ins: seq<TickInput>)
    requires AllValid(ins) && |ins| >= BreakdownTick
    ensures Invariant(Reset(ex))
    ensures Run(Reset(ex), ins).1 == 1
  {
    RunAdvances(Reset(ex), 0, ins);
  }

  /**
   * When every tick reads the sanity as it was before that tick, tick `k`
   * (counting from 0) draws from the standard pool for `k < 150`, from the
   * desperate pool for `150 <= k < 200` and from the breakdown pool from
   * then on; the tick that brings sanity to 0 still uses the desperate pool.
   */
  lemma TierAtTick(k: nat)
    ensures Tier(SanityAfter(k)) ==
              if k < 150 then Standard
              else if k < BreakdownTick then Desperate
              else Breakdown
  {
  }

  // ---------------------------------------------------------------------
  // Sessions: ticks interleaved with fast-forward and reset presses

  datatype Command = TickCmd(input: TickInput) | FastForwardCmd | ResetCmd

  predicate ValidCommand(c: Command) {
    c.TickCmd? ==> ValidInput(c.input)
  }

  predicate AllValidCommands(cmds: seq<Command>) {
    forall i :: 0 <= i < |cmds| ==> ValidCommand(cmds[i])
  }

  /** One command; the boolean is whether the notification fired. */
  function Apply(ex: Executor, c: Command): (r: (Executor, bool))
    requires ValidCommand(c)
    ensures r.1 ==> c.TickCmd? && !ex.breakdownTriggered && r.0.breakdownTriggered
    ensures c.TickCmd? ==> r == Step(ex, c.input)
    ensures c.FastForwardCmd? ==> r.0 == ex.(speed := NextSpeed(ex.speed))
    ensures c.ResetCmd? ==> r.0 == Initial
  {
    match c
    case TickCmd(input) => Step(ex, input)
    case FastForwardCmd => (FastForward(ex), false)
    case ResetCmd => (Reset(ex), false)
  }

  /** A session: the final executor and how often the notification fired. */
  function Execute(ex: Executor, cmds: seq<Command>): (r: (Executor, nat))
    requires AllValidCommands(cmds)
    ensures r.1 <= TickCount(cmds)
    decreases |cmds|
  {
    if |cmds| == 0 then (ex, 0)
    else
      var (next, fired) := Apply(ex, cmds[0]);
      var (final, fires) := Execute(next, cmds[1..]);
      (final, fires + if fired then 1 else 0)
  }

  function TickCount(cmds: seq<Command>): nat {
    if |cmds| == 0 then 0 else (if cmds[0].TickCmd? then 1 else 0) + TickCount(cmds[1..])
  }

  predicate NoReset(cmds: seq<Command>) {
    forall i :: 0 <= i < |cmds| ==> !cmds[i].ResetCmd?
  }

  /** Every command keeps an executor reachable. */
  lemma ApplyKeepsInvariant(ex: Executor, c: Command)
    requires Invariant(ex) && ValidCommand(c)
    ensures Invariant(Apply(ex, c).0)
    ensures Apply(ex, c).1 <==> c.TickCmd? && ex.state.applicationsSubmitted + 1 == BreakdownTick
  {
    if c.TickCmd? {
      StepAdvances(ex, ex.state.applicationsSubmitted, c.input);
    }
  }

  /** Any session from a reachable executor ends in a reachable executor. */
  lemma {:induction false} SessionKeepsInvariant(ex: Executor, cmds: seq<Command>)
    requires Invariant(ex) && AllValidCommands(cmds)
    ensures Invariant(Execute(ex, cmds).0)
    decreases |cmds|
  {
    if |cmds| > 0 {
      ApplyKeepsInvariant(ex, cmds[0]);
      SessionKeepsInvariant(Apply(ex, cmds[0]).0, cmds[1..]);
    }
  }

  /**
   * Between resets the notification fires at most once: exactly once if
   * the ticks carry the counter across 200, never otherwise, however the
   * ticks are interleaved with fast-forward presses.
   */
  lemma {:induction false} FiresAtMostOnceBetweenResets(ex: Executor, cmds: seq<Command>)
    requires Invariant(ex) && AllValidCommands(cmds) && NoReset(cmds)
    ensures Execute(ex, cmds).1 == CrossesBreakdown(ex.state.applicationsSubmitted, TickCount(cmds))
    ensures Execute(ex, cmds).1 <= 1
    ensures Execute(ex, cmds).0.state.applicationsSubmitted == ex.state.applicationsSubmitted + TickCount(cmds)
    decreases |cmds|
  {
    if |cmds| > 0 {
      ApplyKeepsInvariant(ex, cmds[0]);
      FiresAtMostOnceBetweenResets(Apply(ex, cmds[0]).0, cmds[1..]);
    }
  }
}
