/** The restart budget of the app-server client. */
module Restarts {
  import opened Prelude

  datatype Health = Stopped | Starting | Initializing | Ready | Restarting | Failed

  datatype Policy = Policy(initialDelay: nat, maxDelay: nat, maxRestarts: nat, window: nat) {
    /** What the constructor insists on. */
    predicate Valid() { maxDelay >= initialDelay && window > 0 }
  }

  /** Whether there is a child process; one that has exited is still there until it closes. */
  datatype Child = NoChild | Alive | Exited

  datatype Client = Client(
    health: Health, attempt: nat, timestamps: seq<int>, timer: Option<nat>,
    child: Child, starting: bool, intentionalStop: bool, fatal: bool)

  const IDLE := Client(Stopped, 0, [], None, NoChild, false, false, false)

  /** What an operation asks of the event loop. */
  datatype Effect = Nothing | Arm(id: nat, delay: nat) | Disarm(id: nat)

  // ---------------------------------------------------------------------------------------------
  // Operations

  /** The delay times two to the power n. */
  function Doubled(delay: nat, n: nat): nat { if n == 0 then delay else 2 * Doubled(delay, n - 1) }

  function DropOld(timestamps: seq<int>, windowStart: int): seq<int> {
    if timestamps != [] && timestamps[0] < windowStart then DropOld(timestamps[1..], windowStart) else timestamps
  }

  function Delay(policy: Policy, attempt: nat): nat
    requires attempt >= 1
  {
    Min(Doubled(policy.initialDelay, attempt - 1), policy.maxDelay)
  }

  /** `id` is the handle the event loop gives a new timer. */
  function Schedule(c: Client, policy: Policy, now: int, id: nat): (Client, Effect) {
    if c.intentionalStop || c.fatal || c.timer.Some? then (c, Nothing)
    else
      var recent := DropOld(c.timestamps, now - policy.window);
      if |recent| >= policy.maxRestarts then
        (c.(timestamps := recent, health := Failed, attempt := |recent|), Nothing)
      else
        (c.(timestamps := recent + [now], health := Restarting, attempt := |recent| + 1, timer := Some(id)),
         Arm(id, Delay(policy, |recent| + 1)))
  }

  function Cancel(c: Client): (Client, Effect) {
    if c.timer.None? then (c, Nothing) else (c.(timer := None), Disarm(c.timer.value))
  }

  function Start(c: Client): (Client, Effect) {
    if c.child.Alive? || c.starting then (c, Nothing)
    else
      var (d, effect) := Cancel(c.(intentionalStop := false, fatal := false));
      (d.(timestamps := if c.health == Failed then [] else c.timestamps, health := Starting, attempt := 0, starting := true), effect)
  }

  function Stop(c: Client): (Client, Effect) {
    var (d, effect) := Cancel(c.(intentionalStop := true, fatal := false));
    (if d.child.NoChild? then d.(health := Stopped, attempt := 0) else d, effect)
  }

  /** The child there is closes; a child that was replaced meanwhile is ignored. */
  function HandleClose(c: Client, policy: Policy, now: int, id: nat): (Client, Effect) {
    if c.child.NoChild? then (c, Nothing)
    else
      var d := c.(child := NoChild);
      if d.intentionalStop then (d.(health := Stopped, attempt := 0), Nothing)
      else if d.fatal then (d.(health := Failed), Nothing)
      else Schedule(d, policy, now, id)
  }

  /** A launch behind start failed; `cleaned` says whether it had got so far as to put a child there and remove it again. */
  function StartFailed(c: Client, policy: Policy, cleaned: bool, now: int, id: nat): (Client, Effect) {
    var d := c.(starting := false, child := if cleaned then NoChild else c.child);
    if d.intentionalStop then (d, Nothing) else Schedule(d, policy, now, id)
  }

  /** The timer fires: its handle is forgotten, and a new launch begins unless the client was stopped meanwhile. */
  function TimerFires(c: Client): Client {
    var d := c.(timer := None);
    if d.intentionalStop || d.fatal then d else d.(health := Starting)
  }

  /** A launch or initialisation behind a restart failed: a living child is killed, and its close restarts; otherwise it restarts now. */
  function RestartFailed(c: Client, policy: Policy, cleaned: bool, now: int, id: nat): (Client, Effect) {
    var d := if cleaned then c.(child := NoChild) else c;
    if d.child.Alive? then (d, Nothing) else Schedule(d, policy, now, id)
  }

  class AppServerClient {
    var state: Client
    const policy: Policy

    constructor (policy: Policy)
      requires policy.Valid()
      ensures state == IDLE && this.policy == policy
    {
      state, this.policy := IDLE, policy;
    }

    /** The pruning loop and the budget check. */
    method ScheduleRestart(now: int, id: nat) returns (effect: Effect)
      modifies this
      ensures (state, effect) == Schedule(old(state), policy, now, id)
    {
      if state.intentionalStop || state.fatal || state.timer.Some? {
        return Nothing;
      }
      var windowStart := now - policy.window;
      var recent := state.timestamps;
      while recent != [] && recent[0] < windowStart
        invariant DropOld(recent, windowStart) == DropOld(state.timestamps, windowStart)
        invariant state == old(state)
        decreases |recent|
      {
        recent := recent[1..];
      }
      state := state.(timestamps := recent);
      if |recent| >= policy.maxRestarts {
        state := state.(health := Failed, attempt := |recent|);
        return Nothing;
      }
      var restartAttempt := |recent| + 1;
      state := state.(timestamps := recent + [now], health := Restarting, attempt := restartAttempt, timer := Some(id));
      effect := Arm(id, Delay(policy, restartAttempt));
    }

    method Close(now: int, id: nat) returns (effect: Effect)
      modifies this
      ensures (state, effect) == HandleClose(old(state), policy, now, id)
    {
      if state.child.NoChild? {
        return Nothing;
      }
      state := state.(child := NoChild);
      if state.intentionalStop {
        state := state.(health := Stopped, attempt := 0);
        return Nothing;
      }
      if state.fatal {
        state := state.(health := Failed);
        return Nothing;
      }
      effect := ScheduleRestart(now, id);
    }
  }

  // ---------------------------------------------------------------------------------------------
  // The client in its event loop

  /** Armed timers with their delays, and the times of the restarts scheduled since the last manual start from failure. */
  datatype World = World(client: Client, armed: map<nat, nat>, nextId: nat, log: seq<int>, clock: int)

  datatype Event =
    | Starts | Stops | Spawns | Exits | Progresses(health: Health) | ProtocolFails
    | Closes(now: int) | StartFails(cleaned: bool, now: int) | RestartFails(cleaned: bool, now: int) | Fires(id: nat)

  function Carry(w: World, step: (Client, Effect), now: int): World {
    var (c, effect) := step;
    match effect
    case Nothing => w.(client := c, clock := now)
    case Arm(id, delay) => w.(client := c, armed := w.armed[id := delay], nextId := w.nextId + 1, log := w.log + [now], clock := now)
    case Disarm(id) => w.(client := c, armed := w.armed - {id}, clock := now)
  }

  function React(w: World, policy: Policy, e: Event): World {
    var c := w.client;
    match e
    case Starts =>
      var next := Carry(w, Start(c), w.clock);
      if !c.child.Alive? && !c.starting && c.health == Failed then next.(log := []) else next
    case Stops => Carry(w, Stop(c), w.clock)
    case Spawns => w.(client := c.(child := Alive, starting := false))
    case Exits => if c.child.Alive? then w.(client := c.(child := Exited)) else w
    case Progresses(health) => if health == Failed then w else w.(client := c.(health := health))
    case ProtocolFails => w.(client := c.(fatal := true))
    case Closes(now) => Carry(w, HandleClose(c, policy, now, w.nextId), now)
    case StartFails(cleaned, now) => Carry(w, StartFailed(c, policy, cleaned, now, w.nextId), now)
    case RestartFails(cleaned, now) => Carry(w, RestartFailed(c, policy, cleaned, now, w.nextId), now)
    case Fires(id) => if id in w.armed then w.(armed := w.armed - {id}, client := TimerFires(c)) else w
  }

  predicate Timely(w: World, e: Event) {
    e.Closes? || e.StartFails? || e.RestartFails? ==> e.now >= w.clock
  }

  function Run(w: World, policy: Policy, events: seq<Event>): World
    decreases |events|
  {
    if events == [] then w else Run(React(w, policy, events[0]), policy, events[1..])
  }

  ghost predicate AllTimely(w: World, policy: Policy, events: seq<Event>)
    decreases |events|
  {
    events != [] ==> Timely(w, events[0]) && AllTimely(React(w, policy, events[0]), policy, events[1..])
  }

  // ---------------------------------------------------------------------------------------------
  // Invariant

  ghost predicate Ordered(log: seq<int>, clock: int) {
    && (forall i, j :: 0 <= i <= j < |log| ==> log[i] <= log[j])
    && (forall i :: 0 <= i < |log| ==> log[i] <= clock)
  }

  /** The kept timestamps are the recent end of the log; everything dropped is out of the window for good. */
  ghost predicate KeepsRecent(log: seq<int>, timestamps: seq<int>, clock: int, policy: Policy) {
    var n := |log| - |timestamps|;
    && 0 <= n && timestamps == log[n..]
    && forall i :: 0 <= i < n ==> log[i] + policy.window < clock
  }

  /** Any maxRestarts + 1 consecutive restarts span more than a window. */
  ghost predicate Spaced(log: seq<int>, policy: Policy) {
    && (policy.maxRestarts == 0 ==> log == [])
    && forall i, j :: 0 <= i && j == i + policy.maxRestarts && j < |log| ==> log[i] + policy.window < log[j]
  }

  /** At most one timer is armed, the one the client remembers, with a delay within bounds. */
  ghost predicate OneTimer(armed: map<nat, nat>, timer: Option<nat>, nextId: nat, policy: Policy) {
    && armed.Keys == (if timer.Some? then {timer.value} else {})
    && (forall id :: id in armed ==> id < nextId && policy.initialDelay <= armed[id] <= policy.maxDelay)
  }

  ghost predicate LogOk(log: seq<int>, timestamps: seq<int>, clock: int, policy: Policy) {
    Ordered(log, clock) && KeepsRecent(log, timestamps, clock, policy) && Spaced(log, policy)
  }

  ghost predicate Inv(w: World, policy: Policy) {
    LogOk(w.log, w.client.timestamps, w.clock, policy) && OneTimer(w.armed, w.client.timer, w.nextId, policy)
  }

  lemma {:induction false} DropOldIsSuffix(timestamps: seq<int>, windowStart: int) returns (k: nat)
    ensures k <= |timestamps| && DropOld(timestamps, windowStart) == timestamps[k..]
    ensures forall i :: 0 <= i < k ==> timestamps[i] < windowStart
  {
    if timestamps != [] && timestamps[0] < windowStart {
      var rest := DropOldIsSuffix(timestamps[1..], windowStart);
      k := rest + 1;
      forall i | 0 <= i < k ensures timestamps[i] < windowStart {
        if i > 0 { assert timestamps[i] == timestamps[1..][i - 1]; }
      }
    } else {
      k := 0;
      assert timestamps[0..] == timestamps;
    }
  }

  lemma {:induction false} DoublingGrows(delay: nat, n: nat)
    ensures Doubled(delay, n) >= delay
  {
    if n > 0 { DoublingGrows(delay, n - 1); }
  }

  /** Backoff never undercuts the initial delay nor exceeds the maximum. */
  lemma DelayWithinBounds(policy: Policy, attempt: nat)
    requires policy.Valid() && attempt >= 1
    ensures policy.initialDelay <= Delay(policy, attempt) <= policy.maxDelay
  {
    DoublingGrows(policy.initialDelay, attempt - 1);
  }

  /** Pruning, with or without logging a restart, keeps the log sound. */
  lemma PruneKeepsLog(log: seq<int>, timestamps: seq<int>, clock: int, now: int, policy: Policy)
    requires LogOk(log, timestamps, clock, policy) && now >= clock
    ensures
      var recent := DropOld(timestamps, now - policy.window);
      && LogOk(log, recent, now, policy)
      && (|recent| < policy.maxRestarts ==> LogOk(log + [now], recent + [now], now, policy))
  {
    var n := |log| - |timestamps|;
    var k := DropOldIsSuffix(timestamps, now - policy.window);
    var recent := timestamps[k..];
    assert recent == log[n + k..];
    forall i | 0 <= i < n + k ensures log[i] + policy.window < now {
      if i >= n { assert log[i] == timestamps[i - n]; }
    }
    if |recent| < policy.maxRestarts {
      assert recent + [now] == (log + [now])[n + k..];
    }
  }

  lemma ScheduleKeeps(w: World, policy: Policy, c: Client, now: int)
    requires policy.Valid() && Inv(w, policy) && now >= w.clock
    requires c.timestamps == w.client.timestamps && c.timer == w.client.timer
    ensures Inv(Carry(w, Schedule(c, policy, now, w.nextId), now), policy)
  {
    var w' := Carry(w, Schedule(c, policy, now, w.nextId), now);
    var recent := DropOld(c.timestamps, now - policy.window);
    assert LogOk(w'.log, w'.client.timestamps, w'.clock, policy) by {
      LaterKeepsLog(w.log, c.timestamps, w.clock, now, policy);
      PruneKeepsLog(w.log, c.timestamps, w.clock, now, policy);
    }
    assert OneTimer(w'.armed, w'.client.timer, w'.nextId, policy) by {
      if !c.intentionalStop && !c.fatal && c.timer.None? && |recent| < policy.maxRestarts {
        DelayWithinBounds(policy, |recent| + 1);
        ArmKeepsOneTimer(w.armed, w.nextId, Delay(policy, |recent| + 1), policy);
      }
    }
  }

  lemma ArmKeepsOneTimer(armed: map<nat, nat>, id: nat, delay: nat, policy: Policy)
    requires OneTimer(armed, None, id, policy) && policy.initialDelay <= delay <= policy.maxDelay
    ensures OneTimer(armed[id := delay], Some(id), id + 1, policy)
  {
  }

  lemma LaterKeepsLog(log: seq<int>, timestamps: seq<int>, clock: int, now: int, policy: Policy)
    requires LogOk(log, timestamps, clock, policy) && now >= clock
    ensures LogOk(log, timestamps, now, policy)
  {
  }

  lemma StartKeeps(w: World, policy: Policy)
    requires Inv(w, policy)
    ensures Inv(React(w, policy, Starts), policy)
  {
    var w' := React(w, policy, Starts);
    assert OneTimer(w'.armed, w'.client.timer, w'.nextId, policy);
    assert (w'.log == w.log && w'.client.timestamps == w.client.timestamps) || (w'.log == [] && w'.client.timestamps == []);
  }

  lemma CloseKeeps(w: World, policy: Policy, now: int)
    requires policy.Valid() && Inv(w, policy) && now >= w.clock
    ensures Inv(React(w, policy, Closes(now)), policy)
  {
    LaterKeepsLog(w.log, w.client.timestamps, w.clock, now, policy);
    ScheduleKeeps(w, policy, w.client.(child := NoChild), now);
  }

  lemma FailureKeeps(w: World, policy: Policy, e: Event)
    requires policy.Valid() && Inv(w, policy) && Timely(w, e) && (e.StartFails? || e.RestartFails?)
    ensures Inv(React(w, policy, e), policy)
  {
    var c := w.client;
    var d := c.(child := if e.cleaned then NoChild else c.child);
    LaterKeepsLog(w.log, c.timestamps, w.clock, e.now, policy);
    ScheduleKeeps(w, policy, if e.StartFails? then d.(starting := false) else d, e.now);
  }

  lemma OtherKeeps(w: World, policy: Policy, e: Event)
    requires Inv(w, policy) && (e.Stops? || e.Spawns? || e.Exits? || e.Progresses? || e.ProtocolFails? || e.Fires?)
    ensures Inv(React(w, policy, e), policy)
  {
    var w' := React(w, policy, e);
    assert w'.log == w.log && w'.client.timestamps == w.client.timestamps && w'.clock == w.clock;
    assert w'.nextId == w.nextId;
    assert w'.armed.Keys == (if w'.client.timer.Some? then {w'.client.timer.value} else {});
  }

  lemma ReactKeeps(w: World, policy: Policy, e: Event)
    requires policy.Valid() && Inv(w, policy) && Timely(w, e)
    ensures Inv(React(w, policy, e), policy)
  {
    match e
    case Starts => StartKeeps(w, policy);
    case Closes(now) => CloseKeeps(w, policy, now);
    case StartFails(_, now) => FailureKeeps(w, policy, e);
    case RestartFails(_, now) => FailureKeeps(w, policy, e);
    case _ => OtherKeeps(w, policy, e);
  }

  lemma {:induction false} RunKeeps(w: World, policy: Policy, events: seq<Event>)
    requires policy.Valid() && Inv(w, policy) && AllTimely(w, policy, events)
    ensures Inv(Run(w, policy, events), policy)
    decreases |events|
  {
    if events != [] {
      ReactKeeps(w, policy, events[0]);
      RunKeeps(React(w, policy, events[0]), policy, events[1..]);
    }
  }

  // ---------------------------------------------------------------------------------------------
  // The budget

  function CountIn(log: seq<int>, from: int, to: int): nat {
    if log == [] then 0
    else CountIn(log[..|log| - 1], from, to) + if from <= log[|log| - 1] <= to then 1 else 0
  }

  lemma {:induction false} CountSplit(a: seq<int>, b: seq<int>, from: int, to: int)
    ensures CountIn(a + b, from, to) == CountIn(a, from, to) + CountIn(b, from, to)
    ensures CountIn(b, from, to) <= |b|
  {
    if b == [] {
      assert a + b == a;
    } else {
      assert (a + b)[..|a + b| - 1] == a + b[..|b| - 1];
      CountSplit(a, b[..|b| - 1], from, to);
    }
  }

  lemma {:induction false} CountNone(log: seq<int>, from: int, to: int)
    requires forall i :: 0 <= i < |log| ==> log[i] < from
    ensures CountIn(log, from, to) == 0
  {
    if log != [] { CountNone(log[..|log| - 1], from, to); }
  }

  /** A window that holds the last restart holds only restarts among the last maxRestarts. */
  lemma LastWindow(log: seq<int>, policy: Policy, from: int)
    requires log != [] && Spaced(log, policy) && Sorted(log) && from <= log[|log| - 1] <= from + policy.window
    ensures CountIn(log, from, from + policy.window) <= policy.maxRestarts
  {
    var cut := Max(0, |log| - policy.maxRestarts);
    var head, tail := log[..cut], log[cut..];
    assert log == head + tail;
    CountSplit(head, tail, from, from + policy.window);
    HeadIsEarlier(log, cut, policy, from);
    CountNone(head, from, from + policy.window);
  }

  lemma HeadIsEarlier(log: seq<int>, cut: nat, policy: Policy, from: int)
    requires log != [] && Spaced(log, policy) && Sorted(log) && log[|log| - 1] <= from + policy.window
    requires cut == Max(0, |log| - policy.maxRestarts)
    ensures forall i :: 0 <= i < cut ==> log[i] < from
  {
    if cut > 0 {
      assert log[cut - 1] + policy.window < log[|log| - 1];
    }
  }

  ghost predicate Sorted(log: seq<int>) {
    forall i, j :: 0 <= i <= j < |log| ==> log[i] <= log[j]
  }

  /** Spaced restarts put at most maxRestarts into any window, wherever it begins. */
  lemma {:induction false} SpacedMeansBudget(log: seq<int>, policy: Policy, from: int)
    requires Spaced(log, policy) && Sorted(log)
    ensures CountIn(log, from, from + policy.window) <= policy.maxRestarts
  {
    if log != [] {
      if from <= log[|log| - 1] <= from + policy.window {
        LastWindow(log, policy, from);
      } else {
        SpacedMeansBudget(log[..|log| - 1], policy, from);
      }
    }
  }

  const FRESH := World(IDLE, map[], 0, [], 0)

  /**
   Over every run of starts, stops, failures, closes and timers: between manual starts from the
   failed state, every window of the policy's length holds at most maxRestarts scheduled restarts,
   at most one timer is armed, and every delay is within bounds.
   */
  lemma RestartBudget(policy: Policy, events: seq<Event>, from: int)
    requires policy.Valid() && AllTimely(FRESH, policy, events)
    ensures
      var w := Run(FRESH, policy, events);
      && CountIn(w.log, from, from + policy.window) <= policy.maxRestarts
      && |w.armed| <= 1
      && forall id :: id in w.armed ==> policy.initialDelay <= w.armed[id] <= policy.maxDelay
  {
    RunKeeps(FRESH, policy, events);
    var w := Run(FRESH, policy, events);
    SpacedMeansBudget(w.log, policy, from);
    assert |w.armed| == |w.armed.Keys|;
  }
}
