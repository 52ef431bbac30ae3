// The query log of the query engine: a bounded log of recently issued
// queries, and the completion token that walks each logged query through
// its phases (received, planned, permit, then success, fail or cancel).
//
// Instants are integers counting nanoseconds; every reading of the clock
// is a parameter (`now`). Locks, atomics and reference counting only make
// the structures shareable between threads and are not modelled: every
// operation here is one sequential step.

module QueryLogging {
  import opened Wrappers

  newtype u8 = x: int | 0 <= x < 0x100

  /** A wall-clock instant, in nanoseconds. */
  type Time = int

  const MILLISECOND: nat := 1_000_000

  /** Stored in a duration cell while the duration is not known yet. */
  const UNCOMPLETED_DURATION: int := -1

  // ---------------------------------------------------------------------
  // Query phases
  // ---------------------------------------------------------------------

  /*
   *     +-------------------------------+---> fail
   *     |                               |
   * received ---> planned ---> permit ---+
   *     |           |           |       |
   *     |           |           |       +---> success
   *     |           |           |
   *     +-----------+-----------+-----------> cancel
   */
  datatype QueryPhase = Received | Planned | Permit | Cancel | Success | Fail

  /** The byte a phase is stored as. */
  function Id(p: QueryPhase): (r: u8)
    ensures r < 6
  {
    match p
    case Received => 0
    case Planned => 1
    case Permit => 2
    case Cancel => 3
    case Success => 4
    case Fail => 5
  }

  /** The phase stored as byte `id`; any other byte is unreachable. */
  function FromId(id: u8): (p: QueryPhase)
    requires id < 6
    ensures Id(p) == id
  {
    if id == 0 then Received
    else if id == 1 then Planned
    else if id == 2 then Permit
    else if id == 3 then Cancel
    else if id == 4 then QueryPhase.Success
    else Fail
  }

  /** Decoding the stored byte gives back the phase that was stored. */
  lemma FromIdOfId(p: QueryPhase)
    ensures FromId(Id(p)) == p
  {
    match p
    case Received =>
    case Planned =>
    case Permit =>
    case Cancel =>
    case Success =>
    case Fail =>
  }

  /** Distinct phases are stored as distinct bytes. */
  lemma IdInjective(p: QueryPhase, q: QueryPhase)
    ensures Id(p) == Id(q) <==> p == q
  {
    if Id(p) == Id(q) {
      FromIdOfId(p);
      FromIdOfId(q);
    }
  }

  // ---------------------------------------------------------------------
  // Duration cells
  // ---------------------------------------------------------------------

  /** What a duration cell can hold: a nanosecond count, or the sentinel. */
  type StoredNanos = x: int | x >= UNCOMPLETED_DURATION

  /** `Some(now - origin)` unless the clock went backwards. */
  function DurationSince(origin: Time, now: Time): (r: Option<nat>)
    ensures r.Some? <==> origin <= now
    ensures r.Some? ==> origin + r.value == now
  {
    if origin <= now then Some(now - origin) else None
  }

  /** The value of a cell after `SetRelative(origin, now)` when it held `prev`. */
  function Relative(origin: Time, now: Time, prev: Option<nat>): Option<nat>
  {
    match DurationSince(origin, now)
    case Some(d) => Some(d)
    case None => prev
  }

  /** A duration cell, initially unset. */
  class AtomicDuration {
    var nanos: StoredNanos

    constructor ()
      ensures nanos == UNCOMPLETED_DURATION
    {
      nanos := UNCOMPLETED_DURATION;
    }

    /** The stored duration; `None` exactly for the sentinel. */
    function Get(): (r: Option<nat>)
      reads this
      ensures r.None? <==> nanos == UNCOMPLETED_DURATION
      ensures r.Some? ==> r.value as int == nanos
    {
      if nanos == UNCOMPLETED_DURATION then None else Some(nanos as nat)
    }

    /** Stores `now - origin`; keeps the old value if the clock went backwards. */
    method SetRelative(origin: Time, now: Time)
      modifies this
      ensures Get() == Relative(origin, now, old(Get()))
      ensures origin <= now ==> Get() == Some(now - origin)
      ensures now < origin ==> nanos == old(nanos)
    {
      var d := DurationSince(origin, now);
      if d.Some? {
        nanos := d.value;
      }
    }

    /** Stores the duration `d`. */
    method SetAbsolute(d: nat)
      modifies this
      ensures Get() == Some(d)
    {
      nanos := d;
    }
  }

  // ---------------------------------------------------------------------
  // Execution plans: only the metrics the log reads
  // ---------------------------------------------------------------------

  /** A node's metrics: its elapsed compute time, when recorded. */
  datatype Metrics = Metrics(elapsedCompute: Option<nat>)

  /** A physical execution plan: optional metrics and child plans. */
  datatype Plan = Plan(metrics: Option<Metrics>, children: seq<Plan>)

  /** Compute time recorded on the node itself. */
  function OwnCompute(p: Plan): nat
  {
    if p.metrics.Some? && p.metrics.value.elapsedCompute.Some?
    then p.metrics.value.elapsedCompute.value
    else 0
  }

  /** Compute time of the whole plan tree. */
  function TreeCompute(p: Plan): nat
    decreases p, |p.children| + 1
  {
    OwnCompute(p) + ChildrenCompute(p, |p.children|)
  }

  /** Compute time of the first `n` child trees of `p`. */
  function ChildrenCompute(p: Plan, n: nat): nat
    requires n <= |p.children|
    decreases p, n
  {
    if n == 0 then 0 else ChildrenCompute(p, n - 1) + TreeCompute(p.children[n - 1])
  }

  /** The nodes of a plan tree, in pre-order. */
  function Nodes(p: Plan): seq<Plan>
    decreases p, |p.children| + 1
  {
    [p] + ChildrenNodes(p, |p.children|)
  }

  function ChildrenNodes(p: Plan, n: nat): seq<Plan>
    requires n <= |p.children|
    decreases p, n
  {
    if n == 0 then [] else ChildrenNodes(p, n - 1) + Nodes(p.children[n - 1])
  }

  /** Sum of the nodes' own compute times: the reference definition. */
  function SumOwn(s: seq<Plan>): nat
  {
    if |s| == 0 then 0 else SumOwn(s[..|s| - 1]) + OwnCompute(s[|s| - 1])
  }

  lemma {:induction false} SumOwnAppend(a: seq<Plan>, b: seq<Plan>)
    ensures SumOwn(a + b) == SumOwn(a) + SumOwn(b)
    decreases |b|
  {
    if |b| == 0 {
      assert a + b == a;
    } else {
      assert (a + b)[..|a + b| - 1] == a + b[..|b| - 1];
      SumOwnAppend(a, b[..|b| - 1]);
    }
  }

  /** The tree's compute time is the sum of every node's own compute time. */
  lemma {:induction false} TreeComputeSumsNodes(p: Plan)
    ensures TreeCompute(p) == SumOwn(Nodes(p))
    decreases p, |p.children| + 1
  {
    ChildrenComputeSumsNodes(p, |p.children|);
    SumOwnAppend([p], ChildrenNodes(p, |p.children|));
    assert [p][..0] == [];
  }

  lemma {:induction false} ChildrenComputeSumsNodes(p: Plan, n: nat)
    requires n <= |p.children|
    ensures ChildrenCompute(p, n) == SumOwn(ChildrenNodes(p, n))
    decreases p, n
  {
    if n > 0 {
      ChildrenComputeSumsNodes(p, n - 1);
      TreeComputeSumsNodes(p.children[n - 1]);
      SumOwnAppend(ChildrenNodes(p, n - 1), Nodes(p.children[n - 1]));
    }
  }

  /** Adds up the compute time recorded anywhere in the plan tree. */
  method CollectComputeDuration(plan: Plan) returns (total: nat)
    ensures total == TreeCompute(plan)
    decreases plan
  {
    total := 0;
    if plan.metrics.Some? {
      if plan.metrics.value.elapsedCompute.Some? {
        total := total + plan.metrics.value.elapsedCompute.value;
      }
    }
    var i := 0;
    while i < |plan.children|
      invariant 0 <= i <= |plan.children|
      invariant total == OwnCompute(plan) + ChildrenCompute(plan, i)
    {
      var child := CollectComputeDuration(plan.children[i]);
      total := total + child;
      i := i + 1;
    }
  }

  // ---------------------------------------------------------------------
  // Log entries
  // ---------------------------------------------------------------------

  datatype Uuid = Uuid(bits: nat)

  /** What the getters of an entry report at one moment. */
  datatype EntryView = EntryView(
    phase: QueryPhase,
    permit: Option<nat>,
    plan: Option<nat>,
    execute: Option<nat>,
    end2end: Option<nat>,
    compute: Option<nat>,
    success: bool,
    running: bool)
  {
    predicate Cancelled() { phase == Cancel }
  }

  /** The view of a freshly logged query. */
  const RECEIVED_VIEW := EntryView(Received, None, None, None, None, None, false, true)

  /** One logged query. */
  class QueryLogEntry {
    const id: Uuid
    const namespaceId: int
    const namespaceName: string
    const queryType: string
    const queryText: string
    const traceId: Option<nat>
    const issueTime: Time
    /** Time to acquire the permit, counted from issue time + plan duration. */
    const permitDuration: AtomicDuration
    /** Time to plan, counted from issue time. */
    const planDuration: AtomicDuration
    /** Time to execute, counted from issue time + permit + plan duration. */
    const executeDuration: AtomicDuration
    /** Time from issue until the query ended in any way. */
    const end2endDuration: AtomicDuration
    /** Compute time spent on the plan. */
    const computeDuration: AtomicDuration
    var success: bool
    var running: bool
    var phase: u8

    function Durations(): set<object>
    {
      {permitDuration, planDuration, executeDuration, end2endDuration, computeDuration}
    }

    ghost predicate Valid()
      reads this
    {
      && phase < 6
      && permitDuration != planDuration && permitDuration != executeDuration
      && permitDuration != end2endDuration && permitDuration != computeDuration
      && planDuration != executeDuration && planDuration != end2endDuration
      && planDuration != computeDuration
      && executeDuration != end2endDuration && executeDuration != computeDuration
      && end2endDuration != computeDuration
    }

    constructor (id: Uuid, namespaceId: int, namespaceName: string, queryType: string,
                 queryText: string, traceId: Option<nat>, issueTime: Time)
      ensures Valid() && fresh(Durations())
      ensures this.id == id && this.namespaceId == namespaceId
      ensures this.namespaceName == namespaceName && this.queryType == queryType
      ensures this.queryText == queryText && this.traceId == traceId
      ensures this.issueTime == issueTime
      ensures View() == RECEIVED_VIEW
    {
      this.id := id;
      this.namespaceId := namespaceId;
      this.namespaceName := namespaceName;
      this.queryType := queryType;
      this.queryText := queryText;
      this.traceId := traceId;
      this.issueTime := issueTime;
      permitDuration := new AtomicDuration();
      planDuration := new AtomicDuration();
      executeDuration := new AtomicDuration();
      end2endDuration := new AtomicDuration();
      computeDuration := new AtomicDuration();
      success := false;
      running := true;
      phase := Id(Received);
    }

    function Phase(): QueryPhase
      reads this
      requires phase < 6
    {
      FromId(phase)
    }

    /** A query is cancelled exactly when its stored phase is `Cancel`. */
    function Cancelled(): (r: bool)
      reads this
      requires phase < 6
      ensures r <==> phase == 3
    {
      Phase() == Cancel
    }

    function View(): EntryView
      reads this, Durations()
      requires phase < 6
    {
      EntryView(Phase(), permitDuration.Get(), planDuration.Get(), executeDuration.Get(),
                end2endDuration.Get(), computeDuration.Get(), success, running)
    }
  }

  // ---------------------------------------------------------------------
  // The transitions, on views
  // ---------------------------------------------------------------------

  /** `planned` at `now`. */
  function OnPlanned(v: EntryView, issue: Time, now: Time): (r: EntryView)
    ensures r.phase == Planned
    ensures issue <= now ==> r.plan.Some? && issue + r.plan.value == now
    ensures now < issue ==> r.plan == v.plan
    ensures r.(phase := v.phase, plan := v.plan) == v
  {
    v.(phase := Planned, plan := Relative(issue, now, v.plan))
  }

  /** `fail` while still received: the planning time is recorded. */
  function OnPlanningFailed(v: EntryView, issue: Time, now: Time): (r: EntryView)
    ensures r.phase == Fail && r.success == v.success
    ensures issue <= now ==> r.plan.Some? && issue + r.plan.value == now
    ensures now < issue ==> r.plan == v.plan
    ensures r.(phase := v.phase, plan := v.plan) == v
  {
    v.(phase := Fail, plan := Relative(issue, now, v.plan))
  }

  /** `permit` at `now`: counted from the end of planning. */
  function OnPermit(v: EntryView, issue: Time, now: Time): (r: EntryView)
    requires v.plan.Some?
    ensures r.phase == Permit && r.plan == v.plan
    ensures issue + v.plan.value <= now ==> r.permit.Some? && issue + v.plan.value + r.permit.value == now
    ensures now < issue + v.plan.value ==> r.permit == v.permit
    ensures r.(phase := v.phase, permit := v.permit) == v
  {
    v.(phase := Permit, permit := Relative(issue + v.plan.value, now, v.permit))
  }

  /** `finish` at `now`: execution counted from when the permit was granted. */
  function OnFinish(v: EntryView, issue: Time, now: Time, compute: nat): (r: EntryView)
    requires v.permit.Some? && v.plan.Some?
    ensures r.compute == Some(compute) && r.plan == v.plan && r.permit == v.permit
    ensures issue + v.plan.value + v.permit.value <= now ==>
      r.execute.Some? && issue + v.plan.value + v.permit.value + r.execute.value == now
    ensures r.(execute := v.execute, compute := v.compute) == v
  {
    v.(execute := Relative(issue + v.permit.value + v.plan.value, now, v.execute),
       compute := Some(compute))
  }

  /** `success` at `now`, before the token is dropped. */
  function OnSuccess(v: EntryView, issue: Time, now: Time, compute: nat): (r: EntryView)
    requires v.permit.Some? && v.plan.Some?
    ensures r.success && r.phase == QueryPhase.Success && r.running == v.running
    ensures r.compute == Some(compute)
    ensures issue + v.plan.value + v.permit.value <= now ==>
      r.execute.Some? && issue + v.plan.value + v.permit.value + r.execute.value == now
    ensures r.(success := v.success, phase := v.phase, execute := v.execute, compute := v.compute) == v
  {
    OnFinish(v.(success := true, phase := QueryPhase.Success), issue, now, compute)
  }

  /** `fail` after the permit, before the token is dropped. */
  function OnExecutionFailed(v: EntryView, issue: Time, now: Time, compute: nat): (r: EntryView)
    requires v.permit.Some? && v.plan.Some?
    ensures r.phase == Fail && r.success == v.success && r.running == v.running
    ensures r.compute == Some(compute)
    ensures issue + v.plan.value + v.permit.value <= now ==>
      r.execute.Some? && issue + v.plan.value + v.permit.value + r.execute.value == now
    ensures r.(phase := v.phase, execute := v.execute, compute := v.compute) == v
  {
    OnFinish(v.(phase := Fail), issue, now, compute)
  }

  /** Dropping a token that still holds its entry; `compute` is the plan's compute time, if the token has a plan. */
  function OnDrop(v: EntryView, issue: Time, now: Time, compute: Option<nat>): (r: EntryView)
    ensures !r.running
    ensures issue <= now ==> r.end2end.Some? && issue + r.end2end.value == now
    ensures r.phase == (if v.phase != Fail && v.execute.None? then Cancel else v.phase)
  {
    var v' :=
      if v.phase != Fail && v.execute.None? then
        v.(phase := Cancel,
           compute := if v.permit.Some? && compute.Some? then compute else v.compute)
      else v;
    v'.(end2end := Relative(issue, now, v'.end2end), running := false)
  }

  /** Dropping ends the query: it is no longer running, and its end-to-end time is measured from issue. */
  lemma DropEndsQuery(v: EntryView, issue: Time, now: Time, compute: Option<nat>)
    ensures !OnDrop(v, issue, now, compute).running
    ensures issue <= now ==> OnDrop(v, issue, now, compute).end2end == Some(now - issue)
    ensures OnDrop(v, issue, now, compute).plan == v.plan
    ensures OnDrop(v, issue, now, compute).permit == v.permit
    ensures OnDrop(v, issue, now, compute).execute == v.execute
    ensures OnDrop(v, issue, now, compute).success == v.success
  {
  }

  /** Dropping cancels exactly the queries that neither failed nor finished executing. */
  lemma DropCancels(v: EntryView, issue: Time, now: Time, compute: Option<nat>)
    requires v.phase != Cancel
    ensures OnDrop(v, issue, now, compute).Cancelled() <==> v.phase != Fail && v.execute.None?
    ensures !OnDrop(v, issue, now, compute).Cancelled() ==> OnDrop(v, issue, now, compute).phase == v.phase
  {
  }

  /** A failed query stays failed, and a query that finished executing keeps its phase. */
  lemma DropKeepsTerminal(v: EntryView, issue: Time, now: Time, compute: Option<nat>)
    requires v.phase == Fail || v.execute.Some?
    ensures OnDrop(v, issue, now, compute).phase == v.phase
    ensures OnDrop(v, issue, now, compute).compute == v.compute
  {
  }

  /** Partial compute statistics are collected on cancel only once the permit was granted. */
  lemma DropCollectsPartialCompute(v: EntryView, issue: Time, now: Time, c: nat)
    requires v.phase != Fail && v.execute.None?
    ensures OnDrop(v, issue, now, Some(c)).compute == (if v.permit.Some? then Some(c) else v.compute)
    ensures OnDrop(v, issue, now, None).compute == v.compute
  {
  }

  /** A successful run, ended by dropping the token, ends in `Success`. */
  lemma SuccessIsFinal(v: EntryView, issue: Time, now: Time, dropNow: Time, c: nat, c': Option<nat>)
    requires v.permit.Some? && v.plan.Some?
    requires issue + v.permit.value + v.plan.value <= now
    ensures OnDrop(OnSuccess(v, issue, now, c), issue, dropNow, c').phase == QueryPhase.Success
    ensures OnDrop(OnSuccess(v, issue, now, c), issue, dropNow, c').success
    ensures OnDrop(OnSuccess(v, issue, now, c), issue, dropNow, c').compute == Some(c)
  {
  }

  /** Every transition moves along an edge of the phase diagram. */
  predicate Edge(from: QueryPhase, to: QueryPhase)
  {
    || (from == Received && to in {Planned, Fail, Cancel})
    || (from == Planned && to in {Permit, Cancel})
    || (from == Permit && to in {QueryPhase.Success, Fail, Cancel})
  }

  lemma TransitionsFollowDiagram(v: EntryView, issue: Time, now: Time, c: nat)
    ensures v.phase == Received ==> Edge(v.phase, OnPlanned(v, issue, now).phase)
    ensures v.phase == Received ==> Edge(v.phase, OnPlanningFailed(v, issue, now).phase)
    ensures v.phase == Planned && v.plan.Some? ==> Edge(v.phase, OnPermit(v, issue, now).phase)
    ensures v.phase == Permit && v.plan.Some? && v.permit.Some? ==>
      Edge(v.phase, OnSuccess(v, issue, now, c).phase) && Edge(v.phase, OnExecutionFailed(v, issue, now, c).phase)
    ensures v.phase in {Received, Planned, Permit} && v.execute.None? ==>
      Edge(v.phase, OnDrop(v, issue, now, Some(c)).phase)
  {
  }

  // ---------------------------------------------------------------------
  // Completion tokens
  // ---------------------------------------------------------------------

  /** The type state of a token: the phase it was handed out in, and the plan once there is one. */
  datatype TokenState = ReceivedState | PlannedState(plan: Plan) | PermitState(plan: Plan)

  /** The compute time a token in state `s` collects, if it has a plan. */
  function PlanCompute(s: TokenState): Option<nat>
  {
    if s.ReceivedState? then None else Some(TreeCompute(s.plan))
  }

  /**
   * Handed out when a query is logged; each transition consumes it and,
   * except for the terminal ones, hands out a token for the next state.
   * `entry == None` once the token has been consumed or dropped.
   */
  class QueryCompletedToken {
    var entry: Option<QueryLogEntry>
    const state: TokenState

    constructor (entry: QueryLogEntry, state: TokenState)
      ensures this.entry == Some(entry) && this.state == state
    {
      this.entry := Some(entry);
      this.state := state;
    }

    function Footprint(): set<object>
      reads this
    {
      if entry.Some? then {entry.value} + entry.value.Durations() else {}
    }

    /** The underlying entry. */
    function Entry(): (e: QueryLogEntry)
      reads this
      requires entry.Some?
      ensures entry == Some(e)
    {
      entry.value
    }

    /** Stores the plan's compute time into `e`, if this token has a plan. */
    method CollectComputeTime(e: QueryLogEntry)
      modifies e.computeDuration
      ensures e.computeDuration.Get() == if state.ReceivedState? then old(e.computeDuration.Get()) else PlanCompute(state)
    {
      if !state.ReceivedState? {
        var d := CollectComputeDuration(state.plan);
        e.computeDuration.SetAbsolute(d);
      }
    }

    /** Records that the query got planned. */
    method Planned(plan: Plan, now: Time) returns (next: QueryCompletedToken)
      requires state.ReceivedState? && entry.Some? && entry.value.Valid()
      modifies this, entry.value, entry.value.Durations()
      ensures fresh(next) && next.entry == old(entry) && next.state == PlannedState(plan)
      ensures entry == None
      ensures old(entry).value.Valid()
      ensures old(entry).value.View() == OnPlanned(old(entry.value.View()), old(entry).value.issueTime, now)
    {
      var e := entry.value;
      e.planDuration.SetRelative(e.issueTime, now);
      entry := None;
      e.phase := Id(QueryPhase.Planned);
      next := new QueryCompletedToken(e, PlannedState(plan));
    }

    /** Records that the query failed during planning; the token is then dropped. */
    method Fail(now: Time, dropNow: Time)
      requires state.ReceivedState? && entry.Some? && entry.value.Valid()
      modifies this, entry.value, entry.value.Durations()
      ensures entry == None
      ensures old(entry).value.Valid()
      ensures old(entry).value.View()
        == OnDrop(OnPlanningFailed(old(entry.value.View()), old(entry).value.issueTime, now),
                  old(entry).value.issueTime, dropNow, None)
    {
      var e := entry.value;
      e.planDuration.SetRelative(e.issueTime, now);
      e.phase := Id(QueryPhase.Fail);
      Drop(dropNow);
    }

    /** Records that the query got its semaphore permit. */
    method Permit(now: Time) returns (next: QueryCompletedToken)
      requires state.PlannedState? && entry.Some? && entry.value.Valid()
      requires entry.value.planDuration.Get().Some?
      modifies this, entry.value, entry.value.Durations()
      ensures fresh(next) && next.entry == old(entry) && next.state == PermitState(state.plan)
      ensures entry == None
      ensures old(entry).value.Valid()
      ensures old(entry).value.View() == OnPermit(old(entry.value.View()), old(entry).value.issueTime, now)
    {
      var e := entry.value;
      entry := None;
      var origin := e.issueTime + e.planDuration.Get().value;
      e.permitDuration.SetRelative(origin, now);
      e.phase := Id(QueryPhase.Permit);
      next := new QueryCompletedToken(e, PermitState(state.plan));
    }

    /** Records that the query completed successfully; the token is then dropped. */
    method Success(now: Time, dropNow: Time)
      requires state.PermitState? && entry.Some? && entry.value.Valid()
      requires entry.value.permitDuration.Get().Some? && entry.value.planDuration.Get().Some?
      modifies this, entry.value, entry.value.Durations()
      ensures entry == None
      ensures old(entry).value.Valid()
      ensures old(entry).value.View()
        == OnDrop(OnSuccess(old(entry.value.View()), old(entry).value.issueTime, now, TreeCompute(state.plan)),
                  old(entry).value.issueTime, dropNow, PlanCompute(state))
    {
      var e := entry.value;
      e.success := true;
      e.phase := Id(QueryPhase.Success);
      Finish(now);
      Drop(dropNow);
    }

    /** Records that execution failed; the token is then dropped. */
    method FailExecution(now: Time, dropNow: Time)
      requires state.PermitState? && entry.Some? && entry.value.Valid()
      requires entry.value.permitDuration.Get().Some? && entry.value.planDuration.Get().Some?
      modifies this, entry.value, entry.value.Durations()
      ensures entry == None
      ensures old(entry).value.Valid()
      ensures old(entry).value.View()
        == OnDrop(OnExecutionFailed(old(entry.value.View()), old(entry).value.issueTime, now, TreeCompute(state.plan)),
                  old(entry).value.issueTime, dropNow, PlanCompute(state))
    {
      var e := entry.value;
      e.phase := Id(QueryPhase.Fail);
      Finish(now);
      Drop(dropNow);
    }

    /** Records the execution time and collects the compute time. */
    method Finish(now: Time)
      requires state.PermitState? && entry.Some? && entry.value.Valid()
      requires entry.value.permitDuration.Get().Some? && entry.value.planDuration.Get().Some?
      modifies entry.value.executeDuration, entry.value.computeDuration
      ensures entry.value.View() == OnFinish(old(entry.value.View()), entry.value.issueTime, now, TreeCompute(state.plan))
    {
      var e := entry.value;
      var origin := e.issueTime + e.permitDuration.Get().value + e.planDuration.Get().value;
      e.executeDuration.SetRelative(origin, now);
      CollectComputeTime(e);
    }

    /** Dropping the token: a query that neither failed nor finished is cancelled. */
    method Drop(now: Time)
      requires entry.Some? ==> entry.value.Valid()
      modifies this, Footprint()
      ensures entry == None
      ensures old(entry).Some? ==> old(entry).value.Valid()
      ensures old(entry).Some? ==>
        old(entry).value.View() == OnDrop(old(entry.value.View()), old(entry).value.issueTime, now, PlanCompute(state))
    {
      if entry.Some? {
        var e := entry.value;
        entry := None;
        if e.Phase() != QueryPhase.Fail && e.executeDuration.Get().None? {
          e.phase := Id(Cancel);
          if e.permitDuration.Get().Some? {
            CollectComputeTime(e);
          }
        }
        e.end2endDuration.SetRelative(e.issueTime, now);
        e.running := false;
      }
    }
  }

  // ---------------------------------------------------------------------
  // The log
  // ---------------------------------------------------------------------

  /** The newest `maxSize` elements of `s` (all of them if there are fewer). */
  function Retained<T>(s: seq<T>, maxSize: nat): (r: seq<T>)
    ensures |r| == if |s| > maxSize then maxSize else |s|
    ensures r == s[|s| - |r|..]
  {
    if |s| > maxSize then s[|s| - maxSize..] else s
  }

  /** How many entries a push evicts from a log of length `n`. */
  function Evictions(n: nat, maxSize: nat): nat
  {
    if n > maxSize then n - maxSize else 0
  }

  /** The log after pushing `e`: nothing is stored when `maxSize` is zero. */
  function Pushed<T>(s: seq<T>, maxSize: nat, e: T): (r: seq<T>)
    ensures maxSize == 0 ==> r == s
    ensures maxSize > 0 ==> 0 < |r| <= |s| + 1 && |r| <= maxSize + 1
    ensures maxSize > 0 ==> r[|r| - 1] == e
  {
    if maxSize == 0 then s else Retained(s, maxSize) + [e]
  }

  /** The log after pushing every element of `es` in order. */
  function PushedAll<T>(s: seq<T>, maxSize: nat, es: seq<T>): seq<T>
  {
    if |es| == 0 then s else Pushed(PushedAll(s, maxSize, es[..|es| - 1]), maxSize, es[|es| - 1])
  }

  function Min(a: nat, b: nat): nat { if a < b then a else b }

  /** A push keeps the log within `maxSize + 1` entries, keeps the survivors' order and evicts the oldest. */
  lemma PushBound<T>(s: seq<T>, maxSize: nat, e: T)
    requires |s| <= maxSize + 1
    ensures |Pushed(s, maxSize, e)| <= maxSize + 1
    ensures maxSize > 0 ==> Pushed(s, maxSize, e) == s[Evictions(|s|, maxSize)..] + [e]
    ensures maxSize > 0 ==> |s| + 1 == |Pushed(s, maxSize, e)| + Evictions(|s|, maxSize)
  {
  }

  /**
   * Starting empty, the log holds exactly the newest `maxSize + 1` pushed
   * entries, in push order: one more than `maxSize`.
   */
  lemma {:induction false} PushedAllKeepsNewest<T>(maxSize: nat, es: seq<T>)
    requires maxSize > 0
    ensures PushedAll([], maxSize, es) == es[|es| - Min(|es|, maxSize + 1)..]
  {
    if |es| > 0 {
      PushedAllKeepsNewest(maxSize, es[..|es| - 1]);
      PushNewest(es, maxSize);
    }
  }

  /** Pushing the last of `es` onto the newest entries of the others leaves the newest of `es`. */
  lemma PushNewest<T>(es: seq<T>, maxSize: nat)
    requires maxSize > 0 && |es| > 0
    ensures var init := es[..|es| - 1];
      Pushed(init[|init| - Min(|init|, maxSize + 1)..], maxSize, es[|es| - 1])
        == es[|es| - Min(|es|, maxSize + 1)..]
  {
    var init, x, n := es[..|es| - 1], es[|es| - 1], |es|;
    assert init + [x] == es;
    if n - 1 <= maxSize {
      assert init[|init| - Min(|init|, maxSize + 1)..] == init;
      assert Retained(init, maxSize) == init;
    } else {
      var kept := init[n - 1 - (maxSize + 1)..];
      assert init[|init| - Min(|init|, maxSize + 1)..] == kept;
      assert Retained(kept, maxSize) == init[n - 1 - maxSize..];
      assert init[n - 1 - maxSize..] + [x] == es[n - 1 - maxSize..];
    }
  }

  /** A log of size zero stores nothing. */
  lemma {:induction false} ZeroSizedLogStaysEmpty<T>(es: seq<T>)
    ensures PushedAll([], 0, es) == []
  {
    if |es| > 0 {
      ZeroSizedLogStaysEmpty(es[..|es| - 1]);
    }
  }

  /** A snapshot of the log. */
  datatype QueryLogEntries = QueryLogEntries(entries: seq<QueryLogEntry>, maxSize: nat, evicted: nat)

  /** The bounded log of recently issued queries. */
  class QueryLog {
    var log: seq<QueryLogEntry>
    const maxSize: nat
    var evicted: nat

    ghost predicate Valid()
      reads this
    {
      |log| <= maxSize + 1
    }

    /** A log that retains the newest pushed queries, `maxSize` of them and one more. */
    constructor (maxSize: nat)
      ensures Valid()
      ensures this.maxSize == maxSize && log == [] && evicted == 0
    {
      this.maxSize := maxSize;
      log := [];
      evicted := 0;
    }

    /** Logs a new query issued at `now` and hands out its token. */
    method Push(namespaceId: int, namespaceName: string, queryType: string, queryText: string,
                traceId: Option<nat>, id: Uuid, now: Time) returns (token: QueryCompletedToken)
      requires Valid()
      modifies this
      ensures Valid()
      ensures fresh(token) && token.state == ReceivedState && token.entry.Some?
      ensures fresh(token.entry.value) && fresh(token.entry.value.Durations())
      ensures token.entry.value.Valid() && token.entry.value.View() == RECEIVED_VIEW
      ensures token.entry.value.issueTime == now && token.entry.value.id == id
      ensures token.entry.value.namespaceId == namespaceId && token.entry.value.namespaceName == namespaceName
      ensures token.entry.value.queryType == queryType && token.entry.value.queryText == queryText
      ensures token.entry.value.traceId == traceId
      ensures log == Pushed(old(log), maxSize, token.entry.value)
      ensures evicted == old(evicted) + (if maxSize == 0 then 0 else Evictions(|old(log)|, maxSize))
    {
      var entry := new QueryLogEntry(id, namespaceId, namespaceName, queryType, queryText, traceId, now);
      token := new QueryCompletedToken(entry, ReceivedState);
      if maxSize == 0 {
        return;
      }
      while |log| > maxSize
        modifies this
        invariant evicted - old(evicted) <= |old(log)|
        invariant evicted >= old(evicted)
        invariant log == old(log)[evicted - old(evicted)..]
        invariant |old(log)| > maxSize ==> |log| >= maxSize
        invariant |old(log)| <= maxSize ==> evicted == old(evicted)
        decreases |log|
      {
        log := log[1..];
        evicted := evicted + 1;
      }
      log := log + [entry];
    }

    /** A snapshot of the retained entries, oldest first. */
    function Entries(): (r: QueryLogEntries)
      reads this
      requires Valid()
      ensures r.entries == log && |r.entries| <= r.maxSize + 1
      ensures r.maxSize == maxSize && r.evicted == evicted
    {
      QueryLogEntries(log, maxSize, evicted)
    }
  }
  // ---------------------------------------------------------------------
  // The lifecycle scenarios of the log's own tests
  // ---------------------------------------------------------------------

  /** A plan whose single node recorded 1337 ms of compute time. */
  const TEST_PLAN := Plan(Some(Metrics(Some(1_337 * MILLISECOND))), [])

  lemma TestPlanCompute()
    ensures TreeCompute(TEST_PLAN) == 1_337 * MILLISECOND
  {
    assert ChildrenCompute(TEST_PLAN, 0) == 0;
  }

  /** Logs `SELECT 1` at 100 ms in a log of 1000 entries. */
  method LogTestQuery() returns (log: QueryLog, token: QueryCompletedToken, e: QueryLogEntry)
    ensures fresh(log) && fresh(token) && fresh(e) && fresh(e.Durations())
    ensures token.entry == Some(e) && token.state == ReceivedState && e.Valid()
    ensures e.issueTime == 100 * MILLISECOND && e.View() == RECEIVED_VIEW
    ensures log.Valid() && log.Entries().entries == [e]
  {
    log := new QueryLog(1_000);
    token := log.Push(1, "ns", "sql", "SELECT 1", None, Uuid(1), 100 * MILLISECOND);
    e := token.entry.value;
  }

  /** Planned after 1 ms, permit after 10 ms more, success after 100 ms more. */
  method EndToEndSuccessScenario() returns (views: seq<EntryView>)
    ensures views == [
      RECEIVED_VIEW,
      EntryView(Planned, None, Some(MILLISECOND), None, None, None, false, true),
      EntryView(Permit, Some(10 * MILLISECOND), Some(MILLISECOND), None, None, None, false, true),
      EntryView(QueryPhase.Success, Some(10 * MILLISECOND), Some(MILLISECOND), Some(100 * MILLISECOND),
                Some(111 * MILLISECOND), Some(1_337 * MILLISECOND), true, false)]
  {
    var log, t0, e := LogTestQuery();
    var v0 := e.View();
    var t1 := t0.Planned(TEST_PLAN, 101 * MILLISECOND);
    var v1 := e.View();
    var t2 := t1.Permit(111 * MILLISECOND);
    var v2 := e.View();
    TestPlanCompute();
    t2.Success(211 * MILLISECOND, 211 * MILLISECOND);
    views := [v0, v1, v2, e.View()];
  }

  /** Failing during planning after 1 ms. */
  method PlanningFailScenario() returns (v: EntryView)
    ensures v == EntryView(Fail, None, Some(MILLISECOND), None, Some(MILLISECOND), None, false, false)
    ensures !v.Cancelled()
  {
    var log, t0, e := LogTestQuery();
    t0.Fail(101 * MILLISECOND, 101 * MILLISECOND);
    v := e.View();
  }

  /** Failing during execution, 100 ms after the permit. */
  method ExecutionFailScenario() returns (v: EntryView)
    ensures v == EntryView(Fail, Some(10 * MILLISECOND), Some(MILLISECOND), Some(100 * MILLISECOND),
                           Some(111 * MILLISECOND), Some(1_337 * MILLISECOND), false, false)
    ensures !v.Cancelled()
  {
    var log, t0, e := LogTestQuery();
    var t1 := t0.Planned(TEST_PLAN, 101 * MILLISECOND);
    var t2 := t1.Permit(111 * MILLISECOND);
    TestPlanCompute();
    t2.FailExecution(211 * MILLISECOND, 211 * MILLISECOND);
    v := e.View();
  }

  /** Dropping the token 1 ms after the query was logged. */
  method DropBeforePlannedScenario() returns (v: EntryView)
    ensures v == EntryView(Cancel, None, None, None, Some(MILLISECOND), None, false, false)
    ensures v.Cancelled()
  {
    var log, t0, e := LogTestQuery();
    t0.Drop(101 * MILLISECOND);
    v := e.View();
  }

  /** Dropping the token while it waits for a permit. */
  method DropBeforeAcquireScenario() returns (v: EntryView)
    ensures v == EntryView(Cancel, None, Some(MILLISECOND), None, Some(11 * MILLISECOND), None, false, false)
    ensures v.Cancelled()
  {
    var log, t0, e := LogTestQuery();
    var t1 := t0.Planned(TEST_PLAN, 101 * MILLISECOND);
    t1.Drop(111 * MILLISECOND);
    v := e.View();
  }

  /** Dropping the token during execution: partial compute statistics are kept. */
  method DropBeforeFinishScenario() returns (v: EntryView)
    ensures v == EntryView(Cancel, Some(10 * MILLISECOND), Some(MILLISECOND), None,
                           Some(111 * MILLISECOND), Some(1_337 * MILLISECOND), false, false)
    ensures v.Cancelled()
  {
    var log, t0, e := LogTestQuery();
    var t1 := t0.Planned(TEST_PLAN, 101 * MILLISECOND);
    var t2 := t1.Permit(111 * MILLISECOND);
    TestPlanCompute();
    t2.Drop(211 * MILLISECOND);
    v := e.View();
  }

  /** Four pushes into a log of size 2: the newest three stay, one is evicted. */
  method RetentionScenario() returns (r: QueryLogEntries)
    ensures |r.entries| == 3 && r.evicted == 1 && r.maxSize == 2
    ensures r.entries[0].id == Uuid(2) && r.entries[1].id == Uuid(3) && r.entries[2].id == Uuid(4)
  {
    var log := new QueryLog(2);
    var i: nat := 1;
    while i <= 4
      modifies log
      invariant 1 <= i <= 5 && log.Valid()
      invariant log.maxSize == 2 && log.evicted == if i <= 4 then 0 else 1
      invariant |log.log| == Min(i - 1, 3)
      invariant forall k :: 0 <= k < |log.log| ==> log.log[k].id == Uuid(i - |log.log| + k)
    {
      var t := log.Push(1, "ns", "sql", "SELECT 1", None, Uuid(i), 100 * MILLISECOND);
      i := i + 1;
    }
    r := log.Entries();
  }
}
