/** The per-job budget governor: the verdict and the running total (costs.rs), and the two metered
    seams that read and advance it (app.rs). Dollars are reals. */
module Budget {
  import opened Wrappers

  // ---- what the ledger says about one call ----

  datatype Certainty = Billed | Unmetered | Unknown | Free

  datatype CostEvent = CostEvent(costUsd: real, certainty: Certainty, detail: string)

  function FromAmount(costUsd: real): Certainty { if costUsd > 0.0 then Billed else Free }

  datatype JobSpend = JobSpend(billedUsd: real, billedCalls: nat, uncertainCalls: nat)

  function NoSpend(): JobSpend { JobSpend(0.0, 0, 0) }

  /** The ledger's own sum. */
  function SpendOf(events: seq<CostEvent>): JobSpend {
    if events == [] then NoSpend()
    else
      var s, e := SpendOf(events[..|events| - 1]), events[|events| - 1];
      JobSpend(s.billedUsd + e.costUsd,
               s.billedCalls + if e.certainty.Billed? then 1 else 0,
               s.uncertainCalls + if e.certainty.Unmetered? || e.certainty.Unknown? then 1 else 0)
  }

  /** The in-memory total, advanced by one call. */
  function AddCall(s: JobSpend, deltaUsd: real, certainty: Certainty): JobSpend {
    var usd := if deltaUsd <= 0.0 then s.billedUsd else s.billedUsd + deltaUsd;
    match certainty
    case Billed => JobSpend(usd, s.billedCalls + 1, s.uncertainCalls)
    case Free => s.(billedUsd := usd)
    case _ => JobSpend(usd, s.billedCalls, s.uncertainCalls + 1)
  }

  function AddAll(s: JobSpend, events: seq<CostEvent>): JobSpend {
    if events == [] then s
    else AddCall(AddAll(s, events[..|events| - 1]), events[|events| - 1].costUsd, events[|events| - 1].certainty)
  }

  ghost predicate NoNegative(events: seq<CostEvent>) {
    forall i :: 0 <= i < |events| ==> events[i].costUsd >= 0.0
  }

  /** The mirror never shows less than the ledger, its counts are always the ledger's, and its
      dollars are exactly when no event is negative. */
  lemma {:induction false} MirrorIsLedger(events: seq<CostEvent>)
    ensures var mirror, ledger := AddAll(NoSpend(), events), SpendOf(events);
      && mirror.billedCalls == ledger.billedCalls && mirror.uncertainCalls == ledger.uncertainCalls
      && mirror.billedUsd >= ledger.billedUsd
      && (mirror == ledger <==> NoNegative(events))
  {
    if events != [] {
      var front, e := events[..|events| - 1], events[|events| - 1];
      MirrorIsLedger(front);
      assert NoNegative(events) <==> NoNegative(front) && e.costUsd >= 0.0 by {
        assert forall i :: 0 <= i < |front| ==> events[i] == front[i];
        assert events[|front|] == e;
      }
    }
  }

  ghost function BilledCalls(events: seq<CostEvent>): set<int> {
    set i | 0 <= i < |events| && events[i].certainty == Billed
  }

  ghost function UncertainCalls(events: seq<CostEvent>): set<int> {
    set i | 0 <= i < |events| && events[i].certainty in {Unmetered, Unknown}
  }

  lemma {:induction false} BilledAreCounted(events: seq<CostEvent>)
    ensures SpendOf(events).billedCalls == |BilledCalls(events)|
  {
    if events != [] {
      var n := |events| - 1;
      BilledAreCounted(events[..n]);
      if events[n].certainty == Billed {
        assert BilledCalls(events) == BilledCalls(events[..n]) + {n};
      } else {
        assert BilledCalls(events) == BilledCalls(events[..n]);
      }
    }
  }

  lemma {:induction false} UncertainAreCounted(events: seq<CostEvent>)
    ensures SpendOf(events).uncertainCalls == |UncertainCalls(events)|
  {
    if events != [] {
      var n := |events| - 1;
      UncertainAreCounted(events[..n]);
      if events[n].certainty in {Unmetered, Unknown} {
        assert UncertainCalls(events) == UncertainCalls(events[..n]) + {n};
      } else {
        assert UncertainCalls(events) == UncertainCalls(events[..n]);
      }
    }
  }

  /** What the ledger's sum counts: a bill is a price, a missing or an uncertain one is not, a free
      call is neither; and every row's dollars. */
  lemma {:induction false} LedgerCounts(events: seq<CostEvent>, e: CostEvent)
    ensures SpendOf(events).billedCalls == |BilledCalls(events)|
    ensures SpendOf(events).uncertainCalls == |UncertainCalls(events)|
    ensures SpendOf([]).billedUsd == 0.0 && SpendOf(events + [e]).billedUsd == SpendOf(events).billedUsd + e.costUsd
  {
    BilledAreCounted(events);
    UncertainAreCounted(events);
    assert (events + [e])[..|events|] == events;
  }

  // ---- the verdict ----

  datatype Imputation = Off | WindowMean

  datatype BudgetVerdict = Unlimited | Headroom(usd: real) | Unpriceable(uncertainCalls: nat)

  function ImputeUncertain(s: JobSpend): Option<real> {
    if s.uncertainCalls == 0 then Some(0.0)
    else if s.billedUsd < 0.0 || s.billedCalls == 0 then None
    else Some(s.billedUsd / s.billedCalls as real * s.uncertainCalls as real)
  }

  function ImputedUsd(s: JobSpend, policy: Imputation): Option<real> {
    match policy
    case Off => Some(0.0)
    case WindowMean => ImputeUncertain(s)
  }

  function AtLeastZero(x: real): real { if x < 0.0 then 0.0 else x }

  function ChargedUsd(s: JobSpend, policy: Imputation): Option<real> {
    var imputed := ImputedUsd(s, policy);
    if imputed.None? then None else Some(AtLeastZero(s.billedUsd) + imputed.value)
  }

  function Verdict(budget: Option<real>, s: JobSpend, policy: Imputation): BudgetVerdict {
    if budget.None? then Unlimited
    else
      var charged := ChargedUsd(s, policy);
      if charged.None? then Unpriceable(s.uncertainCalls) else Headroom(AtLeastZero(budget.value - charged.value))
  }

  function RemainingBudget(budget: Option<real>, s: JobSpend, policy: Imputation): Option<real> {
    match Verdict(budget, s, policy)
    case Unlimited => None
    case Headroom(usd) => Some(usd)
    case Unpriceable(_) => Some(0.0)
  }

  predicate IsExhausted(remaining: Option<real>) { remaining.Some? && remaining.value <= 0.0 }

  function ClampToHeadroom(ceiling: Option<real>, remaining: real): real {
    if ceiling.None? || remaining < ceiling.value then remaining else ceiling.value
  }

  /** `None` is a refusal. */
  function RequireBudget(budget: Option<real>, s: JobSpend, policy: Imputation): Option<Option<real>> {
    if Verdict(budget, s, policy).Unpriceable? then None
    else
      var remaining := RemainingBudget(budget, s, policy);
      if IsExhausted(remaining) then None else Some(remaining)
  }

  /** When a job is refused, exactly: it has a ceiling, and either what is charged has reached it
      or there are unreadable bills and nothing priced to estimate them from. */
  lemma {:induction false} RefusalExactly(budget: Option<real>, s: JobSpend, policy: Imputation)
    requires s.billedUsd >= 0.0
    ensures RequireBudget(budget, s, policy).None? <==>
      budget.Some? && ((policy.WindowMean? && s.uncertainCalls > 0 && s.billedCalls == 0)
                       || (ChargedUsd(s, policy).Some? && budget.value <= ChargedUsd(s, policy).value))
    ensures RequireBudget(budget, s, policy).None? <==> IsExhausted(RemainingBudget(budget, s, policy))
  {
  }

  /** Each unreadable bill is charged the mean of the readable ones. */
  lemma {:induction false} ChargedIsMean(s: JobSpend)
    requires s.billedUsd >= 0.0 && s.billedCalls > 0
    ensures ChargedUsd(s, WindowMean).Some?
    ensures ChargedUsd(s, WindowMean).value * s.billedCalls as real ==
        s.billedUsd * (s.billedCalls + s.uncertainCalls) as real
    ensures ChargedUsd(s, Off) == Some(s.billedUsd)
  {
    var mean := s.billedUsd / s.billedCalls as real;
    assert mean * s.billedCalls as real == s.billedUsd;
    assert mean * s.uncertainCalls as real * s.billedCalls as real == s.billedUsd * s.uncertainCalls as real;
  }

  /** And otherwise: nothing is charged for unreadable bills under the other policy or when there are
      none; there is no charge when no bill could be read; money paid back counts as none paid. */
  lemma {:induction false} ChargedOtherwise(s: JobSpend)
    ensures ChargedUsd(s, Off) == Some(if s.billedUsd < 0.0 then 0.0 else s.billedUsd)
    ensures s.uncertainCalls == 0 ==> ChargedUsd(s, WindowMean) == ChargedUsd(s, Off)
    ensures s.uncertainCalls > 0 && (s.billedCalls == 0 || s.billedUsd < 0.0) ==> ChargedUsd(s, WindowMean) == None
  {
  }

  /** The headroom: what the charge leaves of the budget, never negative, and none when nothing can
      be priced. */
  lemma {:induction false} HeadroomIs(budget: Option<real>, s: JobSpend, policy: Imputation)
    ensures budget.None? ==> Verdict(budget, s, policy) == Unlimited && RemainingBudget(budget, s, policy) == None
    ensures budget.Some? && ChargedUsd(s, policy).None? ==>
      Verdict(budget, s, policy) == Unpriceable(s.uncertainCalls) && RemainingBudget(budget, s, policy) == Some(0.0)
    ensures budget.Some? && ChargedUsd(s, policy).Some? ==>
      var left := budget.value - ChargedUsd(s, policy).value;
      RemainingBudget(budget, s, policy) == Some(if left <= 0.0 then 0.0 else left)
  {
  }

  /** Headroom never promises more than what the billed money leaves. */
  lemma {:induction false} HeadroomIsBilledAtMost(budget: real, s: JobSpend, policy: Imputation)
    requires s.billedUsd >= 0.0 && !IsExhausted(RemainingBudget(Some(budget), s, policy))
    ensures RemainingBudget(Some(budget), s, policy).Some?
    ensures s.billedUsd + RemainingBudget(Some(budget), s, policy).value <= budget
  {
  }

  // ---- the engines, as the seams see them ----

  /** How a Claude call failed, as far as the ledger cares. */
  datatype Failure = Spawn | Timeout | Answered | Lost

  /** A paid tier's reply: what it really cost, and what it says it cost. A failure carries its
      kind; None is a failure that never reached the paid tier. */
  datatype Reply =
    | Answer(bill: real, reported: Option<real>, text: string)
    | Failed(bill: real, reported: Option<real>, kind: Option<Failure>)

  /** An engine answers to the ceiling it is given. */
  type Engine = Option<real> -> Reply

  datatype Strategy = Http | Browser | Auto | AutoWithResearch

  /** An engine that honours its ceiling and reports its bill; silence means it spent nothing. */
  ghost predicate Honest(engine: Engine) {
    forall ceiling: Option<real> ::
      && var r := engine(ceiling);
      && r.bill == (if r.reported.Some? then r.reported.value else 0.0)
      && 0.0 <= r.bill
      && (ceiling.Some? ==> r.bill == 0.0 || r.bill <= ceiling.value)
      && (r.Failed? && r.kind.None? ==> r.bill == 0.0)
  }

  /** What a failed call leaves in the ledger. */
  function LedgerEvent(r: Reply): Option<CostEvent>
    requires r.Failed?
  {
    if r.kind.None? then None
    else if r.reported.Some? then Some(CostEvent(r.reported.value, Billed, "failed_spend"))
    else
      match r.kind.value
      case Spawn => None
      case Timeout => Some(CostEvent(0.0, Unmetered, "unmetered_timeout"))
      case Answered => Some(CostEvent(0.0, Unmetered, "failed_spend_unreported"))
      case Lost => Some(CostEvent(0.0, Unknown, "failed_spend_unreported"))
  }

  /** What a successful research answer leaves: a missing bill is not a free call. */
  function SuccessEvent(reported: Option<real>): CostEvent {
    match reported
    case Some(cost) => CostEvent(cost, Billed, "")
    case None => CostEvent(0.0, Unmetered, "cost_unreported")
  }

  // ---- a job, and its calls ----

  datatype Job = Job(spend: JobSpend, events: seq<CostEvent>, answers: set<string>, paid: real)

  datatype Config = Config(budget: Option<real>, policy: Imputation, replay: Option<set<string>>, cacheOn: bool)

  datatype Call =
    | Research(key: string, resumes: bool, ceiling: Option<real>, engine: Engine)
    | Fetch(key: string, strategy: Strategy, ceiling: Option<real>, freeAnswers: bool, engine: Engine)

  function Metered(j: Job, e: CostEvent): Job {
    j.(spend := AddCall(j.spend, e.costUsd, e.certainty), events := j.events + [e])
  }

  function AfterResearch(c: Config, j: Job, key: string, resumes: bool, ceiling: Option<real>, engine: Engine): Job {
    if c.replay.Some? then (if key in c.replay.value then Metered(j, CostEvent(0.0, Free, "vcr_replay")) else j)
    else
      var cacheable := !resumes && c.cacheOn;
      if cacheable && key in j.answers then Metered(j, CostEvent(0.0, Free, "cache_hit"))
      else
        match RequireBudget(c.budget, j.spend, c.policy)
        case None => j
        case Some(remaining) =>
          var reply := engine(if remaining.Some? then Some(ClampToHeadroom(ceiling, remaining.value)) else ceiling);
          var billed := j.(paid := j.paid + reply.bill);
          if reply.Failed? then
            var e := LedgerEvent(reply);
            if e.None? then billed else Metered(billed, e.value)
          else
            Metered(billed, SuccessEvent(reply.reported))
              .(answers := if cacheable && reply.text != "" then j.answers + {key} else j.answers)
  }

  /** Out of money, a fetch gives up its paid tier and goes on without it. */
  function FetchPlan(c: Config, j: Job, strategy: Strategy, ceiling: Option<real>): (Strategy, Option<real>) {
    if !strategy.AutoWithResearch? then (strategy, ceiling)
    else
      var remaining := RemainingBudget(c.budget, j.spend, c.policy);
      if IsExhausted(remaining) then (Auto, ceiling)
      else (strategy, if remaining.Some? then Some(ClampToHeadroom(ceiling, remaining.value)) else ceiling)
  }

  function AfterFetch(c: Config, j: Job, key: string, strategy: Strategy, ceiling: Option<real>, freeAnswers: bool,
      engine: Engine): Job {
    if c.replay.Some? then (if key in c.replay.value then Metered(j, CostEvent(0.0, Free, "vcr_replay")) else j)
    else
      var (plan, limit) := FetchPlan(c, j, strategy, ceiling);
      if !plan.AutoWithResearch? then (if freeAnswers then Metered(j, CostEvent(0.0, Free, "")) else j)
      else
        var reply := engine(limit);
        var billed := j.(paid := j.paid + reply.bill);
        if reply.Failed? then
          var e := LedgerEvent(reply);
          if e.None? then billed else Metered(billed, e.value)
        else
          var cost := if reply.reported.Some? then reply.reported.value else 0.0;
          Metered(billed, CostEvent(cost, FromAmount(cost), ""))
  }

  function AfterCall(c: Config, j: Job, call: Call): Job {
    match call
    case Research(key, resumes, ceiling, engine) => AfterResearch(c, j, key, resumes, ceiling, engine)
    case Fetch(key, strategy, ceiling, freeAnswers, engine) => AfterFetch(c, j, key, strategy, ceiling, freeAnswers,
        engine)
  }

  function AfterCalls(c: Config, j: Job, calls: seq<Call>): Job {
    if calls == [] then j else AfterCall(c, AfterCalls(c, j, calls[..|calls| - 1]), calls[|calls| - 1])
  }

  ghost predicate AllHonest(calls: seq<Call>) {
    forall i :: 0 <= i < |calls| ==> Honest(calls[i].engine)
  }

  // ---- over whole runs ----

  function Max(a: real, b: real): real { if a < b then b else a }

  /** One honest call: the total advances by exactly what was paid, and only within the headroom. */
  lemma {:induction false} CallStaysWithin(c: Config, j: Job, call: Call, budget: real)
    requires c.budget == Some(budget) && j.spend.billedUsd >= 0.0 && Honest(call.engine)
    ensures var k := AfterCall(c, j, call);
      && k.spend.billedUsd - j.spend.billedUsd == k.paid - j.paid >= 0.0
      && k.spend.billedUsd <= Max(budget, j.spend.billedUsd)
      && (IsExhausted(RemainingBudget(c.budget, j.spend, c.policy)) ==> k.spend == j.spend && k.paid == j.paid)
  {
    hide RemainingBudget;
    RefusalExactly(c.budget, j.spend, c.policy);
    if !IsExhausted(RemainingBudget(c.budget, j.spend, c.policy)) {
      HeadroomIsBilledAtMost(budget, j.spend, c.policy);
      Ceiling(c, j, call, budget);
    }
  }

  lemma {:induction false} Ceiling(c: Config, j: Job, call: Call, budget: real)
    requires c.budget == Some(budget) && j.spend.billedUsd >= 0.0 && Honest(call.engine)
    requires !IsExhausted(RemainingBudget(c.budget, j.spend, c.policy))
    requires RemainingBudget(c.budget, j.spend, c.policy).Some?
    requires j.spend.billedUsd + RemainingBudget(c.budget, j.spend, c.policy).value <= budget
    ensures var k := AfterCall(c, j, call);
      && k.spend.billedUsd - j.spend.billedUsd == k.paid - j.paid >= 0.0
      && k.spend.billedUsd <= Max(budget, j.spend.billedUsd)
  {
    var limit := ClampToHeadroom(call.ceiling, RemainingBudget(c.budget, j.spend, c.policy).value);
    assert call.engine(Some(limit)).bill >= 0.0;
  }

  /** Billed spend never exceeds the budget, over any sequence of sequential calls to engines that
      honour their clamped ceiling and report their bill; a job seeded over its budget spends
      nothing more. What was really paid is what the total says. */
  lemma {:induction false} NeverOverBudget(c: Config, j: Job, calls: seq<Call>, budget: real)
    requires c.budget == Some(budget) && j.spend.billedUsd >= 0.0 && AllHonest(calls)
    ensures var k := AfterCalls(c, j, calls);
      && k.spend.billedUsd - j.spend.billedUsd == k.paid - j.paid >= 0.0
      && k.spend.billedUsd <= Max(budget, j.spend.billedUsd)
  {
    if calls != [] {
      var front := calls[..|calls| - 1];
      NeverOverBudget(c, j, front, budget);
      CallStaysWithin(c, AfterCalls(c, j, front), calls[|calls| - 1], budget);
    }
  }

  /** A refusal is final: once a job is out of money, no further honest call changes its spend. */
  lemma {:induction false} RefusalIsFinal(c: Config, j: Job, calls: seq<Call>, budget: real)
    requires c.budget == Some(budget) && j.spend.billedUsd >= 0.0 && AllHonest(calls)
    requires IsExhausted(RemainingBudget(c.budget, j.spend, c.policy))
    ensures AfterCalls(c, j, calls).spend == j.spend && AfterCalls(c, j, calls).paid == j.paid
  {
    if calls != [] {
      var front := calls[..|calls| - 1];
      RefusalIsFinal(c, j, front, budget);
      CallStaysWithin(c, AfterCalls(c, j, front), calls[|calls| - 1], budget);
    }
  }

  /** `fetch` gives up its paid tier in exactly the states in which `research` refuses, the
      unpriceable one included. */
  lemma {:induction false} DowngradeIsRefusal(c: Config, j: Job, ceiling: Option<real>)
    requires j.spend.billedUsd >= 0.0
    ensures FetchPlan(c, j, AutoWithResearch, ceiling).0 == Auto <==> RequireBudget(c.budget, j.spend, c.policy).None?
  {
  }

  /** Cache hits and replays are recorded and cost nothing. */
  lemma {:induction false} HitsAreFree(c: Config, j: Job, call: Call)
    requires c.replay.Some? || (call.Research? && c.cacheOn && !call.resumes && call.key in j.answers)
    ensures AfterCall(c, j, call).spend == j.spend && AfterCall(c, j, call).paid == j.paid
    ensures j.events <= AfterCall(c, j, call).events
    ensures c.replay.None? ==> AfterCall(c, j, call) == j.(events := j.events + [CostEvent(0.0, Free, "cache_hit")])
  {
  }

  /** The ceiling both seams hand their engine when the job is granted one more call. */
  function Granted(c: Config, j: Job, ceiling: Option<real>): Option<real> {
    var remaining := RemainingBudget(c.budget, j.spend, c.policy);
    if remaining.Some? then Some(ClampToHeadroom(ceiling, remaining.value)) else ceiling
  }

  /** A call that reaches its engine: a fetch with its paid tier, or research not served from the
      cache, in a state that is not out of money. */
  predicate Reaches(c: Config, j: Job, call: Call) {
    && c.replay.None?
    && (c.budget.Some? ==> ChargedUsd(j.spend, c.policy).Some? && ChargedUsd(j.spend, c.policy).value < c.budget.value)
    && match call
       case Research(key, resumes, _, _) => resumes || !c.cacheOn || key !in j.answers
       case Fetch(_, strategy, _, _, _) => strategy == AutoWithResearch
  }

  /** The engine is asked once, and what it costs depends on nothing but what it is asked with. */
  ghost predicate AsksWith(c: Config, j: Job, call: Call, limit: Option<real>) {
    forall engine: Engine :: AfterCall(c, j, call.(engine := engine)).paid == j.paid + engine(limit).bill
  }

  /** The ceiling an engine is asked with: under a budget at most what is left of it, at most the
      caller's own, and one of the two; without one the caller's own. */
  lemma {:induction false} CeilingExactly(c: Config, j: Job, call: Call) returns (limit: Option<real>)
    requires Reaches(c, j, call)
    ensures AsksWith(c, j, call, limit)
    ensures c.budget.None? ==> limit == call.ceiling
    ensures c.budget.Some? ==>
      var left := c.budget.value - ChargedUsd(j.spend, c.policy).value;
      && limit.Some? && limit.value <= left && (call.ceiling.Some? ==> limit.value <= call.ceiling.value)
      && (limit.value == left || limit == call.ceiling)
  {
    limit := Granted(c, j, call.ceiling);
  }

  /** A call that does not reach its engine pays nothing. */
  lemma {:induction false} UnreachedIsFree(c: Config, j: Job, call: Call)
    requires !Reaches(c, j, call)
    ensures AfterCall(c, j, call).paid == j.paid && AfterCall(c, j, call).answers == j.answers
  {
  }

  /** An honest engine's bill never exceeds the caller's own ceiling, in either seam. */
  lemma {:induction false} CallKeepsCeiling(c: Config, j: Job, call: Call)
    requires Honest(call.engine) && call.ceiling.Some?
    ensures var bill := AfterCall(c, j, call).paid - j.paid; bill == 0.0 || bill <= call.ceiling.value
  {
    if Reaches(c, j, call) {
      var limit := CeilingExactly(c, j, call);
      assert call.(engine := call.engine) == call;
      assert AfterCall(c, j, call).paid == j.paid + call.engine(limit).bill;
    } else {
      UnreachedIsFree(c, j, call);
    }
  }

  /** Nor over whole runs, whatever the budget. */
  lemma {:induction false} RunKeepsCeilings(c: Config, j: Job, calls: seq<Call>, i: nat)
    requires AllHonest(calls) && i < |calls| && calls[i].ceiling.Some?
    ensures var bill := AfterCalls(c, j, calls[..i + 1]).paid - AfterCalls(c, j, calls[..i]).paid;
      bill == 0.0 || bill <= calls[i].ceiling.value
  {
    assert calls[..i + 1][..i] == calls[..i];
    CallKeepsCeiling(c, AfterCalls(c, j, calls[..i]), calls[i]);
  }

  /** What a failed call leaves behind, in both seams: a bill it reports counts as read; one that
      died in time or answered, or of which nothing is known, counts as unreadable; one that never
      started, or never reached the paid tier, leaves nothing. */
  lemma {:induction false} FailureLeaves(c: Config, j: Job, call: Call, limit: Option<real>)
    requires Reaches(c, j, call) && limit == Granted(c, j, call.ceiling) && call.engine(limit).Failed?
    ensures var k, r := AfterCall(c, j, call), call.engine(limit);
      if r.kind.None? || (r.reported.None? && r.kind == Some(Spawn)) then k.spend == j.spend && k.events == j.events
      else if r.reported.Some? then
        && k.spend.billedCalls == j.spend.billedCalls + 1 && k.spend.uncertainCalls == j.spend.uncertainCalls
        && k.spend.billedUsd == j.spend.billedUsd + (if r.reported.value > 0.0 then r.reported.value else 0.0)
        && k.events == j.events + [CostEvent(r.reported.value, Billed, "failed_spend")]
      else
        && k.spend == j.spend.(uncertainCalls := j.spend.uncertainCalls + 1)
        && |k.events| == |j.events| + 1 && k.events[..|j.events|] == j.events
        && k.events[|j.events|].costUsd == 0.0
        && k.events[|j.events|].certainty == (if r.kind == Some(Lost) then Unknown else Unmetered)
        && k.events[|j.events|].detail
           == (if r.kind == Some(Timeout) then "unmetered_timeout" else "failed_spend_unreported")
  {
    var k, r := AfterCall(c, j, call), call.engine(limit);
    var e := LedgerEvent(r);
    if e.Some? { assert k.events == j.events + [e.value]; }
  }

  /** An answer is kept exactly if it may be and is not empty, and then serves the next call. */
  lemma {:induction false} AnswerIsKept(c: Config, j: Job, call: Call, limit: Option<real>)
    requires Reaches(c, j, call) && limit == Granted(c, j, call.ceiling)
    ensures var k := AfterCall(c, j, call);
      k.answers == if call.Research? && c.cacheOn && !call.resumes && call.engine(limit).Answer?
                      && call.engine(limit).text != "" then j.answers + {call.key} else j.answers
  {
  }

  /** Replay touches nothing: it records what the cassette has, and nothing else. */
  lemma {:induction false} ReplayOnlyRecords(c: Config, j: Job, call: Call)
    requires c.replay.Some?
    ensures AfterCall(c, j, call) ==
      if call.key in c.replay.value then j.(events := j.events + [CostEvent(0.0, Free, "vcr_replay")]) else j
  {
  }

  /** What an answer leaves in the ledger. Research: its bill, zero included, or that the bill is
      missing. A paid fetch: its bill if it is more than nothing, else a free row. */
  lemma {:induction false} AnswerLeaves(c: Config, j: Job, call: Call, limit: Option<real>)
    requires Reaches(c, j, call) && limit == Granted(c, j, call.ceiling) && call.engine(limit).Answer?
    ensures var k, bill := AfterCall(c, j, call), call.engine(limit).reported;
      k.events == j.events + [if call.Research? then
                                (if bill.Some? then CostEvent(bill.value, Billed, "")
                                 else CostEvent(0.0, Unmetered, "cost_unreported"))
                              else if bill.None? then CostEvent(0.0, Free, "")
                              else CostEvent(bill.value, if bill.value > 0.0 then Billed else Free, "")]
  {
  }

  /** A fetch that does without its paid tier records a free row if a free tier answers. */
  lemma {:induction false} FreeFetchRecords(c: Config, j: Job, call: Call)
    requires call.Fetch? && c.replay.None? && !Reaches(c, j, call)
    ensures AfterCall(c, j, call) ==
            if call.freeAnswers then j.(events := j.events + [CostEvent(0.0, Free, "")]) else j
  {
  }

  /** Research that is refused changes nothing. */
  lemma {:induction false} RefusedChangesNothing(c: Config, j: Job, call: Call)
    requires call.Research? && c.replay.None? && !Reaches(c, j, call)
    requires call.resumes || !c.cacheOn || call.key !in j.answers
    ensures AfterCall(c, j, call) == j
  {
  }

  /** A fetch without its paid tier is left as the caller asked for it. */
  lemma {:induction false} FreeFetchStays(c: Config, j: Job, strategy: Strategy, ceiling: Option<real>)
    ensures strategy != AutoWithResearch ==> FetchPlan(c, j, strategy, ceiling) == (strategy, ceiling)
    ensures FetchPlan(c, j, AutoWithResearch, ceiling).0 in {Auto, AutoWithResearch}
  {
  }

  /** Where the two seams part, exactly: in any granted state both hand the engine the same
      ceiling, and the same reply leaves the same spend if and only if it failed or reports a
      positive bill. Otherwise `fetch` leaves the spend as it was, while `research` counts a bill
      of zero as a price and a missing one as unreadable. */
  lemma {:induction false} SeamsAgreeExactly(c: Config, j: Job, key: string, resumes: bool, ceiling: Option<real>,
      freeAnswers: bool, engine: Engine)
    requires c.replay.None? && RequireBudget(c.budget, j.spend, c.policy).Some?
    requires resumes || !c.cacheOn || key !in j.answers
    ensures var reply := engine(Granted(c, j, ceiling));
      var fetched := AfterFetch(c, j, key, AutoWithResearch, ceiling, freeAnswers, engine);
      var researched := AfterResearch(c, j, key, resumes, ceiling, engine);
      && fetched.paid == researched.paid == j.paid + reply.bill
      && (fetched.spend == researched.spend <==> reply.Failed? || (reply.reported.Some? && reply.reported.value > 0.0))
      && (fetched.spend != researched.spend ==>
            && fetched.spend == j.spend
            && researched.spend == if reply.reported.Some? then j.spend.(billedCalls := j.spend.billedCalls + 1)
                                   else j.spend.(uncertainCalls := j.spend.uncertainCalls + 1))
  {
  }

  /** One missing bill: it makes a fresh job unpriceable if research got it, and leaves the whole
      budget standing if fetch did, whatever was paid. */
  lemma {:induction false} UnreportedFetchIsInvisible(budget: real, paid: real, key: string)
    requires budget > 0.0
    ensures var engine: Engine := _ => Answer(paid, None, "x");
      var c, j := Config(Some(budget), WindowMean, None, false), Job(NoSpend(), [], {}, 0.0);
      var fetched := AfterFetch(c, j, key, AutoWithResearch, None, true, engine);
      && RemainingBudget(c.budget, fetched.spend, c.policy) == Some(budget)
      && Verdict(c.budget, AfterResearch(c, j, key, false, None, engine).spend, c.policy) == Unpriceable(1)
      && fetched.paid == paid
  {
  }

  /** A research call that was killed leaves one more unreadable bill. */
  lemma {:induction false} KilledCall(c: Config, j: Job, key: string, engine: Engine)
    requires c.replay.None? && !c.cacheOn && RequireBudget(c.budget, j.spend, c.policy).Some?
    requires engine(Granted(c, j, None)) == Reply.Failed(0.0, None, Some(Timeout))
    ensures AfterResearch(c, j, key, false, None, engine).spend ==
        j.spend.(uncertainCalls := j.spend.uncertainCalls + 1)
  {
  }

  lemma {:induction false} FreshStates(budget: real, n: nat)
    requires budget > 0.0 && n <= 1
    ensures var c, s := Config(Some(budget), WindowMean, None, false), JobSpend(0.0, n, 0);
      && RequireBudget(c.budget, s, c.policy).Some? && Granted(c, Job(s, [], {}, 0.0), None) == Some(budget)
    ensures Verdict(Some(budget), JobSpend(0.0, n, 1), WindowMean) == if n == 0 then Unpriceable(1)
        else Headroom(budget)
  {
    assert n == 1 ==> 0.0 / n as real * 1 as real == 0.0;
  }

  lemma {:induction false} GrantIgnoresHistory(c: Config, j: Job, k: Job, ceiling: Option<real>)
    requires j.spend == k.spend
    ensures Granted(c, j, ceiling) == Granted(c, k, ceiling)
  {
  }

  /** And one bill of zero: after it a single unreadable call makes the job unpriceable if fetch
      got the zero, and costs it nothing if research did. */
  lemma {:induction false} ZeroBillParts(budget: real, key: string, free: Engine, killed: Engine)
    requires budget > 0.0
    requires free(Some(budget)) == Answer(0.0, Some(0.0), "x")
    requires killed(Some(budget)) == Reply.Failed(0.0, None, Some(Timeout))
    ensures var c, j := Config(Some(budget), WindowMean, None, false), Job(NoSpend(), [], {}, 0.0);
      var fetched := AfterFetch(c, j, key, AutoWithResearch, None, true, free);
      var researched := AfterResearch(c, j, key, false, None, free);
      && Verdict(c.budget, AfterResearch(c, fetched, key, false, None, killed).spend, c.policy) == Unpriceable(1)
      && Verdict(c.budget, AfterResearch(c, researched, key, false, None, killed).spend, c.policy) == Headroom(budget)
  {
    hide AfterFetch, AfterResearch, RequireBudget, Granted, Verdict;
    var c, j := Config(Some(budget), WindowMean, None, false), Job(NoSpend(), [], {}, 0.0);
    FreshStates(budget, 0);
    FreshStates(budget, 1);
    SeamsAgreeExactly(c, j, key, false, None, true, free);
    var fetched := AfterFetch(c, j, key, AutoWithResearch, None, true, free);
    var researched := AfterResearch(c, j, key, false, None, free);
    GrantIgnoresHistory(c, fetched, Job(JobSpend(0.0, 0, 0), [], {}, 0.0), None);
    GrantIgnoresHistory(c, researched, Job(JobSpend(0.0, 1, 0), [], {}, 0.0), None);
    KilledCall(c, fetched, key, killed);
    KilledCall(c, researched, key, killed);
  }

  // ---- the objects ----

  /** The running total kept in memory beside the ledger. */
  class SpentTotal {
    var usd: real
    var billedCalls: nat
    var uncertainCalls: nat
    const imputation: Imputation

    ghost function Spend(): JobSpend
      reads this
    {
      JobSpend(usd, billedCalls, uncertainCalls)
    }

    constructor FromSpend(spend: JobSpend, imputation: Imputation)
      ensures this.imputation == imputation && Spend() == spend.(billedUsd := AtLeastZero(spend.billedUsd))
    {
      this.usd, this.billedCalls, this.uncertainCalls := AtLeastZero(spend.billedUsd), spend.billedCalls,
          spend.uncertainCalls;
      this.imputation := imputation;
    }

    method Add(deltaUsd: real)
      modifies this`usd
      ensures usd == if deltaUsd <= 0.0 then old(usd) else old(usd) + deltaUsd
    {
      if deltaUsd <= 0.0 { return; }
      usd := usd + deltaUsd;
    }

    method AddOne(deltaUsd: real, certainty: Certainty)
      modifies this
      ensures Spend() == AddCall(old(Spend()), deltaUsd, certainty)
    {
      Add(deltaUsd);
      match certainty {
        case Billed => billedCalls := billedCalls + 1;
        case Unmetered => uncertainCalls := uncertainCalls + 1;
        case Unknown => uncertainCalls := uncertainCalls + 1;
        case Free =>
      }
    }
  }

  class AppContext {
    const config: Config
    const spent: SpentTotal
    var answers: set<string>
    ghost var events: seq<CostEvent>
    ghost var paid: real

    ghost function Abs(): Job
      reads this, spent
    {
      Job(spent.Spend(), events, answers, paid)
    }

    constructor (config: Config, spent: SpentTotal)
      requires spent.imputation == config.policy
      ensures this.config == config && this.spent == spent && Abs() == Job(spent.Spend(), [], {}, 0.0)
    {
      this.config, this.spent, answers, events, paid := config, spent, {}, [], 0.0;
    }

    method Meter(e: CostEvent)
      modifies this`events, spent
      ensures Abs() == Metered(old(Abs()), e)
    {
      spent.AddOne(e.costUsd, e.certainty);
      events := events + [e];
    }

    /** The headroom as the metered seams read it. */
    method Remaining() returns (usd: Option<real>)
      ensures usd == RemainingBudget(config.budget, spent.Spend(), config.policy)
    {
      usd := RemainingBudget(config.budget, JobSpend(spent.usd, spent.billedCalls, spent.uncertainCalls),
          config.policy);
    }

    method ResearchCall(key: string, resumes: bool, ceiling: Option<real>,
        engine: Engine) returns (cost: Option<Option<real>>)
      modifies this`answers, this`events, this`paid, spent
      ensures Abs() == AfterResearch(config, old(Abs()), key, resumes, ceiling, engine)
      ensures config.replay.Some? ==> (cost.Some? <==> key in config.replay.value)
      ensures config.replay.None? ==>
        var granted := RequireBudget(config.budget, old(spent.Spend()), config.policy);
        if !resumes && config.cacheOn && key in old(answers) then cost == Some(Some(0.0))
        else if granted.None? then cost == None
        else
          var reply := engine(if granted.value.Some? then Some(ClampToHeadroom(ceiling, granted.value.value))
              else ceiling);
          cost == if reply.Failed? then None else Some(reply.reported)
    {
      hide RequireBudget, RemainingBudget, ClampToHeadroom, LedgerEvent, SuccessEvent, AddCall;
      if config.replay.Some? {
        if key !in config.replay.value { return None; }
        Meter(CostEvent(0.0, Free, "vcr_replay"));
        return Some(None);
      }
      var cacheable := !resumes && config.cacheOn;
      if cacheable && key in answers {
        Meter(CostEvent(0.0, Free, "cache_hit"));
        return Some(Some(0.0));
      }
      var granted := RequireBudget(config.budget, JobSpend(spent.usd, spent.billedCalls, spent.uncertainCalls),
          config.policy);
      if granted.None? { return None; }
      var limit := if granted.value.Some? then Some(ClampToHeadroom(ceiling, granted.value.value)) else ceiling;
      var reply := engine(limit);
      paid := paid + reply.bill;
      if reply.Failed? {
        var e := LedgerEvent(reply);
        if e.Some? { Meter(e.value); }
        return None;
      }
      Meter(SuccessEvent(reply.reported));
      if cacheable && reply.text != "" { answers := answers + {key}; }
      cost := Some(reply.reported);
    }

    method FetchCall(key: string, strategy: Strategy, ceiling: Option<real>, freeAnswers: bool,
        engine: Engine) returns (won: bool)
      modifies this`events, this`paid, spent
      ensures Abs() == AfterFetch(config, old(Abs()), key, strategy, ceiling, freeAnswers, engine)
      ensures won <==>
        if config.replay.Some? then key in config.replay.value
        else
          var (plan, limit) := FetchPlan(config, old(Abs()), strategy, ceiling);
          if plan.AutoWithResearch? then engine(limit).Answer? else freeAnswers
    {
      hide RemainingBudget, ClampToHeadroom, LedgerEvent, AddCall;
      if config.replay.Some? {
        if key !in config.replay.value { return false; }
        Meter(CostEvent(0.0, Free, "vcr_replay"));
        return true;
      }
      var plan, limit := strategy, ceiling;
      if strategy.AutoWithResearch? {
        var remaining := Remaining();
        if IsExhausted(remaining) {
          plan := Auto;
        } else if remaining.Some? {
          limit := Some(ClampToHeadroom(ceiling, remaining.value));
        }
      }
      if !plan.AutoWithResearch? {
        if freeAnswers { Meter(CostEvent(0.0, Free, "")); }
        return freeAnswers;
      }
      var reply := engine(limit);
      paid := paid + reply.bill;
      if reply.Failed? {
        var e := LedgerEvent(reply);
        if e.Some? { Meter(e.value); }
        return false;
      }
      var cost := if reply.reported.Some? then reply.reported.value else 0.0;
      Meter(CostEvent(cost, FromAmount(cost), ""));
      won := true;
    }
  }
}
