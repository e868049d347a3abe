/** internal/firewall/firewall.go and the evaluate-then-record tools of internal/mcp/tools.go.
    Times are nanoseconds. */
module Firewall {
  import opened Prelude
  import opened Limits

  const HOUR: int := 3_600_000_000_000
  const DAY: int := 24 * HOUR

  datatype Policy = Policy(
    sessionBudget: int64,
    maxPerTransaction: int64,
    rolling24hBudget: int64,
    maxTxPerHour: int,
    allowedRecipients: seq<string>)

  datatype Entry = Entry(time: int, amount: int64, txID: string)

  datatype FwState = FwState(window: seq<Entry>, spent: int64)

  // ---------- One call ----------

  /** The value, and the number, of the entries strictly after `lo`. */
  function SumAfter(es: seq<Entry>, lo: int): int {
    if es == [] then 0
    else
      var last := es[|es| - 1];
      SumAfter(es[..|es| - 1], lo) + if last.time > lo then last.amount else 0
  }

  function CountAfter(es: seq<Entry>, lo: int): nat {
    if es == [] then 0
    else CountAfter(es[..|es| - 1], lo) + if es[|es| - 1].time > lo then 1 else 0
  }

  function Pruned(es: seq<Entry>, lo: int): seq<Entry> {
    if es == [] then []
    else Pruned(es[..|es| - 1], lo) + if es[|es| - 1].time > lo then [es[|es| - 1]] else []
  }

  /** The checks made before the window is looked at. */
  predicate PassesCaps(p: Policy, s: FwState, amount: int64) {
    amount <= MAX_TX_VALUE && amount <= p.maxPerTransaction && Wrap64(s.spent + amount) <= p.sessionBudget
  }

  predicate PassesWindow(p: Policy, s: FwState, now: int, amount: int64) {
    Wrap64(Wrap64(SumAfter(s.window, now - DAY)) + amount) <= p.rolling24hBudget &&
    CountAfter(s.window, now - HOUR) < p.maxTxPerHour
  }

  predicate PassesAllowlist(p: Policy, recipient: string) {
    p.allowedRecipients == [] || recipient in p.allowedRecipients
  }

  predicate Approves(p: Policy, s: FwState, now: int, amount: int64, recipient: string) {
    PassesCaps(p, s, amount) && PassesWindow(p, s, now, amount) && PassesAllowlist(p, recipient)
  }

  /** The state Evaluate leaves: pruned, unless a cap already refused. */
  function Evaluated(p: Policy, s: FwState, now: int, amount: int64): FwState {
    if PassesCaps(p, s, amount) then s.(window := Pruned(s.window, now - DAY)) else s
  }

  function Recorded(s: FwState, now: int, amount: int64, txID: string): FwState {
    FwState(s.window + [Entry(now, amount, txID)], Wrap64(s.spent + amount))
  }

  lemma SumStep(es: seq<Entry>, k: nat, lo: int)
    requires k < |es|
    ensures SumAfter(es[..k + 1], lo) == SumAfter(es[..k], lo) + if es[k].time > lo then es[k].amount else 0
    ensures CountAfter(es[..k + 1], lo) == CountAfter(es[..k], lo) + if es[k].time > lo then 1 else 0
    ensures Pruned(es[..k + 1], lo) == Pruned(es[..k], lo) + if es[k].time > lo then [es[k]] else []
  {
    assert es[..k + 1][..k] == es[..k];
  }

  lemma {:induction false} PrunedExactly(es: seq<Entry>, lo: int, e: Entry)
    ensures multiset(Pruned(es, lo))[e] == if e.time > lo then multiset(es)[e] else 0
  {
    if es != [] {
      var n := |es| - 1;
      PrunedExactly(es[..n], lo, e);
      assert es == es[..n] + [es[n]];
    }
  }

  /** What Evaluate leaves in the window: everything when a cap refuses, and otherwise each entry of
      the last 24 hours as often as it was there and no other. */
  lemma WindowAfterEvaluate(p: Policy, s: FwState, now: int, amount: int64, e: Entry)
    ensures var refused := amount > 100_000_000_000 || amount > p.maxPerTransaction ||
                           Wrap64(s.spent + amount) > p.sessionBudget;
            multiset(Evaluated(p, s, now, amount).window)[e] ==
            if refused || e.time > now - 86_400_000_000_000 then multiset(s.window)[e] else 0
    ensures Evaluated(p, s, now, amount).spent == s.spent
  {
    PrunedExactly(s.window, now - DAY, e);
  }

  class FirewallObject {
    const policy: Policy
    var rollingWindow: seq<Entry>
    var sessionSpent: int64

    constructor (p: Policy)
      ensures policy == p && State() == FwState([], 0)
    {
      policy, rollingWindow, sessionSpent := p, [], 0;
    }

    ghost function State(): FwState
      reads this
    {
      FwState(rollingWindow, sessionSpent)
    }

    /** The loop of Evaluate over the window: what it keeps, adds up and counts. */
    method ScanWindow(now: int) returns (validEntries: seq<Entry>, rolling24hTotal: int64, txCountLastHour: int)
      ensures validEntries == Pruned(rollingWindow, now - DAY)
      ensures rolling24hTotal == Wrap64(SumAfter(rollingWindow, now - DAY))
      ensures txCountLastHour == CountAfter(rollingWindow, now - HOUR)
    {
      validEntries, rolling24hTotal, txCountLastHour := [], 0, 0;
      for i := 0 to |rollingWindow|
        invariant validEntries == Pruned(rollingWindow[..i], now - DAY)
        invariant rolling24hTotal == Wrap64(SumAfter(rollingWindow[..i], now - DAY))
        invariant txCountLastHour == CountAfter(rollingWindow[..i], now - HOUR)
      {
        var entry := rollingWindow[i];
        SumStep(rollingWindow, i, now - DAY);
        SumStep(rollingWindow, i, now - HOUR);
        if entry.time > now - DAY {
          WrapAbsorbs(SumAfter(rollingWindow[..i], now - DAY), entry.amount);
          validEntries := validEntries + [entry];
          rolling24hTotal := Wrap64(rolling24hTotal + entry.amount);
          if entry.time > now - HOUR {
            txCountLastHour := txCountLastHour + 1;
          }
        }
      }
      assert rollingWindow[..|rollingWindow|] == rollingWindow;
    }

    /** firewall.go Evaluate. */
    method Evaluate(now: int, amount: int64, recipient: string) returns (ok: bool)
      modifies this`rollingWindow
      ensures ok <==> Approves(policy, old(State()), now, amount, recipient)
      ensures ok ==> policy.allowedRecipients == [] || recipient in policy.allowedRecipients
      ensures State() == Evaluated(policy, old(State()), now, amount)
    {
      if amount > MAX_TX_VALUE {
        return false;
      }
      if amount > policy.maxPerTransaction {
        return false;
      }
      if Wrap64(sessionSpent + amount) > policy.sessionBudget {
        return false;
      }
      var validEntries, rolling24hTotal, txCountLastHour := ScanWindow(now);
      rollingWindow := validEntries;
      if Wrap64(rolling24hTotal + amount) > policy.rolling24hBudget {
        return false;
      }
      if txCountLastHour >= policy.maxTxPerHour {
        return false;
      }
      if |policy.allowedRecipients| > 0 {
        var allowed := IsAllowed(recipient);
        if !allowed {
          return false;
        }
      }
      ok := true;
    }

    method IsAllowed(recipient: string) returns (allowed: bool)
      ensures allowed <==> recipient in policy.allowedRecipients
    {
      for i := 0 to |policy.allowedRecipients|
        invariant recipient !in policy.allowedRecipients[..i]
      {
        if policy.allowedRecipients[i] == recipient {
          return true;
        }
      }
      allowed := false;
    }

    /** firewall.go RecordTransaction. */
    method RecordTransaction(now: int, amount: int64, txID: string)
      modifies this
      ensures State() == Recorded(old(State()), now, amount, txID)
    {
      sessionSpent := Wrap64(sessionSpent + amount);
      rollingWindow := rollingWindow + [Entry(now, amount, txID)];
    }

    /** tools.go toolTxSend, toolTxEscrowCreate, toolTxZKCPCreate: evaluate, then record. The
        clock is read once in each. */
    method EvaluateThenRecord(call: Call) returns (ok: bool)
      modifies this
      ensures ok <==> Approves(policy, old(State()), call.evaluatedAt, call.amount, call.recipient)
      ensures forall h ::
                Run(State(), if ok then h + [EntryOf(call)] else h) == Step(policy, Run(old(State()), h), call)
    {
      ok := Evaluate(call.evaluatedAt, call.amount, call.recipient);
      if !ok {
        return;
      }
      RecordTransaction(call.recordedAt, call.amount, call.txID);
    }
  }

  // ---------- Sequential runs ----------

  datatype Call = Call(evaluatedAt: int, recordedAt: int, amount: int64, recipient: string, txID: string)

  function EntryOf(call: Call): Entry {
    Entry(call.recordedAt, call.amount, call.txID)
  }

  /** The firewall's state and, for the statement only, everything ever recorded. */
  datatype Run = Run(state: FwState, history: seq<Entry>)

  function Step(p: Policy, r: Run, call: Call): Run {
    var s := Evaluated(p, r.state, call.evaluatedAt, call.amount);
    if Approves(p, r.state, call.evaluatedAt, call.amount, call.recipient) then
      Run(Recorded(s, call.recordedAt, call.amount, call.txID), r.history + [EntryOf(call)])
    else Run(s, r.history)
  }

  function RunAll(p: Policy, calls: seq<Call>): Run {
    if calls == [] then Run(FwState([], 0), [])
    else Step(p, RunAll(p, calls[..|calls| - 1]), calls[|calls| - 1])
  }

  /** A clock that never runs backwards. */
  predicate Clocked(calls: seq<Call>) {
    (forall i :: 0 <= i < |calls| ==> calls[i].evaluatedAt <= calls[i].recordedAt) &&
    (forall i :: 0 < i < |calls| ==> calls[i - 1].recordedAt <= calls[i].evaluatedAt)
  }

  predicate NoNegativeAmount(calls: seq<Call>) {
    forall i :: 0 <= i < |calls| ==> calls[i].amount >= 0
  }

  /** The largest amount a call can get approved. */
  function MostPerCall(p: Policy): int {
    if p.maxPerTransaction < MAX_TX_VALUE then p.maxPerTransaction else MAX_TX_VALUE
  }

  /** The largest amount the caps and the rolling budget let through. */
  function LargestPayable(p: Policy): int {
    if MostPerCall(p) < p.rolling24hBudget then MostPerCall(p) else p.rolling24hBudget
  }

  /** Budgets that leave room for one more transaction below 2^63. The rolling budget needs no room
      of its own, because a window never holds more than the session. */
  predicate HasRoom(p: Policy) {
    p.sessionBudget >= 0 && p.rolling24hBudget >= 0 && p.maxTxPerHour >= 0 &&
    p.sessionBudget + LargestPayable(p) < TWO63
  }

  /** The value, and the number, of the entries in the window `(lo, hi]`. */
  function SumWithin(es: seq<Entry>, lo: int, hi: int): int {
    if es == [] then 0
    else
      var last := es[|es| - 1];
      SumWithin(es[..|es| - 1], lo, hi) + if lo < last.time <= hi then last.amount else 0
  }

  function CountWithin(es: seq<Entry>, lo: int, hi: int): nat {
    if es == [] then 0
    else CountWithin(es[..|es| - 1], lo, hi) + if lo < es[|es| - 1].time <= hi then 1 else 0
  }

  function TotalRecorded(es: seq<Entry>): int {
    if es == [] then 0 else TotalRecorded(es[..|es| - 1]) + es[|es| - 1].amount
  }

  predicate UpTo(es: seq<Entry>, clock: int) {
    forall i :: 0 <= i < |es| ==> es[i].time <= clock
  }

  predicate NonNegative(es: seq<Entry>) {
    forall i :: 0 <= i < |es| ==> es[i].amount >= 0
  }

  /** The stored window knows everything about the last day that the full history knows. */
  ghost predicate NothingLost(window: seq<Entry>, history: seq<Entry>, clock: int) {
    forall lo :: lo >= clock - DAY ==>
      SumAfter(window, lo) == SumAfter(history, lo) && CountAfter(window, lo) == CountAfter(history, lo)
  }

  ghost predicate Tracks(r: Run, clock: int) {
    UpTo(r.history, clock) && NothingLost(r.state.window, r.history, clock)
  }

  /** The hour, and the day, that end at `x` respect the rate limit and the rolling budget. */
  predicate RateAt(p: Policy, history: seq<Entry>, x: int) {
    CountWithin(history, x - HOUR, x) <= p.maxTxPerHour
  }

  predicate RollingAt(p: Policy, history: seq<Entry>, x: int) {
    SumWithin(history, x - DAY, x) <= p.rolling24hBudget
  }

  ghost predicate RateSafe(p: Policy, history: seq<Entry>) {
    forall x :: RateAt(p, history, x)
  }

  ghost predicate RollingSafe(p: Policy, history: seq<Entry>) {
    forall x :: RollingAt(p, history, x)
  }

  /** What a policy promises about everything ever recorded. */
  ghost predicate Respects(p: Policy, history: seq<Entry>) {
    RateSafe(p, history) && RollingSafe(p, history) && TotalRecorded(history) <= p.sessionBudget
  }

  ghost predicate RunInv(p: Policy, r: Run, clock: int) {
    Tracks(r, clock) && NonNegative(r.history) && Respects(p, r.history) && r.state.spent == TotalRecorded(r.history)
  }

  // ---------- Sums of entries ----------

  lemma AppendSums(es: seq<Entry>, e: Entry, lo: int, hi: int)
    ensures SumAfter(es + [e], lo) == SumAfter(es, lo) + if e.time > lo then e.amount else 0
    ensures CountAfter(es + [e], lo) == CountAfter(es, lo) + if e.time > lo then 1 else 0
    ensures SumWithin(es + [e], lo, hi) == SumWithin(es, lo, hi) + if lo < e.time <= hi then e.amount else 0
    ensures CountWithin(es + [e], lo, hi) == CountWithin(es, lo, hi) + if lo < e.time <= hi then 1 else 0
    ensures TotalRecorded(es + [e]) == TotalRecorded(es) + e.amount
  {
    assert (es + [e])[..|es|] == es;
  }

  lemma {:induction false} PrunedKeepsRecent(es: seq<Entry>, cut: int, lo: int)
    requires lo >= cut
    ensures SumAfter(Pruned(es, cut), lo) == SumAfter(es, lo)
    ensures CountAfter(Pruned(es, cut), lo) == CountAfter(es, lo)
  {
    if es != [] {
      var n := |es| - 1;
      PrunedKeepsRecent(es[..n], cut, lo);
      var front := Pruned(es[..n], cut);
      if es[n].time > cut {
        AppendSums(front, es[n], lo, lo);
      } else {
        assert Pruned(es, cut) == front;
      }
    }
  }

  lemma {:induction false} CountBelowAfter(es: seq<Entry>, lo: int, lo': int, hi: int)
    requires lo <= lo'
    ensures CountWithin(es, lo', hi) <= CountAfter(es, lo)
  {
    if es != [] {
      CountBelowAfter(es[..|es| - 1], lo, lo', hi);
    }
  }

  lemma {:induction false} SumBelowAfter(es: seq<Entry>, lo: int, lo': int, hi: int)
    requires lo <= lo' && NonNegative(es)
    ensures SumWithin(es, lo', hi) <= SumAfter(es, lo)
  {
    if es != [] {
      SumBelowAfter(es[..|es| - 1], lo, lo', hi);
    }
  }

  /** A window holds no more than the whole history. */
  lemma {:induction false} WindowBelowTotal(es: seq<Entry>, lo: int, hi: int)
    requires NonNegative(es)
    ensures 0 <= SumWithin(es, lo, hi) <= TotalRecorded(es)
  {
    if es != [] {
      WindowBelowTotal(es[..|es| - 1], lo, hi);
    }
  }

  /** Seen at `clock`, everything after `lo` is everything in `(lo, clock]`. */
  lemma {:induction false} AfterIsWithin(es: seq<Entry>, lo: int, clock: int)
    requires UpTo(es, clock)
    ensures SumAfter(es, lo) == SumWithin(es, lo, clock) && CountAfter(es, lo) == CountWithin(es, lo, clock)
  {
    if es != [] {
      AfterIsWithin(es[..|es| - 1], lo, clock);
    }
  }

  // ---------- What every call keeps ----------

  lemma EvaluateTracks(p: Policy, r: Run, clock: int, now: int, amount: int64)
    requires Tracks(r, clock) && clock <= now
    ensures Tracks(Run(Evaluated(p, r.state, now, amount), r.history), now)
  {
    forall lo | lo >= now - DAY
      ensures SumAfter(Pruned(r.state.window, now - DAY), lo) == SumAfter(r.history, lo)
      ensures CountAfter(Pruned(r.state.window, now - DAY), lo) == CountAfter(r.history, lo)
    {
      PrunedKeepsRecent(r.state.window, now - DAY, lo);
    }
  }

  lemma RecordLosesNothing(window: seq<Entry>, history: seq<Entry>, e: Entry, clock: int, later: int)
    requires NothingLost(window, history, clock) && clock <= later
    ensures NothingLost(window + [e], history + [e], later)
  {
    forall lo | lo >= later - DAY
      ensures SumAfter(window + [e], lo) == SumAfter(history + [e], lo)
      ensures CountAfter(window + [e], lo) == CountAfter(history + [e], lo)
    {
      AppendSums(window, e, lo, lo);
      AppendSums(history, e, lo, lo);
    }
  }

  lemma StepTracks(p: Policy, r: Run, call: Call, clock: int)
    requires Tracks(r, clock) && clock <= call.evaluatedAt <= call.recordedAt
    ensures Tracks(Step(p, r, call), call.recordedAt)
  {
    EvaluateTracks(p, r, clock, call.evaluatedAt, call.amount);
    var window := Evaluated(p, r.state, call.evaluatedAt, call.amount).window;
    RecordLosesNothing(window, r.history, EntryOf(call), call.evaluatedAt, call.recordedAt);
  }

  /** The stored window answers for the full history. */
  lemma WindowIsHistory(r: Run, clock: int, now: int)
    requires Tracks(r, clock) && clock <= now
    ensures SumAfter(r.state.window, now - DAY) == SumWithin(r.history, now - DAY, now)
    ensures CountAfter(r.state.window, now - HOUR) == CountWithin(r.history, now - HOUR, now)
  {
    assert SumAfter(r.state.window, now - DAY) == SumAfter(r.history, now - DAY);
    assert CountAfter(r.state.window, now - HOUR) == CountAfter(r.history, now - HOUR);
    AfterIsWithin(r.history, now - DAY, now);
    AfterIsWithin(r.history, now - HOUR, now);
  }

  lemma RecordKeepsRate(p: Policy, h: seq<Entry>, e: Entry, now: int)
    requires UpTo(h, now) && RateSafe(p, h) && now <= e.time && CountWithin(h, now - HOUR, now) < p.maxTxPerHour
    ensures RateSafe(p, h + [e])
  {
    AfterIsWithin(h, now - HOUR, now);
    forall x ensures RateAt(p, h + [e], x) {
      assert RateAt(p, h, x);
      AppendSums(h, e, x - HOUR, x);
      if e.time <= x {
        CountBelowAfter(h, now - HOUR, x - HOUR, x);
      }
    }
  }

  lemma StepKeepsRate(p: Policy, r: Run, call: Call, clock: int)
    requires Tracks(r, clock) && RateSafe(p, r.history) && clock <= call.evaluatedAt <= call.recordedAt
    ensures RateSafe(p, Step(p, r, call).history)
  {
    WindowIsHistory(r, clock, call.evaluatedAt);
    if Approves(p, r.state, call.evaluatedAt, call.amount, call.recipient) {
      RecordKeepsRate(p, r.history, EntryOf(call), call.evaluatedAt);
    }
  }

  lemma RecordKeepsRolling(p: Policy, h: seq<Entry>, e: Entry, now: int)
    requires UpTo(h, now) && NonNegative(h) && RollingSafe(p, h) && now <= e.time
    requires SumWithin(h, now - DAY, now) + e.amount <= p.rolling24hBudget
    ensures RollingSafe(p, h + [e])
  {
    AfterIsWithin(h, now - DAY, now);
    forall x ensures RollingAt(p, h + [e], x) {
      assert RollingAt(p, h, x);
      AppendSums(h, e, x - DAY, x);
      if e.time <= x {
        SumBelowAfter(h, now - DAY, x - DAY, x);
      }
    }
  }

  /** What the policy means: the caps, and the budgets over everything ever recorded. */
  predicate Permits(p: Policy, history: seq<Entry>, now: int, amount: int64, recipient: string) {
    amount <= 100_000_000_000 && amount <= p.maxPerTransaction &&
    TotalRecorded(history) + amount <= p.sessionBudget &&
    SumWithin(history, now - 86_400_000_000_000, now) + amount <= p.rolling24hBudget &&
    CountWithin(history, now - 3_600_000_000_000, now) < p.maxTxPerHour &&
    (p.allowedRecipients == [] || recipient in p.allowedRecipients)
  }

  /** The 64-bit tests decide as the true ones do: a payable amount wraps neither sum, and an amount
      above the rolling budget is refused by the window test, which it does not wrap either. */
  lemma TestsAreTrue(p: Policy, spent: int64, window: int, amount: int64)
    requires HasRoom(p) && 0 <= window <= spent <= p.sessionBudget && window <= p.rolling24hBudget
    requires 0 <= amount <= MostPerCall(p)
    ensures Wrap64(spent + amount) <= p.sessionBudget && Wrap64(Wrap64(window) + amount) <= p.rolling24hBudget <==>
            spent + amount <= p.sessionBudget && window + amount <= p.rolling24hBudget
    ensures window + amount <= p.rolling24hBudget ==> spent + amount < TWO63
  {
  }

  /** Between calls the firewall, with its pruned window and 64-bit sums, approves exactly what the
      policy permits on the full history. */
  lemma DecidesByHistory(p: Policy, r: Run, clock: int, now: int, amount: int64, recipient: string)
    requires HasRoom(p) && RunInv(p, r, clock) && clock <= now && amount >= 0
    ensures Approves(p, r.state, now, amount, recipient) <==> Permits(p, r.history, now, amount, recipient)
  {
    WindowIsHistory(r, clock, now);
    WindowBelowTotal(r.history, now - DAY, now);
    assert RollingAt(p, r.history, now);
    if amount <= MostPerCall(p) {
      TestsAreTrue(p, r.state.spent, SumWithin(r.history, now - DAY, now), amount);
    }
  }

  lemma StepKeepsSums(p: Policy, r: Run, call: Call, clock: int)
    requires HasRoom(p) && RunInv(p, r, clock) && clock <= call.evaluatedAt <= call.recordedAt && call.amount >= 0
    ensures var r' := Step(p, r, call);
            NonNegative(r'.history) && RollingSafe(p, r'.history) &&
            r'.state.spent == TotalRecorded(r'.history) <= p.sessionBudget
  {
    if Approves(p, r.state, call.evaluatedAt, call.amount, call.recipient) {
      DecidesByHistory(p, r, clock, call.evaluatedAt, call.amount, call.recipient);
      RecordKeepsRolling(p, r.history, EntryOf(call), call.evaluatedAt);
      AppendSums(r.history, EntryOf(call), 0, 0);
    }
  }

  // ---------- Whole runs ----------

  /** The clock after a run. */
  function ClockAfter(calls: seq<Call>, start: int): int {
    if calls == [] then start else calls[|calls| - 1].recordedAt
  }

  lemma EmptyRespects(p: Policy, clock: int)
    requires p.maxTxPerHour >= 0
    ensures Tracks(Run(FwState([], 0), []), clock) && RateSafe(p, []) && TotalRecorded([]) == 0
    ensures p.rolling24hBudget >= 0 ==> RollingSafe(p, [])
  {
    forall x ensures RateAt(p, [], x) {
      assert CountWithin([], x - HOUR, x) == 0;
    }
    forall x | p.rolling24hBudget >= 0 ensures RollingAt(p, [], x) {
      assert SumWithin([], x - DAY, x) == 0;
    }
  }

  /** The rate limit holds in every clocked run, whatever the amounts. */
  lemma {:induction false} RateHolds(p: Policy, calls: seq<Call>, start: int)
    requires p.maxTxPerHour >= 0 && Clocked(calls) && (calls != [] ==> start <= calls[0].evaluatedAt)
    ensures Tracks(RunAll(p, calls), ClockAfter(calls, start)) && RateSafe(p, RunAll(p, calls).history)
  {
    if calls == [] {
      EmptyRespects(p, start);
    } else {
      var n := |calls| - 1;
      RateHolds(p, calls[..n], start);
      StepTracks(p, RunAll(p, calls[..n]), calls[n], ClockAfter(calls[..n], start));
      StepKeepsRate(p, RunAll(p, calls[..n]), calls[n], ClockAfter(calls[..n], start));
    }
  }

  /** For every sequential run with non-negative amounts and a monotone clock, every 24-hour
      window of everything ever recorded stays within the rolling budget, every 1-hour window
      within the rate limit, and the total within the session budget: pruning loses nothing
      that matters. */
  lemma {:induction false} BudgetsHold(p: Policy, calls: seq<Call>, start: int)
    requires HasRoom(p) && Clocked(calls) && NoNegativeAmount(calls) && (calls != [] ==> start <= calls[0].evaluatedAt)
    ensures Respects(p, RunAll(p, calls).history)
    ensures RunInv(p, RunAll(p, calls), ClockAfter(calls, start))
  {
    RateHolds(p, calls, start);
    if calls == [] {
      EmptyRespects(p, start);
    } else {
      var n := |calls| - 1;
      BudgetsHold(p, calls[..n], start);
      StepKeepsSums(p, RunAll(p, calls[..n]), calls[n], ClockAfter(calls[..n], start));
    }
  }

  /** Each entry on record is a call's that named an allowed recipient and kept to both caps. */
  predicate WasAllowed(p: Policy, calls: seq<Call>, e: Entry) {
    exists i :: 0 <= i < |calls| && EntryOf(calls[i]) == e &&
                (p.allowedRecipients == [] || calls[i].recipient in p.allowedRecipients) &&
                calls[i].amount <= p.maxPerTransaction && calls[i].amount <= 100_000_000_000
  }

  /** In every run, whatever the policy, the clock and the amounts: a call adds its own entry to the
      record or nothing, and everything on record was allowed. */
  lemma {:induction false} OnlyAllowedIsRecorded(p: Policy, calls: seq<Call>)
    ensures forall e :: e in RunAll(p, calls).history ==> WasAllowed(p, calls, e)
    ensures calls != [] ==>
              var n := |calls| - 1;
              var before, after := RunAll(p, calls[..n]).history, RunAll(p, calls).history;
              after == before || after == before + [EntryOf(calls[n])]
  {
    if calls != [] {
      var n := |calls| - 1;
      OnlyAllowedIsRecorded(p, calls[..n]);
      forall e | e in RunAll(p, calls).history ensures WasAllowed(p, calls, e) {
        if e in RunAll(p, calls[..n]).history {
          var i :| 0 <= i < n && EntryOf(calls[..n][i]) == e &&
            (p.allowedRecipients == [] || calls[..n][i].recipient in p.allowedRecipients) &&
            calls[..n][i].amount <= p.maxPerTransaction && calls[..n][i].amount <= 100_000_000_000;
          assert EntryOf(calls[i]) == e;
        } else {
          assert EntryOf(calls[n]) == e;
        }
      }
    }
  }

  /** After every such run the firewall, with its pruned window and 64-bit sums, approves exactly
      what the policy permits on the full history: it neither leaks nor over-refuses. */
  lemma DecisionIsExact(p: Policy, calls: seq<Call>, start: int, now: int, amount: int64, recipient: string)
    requires HasRoom(p) && Clocked(calls) && NoNegativeAmount(calls) && (calls != [] ==> start <= calls[0].evaluatedAt)
    requires ClockAfter(calls, start) <= now && amount >= 0
    ensures Approves(p, RunAll(p, calls).state, now, amount, recipient) <==>
            Permits(p, RunAll(p, calls).history, now, amount, recipient)
  {
    BudgetsHold(p, calls, start);
    DecidesByHistory(p, RunAll(p, calls), ClockAfter(calls, start), now, amount, recipient);
  }
}
