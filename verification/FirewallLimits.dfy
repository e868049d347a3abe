/** Exactly where the firewall's guarantees end: which budgets leave room for 64-bit sums, and
    which amounts callers may pass. */
module FirewallLimits {
  import opened Prelude
  import opened Limits
  import opened Firewall

  // ---------- Runs at one instant ----------

  function CallOf(amount: int64): Call {
    Call(0, 0, amount, "", "")
  }

  function CallsOf(xs: seq<int64>): (calls: seq<Call>)
    ensures |calls| == |xs| && forall i :: 0 <= i < |xs| ==> calls[i] == CallOf(xs[i])
  {
    seq(|xs|, i requires 0 <= i < |xs| => CallOf(xs[i]))
  }

  function EntriesOf(xs: seq<int64>): (es: seq<Entry>)
    ensures |es| == |xs| && forall i :: 0 <= i < |xs| ==> es[i] == EntryOf(CallOf(xs[i]))
  {
    seq(|xs|, i requires 0 <= i < |xs| => EntryOf(CallOf(xs[i])))
  }

  /** Entries at time 0 seen from time 0: all of them count and none is pruned. */
  lemma {:induction false} EntriesAtOnce(xs: seq<int64>)
    ensures var es := EntriesOf(xs);
            SumAfter(es, -DAY) == SumWithin(es, -DAY, 0) == TotalRecorded(es) == Sum(xs) &&
            CountAfter(es, -HOUR) == |xs| && Pruned(es, -DAY) == es
  {
    if xs == [] {
      assert EntriesOf(xs) == [];
    } else {
      var front, last := xs[..|xs| - 1], xs[|xs| - 1];
      assert xs == front + [last];
      EntriesAtOnce(front);
      AppendAmount(front, last);
      AppendSums(EntriesOf(front), EntryOf(CallOf(last)), -DAY, 0);
      AppendSums(EntriesOf(front), EntryOf(CallOf(last)), -HOUR, 0);
      PrunedAppend(EntriesOf(front), EntryOf(CallOf(last)), -DAY);
    }
  }

  lemma PrunedAppend(es: seq<Entry>, e: Entry, lo: int)
    ensures Pruned(es + [e], lo) == Pruned(es, lo) + if e.time > lo then [e] else []
  {
    assert (es + [e])[..|es|] == es;
  }

  /** The firewall after amounts `xs`, all recorded at time 0. */
  function RunOf(xs: seq<int64>): Run
  {
    Run(FwState(EntriesOf(xs), Wrap64(Sum(xs))), EntriesOf(xs))
  }

  predicate FitsOneMore(p: Policy, xs: seq<int64>, m: int64) {
    p.allowedRecipients == [] && m <= MostPerCall(p) && |xs| < p.maxTxPerHour &&
    Wrap64(Sum(xs) + m) <= p.sessionBudget && Wrap64(Sum(xs) + m) <= p.rolling24hBudget
  }

  lemma ApprovedAtOnce(p: Policy, xs: seq<int64>, m: int64)
    requires FitsOneMore(p, xs, m)
    ensures Approves(p, RunOf(xs).state, 0, m, "")
  {
    WrapAbsorbs(Sum(xs), m);
    assert PassesCaps(p, RunOf(xs).state, m);
    PassesAtOnce(p, xs, m);
  }

  lemma PassesAtOnce(p: Policy, xs: seq<int64>, m: int64)
    requires FitsOneMore(p, xs, m)
    ensures PassesWindow(p, RunOf(xs).state, 0, m)
  {
    EntriesAtOnce(xs);
    WrapAbsorbs(Sum(xs), m);
  }

  lemma UnprunedAtOnce(p: Policy, xs: seq<int64>, m: int64)
    ensures Evaluated(p, RunOf(xs).state, 0, m) == RunOf(xs).state
  {
    EntriesAtOnce(xs);
  }

  lemma RecordedAtOnce(xs: seq<int64>, m: int64)
    ensures Recorded(RunOf(xs).state, 0, m, "") == RunOf(xs + [m]).state
  {
    WrapAbsorbs(Sum(xs), m);
    AppendAmount(xs, m);
  }

  /** One more call at the same instant that fits the caps and the budgets, in 64-bit sums. */
  lemma OneMoreAtOnce(p: Policy, xs: seq<int64>, m: int64)
    requires FitsOneMore(p, xs, m)
    ensures Step(p, RunOf(xs), CallOf(m)) == RunOf(xs + [m])
  {
    ApprovedAtOnce(p, xs, m);
    UnprunedAtOnce(p, xs, m);
    RecordedAtOnce(xs, m);
    AppendAmount(xs, m);
  }

  lemma AppendAmount(xs: seq<int64>, m: int64)
    ensures EntriesOf(xs + [m]) == EntriesOf(xs) + [EntryOf(CallOf(m))]
    ensures Sum(xs + [m]) == Sum(xs) + m
  {
    assert (xs + [m])[..|xs|] == xs;
  }

  lemma RunAllOneMore(p: Policy, xs: seq<int64>, m: int64)
    ensures RunAll(p, CallsOf(xs + [m])) == Step(p, RunAll(p, CallsOf(xs)), CallOf(m))
  {
    assert CallsOf(xs + [m])[..|xs|] == CallsOf(xs);
  }

  /** Non-negative amounts within the caps and, together, within the budgets are all recorded. */
  lemma {:induction false} AllRecorded(p: Policy, xs: seq<int64>)
    requires p.allowedRecipients == [] && |xs| <= p.maxTxPerHour
    requires forall i :: 0 <= i < |xs| ==> 0 <= xs[i] <= MostPerCall(p)
    requires Sum(xs) <= p.sessionBudget && Sum(xs) <= p.rolling24hBudget
    ensures RunAll(p, CallsOf(xs)) == RunOf(xs)
  {
    if xs == [] {
      assert CallsOf(xs) == [] && EntriesOf(xs) == [];
    } else {
      var front, last := xs[..|xs| - 1], xs[|xs| - 1];
      SumAtLeast(front, 0);
      AllRecorded(p, front);
      assert front + [last] == xs;
      RunAllOneMore(p, front, last);
      FitsInBudget(p, front, last);
      OneMoreAtOnce(p, front, last);
    }
  }

  lemma FitsInBudget(p: Policy, xs: seq<int64>, m: int64)
    requires p.allowedRecipients == [] && |xs| < p.maxTxPerHour && 0 <= m <= MostPerCall(p) && Sum(xs) >= 0
    requires Sum(xs) + m <= p.sessionBudget && Sum(xs) + m <= p.rolling24hBudget
    ensures FitsOneMore(p, xs, m)
  {
  }

  lemma WrapsPastBudget(p: Policy, xs: seq<int64>, m: int64)
    requires p.allowedRecipients == [] && |xs| < p.maxTxPerHour && m == MostPerCall(p)
    requires 0 <= Sum(xs) < TWO63 <= Sum(xs) + m && p.sessionBudget >= 0 && p.rolling24hBudget >= 0
    ensures FitsOneMore(p, xs, m)
  {
    WrapShift(Sum(xs) + m, -1);
  }

  // ---------- Room in the budgets ----------

  /** Amounts of at most `m` that add up to `b`. */
  ghost function Fill(b: int64, m: int64): (xs: seq<int64>)
    requires 0 <= b && 0 < m
    ensures Sum(xs) == b && forall i :: 0 <= i < |xs| ==> 0 <= xs[i] <= m
    decreases b
  {
    if b <= m then
      SumOne(b);
      [b]
    else
      var front := Fill(b - m, m);
      assert (front + [m])[..|front|] == front;
      front + [m]
  }

  /** Spending a budget of `b` at one instant to the last coin and then `m` more wraps both sums:
      the last amount is approved and recorded. */
  lemma BudgetOverrun(b: int64, cap: int64) returns (p: Policy, calls: seq<Call>)
    requires b >= 0 && cap > 0 && b + (if cap < MAX_TX_VALUE then cap else MAX_TX_VALUE) >= TWO63
    ensures HasBudgets(p, b, b, cap) && Orderly(calls)
    ensures TotalRecorded(RunAll(p, calls).history) > p.sessionBudget
    ensures SumWithin(RunAll(p, calls).history, -DAY, 0) > p.rolling24hBudget
  {
    var m := if cap < MAX_TX_VALUE then cap else MAX_TX_VALUE;
    var xs := Fill(b, m);
    p := Policy(b, cap, b, |xs| + 1, []);
    calls := CallsOf(xs + [m]);
    OverrunRecorded(p, xs, m);
  }

  lemma OverrunRecorded(p: Policy, xs: seq<int64>, m: int64)
    requires p.allowedRecipients == [] && |xs| < p.maxTxPerHour && 0 < m == MostPerCall(p)
    requires forall i :: 0 <= i < |xs| ==> 0 <= xs[i] <= MostPerCall(p)
    requires p.sessionBudget == p.rolling24hBudget == Sum(xs) >= 0 && Sum(xs) + m >= TWO63
    ensures var h := RunAll(p, CallsOf(xs + [m])).history;
            TotalRecorded(h) == SumWithin(h, -DAY, 0) == Sum(xs) + m
  {
    AllRecorded(p, xs);
    RunAllOneMore(p, xs, m);
    WrapsPastBudget(p, xs, m);
    OneMoreAtOnce(p, xs, m);
    EntriesAtOnce(xs + [m]);
    AppendAmount(xs, m);
  }

  // ---------- One call a day ----------

  function DailyCall(day: int, amount: int64): Call {
    Call(day * DAY, day * DAY, amount, "", "")
  }

  function DailyCalls(xs: seq<int64>): (calls: seq<Call>)
    ensures |calls| == |xs| && forall i :: 0 <= i < |xs| ==> calls[i] == DailyCall(i, xs[i])
  {
    seq(|xs|, i requires 0 <= i < |xs| => DailyCall(i, xs[i]))
  }

  lemma DailyIsOrderly(xs: seq<int64>)
    requires forall i :: 0 <= i < |xs| ==> xs[i] >= 0
    ensures Orderly(DailyCalls(xs))
  {
    forall i | 0 < i < |xs| ensures (i - 1) * DAY <= i * DAY {
    }
  }

  /** A day after everything it holds, the stored window is empty for the tests. */
  lemma {:induction false} DayOldIsForgotten(es: seq<Entry>, now: int)
    requires UpTo(es, now - DAY)
    ensures SumAfter(es, now - DAY) == 0 && CountAfter(es, now - HOUR) == 0
  {
    if es != [] {
      DayOldIsForgotten(es[..|es| - 1], now);
    }
  }

  /** A day after everything recorded, only the caps and the 64-bit session test can refuse. */
  lemma DailyApproved(p: Policy, r: Run, now: int, x: int64)
    requires p.allowedRecipients == [] && p.maxTxPerHour >= 1 && x <= LargestPayable(p)
    requires Tracks(r, now - DAY) && Wrap64(r.state.spent + x) <= p.sessionBudget
    ensures Approves(p, r.state, now, x, "")
  {
    WindowIsHistory(r, now - DAY, now);
    DayOldIsForgotten(r.history, now);
    AfterIsWithin(r.history, now - DAY, now);
    AfterIsWithin(r.history, now - HOUR, now);
  }

  /** Everything recorded is in the session sum, up to wrapping. */
  predicate SumsUp(r: Run) {
    r.state.spent == Wrap64(TotalRecorded(r.history))
  }

  lemma DailyStep(p: Policy, r: Run, now: int, x: int64)
    requires p.allowedRecipients == [] && p.maxTxPerHour >= 1 && x <= LargestPayable(p)
    requires Tracks(r, now - DAY) && SumsUp(r) && Wrap64(TotalRecorded(r.history) + x) <= p.sessionBudget
    ensures var r' := Step(p, r, Call(now, now, x, "", ""));
            Tracks(r', now) && SumsUp(r') && TotalRecorded(r'.history) == TotalRecorded(r.history) + x
  {
    WrapAbsorbs(TotalRecorded(r.history), x);
    DailyApproved(p, r, now, x);
    StepTracks(p, r, Call(now, now, x, "", ""), now - DAY);
    AppendSums(r.history, Entry(now, x, ""), 0, 0);
  }

  lemma RunDailyOneMore(p: Policy, xs: seq<int64>, x: int64)
    ensures RunAll(p, DailyCalls(xs + [x])) == Step(p, RunAll(p, DailyCalls(xs)), DailyCall(|xs|, x))
  {
    assert DailyCalls(xs + [x])[..|xs|] == DailyCalls(xs);
  }

  /** After `xs`, one a day, all of it is recorded. */
  ghost predicate DailyDone(p: Policy, xs: seq<int64>) {
    var r := RunAll(p, DailyCalls(xs));
    Tracks(r, (|xs| - 1) * DAY) && SumsUp(r) && TotalRecorded(r.history) == Sum(xs)
  }

  lemma DailyOneMore(p: Policy, xs: seq<int64>, x: int64)
    requires p.allowedRecipients == [] && p.maxTxPerHour >= 1 && x <= LargestPayable(p)
    requires DailyDone(p, xs) && Wrap64(Sum(xs) + x) <= p.sessionBudget
    ensures DailyDone(p, xs + [x])
  {
    assert |xs| * DAY - DAY == (|xs| - 1) * DAY;
    DailyStep(p, RunAll(p, DailyCalls(xs)), |xs| * DAY, x);
    RunDailyOneMore(p, xs, x);
    AppendAmount(xs, x);
  }

  lemma {:induction false} AllDailyDone(p: Policy, xs: seq<int64>)
    requires p.allowedRecipients == [] && p.maxTxPerHour >= 1 && Sum(xs) <= p.sessionBudget
    requires forall i :: 0 <= i < |xs| ==> 0 <= xs[i] <= LargestPayable(p)
    ensures DailyDone(p, xs)
  {
    if xs == [] {
      EmptyRespects(p, -DAY);
      assert DailyCalls(xs) == [];
    } else {
      var front, last := xs[..|xs| - 1], xs[|xs| - 1];
      SumAtLeast(front, 0);
      AllDailyDone(p, front);
      assert front + [last] == xs;
      DailyOneMore(p, front, last);
    }
  }

  /** Where no room is left, spending the session budget `s` at one call a day and then once more
      wraps the session sum, whatever the rolling budget: the last amount is recorded too. */
  lemma SessionOverrun(s: int64, r: int64, cap: int64) returns (p: Policy, calls: seq<Call>)
    requires s >= 0 && r >= 0 && s + Least(cap, MAX_TX_VALUE, r) >= TWO63
    ensures HasBudgets(p, s, r, cap) && Orderly(calls) && TotalRecorded(RunAll(p, calls).history) > p.sessionBudget
  {
    var m := Least(cap, MAX_TX_VALUE, r);
    var xs := Fill(s, m);
    p := Policy(s, cap, r, 1, []);
    calls := DailyCalls(xs + [m]);
    AllDailyDone(p, xs);
    WrapShift(s + m, -1);
    DailyOneMore(p, xs, m);
    AppendAmount(xs, m);
    DailyIsOrderly(xs + [m]);
  }

  // ---------- Exactly when budgets are safe ----------

  function Least(a: int, b: int, c: int): int {
    if a <= b && a <= c then a else if b <= c then b else c
  }

  predicate HasBudgets(p: Policy, s: int64, r: int64, cap: int64) {
    p.sessionBudget == s && p.rolling24hBudget == r && p.maxPerTransaction == cap && p.maxTxPerHour >= 0
  }

  predicate Orderly(calls: seq<Call>) {
    Clocked(calls) && NoNegativeAmount(calls)
  }

  /** Every orderly run under every policy with these budgets and this cap respects the policy. */
  ghost predicate SafeBudgets(s: int64, r: int64, cap: int64) {
    forall p: Policy, calls: seq<Call> ::
      HasBudgets(p, s, r, cap) && Orderly(calls) ==> Respects(p, RunAll(p, calls).history)
  }

  /** A session budget `s` and a rolling budget `r` are safe exactly when `s` and one more of the
      largest payable amount stay below 2^63; past that the session sum wraps and stops nothing. */
  lemma RoomIsExact(s: int64, r: int64, cap: int64)
    requires s >= 0 && r >= 0
    ensures SafeBudgets(s, r, cap) <==> s + Least(cap, MAX_TX_VALUE, r) < TWO63
  {
    if s + Least(cap, MAX_TX_VALUE, r) < TWO63 {
      forall p: Policy, calls: seq<Call> | HasBudgets(p, s, r, cap) && Orderly(calls)
        ensures Respects(p, RunAll(p, calls).history)
      {
        BudgetsHold(p, calls, if calls == [] then 0 else calls[0].evaluatedAt);
      }
    } else {
      var p, calls := SessionOverrun(s, r, cap);
      assert !Respects(p, RunAll(p, calls).history);
    }
  }

  /** The session test of a single call is right exactly while the sum stays below 2^63. */
  lemma SessionTestExact(p: Policy, s: FwState, amount: int64)
    requires 0 <= s.spent <= p.sessionBudget && 0 <= amount
    ensures (Wrap64(s.spent + amount) <= p.sessionBudget <==> s.spent + amount <= p.sessionBudget) <==>
            s.spent + amount < TWO63
  {
  }

  // ---------- Amounts ----------

  /** Every clocked run over these amounts respects every policy with room. */
  ghost predicate SafeAmounts(amounts: iset<int64>) {
    forall p: Policy, calls: seq<Call> ::
      HasRoom(p) && ClockedOver(amounts, calls) ==> Respects(p, RunAll(p, calls).history)
  }

  ghost predicate ClockedOver(amounts: iset<int64>, calls: seq<Call>) {
    Clocked(calls) && forall i :: 0 <= i < |calls| ==> calls[i].amount in amounts
  }

  /** A negative amount makes room that it takes away again when it leaves the window: after `n`
      at time 0, `m` passes just before a day is over, and the day that ends then holds only `m`. */
  lemma NegativeAmountBreaksWindow(n: int64, m: int64)
    requires n < 0 < m <= MAX_TX_VALUE
    ensures var p := Policy(m, m, m - 1, 10, []);
            var calls := [CallOf(n), Call(DAY - 1, DAY - 1, m, "", "")];
            HasRoom(p) && Clocked(calls) && SumWithin(RunAll(p, calls).history, 0, DAY) == m > p.rolling24hBudget
  {
    var p := Policy(m, m, m - 1, 10, []);
    var first, second := CallOf(n), Call(DAY - 1, DAY - 1, m, "", "");
    var e1, e2 := EntryOf(first), EntryOf(second);
    NegativeFirst(p, n);
    SecondPasses(p, n, m);
    var calls := [first, second];
    assert calls[..1] == [first];
    assert RunAll(p, calls) == Step(p, RunAll(p, [first]), second);
    OneEntry(e1, 0);
    AppendSums([e1], e2, 0, DAY);
  }

  lemma NegativeFirst(p: Policy, n: int64)
    requires p.allowedRecipients == [] && p.maxTxPerHour > 0 && n < 0
    requires p.maxPerTransaction >= 0 && p.sessionBudget >= 0 && p.rolling24hBudget >= 0
    ensures RunAll(p, [CallOf(n)]) == Run(FwState([EntryOf(CallOf(n))], n), [EntryOf(CallOf(n))])
  {
    assert [CallOf(n)][..0] == [];
    assert Approves(p, FwState([], 0), 0, n, "");
  }

  lemma SecondPasses(p: Policy, n: int64, m: int64)
    requires n < 0 < m <= MAX_TX_VALUE && p == Policy(m, m, m - 1, 10, [])
    ensures Approves(p, FwState([EntryOf(CallOf(n))], n), DAY - 1, m, "")
  {
    OneEntry(EntryOf(CallOf(n)), -1);
    OneEntry(EntryOf(CallOf(n)), DAY - 1 - HOUR);
  }

  lemma OneEntry(e: Entry, lo: int)
    ensures SumAfter([e], lo) == if e.time > lo then e.amount else 0
    ensures CountAfter([e], lo) == if e.time > lo then 1 else 0
    ensures forall hi :: SumWithin([e], lo, hi) == if lo < e.time <= hi then e.amount else 0
  {
    assert [e][..0] == [];
  }

  predicate NonPositive(es: seq<Entry>) {
    forall i :: 0 <= i < |es| ==> es[i].amount <= 0
  }

  lemma {:induction false} NonPositiveSums(es: seq<Entry>, lo: int, hi: int)
    requires NonPositive(es)
    ensures SumWithin(es, lo, hi) <= 0 && TotalRecorded(es) <= 0
  {
    if es != [] {
      NonPositiveSums(es[..|es| - 1], lo, hi);
    }
  }

  /** Amounts above the cap are never recorded. */
  lemma {:induction false} NothingPayable(p: Policy, calls: seq<Call>)
    requires forall i :: 0 <= i < |calls| ==> calls[i].amount <= 0 || calls[i].amount > MAX_TX_VALUE
    ensures NonPositive(RunAll(p, calls).history)
  {
    if calls != [] {
      NothingPayable(p, calls[..|calls| - 1]);
    }
  }

  lemma RespectsWithoutPayable(p: Policy, calls: seq<Call>)
    requires HasRoom(p) && Clocked(calls)
    requires forall i :: 0 <= i < |calls| ==> calls[i].amount <= 0 || calls[i].amount > MAX_TX_VALUE
    ensures Respects(p, RunAll(p, calls).history)
  {
    RateHolds(p, calls, if calls == [] then 0 else calls[0].evaluatedAt);
    NothingPayable(p, calls);
    var h := RunAll(p, calls).history;
    forall x ensures RollingAt(p, h, x) {
      NonPositiveSums(h, x - DAY, x);
    }
    NonPositiveSums(h, 0, 0);
  }

  /** Amounts are safe exactly when negative ones and payable ones are not mixed. */
  lemma AmountsAreExact(amounts: iset<int64>)
    ensures SafeAmounts(amounts) <==>
            !((exists n :: n in amounts && n < 0) && (exists m :: m in amounts && 0 < m <= MAX_TX_VALUE))
  {
    if n, m :| n in amounts && n < 0 && m in amounts && 0 < m <= MAX_TX_VALUE {
      NegativeAmountBreaksWindow(n, m);
      var p := Policy(m, m, m - 1, 10, []);
      var calls := [CallOf(n), Call(DAY - 1, DAY - 1, m, "", "")];
      assert DAY - DAY == 0 && !RollingAt(p, RunAll(p, calls).history, DAY);
      assert ClockedOver(amounts, calls) && !Respects(p, RunAll(p, calls).history);
    } else {
      forall p: Policy, calls: seq<Call> | HasRoom(p) && ClockedOver(amounts, calls)
        ensures Respects(p, RunAll(p, calls).history)
      {
        if exists n :: n in amounts && n < 0 {
          RespectsWithoutPayable(p, calls);
        } else {
          BudgetsHold(p, calls, if calls == [] then 0 else calls[0].evaluatedAt);
        }
      }
    }
  }
}
