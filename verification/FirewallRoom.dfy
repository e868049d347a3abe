/** Exactly how much room below 2^63 the budgets need when up to `k` approvals are outstanding. */
module FirewallRoom {
  import opened Prelude
  import opened Limits
  import opened Firewall
  import opened FirewallLimits
  import opened FirewallInterleaving

  /** The largest amount one call may pay under a cap. */
  function Size(cap: int64): int {
    if cap < MAX_TX_VALUE then cap else MAX_TX_VALUE
  }

  // ---------- Runs as values ----------

  /** Where a run stands: the firewall, everything recorded, the clock, and whether the run so far
      was clocked, asked for no negative amount and kept at most `k` approvals outstanding. */
  datatype Tally = Tally(shared: Shared, history: seq<Entry>, clock: int, proper: bool)

  function Tick(p: Policy, k: nat, t: Tally, e: Event): Tally {
    var s := Happen(p, t.shared, e);
    Tally(s, t.history + Booked(t.shared, e), TimeOf(e),
          t.proper && t.clock <= TimeOf(e) && (e.Ask? ==> e.amount >= 0) && |s.outstanding| <= k)
  }

  function Played(p: Policy, k: nat, es: seq<Event>, start: int): Tally {
    if es == [] then Tally(Shared(FwState([], 0), []), [], start, true)
    else Tick(p, k, Played(p, k, es[..|es| - 1], start), es[|es| - 1])
  }

  lemma {:induction false} PlayedIsRun(p: Policy, k: nat, es: seq<Event>, start: int)
    ensures Played(p, k, es, start).shared == After(p, es) && Played(p, k, es, start).history == History(p, es)
  {
    if es != [] {
      PlayedIsRun(p, k, es[..|es| - 1], start);
    }
  }

  lemma {:induction false} ProperPrefix(p: Policy, k: nat, es: seq<Event>, start: int, i: nat)
    requires Played(p, k, es, start).proper && i <= |es|
    ensures Played(p, k, es[..i], start).proper && Played(p, k, es[..i], start).clock <= Played(p, k, es, start).clock
  {
    if i < |es| {
      ProperPrefix(p, k, es[..|es| - 1], start, i);
      assert es[..|es| - 1][..i] == es[..i];
    } else {
      assert es[..i] == es;
    }
  }

  lemma ClockAt(p: Policy, k: nat, es: seq<Event>, start: int, i: nat)
    requires i < |es| && Played(p, k, es[..i + 1], start).proper
    ensures Played(p, k, es[..i + 1], start).clock == TimeOf(es[i])
    ensures |Played(p, k, es[..i + 1], start).shared.outstanding| <= k && (es[i].Ask? ==> es[i].amount >= 0)
  {
    assert es[..i + 1][..i] == es[..i];
  }

  lemma TimeAt(p: Policy, k: nat, es: seq<Event>, start: int, i: nat)
    requires Played(p, k, es, start).proper && i < |es|
    ensures TimeOf(es[i]) == Played(p, k, es[..i + 1], start).clock <= Played(p, k, es, start).clock
  {
    ProperPrefix(p, k, es, start, i + 1);
    ClockAt(p, k, es, start, i);
  }

  lemma InOrder(p: Policy, k: nat, es: seq<Event>, start: int, i: nat, j: nat, part: seq<Event>)
    requires Played(p, k, es, start).proper && i < j < |es| && part == es[..j + 1]
    ensures TimeOf(es[i]) <= TimeOf(es[j])
  {
    ProperPrefix(p, k, es, start, j + 1);
    TimeAt(p, k, es, start, j);
    TimeAt(p, k, part, start, i);
  }

  lemma FewAt(p: Policy, k: nat, es: seq<Event>, start: int, i: nat)
    requires Played(p, k, es, start).proper && i <= |es|
    ensures |After(p, es[..i]).outstanding| <= k
  {
    PlayedIsRun(p, k, es[..i], start);
    ProperPrefix(p, k, es, start, i);
    if i > 0 {
      ClockAt(p, k, es, start, i - 1);
    } else {
      assert es[..i] == [];
    }
  }

  lemma ProperRun(p: Policy, k: nat, es: seq<Event>, start: int)
    requires Played(p, k, es, start).proper
    ensures AtMostOutstanding(p, es, k) && Timed(es)
  {
    forall i | 0 <= i <= |es| ensures |After(p, es[..i]).outstanding| <= k {
      FewAt(p, k, es, start, i);
    }
    forall i | 0 <= i < |es| ensures es[i].Ask? ==> es[i].amount >= 0 {
      ProperPrefix(p, k, es, start, i + 1);
      ClockAt(p, k, es, start, i);
    }
    forall i, j | 0 <= i < j < |es| ensures TimeOf(es[i]) <= TimeOf(es[j]) {
      InOrder(p, k, es, start, i, j, es[..j + 1]);
    }
  }

  /** `es` and then `n` times `e`. */
  function Repeat(es: seq<Event>, e: Event, n: nat): seq<Event> {
    if n == 0 then es else Repeat(es, e, n - 1) + [e]
  }

  function Many(p: Policy, k: nat, t: Tally, e: Event, n: nat): Tally {
    if n == 0 then t else Tick(p, k, Many(p, k, t, e, n - 1), e)
  }

  lemma {:induction false} ManyIs(p: Policy, k: nat, e: Event, states: nat -> Tally, n: nat)
    requires forall i: nat :: i < n ==> Tick(p, k, states(i), e) == states(i + 1)
    ensures Many(p, k, states(0), e, n) == states(n)
  {
    if n > 0 {
      ManyIs(p, k, e, states, n - 1);
    }
  }

  lemma PlayedOne(p: Policy, k: nat, es: seq<Event>, start: int, e: Event)
    ensures Played(p, k, es + [e], start) == Tick(p, k, Played(p, k, es, start), e)
  {
    assert (es + [e])[..|es|] == es;
  }

  lemma {:induction false} PlayedRepeat(p: Policy, k: nat, es: seq<Event>, start: int, e: Event, n: nat)
    ensures Played(p, k, Repeat(es, e, n), start) == Many(p, k, Played(p, k, es, start), e, n)
  {
    if n > 0 {
      PlayedRepeat(p, k, es, start, e, n - 1);
      PlayedOne(p, k, Repeat(es, e, n - 1), start, e);
    }
  }

  /** The least number of amounts `m` on top of `b` that reach 2^63. */
  lemma {:induction false} LeastOver(b: int, m: int, k: nat) returns (j: nat)
    requires b < TWO63 <= b + k * m
    ensures 1 <= j <= k && b + (j - 1) * m < TWO63 <= b + j * m
  {
    if b + (k - 1) * m < TWO63 {
      j := k;
    } else {
      j := LeastOver(b, m, k - 1);
    }
  }

  lemma WrapsNegative(x: int)
    requires TWO63 <= x < TWO63 + TWO63
    ensures Wrap64(x) < 0
  {
    WrapShift(x, -1);
  }

  lemma SameFront(m: int64, q: nat)
    ensures Same(m, q + 1) == [m] + Same(m, q)
  {
  }

  // ---------- The session: one day apart ----------

  /** Everything but the session sum lets `x` through on an idle day. */
  predicate Payable(p: Policy, x: int64) {
    p.allowedRecipients == [] && p.maxTxPerHour >= 1 && 0 <= x <= LargestPayable(p)
  }

  /** The 64-bit session test. */
  predicate SessionPasses(p: Policy, spent: int64, x: int64) {
    Wrap64(spent + x) <= p.sessionBudget
  }

  lemma {:induction false} AllPruned(es: seq<Entry>, lo: int)
    requires UpTo(es, lo)
    ensures Pruned(es, lo) == []
  {
    if es != [] {
      AllPruned(es[..|es| - 1], lo);
    }
  }

  /** An approval on an idle day. */
  lemma AskTick(p: Policy, k: nat, w: seq<Entry>, spent: int64, out: seq<int64>, h: seq<Entry>, clock: int, now: int,
                x: int64)
    requires UpTo(w, now - DAY) && clock <= now && |out| < k && Payable(p, x) && SessionPasses(p, spent, x)
    ensures Tick(p, k, Tally(Shared(FwState(w, spent), out), h, clock, true), Ask(now, x, "")) ==
            Tally(Shared(FwState([], spent), out + [x]), h, now, true)
  {
    DayOldIsForgotten(w, now);
    AllPruned(w, now - DAY);
    assert Approves(p, FwState(w, spent), now, x, "");
    assert h + [] == h;
  }

  lemma BookTick(p: Policy, k: nat, w: seq<Entry>, spent: int64, x: int64, rest: seq<int64>, h: seq<Entry>, clock: int,
                 now: int)
    requires clock <= now && |rest| <= k
    ensures Tick(p, k, Tally(Shared(FwState(w, spent), [x] + rest), h, clock, true), Book(0, now, "")) ==
            Tally(Shared(FwState(w + [Entry(now, x, "")], Wrap64(spent + x)), rest), h + [Entry(now, x, "")], now, true)
  {
    var out := [x] + rest;
    assert out[..0] + out[1..] == rest;
  }

  /** The run on an idle day after `i` approvals of `m`. */
  function Approving(w: seq<Entry>, spent: int64, m: int64, q: nat, h: seq<Entry>, clock: int, now: int,
                     i: nat): Tally
  {
    if i == 0 then Tally(Shared(FwState(w, spent), Same(m, q)), h, clock, true)
    else Tally(Shared(FwState([], spent), Same(m, q + i)), h, now, true)
  }

  lemma ApprovingStep(p: Policy, k: nat, w: seq<Entry>, spent: int64, m: int64, q: nat, h: seq<Entry>, clock: int,
                      now: int, i: nat)
    requires UpTo(w, now - DAY) && clock <= now && q + i < k && Payable(p, m) && SessionPasses(p, spent, m)
    ensures Tick(p, k, Approving(w, spent, m, q, h, clock, now, i), Ask(now, m, "")) ==
            Approving(w, spent, m, q, h, clock, now, i + 1)
  {
    SameStep(m, q + i);
    if i == 0 {
      AskTick(p, k, w, spent, Same(m, q), h, clock, now, m);
    } else {
      AskTick(p, k, [], spent, Same(m, q + i), h, now, now, m);
    }
  }

  /** `n` approvals of `m` on one idle day, which makes `all` outstanding. */
  lemma AsksTick(p: Policy, k: nat, w: seq<Entry>, spent: int64, q: nat, h: seq<Entry>, clock: int, now: int, m: int64,
                 n: nat, all: nat)
    requires UpTo(w, now - DAY) && clock <= now && all == q + n <= k && n >= 1
    requires Payable(p, m) && SessionPasses(p, spent, m)
    ensures Many(p, k, Tally(Shared(FwState(w, spent), Same(m, q)), h, clock, true), Ask(now, m, ""), n) ==
            Tally(Shared(FwState([], spent), Same(m, all)), h, now, true)
  {
    var states := (i: nat) => Approving(w, spent, m, q, h, clock, now, i);
    forall i: nat | i < n ensures Tick(p, k, states(i), Ask(now, m, "")) == states(i + 1) {
      ApprovingStep(p, k, w, spent, m, q, h, clock, now, i);
    }
    ManyIs(p, k, Ask(now, m, ""), states, n);
  }

  /** `n` entries of `m`. */
  function Entries(now: int, m: int64, n: nat): seq<Entry> {
    if n == 0 then [] else Entries(now, m, n - 1) + [Entry(now, m, "")]
  }

  lemma {:induction false} EntriesSum(h: seq<Entry>, now: int, m: int64, n: nat)
    ensures TotalRecorded(h + Entries(now, m, n)) == TotalRecorded(h) + n * m
  {
    if n == 0 {
      assert h + Entries(now, m, 0) == h;
    } else {
      EntriesSum(h, now, m, n - 1);
      JoinThree(h, Entries(now, m, n - 1), [Entry(now, m, "")]);
      AppendSums(h + Entries(now, m, n - 1), Entry(now, m, ""), 0, 0);
      MulSucc(n - 1, m);
    }
  }

  lemma {:induction false} EntriesUpTo(now: int, m: int64, n: nat)
    ensures UpTo(Entries(now, m, n), now)
  {
    if n > 0 {
      EntriesUpTo(now, m, n - 1);
    }
  }

  /** The run after `i` of the approved amounts are recorded. */
  function Recording(sum: int64, m: int64, out: nat, h: seq<Entry>, now: int, i: nat): Tally {
    Tally(Shared(FwState(Entries(now, m, i), sum), Same(m, out)), h + Entries(now, m, i), now, true)
  }

  lemma RecordingStep(p: Policy, k: nat, sum: int64, m: int64, out: nat, h: seq<Entry>, now: int, i: nat)
    requires 0 <= sum <= sum + m < TWO63 && out <= k
    ensures Tick(p, k, Recording(sum, m, out + 1, h, now, i), Book(0, now, "")) ==
            Recording(sum + m, m, out, h, now, i + 1)
  {
    SameFront(m, out);
    BookTick(p, k, Entries(now, m, i), sum, m, Same(m, out), h + Entries(now, m, i), now, now);
    JoinThree(h, Entries(now, m, i), [Entry(now, m, "")]);
  }

  /** `n` records of `m`, while the sum stays below 2^63. */
  lemma {:induction false} BooksTick(p: Policy, k: nat, sum: int64, m: int64, all: nat, h: seq<Entry>, now: int, n: nat,
                                     left: nat, top: int64)
    requires m >= 0 && 0 <= sum && top == sum + n * m && all == left + n <= k
    ensures sum <= top
    ensures Many(p, k, Recording(sum, m, all, h, now, 0), Book(0, now, ""), n) == Recording(top, m, left, h, now, n)
    decreases n
  {
    if n > 0 {
      MulSucc(n - 1, m);
      MulMonotone(0, n - 1, m);
      BooksTick(p, k, sum, m, all, h, now, n - 1, left + 1, top - m);
      RecordingStep(p, k, top - m, m, left, h, now, n - 1);
    }
  }

  /** The time of the `n`th daily call; the day before the first is number 0. */
  function Dawn(n: nat): int {
    if n == 0 then -DAY else Dawn(n - 1) + DAY
  }

  /** Amounts asked for and recorded one a day. */
  function Daily(xs: seq<int64>): seq<Event> {
    if xs == [] then []
    else Daily(xs[..|xs| - 1]) + [Ask(Dawn(|xs|), xs[|xs| - 1], "")] + [Book(0, Dawn(|xs|), "")]
  }

  /** Nothing is outstanding, `sum` is recorded, and nothing stored is after the clock. */
  predicate Idle(t: Tally, sum: int, clock: int) {
    t.proper && t.clock == clock && t.shared.outstanding == [] && t.shared.state.spent == sum &&
    UpTo(t.shared.state.window, clock) && TotalRecorded(t.history) == sum
  }

  lemma IdleIs(t: Tally, sum: int64, clock: int)
    requires Idle(t, sum, clock)
    ensures t == Tally(Shared(FwState(t.shared.state.window, sum), []), t.history, clock, true)
  {
  }

  lemma PassesInBudget(p: Policy, spent: int64, x: int64)
    requires 0 <= spent && 0 <= x && spent + x <= p.sessionBudget
    ensures SessionPasses(p, spent, x) && Wrap64(spent + x) == spent + x
  {
  }

  lemma OneDayTick(p: Policy, k: nat, w: seq<Entry>, spent: int64, h: seq<Entry>, now: int, x: int64)
    requires UpTo(w, now - DAY) && k >= 1 && Payable(p, x) && 0 <= spent && spent + x <= p.sessionBudget
    ensures Tick(p, k, Tick(p, k, Tally(Shared(FwState(w, spent), []), h, now - DAY, true), Ask(now, x, "")),
                 Book(0, now, "")) ==
            Tally(Shared(FwState([Entry(now, x, "")], spent + x), []), h + [Entry(now, x, "")], now, true)
  {
    PassesInBudget(p, spent, x);
    AskTick(p, k, w, spent, [], h, now - DAY, now, x);
    assert [] + [x] == [x] + [];
    BookTick(p, k, [], spent, x, [], h, now, now);
    assert [] + [Entry(now, x, "")] == [Entry(now, x, "")];
  }

  lemma NextDay(p: Policy, k: nat, t: Tally, sum: int64, now: int, x: int64)
    requires Idle(t, sum, now - DAY) && k >= 1 && Payable(p, x) && 0 <= sum && sum + x <= p.sessionBudget
    ensures Idle(Tick(p, k, Tick(p, k, t, Ask(now, x, "")), Book(0, now, "")), sum + x, now)
  {
    IdleIs(t, sum, now - DAY);
    OneDayTick(p, k, t.shared.state.window, sum, t.history, now, x);
    AppendSums(t.history, Entry(now, x, ""), 0, 0);
  }

  lemma DayPlayed(p: Policy, k: nat, es: seq<Event>, sum: int64, now: int, x: int64)
    requires Idle(Played(p, k, es, -DAY), sum, now - DAY) && k >= 1 && Payable(p, x) && 0 <= sum
    requires sum + x <= p.sessionBudget
    ensures Idle(Played(p, k, es + [Ask(now, x, "")] + [Book(0, now, "")], -DAY), sum + x, now)
  {
    NextDay(p, k, Played(p, k, es, -DAY), sum, now, x);
    PlayedOne(p, k, es, -DAY, Ask(now, x, ""));
    PlayedOne(p, k, es + [Ask(now, x, "")], -DAY, Book(0, now, ""));
  }

  lemma {:induction false} DailyIsIdle(p: Policy, k: nat, xs: seq<int64>)
    requires k >= 1 && Sum(xs) <= p.sessionBudget && forall i :: 0 <= i < |xs| ==> Payable(p, xs[i])
    ensures Idle(Played(p, k, Daily(xs), -DAY), Sum(xs), Dawn(|xs|)) && 0 <= Sum(xs)
  {
    if xs != [] {
      var front, last := xs[..|xs| - 1], xs[|xs| - 1];
      SumAtLeast(front, 0);
      assert Payable(p, last);
      DailyIsIdle(p, k, front);
      DayPlayed(p, k, Daily(front), Sum(front), Dawn(|xs|), last);
    }
  }

  /** Spending `xs`, then `k` approvals at once, `j` of them recorded, and `j` more approvals a day
      later that pass only because the session sum has wrapped. */
  function SessionRun(xs: seq<int64>, m: int64, k: nat, j: nat): seq<Event> {
    var day := Dawn(|xs| + 1);
    Repeat(Repeat(Repeat(Daily(xs), Ask(day, m, ""), k), Book(0, day, ""), j), Ask(day + DAY, m, ""), j)
  }

  /** From an idle morning `k` approvals, */
  lemma ApproveAll(p: Policy, k: nat, t: Tally, b: int64, m: int64, now: int)
    requires Idle(t, b, now - DAY) && 0 <= b && Payable(p, m) && b + m == p.sessionBudget && k >= 1
    ensures Many(p, k, t, Ask(now, m, ""), k) == Recording(b, m, k, t.history, now, 0)
  {
    var w, h := t.shared.state.window, t.history;
    assert Same(m, 0) == [];
    IdleIs(t, b, now - DAY);
    AsksTick(p, k, w, b, 0, h, now - DAY, now, m, k, k);
    assert h + Entries(now, m, 0) == h;
  }

  /** and `j` of them recorded. */
  lemma ApproveAndRecord(p: Policy, k: nat, t: Tally, b: int64, m: int64, j: nat, left: nat, now: int, top: int64)
    requires Idle(t, b, now - DAY) && 0 <= b && Payable(p, m) && b + m == p.sessionBudget
    requires 1 <= j && left + j == k && top == b + j * m
    ensures Many(p, k, Many(p, k, t, Ask(now, m, ""), k), Book(0, now, ""), j) ==
            Recording(top, m, left, t.history, now, j)
  {
    ApproveAll(p, k, t, b, m, now);
    BooksTick(p, k, b, m, k, t.history, now, j, left, top);
  }

  lemma WrappedPasses(p: Policy, top: int64, m: int64)
    requires p.sessionBudget >= 0 && top + m >= TWO63
    ensures SessionPasses(p, top, m)
  {
    WrapsNegative(top + m);
  }

  /** A day later the wrapped sum lets `j` more through. */
  lemma ApproveWrapped(p: Policy, k: nat, top: int64, m: int64, j: nat, left: nat, h: seq<Entry>, now: int)
    requires Payable(p, m) && SessionPasses(p, top, m) && 1 <= j && left + j == k
    ensures Many(p, k, Recording(top, m, left, h, now, j), Ask(now + DAY, m, ""), j) ==
            Tally(Shared(FwState([], top), Same(m, k)), h + Entries(now, m, j), now + DAY, true)
  {
    EntriesUpTo(now, m, j);
    AsksTick(p, k, Entries(now, m, j), top, left, h + Entries(now, m, j), now, now + DAY, m, j, k);
  }

  /** From an idle morning with a budget for exactly one more `m`: see SessionRun. */
  lemma OverrunTick(p: Policy, k: nat, t: Tally, b: int64, m: int64, j: nat, left: nat, now: int, top: int64)
    requires Idle(t, b, now - DAY) && 0 <= b && Payable(p, m) && b + m == p.sessionBudget
    requires 1 <= j && left + j == k && top == b + j * m && SessionPasses(p, top, m)
    ensures Many(p, k, Many(p, k, Many(p, k, t, Ask(now, m, ""), k), Book(0, now, ""), j), Ask(now + DAY, m, ""), j) ==
            Tally(Shared(FwState([], top), Same(m, k)), t.history + Entries(now, m, j), now + DAY, true)
  {
    ApproveAndRecord(p, k, t, b, m, j, left, now, top);
    ApproveWrapped(p, k, top, m, j, left, t.history, now);
  }

  lemma SessionRunOverruns(p: Policy, xs: seq<int64>, m: int64, k: nat, j: nat, top: int64)
    requires 0 < m && Payable(p, m) && 1 <= j <= k && forall i :: 0 <= i < |xs| ==> Payable(p, xs[i])
    requires Sum(xs) + m == p.sessionBudget && top == Sum(xs) + j * m && top + m >= TWO63
    ensures var es := SessionRun(xs, m, k, j);
            AtMostOutstanding(p, es, k) && Timed(es) && After(p, es).outstanding == Same(m, k) &&
            TotalRecorded(History(p, es)) == top
  {
    var es, now, t := SessionRun(xs, m, k, j), Dawn(|xs| + 1), Played(p, k, Daily(xs), -DAY);
    DailyIsIdle(p, k, xs);
    SessionRunPlayed(p, k, xs, m, j, now);
    WrappedPasses(p, top, m);
    OverrunTick(p, k, t, Sum(xs), m, j, k - j, now, top);
    EntriesSum(t.history, now, m, j);
    PlayedIsRun(p, k, es, -DAY);
    ProperRun(p, k, es, -DAY);
  }

  lemma SessionRunPlayed(p: Policy, k: nat, xs: seq<int64>, m: int64, j: nat, now: int)
    requires now == Dawn(|xs| + 1)
    ensures Played(p, k, SessionRun(xs, m, k, j), -DAY) ==
            Many(p, k, Many(p, k, Many(p, k, Played(p, k, Daily(xs), -DAY), Ask(now, m, ""), k), Book(0, now, ""), j),
                 Ask(now + DAY, m, ""), j)
  {
    PlayedThree(p, k, Daily(xs), -DAY, Ask(now, m, ""), k, Book(0, now, ""), j, Ask(now + DAY, m, ""), j);
  }

  lemma PlayedThree(p: Policy, k: nat, es: seq<Event>, start: int, a: Event, x: nat, b: Event, y: nat, c: Event, z: nat)
    ensures Played(p, k, Repeat(Repeat(Repeat(es, a, x), b, y), c, z), start) ==
            Many(p, k, Many(p, k, Many(p, k, Played(p, k, es, start), a, x), b, y), c, z)
  {
    PlayedRepeat(p, k, es, start, a, x);
    PlayedRepeat(p, k, Repeat(es, a, x), start, b, y);
    PlayedRepeat(p, k, Repeat(Repeat(es, a, x), b, y), start, c, z);
  }

  /** Recorded plus outstanding spend. */
  function TrulyCommitted(p: Policy, es: seq<Event>): int {
    TotalRecorded(History(p, es)) + Sum(After(p, es).outstanding)
  }

  /** It exceeds the session budget by at most `k - 1` full transactions, in every interleaving under
      every policy with these budgets and this cap. */
  ghost predicate SafeSession(s: int64, r: int64, cap: int64, k: nat) {
    forall p: Policy, es: seq<Event> :: HasBudgets(p, s, r, cap) && AtMostOutstanding(p, es, k) ==>
      TrulyCommitted(p, es) <= s + (k - 1) * Size(cap)
  }

  lemma SessionIsUnsafe(s: int64, r: int64, cap: int64, k: nat) returns (p: Policy, es: seq<Event>)
    requires k >= 1 && 0 < Size(cap) <= s && Size(cap) <= r && s + k * Size(cap) >= TWO63
    ensures HasBudgets(p, s, r, cap) && AtMostOutstanding(p, es, k) && Timed(es)
    ensures TrulyCommitted(p, es) > s + (k - 1) * Size(cap)
  {
    var m: int64 := Size(cap);
    var xs := Fill(s - m, m);
    var j := LeastOver(s, m, k);
    p, es := Policy(s, cap, r, 1, []), SessionRun(xs, m, k, j);
    MulSucc(j - 1, m);
    SessionRunOverruns(p, xs, m, k, j, s - m + j * m);
    SumOfSame(m, k);
    MulSucc(k - 1, m);
    MulMonotone(1, j, m);
  }

  /** Where both budgets admit a full transaction, the session bound of interleaved calls holds
      exactly when the session budget and `k` full transactions stay below 2^63. */
  lemma SessionRoomIsExact(s: int64, r: int64, cap: int64, k: nat)
    requires k >= 1 && 0 < Size(cap) <= s && Size(cap) <= r
    ensures SafeSession(s, r, cap, k) <==> s + k * Size(cap) < TWO63
  {
    MulSucc(k - 1, Size(cap));
    if s + k * Size(cap) < TWO63 {
      forall p: Policy, es: seq<Event> | HasBudgets(p, s, r, cap) && AtMostOutstanding(p, es, k)
        ensures TrulyCommitted(p, es) <= s + (k - 1) * Size(cap)
      {
        InterleavingBound(p, es, k);
        SpentIsRecorded(p, es, k);
      }
    } else {
      var p, es := SessionIsUnsafe(s, r, cap, k);
    }
  }

  // ---------- The rolling budget: all at one instant ----------

  /** At time 0 the amounts `xs` are recorded and `out` is outstanding. */
  function Instant(xs: seq<int64>, out: seq<int64>): Tally {
    Tally(Shared(RunOf(xs).state, out), EntriesOf(xs), 0, true)
  }

  lemma AskNow(p: Policy, k: nat, xs: seq<int64>, out: seq<int64>, m: int64)
    requires FitsOneMore(p, xs, m) && |out| < k && m >= 0
    ensures Tick(p, k, Instant(xs, out), Ask(0, m, "")) == Instant(xs, out + [m])
  {
    ApprovedAtOnce(p, xs, m);
    UnprunedAtOnce(p, xs, m);
    assert EntriesOf(xs) + [] == EntriesOf(xs);
  }

  lemma BookNow(p: Policy, k: nat, xs: seq<int64>, m: int64, rest: seq<int64>)
    requires |rest| <= k
    ensures Tick(p, k, Instant(xs, [m] + rest), Book(0, 0, "")) == Instant(xs + [m], rest)
  {
    var out := [m] + rest;
    assert out[..0] + out[1..] == rest;
    RecordedAtOnce(xs, m);
    AppendAmount(xs, m);
  }

  /** The run at time 0 after `i` more approvals. */
  function Waiting(xs: seq<int64>, m: int64, q: nat, i: nat): Tally {
    Instant(xs, Same(m, q + i))
  }

  lemma AskNowStep(p: Policy, k: nat, xs: seq<int64>, m: int64, q: nat, i: nat)
    requires FitsOneMore(p, xs, m) && q + i < k && m >= 0
    ensures Tick(p, k, Waiting(xs, m, q, i), Ask(0, m, "")) == Waiting(xs, m, q, i + 1)
  {
    AskNow(p, k, xs, Same(m, q + i), m);
    SameStep(m, q + i);
  }

  lemma AsksNow(p: Policy, k: nat, xs: seq<int64>, q: nat, m: int64, n: nat, all: nat)
    requires FitsOneMore(p, xs, m) && all == q + n <= k && m >= 0
    ensures Many(p, k, Instant(xs, Same(m, q)), Ask(0, m, ""), n) == Instant(xs, Same(m, all))
  {
    var states := (i: nat) => Waiting(xs, m, q, i);
    forall i: nat | i < n ensures Tick(p, k, states(i), Ask(0, m, "")) == states(i + 1) {
      AskNowStep(p, k, xs, m, q, i);
    }
    ManyIs(p, k, Ask(0, m, ""), states, n);
    assert states(0) == Instant(xs, Same(m, q)) && states(n) == Instant(xs, Same(m, all));
  }

  lemma BookNowStep(p: Policy, k: nat, xs: seq<int64>, q: nat, m: int64, n: nat)
    requires q <= k
    ensures Tick(p, k, Instant(xs + Same(m, n), Same(m, q + 1)), Book(0, 0, "")) ==
            Instant(xs + Same(m, n + 1), Same(m, q))
  {
    SameFront(m, q);
    BookNow(p, k, xs + Same(m, n), m, Same(m, q));
    SameStep(m, n);
    JoinThree(xs, Same(m, n), [m]);
  }

  /** The run at time 0 after `i` of `all` approved amounts are recorded. */
  function Settling(xs: seq<int64>, m: int64, all: nat, i: nat): Tally {
    Instant(xs + Same(m, i), Same(m, if i <= all then all - i else 0))
  }

  lemma SettlingStep(p: Policy, k: nat, xs: seq<int64>, m: int64, all: nat, i: nat)
    requires i < all <= k
    ensures Tick(p, k, Settling(xs, m, all, i), Book(0, 0, "")) == Settling(xs, m, all, i + 1)
  {
    BookNowStep(p, k, xs, all - i - 1, m, i);
  }

  lemma BooksNow(p: Policy, k: nat, xs: seq<int64>, all: nat, m: int64, n: nat, left: nat)
    requires all == left + n <= k
    ensures Many(p, k, Instant(xs, Same(m, all)), Book(0, 0, ""), n) == Instant(xs + Same(m, n), Same(m, left))
  {
    var states := (i: nat) => Settling(xs, m, all, i);
    forall i: nat | i < n ensures Tick(p, k, states(i), Book(0, 0, "")) == states(i + 1) {
      SettlingStep(p, k, xs, m, all, i);
    }
    assert xs + Same(m, 0) == xs;
    ManyIs(p, k, Book(0, 0, ""), states, n);
    assert states(0) == Instant(xs, Same(m, all)) && states(n) == Instant(xs + Same(m, n), Same(m, left));
  }

  /** Amounts asked for and recorded one after the other. */
  function InTurn(xs: seq<int64>): seq<Event> {
    if xs == [] then [] else InTurn(xs[..|xs| - 1]) + [Ask(0, xs[|xs| - 1], "")] + [Book(0, 0, "")]
  }

  lemma InTurnStep(p: Policy, k: nat, es: seq<Event>, xs: seq<int64>, m: int64, longer: seq<int64>)
    requires Played(p, k, es, 0) == Instant(xs, []) && FitsOneMore(p, xs, m) && k >= 1 && m >= 0
    requires longer == xs + [m]
    ensures Played(p, k, es + [Ask(0, m, "")] + [Book(0, 0, "")], 0) == Instant(longer, [])
  {
    AskNow(p, k, xs, [], m);
    assert [] + [m] == [m] + [];
    BookNow(p, k, xs, m, []);
    PlayedOne(p, k, es, 0, Ask(0, m, ""));
    PlayedOne(p, k, es + [Ask(0, m, "")], 0, Book(0, 0, ""));
  }

  lemma NothingPlayed(p: Policy, k: nat)
    ensures Played(p, k, [], 0) == Instant([], [])
  {
    assert EntriesOf([]) == [];
  }

  lemma {:induction false} InTurnNow(p: Policy, k: nat, xs: seq<int64>)
    requires k >= 1 && p.allowedRecipients == [] && |xs| <= p.maxTxPerHour
    requires forall i :: 0 <= i < |xs| ==> 0 <= xs[i] <= MostPerCall(p)
    requires Sum(xs) <= p.sessionBudget && Sum(xs) <= p.rolling24hBudget
    ensures Played(p, k, InTurn(xs), 0) == Instant(xs, [])
  {
    if xs == [] {
      NothingPlayed(p, k);
    } else {
      var front, last := xs[..|xs| - 1], xs[|xs| - 1];
      SumAtLeast(front, 0);
      InTurnNow(p, k, front);
      FitsInBudget(p, front, last);
      SplitLast(xs);
      InTurnStep(p, k, InTurn(front), front, last, xs);
    }
  }

  /** Spending `xs`, then `k` approvals, `j` of them recorded, `j` more approvals that pass because
      both sums have wrapped, and everything recorded: all at one instant. */
  function InstantRun(xs: seq<int64>, m: int64, k: nat, j: nat): seq<Event> {
    var ask, book := Ask(0, m, ""), Book(0, 0, "");
    Repeat(Repeat(Repeat(Repeat(InTurn(xs), ask, k), book, j), ask, j), book, k)
  }

  lemma {:induction false} SumWithSame(xs: seq<int64>, m: int64, n: nat)
    ensures Sum(xs + Same(m, n)) == Sum(xs) + n * m
  {
    if n == 0 {
      assert xs + Same(m, 0) == xs;
    } else {
      SumWithSame(xs, m, n - 1);
      SameStep(m, n - 1);
      JoinThree(xs, Same(m, n - 1), [m]);
      AppendAmount(xs + Same(m, n - 1), m);
      MulSucc(n - 1, m);
    }
  }

  lemma WrappedFits(p: Policy, xs: seq<int64>, m: int64, j: nat)
    requires p.allowedRecipients == [] && |xs| + j < p.maxTxPerHour && 0 < m <= MostPerCall(p)
    requires p.sessionBudget >= 0 && p.rolling24hBudget >= 0 && Sum(xs) + j * m < TWO63 <= Sum(xs) + j * m + m
    ensures FitsOneMore(p, xs + Same(m, j), m)
  {
    SumWithSame(xs, m, j);
    WrapsNegative(Sum(xs) + j * m + m);
  }

  lemma ApproveAndRecordNow(p: Policy, xs: seq<int64>, m: int64, k: nat, q: nat, n: nat, j: nat, left: nat, all: nat)
    requires left + j == q + n == all <= k && m >= 0 && FitsOneMore(p, xs, m)
    ensures Many(p, k, Many(p, k, Instant(xs, Same(m, q)), Ask(0, m, ""), n), Book(0, 0, ""), j) ==
            Instant(xs + Same(m, j), Same(m, left))
  {
    AsksNow(p, k, xs, q, m, n, all);
    BooksNow(p, k, xs, all, m, j, left);
  }

  lemma InstantTick(p: Policy, xs: seq<int64>, m: int64, k: nat, j: nat, left: nat)
    requires 1 <= j && left + j == k && 0 < m && FitsOneMore(p, xs, m) && FitsOneMore(p, xs + Same(m, j), m)
    ensures var ask, book := Ask(0, m, ""), Book(0, 0, "");
            Many(p, k, Many(p, k, Many(p, k, Many(p, k, Instant(xs, Same(m, 0)), ask, k), book, j), ask, j), book, k) ==
            Instant(xs + Same(m, j) + Same(m, k), Same(m, 0))
  {
    ApproveAndRecordNow(p, xs, m, k, 0, k, j, left, k);
    ApproveAndRecordNow(p, xs + Same(m, j), m, k, left, j, k, 0, k);
  }

  lemma InstantRunPlayed(p: Policy, xs: seq<int64>, m: int64, k: nat, j: nat)
    ensures var ask, book := Ask(0, m, ""), Book(0, 0, "");
            Played(p, k, InstantRun(xs, m, k, j), 0) ==
            Many(p, k, Many(p, k, Many(p, k, Many(p, k, Played(p, k, InTurn(xs), 0), ask, k), book, j), ask, j),
                 book, k)
  {
    var ask, book := Ask(0, m, ""), Book(0, 0, "");
    PlayedThree(p, k, InTurn(xs), 0, ask, k, book, j, ask, j);
    PlayedRepeat(p, k, Repeat(Repeat(Repeat(InTurn(xs), ask, k), book, j), ask, j), 0, book, k);
  }

  lemma InstantRunRecords(p: Policy, xs: seq<int64>, m: int64, k: nat, j: nat)
    requires 1 <= j <= k && 0 < m && FitsOneMore(p, xs, m) && FitsOneMore(p, xs + Same(m, j), m)
    requires Played(p, k, InTurn(xs), 0) == Instant(xs, [])
    ensures var es := InstantRun(xs, m, k, j);
            AtMostOutstanding(p, es, k) && Timed(es) && History(p, es) == EntriesOf(xs + Same(m, j) + Same(m, k))
  {
    var es := InstantRun(xs, m, k, j);
    assert Same(m, 0) == [];
    InstantRunPlayed(p, xs, m, k, j);
    InstantTick(p, xs, m, k, j, k - j);
    PlayedIsRun(p, k, es, 0);
    ProperRun(p, k, es, 0);
  }

  /** Every day of every clocked interleaving exceeds the rolling budget by at most `k - 1` full
      transactions. */
  ghost predicate SafeDays(s: int64, r: int64, cap: int64, k: nat) {
    forall p: Policy, es: seq<Event> ::
      HasBudgets(p, s, r, cap) && AtMostOutstanding(p, es, k) && Timed(es) ==> DaysWithin(p, k, History(p, es))
  }

  lemma InstantSum(xs: seq<int64>, m: int64, j: nat, k: nat)
    ensures SumWithin(EntriesOf(xs + Same(m, j) + Same(m, k)), -DAY, 0) == Sum(xs) + j * m + k * m
  {
    SumWithSame(xs, m, j);
    SumWithSame(xs + Same(m, j), m, k);
    EntriesAtOnce(xs + Same(m, j) + Same(m, k));
  }

  lemma ExceedsDay(p: Policy, k: nat, h: seq<Entry>, top: int, m: int)
    requires k >= 1 && m == FullSize(p) && SumWithin(h, -DAY, 0) == top + k * m && top + m > p.rolling24hBudget
    ensures !DayWithin(p, k, h, 0)
  {
    MulSucc(k - 1, m);
  }

  lemma InstantOverrun(p: Policy, xs: seq<int64>, m: int64, k: nat, j: nat, top: int)
    requires 1 <= j <= k && 0 < m == MostPerCall(p) && FitsOneMore(p, xs, m) && FitsOneMore(p, xs + Same(m, j), m)
    requires Played(p, k, InTurn(xs), 0) == Instant(xs, []) && top == Sum(xs) + j * m && top + m >= TWO63
    ensures var es := InstantRun(xs, m, k, j);
            AtMostOutstanding(p, es, k) && Timed(es) && !DayWithin(p, k, History(p, es), 0)
  {
    InstantRunRecords(p, xs, m, k, j);
    InstantSum(xs, m, j, k);
    ExceedsDay(p, k, History(p, InstantRun(xs, m, k, j)), top, m);
  }

  lemma DaysAreUnsafe(s: int64, r: int64, cap: int64, k: nat) returns (p: Policy, es: seq<Event>)
    requires k >= 1 && 0 < Size(cap) <= s && Size(cap) <= r
    requires s + k * Size(cap) >= TWO63 && r + k * Size(cap) >= TWO63
    ensures HasBudgets(p, s, r, cap) && AtMostOutstanding(p, es, k) && Timed(es) && !DayWithin(p, k, History(p, es), 0)
  {
    var b, m: int64 := if s < r then s else r, Size(cap);
    var xs := Fill(b - m, m);
    var j := LeastOver(b, m, k);
    p, es := Policy(s, cap, r, |xs| + k + 1, []), InstantRun(xs, m, k, j);
    MulSucc(j - 1, m);
    InTurnNow(p, k, xs);
    FitsInBudget(p, xs, m);
    WrappedFits(p, xs, m, j);
    InstantOverrun(p, xs, m, k, j, b - m + j * m);
  }

  /** Where both budgets admit a full transaction, the rolling bound of interleaved calls holds
      exactly when one of the two budgets and `k` full transactions stay below 2^63. */
  lemma WindowRoomIsExact(s: int64, r: int64, cap: int64, k: nat)
    requires k >= 1 && 0 < Size(cap) <= s && Size(cap) <= r
    ensures SafeDays(s, r, cap, k) <==> s + k * Size(cap) < TWO63 || r + k * Size(cap) < TWO63
  {
    MulSucc(k - 1, Size(cap));
    if s + k * Size(cap) < TWO63 || r + k * Size(cap) < TWO63 {
      forall p: Policy, es: seq<Event> | HasBudgets(p, s, r, cap) && AtMostOutstanding(p, es, k) && Timed(es)
        ensures DaysWithin(p, k, History(p, es))
      {
        InterleavedWindows(p, es, k, if es == [] then 0 else TimeOf(es[0]));
      }
    } else {
      var p, es := DaysAreUnsafe(s, r, cap, k);
      assert !DaysWithin(p, k, History(p, es));
    }
  }
}
