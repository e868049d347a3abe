/** The firewall when evaluation and recording, each atomic under its own lock, interleave
    across concurrent tool calls. */
module FirewallInterleaving {
  import opened Prelude
  import opened Limits
  import opened Firewall
  import opened FirewallLimits

  // ---------- Interleaved runs ----------

  datatype Event =
    | Ask(now: int, amount: int64, recipient: string)
    | Book(slot: nat, now: int, txID: string)

  /** The firewall and the amounts approved but not yet recorded. */
  datatype Shared = Shared(state: FwState, outstanding: seq<int64>)

  function Happen(p: Policy, s: Shared, e: Event): Shared {
    match e
    case Ask(now, amount, recipient) =>
      Shared(Evaluated(p, s.state, now, amount),
             if Approves(p, s.state, now, amount, recipient) then s.outstanding + [amount] else s.outstanding)
    case Book(slot, now, txID) =>
      if slot >= |s.outstanding| then s
      else Shared(Recorded(s.state, now, s.outstanding[slot], txID),
                  s.outstanding[..slot] + s.outstanding[slot + 1..])
  }

  function After(p: Policy, events: seq<Event>): Shared {
    if events == [] then Shared(FwState([], 0), [])
    else Happen(p, After(p, events[..|events| - 1]), events[|events| - 1])
  }

  /** At most `k` approvals are outstanding at any time, and nobody asks for a negative amount. */
  predicate AtMostOutstanding(p: Policy, events: seq<Event>, k: nat) {
    (forall i :: 0 <= i < |events| ==> events[i].Ask? ==> events[i].amount >= 0) &&
    (forall i :: 0 <= i <= |events| ==> |After(p, events[..i]).outstanding| <= k)
  }

  /** Recorded plus outstanding spend. */
  function Committed(s: Shared): int {
    s.state.spent + Sum(s.outstanding)
  }

  /** The largest transaction the caps allow. */
  function FullSize(p: Policy): nat {
    if MostPerCall(p) < 0 then 0 else MostPerCall(p)
  }

  function Bound(p: Policy, k: nat): int {
    p.sessionBudget + (k - 1) * FullSize(p)
  }

  predicate SharedInv(p: Policy, s: Shared, k: nat) {
    0 <= s.state.spent && |s.outstanding| <= k && Committed(s) <= Bound(p, k) &&
    forall i :: 0 <= i < |s.outstanding| ==> 0 <= s.outstanding[i] <= FullSize(p)
  }

  /** Budgets whose bound stays below 2^63. */
  predicate RoomFor(p: Policy, k: nat) {
    0 <= p.sessionBudget && k >= 1 && Bound(p, k) + FullSize(p) < TWO63
  }

  lemma OutstandingSum(p: Policy, xs: seq<int64>, k: nat)
    requires |xs| <= k
    requires forall i :: 0 <= i < |xs| ==> 0 <= xs[i] <= FullSize(p)
    ensures 0 <= Sum(xs) <= k * FullSize(p)
  {
    SumAtLeast(xs, 0);
    SumAtMost(xs, FullSize(p));
    MulMonotone(|xs|, k, FullSize(p));
  }

  lemma MulMonotone(a: nat, b: nat, m: int)
    requires a <= b && m >= 0
    ensures a * m <= b * m
  {
  }

  lemma AskKeepsInv(p: Policy, s: Shared, e: Event, k: nat)
    requires RoomFor(p, k) && SharedInv(p, s, k) && e.Ask? && e.amount >= 0
    requires |Happen(p, s, e).outstanding| <= k
    ensures SharedInv(p, Happen(p, s, e), k)
  {
    if Approves(p, s.state, e.now, e.amount, e.recipient) {
      OutstandingSum(p, s.outstanding, k - 1);
      OutstandingSum(p, s.outstanding, k);
      var longer := s.outstanding + [e.amount];
      assert longer[..|s.outstanding|] == s.outstanding;
      assert Sum(longer) == Sum(s.outstanding) + e.amount;
    }
  }

  lemma BookKeepsInv(p: Policy, s: Shared, e: Event, k: nat)
    requires RoomFor(p, k) && SharedInv(p, s, k) && e.Book?
    ensures SharedInv(p, Happen(p, s, e), k)
    ensures Committed(Happen(p, s, e)) == Committed(s)
  {
    if e.slot < |s.outstanding| {
      SumAround(s.outstanding, e.slot);
      var rest := s.outstanding[..e.slot] + s.outstanding[e.slot + 1..];
      OutstandingSum(p, rest, k);
    }
  }

  /** With at most `k` approvals outstanding, recorded plus outstanding spend never exceeds the
      session budget by more than `k - 1` full transactions; with one at a time, not at all. */
  lemma {:induction false} InterleavingBound(p: Policy, events: seq<Event>, k: nat)
    requires RoomFor(p, k) && AtMostOutstanding(p, events, k)
    ensures SharedInv(p, After(p, events), k)
    ensures Committed(After(p, events)) <= p.sessionBudget + (k - 1) * FullSize(p)
  {
    if events == [] {
      assert Sum([]) == 0;
      MulMonotone(0, k - 1, FullSize(p));
    } else {
      var n := |events| - 1;
      FewerEvents(p, events, k);
      InterleavingBound(p, events[..n], k);
      assert events[..|events|] == events;
      var s := After(p, events[..n]);
      if events[n].Ask? {
        AskKeepsInv(p, s, events[n], k);
      } else {
        BookKeepsInv(p, s, events[n], k);
      }
    }
  }

  lemma FewerEvents(p: Policy, events: seq<Event>, k: nat)
    requires events != [] && AtMostOutstanding(p, events, k)
    ensures AtMostOutstanding(p, events[..|events| - 1], k)
  {
    var front := events[..|events| - 1];
    forall i | 0 <= i <= |front| ensures |After(p, front[..i]).outstanding| <= k {
      assert front[..i] == events[..i];
    }
  }

  // ---------- The windows of an interleaved run ----------

  function TimeOf(e: Event): int {
    match e
    case Ask(now, _, _) => now
    case Book(_, now, _) => now
  }

  /** Everything recorded, in order. */
  function History(p: Policy, events: seq<Event>): seq<Entry> {
    if events == [] then []
    else
      var n := |events| - 1;
      History(p, events[..n]) + Booked(After(p, events[..n]), events[n])
  }

  /** What an event adds to the history. */
  function Booked(s: Shared, e: Event): seq<Entry> {
    if e.Book? && e.slot < |s.outstanding| then [Entry(e.now, s.outstanding[e.slot], e.txID)] else []
  }

  predicate Timed(events: seq<Event>) {
    forall i, j :: 0 <= i < j < |events| ==> TimeOf(events[i]) <= TimeOf(events[j])
  }

  function RollingBound(p: Policy, k: nat): int {
    p.rolling24hBudget + (k - 1) * FullSize(p)
  }

  function RateBound(p: Policy, k: nat): int {
    p.maxTxPerHour + k - 1
  }

  /** The hour, and the day, that end at `x` stay within the bounds. */
  predicate HourWithin(p: Policy, k: nat, h: seq<Entry>, x: int) {
    CountWithin(h, x - HOUR, x) <= RateBound(p, k)
  }

  predicate DayWithin(p: Policy, k: nat, h: seq<Entry>, x: int) {
    SumWithin(h, x - DAY, x) <= RollingBound(p, k)
  }

  ghost predicate HoursWithin(p: Policy, k: nat, h: seq<Entry>) {
    forall x :: HourWithin(p, k, h, x)
  }

  ghost predicate DaysWithin(p: Policy, k: nat, h: seq<Entry>) {
    forall x :: DayWithin(p, k, h, x)
  }

  /** The rolling bound stays below 2^63. */
  predicate WindowRoom(p: Policy, k: nat) {
    0 <= p.rolling24hBudget && k >= 1 && RollingBound(p, k) + FullSize(p) < TWO63
  }

  // ---------- The rate ----------

  /** Recorded in the last hour plus outstanding is within the bound, and so is every hour. */
  ghost predicate RateInv(p: Policy, k: nat, s: Shared, h: seq<Entry>, clock: int) {
    Tracks(Run(s.state, h), clock) && |s.outstanding| <= k &&
    CountAfter(h, clock - HOUR) + |s.outstanding| <= RateBound(p, k) && HoursWithin(p, k, h)
  }

  lemma {:induction false} LaterCountsLess(es: seq<Entry>, lo: int, lo': int)
    requires lo <= lo'
    ensures CountAfter(es, lo') <= CountAfter(es, lo)
  {
    if es != [] {
      LaterCountsLess(es[..|es| - 1], lo, lo');
    }
  }

  lemma AskKeepsRate(p: Policy, k: nat, s: Shared, h: seq<Entry>, clock: int, e: Event)
    requires RateInv(p, k, s, h, clock) && e.Ask? && clock <= e.now && |Happen(p, s, e).outstanding| <= k
    ensures RateInv(p, k, Happen(p, s, e), h, e.now)
  {
    LaterCountsLess(h, clock - HOUR, e.now - HOUR);
    EvaluateTracks(p, Run(s.state, h), clock, e.now, e.amount);
    assert CountAfter(s.state.window, e.now - HOUR) == CountAfter(h, e.now - HOUR);
  }

  lemma RecordKeepsHours(p: Policy, k: nat, h: seq<Entry>, e: Entry)
    requires HoursWithin(p, k, h) && CountAfter(h + [e], e.time - HOUR) <= RateBound(p, k)
    ensures HoursWithin(p, k, h + [e])
  {
    forall x ensures HourWithin(p, k, h + [e], x) {
      assert HourWithin(p, k, h, x);
      AppendSums(h, e, x - HOUR, x);
      if e.time <= x {
        CountBelowAfter(h + [e], e.time - HOUR, x - HOUR, x);
      }
    }
  }

  lemma BookTracks(s: Shared, h: seq<Entry>, clock: int, now: int, amount: int64, txID: string)
    requires Tracks(Run(s.state, h), clock) && clock <= now
    ensures Tracks(Run(Recorded(s.state, now, amount, txID), h + [Entry(now, amount, txID)]), now)
  {
    RecordLosesNothing(s.state.window, h, Entry(now, amount, txID), clock, now);
  }

  lemma BookKeepsRate(p: Policy, k: nat, s: Shared, h: seq<Entry>, clock: int, slot: nat, now: int, txID: string)
    requires RateInv(p, k, s, h, clock) && clock <= now && slot < |s.outstanding|
    ensures RateInv(p, k, Happen(p, s, Book(slot, now, txID)), h + [Entry(now, s.outstanding[slot], txID)], now)
  {
    var entry := Entry(now, s.outstanding[slot], txID);
    LaterCountsLess(h, clock - HOUR, now - HOUR);
    BookTracks(s, h, clock, now, s.outstanding[slot], txID);
    AppendSums(h, entry, now - HOUR, now);
    RecordKeepsHours(p, k, h, entry);
  }

  lemma EventKeepsRate(p: Policy, k: nat, s: Shared, h: seq<Entry>, clock: int, e: Event)
    requires RateInv(p, k, s, h, clock) && clock <= TimeOf(e) && |Happen(p, s, e).outstanding| <= k
    ensures RateInv(p, k, Happen(p, s, e), h + Booked(s, e), TimeOf(e))
  {
    if e.Book? && e.slot < |s.outstanding| {
      BookKeepsRate(p, k, s, h, clock, e.slot, e.now, e.txID);
    } else {
      assert h + Booked(s, e) == h;
      if e.Ask? {
        AskKeepsRate(p, k, s, h, clock, e);
      } else {
        LaterCountsLess(h, clock - HOUR, e.now - HOUR);
      }
    }
  }

  function LastTime(events: seq<Event>, start: int): int {
    if events == [] then start else TimeOf(events[|events| - 1])
  }

  lemma {:induction false} InterleavedRate(p: Policy, events: seq<Event>, k: nat, start: int)
    requires p.maxTxPerHour >= 0 && k >= 1 && AtMostOutstanding(p, events, k)
    requires Timed(events) && (events != [] ==> start <= TimeOf(events[0]))
    ensures RateInv(p, k, After(p, events), History(p, events), LastTime(events, start))
  {
    if events == [] {
      EmptyRespects(p, start);
      forall x ensures HourWithin(p, k, [], x) {
        assert RateAt(p, [], x);
      }
    } else {
      var n := |events| - 1;
      FewerEvents(p, events, k);
      InterleavedRate(p, events[..n], k, start);
      assert events[..|events|] == events;
      EventKeepsRate(p, k, After(p, events[..n]), History(p, events[..n]), LastTime(events[..n], start), events[n]);
    }
  }

  // ---------- The rolling budget ----------

  /** What is approved but not yet recorded. */
  predicate Outstanding(p: Policy, k: nat, xs: seq<int64>) {
    |xs| <= k && forall i :: 0 <= i < |xs| ==> 0 <= xs[i] <= FullSize(p)
  }

  /** Recorded in the last day plus outstanding is within the bound, and so is every day. */
  ghost predicate SumInv(p: Policy, k: nat, s: Shared, h: seq<Entry>, clock: int) {
    NonNegative(h) && Outstanding(p, k, s.outstanding) &&
    SumAfter(h, clock - DAY) + Sum(s.outstanding) <= RollingBound(p, k) && DaysWithin(p, k, h)
  }

  lemma {:induction false} LaterSumsLess(es: seq<Entry>, lo: int, lo': int)
    requires lo <= lo' && NonNegative(es)
    ensures 0 <= SumAfter(es, lo') <= SumAfter(es, lo)
  {
    if es != [] {
      LaterSumsLess(es[..|es| - 1], lo, lo');
    }
  }

  /** An approval is charged against the window of the full history. */
  lemma AskCharges(p: Policy, k: nat, s: Shared, h: seq<Entry>, now: int, amount: int64, recipient: string)
    requires WindowRoom(p, k) && NothingLost(s.state.window, h, now) && NonNegative(h)
    requires Outstanding(p, k - 1, s.outstanding) && SumAfter(h, now - DAY) + Sum(s.outstanding) <= RollingBound(p, k)
    requires amount >= 0 && Approves(p, s.state, now, amount, recipient)
    ensures SumAfter(h, now - DAY) + Sum(s.outstanding + [amount]) <= RollingBound(p, k)
  {
    assert SumAfter(s.state.window, now - DAY) == SumAfter(h, now - DAY);
    LaterSumsLess(h, now - DAY, now - DAY);
    OutstandingSum(p, s.outstanding, k - 1);
    var longer := s.outstanding + [amount];
    assert longer[..|s.outstanding|] == s.outstanding;
  }

  lemma AskKeepsSums(p: Policy, k: nat, s: Shared, h: seq<Entry>, clock: int, e: Event)
    requires WindowRoom(p, k) && Tracks(Run(s.state, h), clock) && SumInv(p, k, s, h, clock)
    requires e.Ask? && e.amount >= 0 && clock <= e.now && |Happen(p, s, e).outstanding| <= k
    ensures SumInv(p, k, Happen(p, s, e), h, e.now)
  {
    LaterSumsLess(h, clock - DAY, e.now - DAY);
    if Approves(p, s.state, e.now, e.amount, e.recipient) {
      AskCharges(p, k, s, h, e.now, e.amount, e.recipient);
    }
  }

  lemma RecordKeepsDays(p: Policy, k: nat, h: seq<Entry>, e: Entry)
    requires NonNegative(h + [e]) && DaysWithin(p, k, h) && SumAfter(h + [e], e.time - DAY) <= RollingBound(p, k)
    ensures DaysWithin(p, k, h + [e])
  {
    forall x ensures DayWithin(p, k, h + [e], x) {
      assert DayWithin(p, k, h, x);
      AppendSums(h, e, x - DAY, x);
      if e.time <= x {
        SumBelowAfter(h + [e], e.time - DAY, x - DAY, x);
      }
    }
  }

  lemma BookKeepsSums(p: Policy, k: nat, s: Shared, h: seq<Entry>, clock: int, slot: nat, now: int, txID: string)
    requires SumInv(p, k, s, h, clock) && clock <= now && slot < |s.outstanding|
    ensures SumInv(p, k, Happen(p, s, Book(slot, now, txID)), h + [Entry(now, s.outstanding[slot], txID)], now)
  {
    var entry := Entry(now, s.outstanding[slot], txID);
    var rest := s.outstanding[..slot] + s.outstanding[slot + 1..];
    LaterSumsLess(h, clock - DAY, now - DAY);
    SumAround(s.outstanding, slot);
    OutstandingSum(p, rest, k);
    AppendSums(h, entry, now - DAY, now);
    RecordKeepsDays(p, k, h, entry);
  }

  lemma EventKeepsSums(p: Policy, k: nat, s: Shared, h: seq<Entry>, clock: int, e: Event)
    requires WindowRoom(p, k) && Tracks(Run(s.state, h), clock) && SumInv(p, k, s, h, clock)
    requires clock <= TimeOf(e) && (e.Ask? ==> e.amount >= 0) && |Happen(p, s, e).outstanding| <= k
    ensures SumInv(p, k, Happen(p, s, e), h + Booked(s, e), TimeOf(e))
  {
    if e.Book? && e.slot < |s.outstanding| {
      BookKeepsSums(p, k, s, h, clock, e.slot, e.now, e.txID);
    } else {
      assert h + Booked(s, e) == h;
      if e.Ask? {
        AskKeepsSums(p, k, s, h, clock, e);
      } else {
        LaterSumsLess(h, clock - DAY, e.now - DAY);
      }
    }
  }

  lemma {:induction false} InterleavedSums(p: Policy, events: seq<Event>, k: nat, start: int)
    requires WindowRoom(p, k) && p.maxTxPerHour >= 0 && AtMostOutstanding(p, events, k)
    requires Timed(events) && (events != [] ==> start <= TimeOf(events[0]))
    ensures SumInv(p, k, After(p, events), History(p, events), LastTime(events, start))
  {
    if events == [] {
      EmptyRespects(p, start);
      MulMonotone(0, k - 1, FullSize(p));
      forall x ensures DayWithin(p, k, [], x) {
        assert RollingAt(p, [], x);
      }
    } else {
      var n := |events| - 1;
      FewerEvents(p, events, k);
      InterleavedSums(p, events[..n], k, start);
      InterleavedRate(p, events[..n], k, start);
      assert events[..|events|] == events;
      EventKeepsSums(p, k, After(p, events[..n]), History(p, events[..n]), LastTime(events[..n], start), events[n]);
    }
  }

  /** While the session bound is below 2^63, the session sum is everything recorded. */
  lemma {:induction false} SpentIsRecorded(p: Policy, events: seq<Event>, k: nat)
    requires RoomFor(p, k) && AtMostOutstanding(p, events, k)
    ensures After(p, events).state.spent == TotalRecorded(History(p, events)) && NonNegative(History(p, events))
  {
    if events != [] {
      var n := |events| - 1;
      FewerEvents(p, events, k);
      SpentIsRecorded(p, events[..n], k);
      InterleavingBound(p, events[..n], k);
      BookedIsSpent(p, After(p, events[..n]), History(p, events[..n]), events[n], k);
    }
  }

  lemma BookedIsSpent(p: Policy, s: Shared, h: seq<Entry>, e: Event, k: nat)
    requires RoomFor(p, k) && SharedInv(p, s, k) && s.state.spent == TotalRecorded(h) && NonNegative(h)
    ensures Happen(p, s, e).state.spent == TotalRecorded(h + Booked(s, e)) && NonNegative(h + Booked(s, e))
  {
    if e.Book? && e.slot < |s.outstanding| {
      SumAround(s.outstanding, e.slot);
      OutstandingSum(p, s.outstanding[..e.slot] + s.outstanding[e.slot + 1..], k);
      AppendSums(h, Entry(e.now, s.outstanding[e.slot], e.txID), 0, 0);
    } else {
      assert h + Booked(s, e) == h;
    }
  }

  /** With a monotone clock, at most `k` approvals outstanding, and room under either budget: every
      24-hour window of everything recorded exceeds the rolling budget by at most `k - 1` full
      transactions, and every 1-hour window the rate limit by at most `k - 1` records. */
  lemma InterleavedWindows(p: Policy, events: seq<Event>, k: nat, start: int)
    requires p.rolling24hBudget >= 0 && p.maxTxPerHour >= 0 && (WindowRoom(p, k) || RoomFor(p, k))
    requires AtMostOutstanding(p, events, k) && Timed(events) && (events != [] ==> start <= TimeOf(events[0]))
    ensures HoursWithin(p, k, History(p, events)) && DaysWithin(p, k, History(p, events))
  {
    InterleavedRate(p, events, k, start);
    if WindowRoom(p, k) {
      InterleavedSums(p, events, k, start);
    } else {
      var h := History(p, events);
      SpentIsRecorded(p, events, k);
      InterleavingBound(p, events, k);
      OutstandingSum(p, After(p, events).outstanding, k);
      forall x ensures DayWithin(p, k, h, x) {
        WindowBelowTotal(h, x - DAY, x);
      }
    }
  }

  // ---------- The bound is attained ----------

  function OneShot(m: int64): Policy {
    Policy(m, m, m, 1, [])
  }

  function Asks(m: int64, k: nat): seq<Event> {
    seq(k, _ => Ask(0, m, ""))
  }

  lemma OneMore(m: int64, s: Shared)
    requires 0 < m <= MAX_TX_VALUE && s.state == FwState([], 0)
    ensures var s' := Happen(OneShot(m), s, Ask(0, m, ""));
            s'.state == s.state && s'.outstanding == s.outstanding + [m] &&
            Sum(s'.outstanding) == Sum(s.outstanding) + m
  {
    assert Approves(OneShot(m), s.state, 0, m, "");
    var longer := s.outstanding + [m];
    assert longer[..|s.outstanding|] == s.outstanding;
  }

  lemma {:induction false} AllApproved(m: int64, k: nat)
    requires 0 < m <= MAX_TX_VALUE
    ensures After(OneShot(m), Asks(m, k)).state == FwState([], 0)
    ensures |After(OneShot(m), Asks(m, k)).outstanding| == k
    ensures Sum(After(OneShot(m), Asks(m, k)).outstanding) == k * m
  {
    if k == 0 {
      assert Asks(m, 0) == [];
    } else {
      AllApproved(m, k - 1);
      assert Asks(m, k)[..k - 1] == Asks(m, k - 1);
      OneMore(m, After(OneShot(m), Asks(m, k - 1)));
      MulSucc(k - 1, m);
    }
  }

  /** For every `k` and every allowed amount some run reaches the bound exactly. */
  lemma BoundIsAttained(m: int64, k: nat)
    requires 0 < m <= MAX_TX_VALUE && k >= 1 && (k + 1) * m < TWO63
    ensures RoomFor(OneShot(m), k) && AtMostOutstanding(OneShot(m), Asks(m, k), k)
    ensures Committed(After(OneShot(m), Asks(m, k))) == Bound(OneShot(m), k)
  {
    AllApproved(m, k);
    AsksOutstanding(m, k);
    RoomForOneShot(m, k);
  }

  lemma AsksOutstanding(m: int64, k: nat)
    requires 0 < m <= MAX_TX_VALUE
    ensures AtMostOutstanding(OneShot(m), Asks(m, k), k)
  {
    forall i | 0 <= i <= k ensures |After(OneShot(m), Asks(m, k)[..i]).outstanding| <= k {
      AllApproved(m, i);
      assert Asks(m, k)[..i] == Asks(m, i);
    }
  }

  // ---------- The window bounds are attained ----------

  function Same(m: int64, k: nat): seq<int64> {
    seq(k, _ => m)
  }

  function Books(k: nat): seq<Event> {
    seq(k, _ => Book(0, 0, ""))
  }

  lemma {:induction false} AllOutstanding(m: int64, k: nat)
    requires 0 < m <= MAX_TX_VALUE
    ensures After(OneShot(m), Asks(m, k)) == Shared(FwState([], 0), Same(m, k)) && History(OneShot(m), Asks(m, k)) == []
  {
    if k == 0 {
      assert Asks(m, 0) == [];
    } else {
      AllOutstanding(m, k - 1);
      assert Asks(m, k)[..k - 1] == Asks(m, k - 1);
      OneMore(m, After(OneShot(m), Asks(m, k - 1)));
      assert Same(m, k - 1) + [m] == Same(m, k);
    }
  }

  lemma SameStep(m: int64, k: nat)
    ensures Same(m, k + 1) == Same(m, k) + [m]
  {
  }

  /** `k` approvals, then `j` records. */
  function AsksThenBooks(m: int64, k: nat, j: nat): seq<Event> {
    Asks(m, k) + Books(j)
  }

  lemma BookStep(m: int64, k: nat, j: nat)
    ensures AsksThenBooks(m, k, 0) == Asks(m, k)
    ensures AsksThenBooks(m, k, j + 1) == AsksThenBooks(m, k, j) + [Book(0, 0, "")]
  {
  }

  lemma {:induction false} BookedInTurn(m: int64, k: nat, j: nat, n: nat)
    requires 0 < m <= MAX_TX_VALUE && k == j + n
    ensures After(OneShot(m), AsksThenBooks(m, k, j)).outstanding == Same(m, n)
    ensures History(OneShot(m), AsksThenBooks(m, k, j)) == EntriesOf(Same(m, j))
    decreases j
  {
    if j == 0 {
      BookStep(m, k, 0);
      AllOutstanding(m, k);
      assert EntriesOf(Same(m, 0)) == [];
    } else {
      BookedInTurn(m, k, j - 1, n + 1);
      BookOneMore(m, k, j - 1, n);
    }
  }

  lemma BookOneMore(m: int64, k: nat, j: nat, n: nat)
    requires After(OneShot(m), AsksThenBooks(m, k, j)).outstanding == Same(m, n + 1)
    requires History(OneShot(m), AsksThenBooks(m, k, j)) == EntriesOf(Same(m, j))
    ensures After(OneShot(m), AsksThenBooks(m, k, j + 1)).outstanding == Same(m, n)
    ensures History(OneShot(m), AsksThenBooks(m, k, j + 1)) == EntriesOf(Same(m, j + 1))
  {
    BookStep(m, k, j);
    OneBooked(OneShot(m), AsksThenBooks(m, k, j), m, n);
    SameStep(m, j);
    AppendAmount(Same(m, j), m);
  }

  lemma OneBooked(p: Policy, events: seq<Event>, m: int64, n: nat)
    requires After(p, events).outstanding == Same(m, n + 1)
    ensures After(p, events + [Book(0, 0, "")]).outstanding == Same(m, n)
    ensures History(p, events + [Book(0, 0, "")]) == History(p, events) + [Entry(0, m, "")]
  {
    assert (events + [Book(0, 0, "")])[..|events|] == events;
    var all := Same(m, n + 1);
    assert all[..0] + all[1..] == Same(m, n);
  }

  lemma {:induction false} SumOfSame(m: int64, k: nat)
    ensures Sum(Same(m, k)) == k * m
  {
    if k > 0 {
      SumOfSame(m, k - 1);
      assert Same(m, k)[..k - 1] == Same(m, k - 1);
      MulSucc(k - 1, m);
    }
  }

  lemma TurnPrefix(m: int64, k: nat, i: nat)
    requires i <= 2 * k
    ensures i <= k ==> AsksThenBooks(m, k, k)[..i] == Asks(m, i)
    ensures i > k ==> AsksThenBooks(m, k, k)[..i] == AsksThenBooks(m, k, i - k)
  {
  }

  lemma OutstandingAt(m: int64, k: nat, i: nat)
    requires 0 < m <= MAX_TX_VALUE && i <= 2 * k
    ensures |After(OneShot(m), AsksThenBooks(m, k, k)[..i]).outstanding| <= k
  {
    TurnPrefix(m, k, i);
    if i <= k {
      AllApproved(m, i);
    } else {
      BookedInTurn(m, k, i - k, 2 * k - i);
    }
  }

  lemma BooksOutstanding(m: int64, k: nat)
    requires 0 < m <= MAX_TX_VALUE
    ensures AtMostOutstanding(OneShot(m), AsksThenBooks(m, k, k), k) && Timed(AsksThenBooks(m, k, k))
  {
    var events := AsksThenBooks(m, k, k);
    forall i | 0 <= i <= |events| ensures |After(OneShot(m), events[..i]).outstanding| <= k {
      OutstandingAt(m, k, i);
    }
  }

  lemma RoomForOneShot(m: int64, k: nat)
    requires 0 < m <= MAX_TX_VALUE && k >= 1 && (k + 1) * m < TWO63
    ensures RoomFor(OneShot(m), k) && WindowRoom(OneShot(m), k)
    ensures Bound(OneShot(m), k) == RollingBound(OneShot(m), k) == k * m
  {
    MulSucc(k - 1, m);
    MulSucc(k, m);
  }

  /** For every `k` and every allowed amount, `k` approvals followed by their `k` records, at one
      instant and with never more than `k` outstanding, fill a day and an hour exactly to the
      bounds. */
  lemma WindowBoundsAttained(m: int64, k: nat)
    requires 0 < m <= MAX_TX_VALUE && k >= 1 && (k + 1) * m < TWO63
    ensures var p, events := OneShot(m), AsksThenBooks(m, k, k);
            WindowRoom(p, k) && AtMostOutstanding(p, events, k) && Timed(events) &&
            SumWithin(History(p, events), -DAY, 0) == RollingBound(p, k) &&
            CountWithin(History(p, events), -HOUR, 0) == RateBound(p, k)
  {
    RoomForOneShot(m, k);
    BooksOutstanding(m, k);
    BookedInTurn(m, k, k, 0);
    EntriesAtOnce(Same(m, k));
    AfterIsWithin(EntriesOf(Same(m, k)), -HOUR, 0);
    SumOfSame(m, k);
  }
}
