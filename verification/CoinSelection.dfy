/** UTXOSet.FindSpendableOutputs (internal/core/utxo_set.go): which stored outputs are chosen. */
module CoinSelection {
  import opened Prelude
  import opened Ledger
  import opened Utxo

  /** An output of the index, named as the index names it: by its position in the stored list. */
  datatype Pick = Pick(txid: Bytes, position: int, out: TxOutput)

  /** Escrow outputs are skipped; ZKCP outputs are not. */
  predicate Eligible(out: TxOutput, keyHash: Bytes) {
    out.scriptType != ESCROW && out.pubKeyHash == keyHash
  }

  function EligibleIn(id: Bytes, outs: Outputs, keyHash: Bytes): seq<Pick> {
    if outs == [] then []
    else
      var n := |outs| - 1;
      EligibleIn(id, outs[..n], keyHash) + if Eligible(outs[n], keyHash) then [Pick(id, n, outs[n])] else []
  }

  /** Every eligible output in scanning order; `order` is the order in which the store yields keys. */
  function AllEligible(table: StoredTable, order: seq<Bytes>, keyHash: Bytes): seq<Pick>
    requires forall i :: 0 <= i < |order| ==> order[i] in table
  {
    if order == [] then []
    else
      var n := |order| - 1;
      AllEligible(table, order[..n], keyHash) + EligibleIn(order[n], table[order[n]], keyHash)
  }

  lemma {:induction false} EligibleInExactly(id: Bytes, outs: Outputs, keyHash: Bytes, p: Pick)
    ensures p in EligibleIn(id, outs, keyHash) <==>
            p.txid == id && 0 <= p.position < |outs| && p.out == outs[p.position] &&
            p.out.pubKeyHash == keyHash && p.out.scriptType != ESCROW
  {
    if outs != [] {
      EligibleInExactly(id, outs[..|outs| - 1], keyHash, p);
    }
  }

  /** The candidates are exactly the stored outputs that pay to the key hash and are no escrow. */
  lemma {:induction false} EligibleExactly(table: StoredTable, order: seq<Bytes>, keyHash: Bytes, p: Pick)
    requires forall i :: 0 <= i < |order| ==> order[i] in table
    ensures p in AllEligible(table, order, keyHash) <==>
            p.txid in order && 0 <= p.position < |table[p.txid]| && p.out == table[p.txid][p.position] &&
            p.out.pubKeyHash == keyHash && p.out.scriptType != ESCROW
  {
    if order != [] {
      var n := |order| - 1;
      EligibleExactly(table, order[..n], keyHash, p);
      EligibleInExactly(order[n], table[order[n]], keyHash, p);
      assert p.txid in order <==> p.txid in order[..n] || p.txid == order[n];
    }
  }

  function Values(picks: seq<Pick>): (vs: seq<int>)
    ensures |vs| == |picks|
    ensures forall i :: 0 <= i < |picks| ==> vs[i] == picks[i].out.value
  {
    seq(|picks|, i requires 0 <= i < |picks| => picks[i].out.value)
  }

  /** The running total, in 64-bit arithmetic. */
  function Accumulated(picks: seq<Pick>): int64 {
    Wrap64(Sum(Values(picks)))
  }

  lemma AccumulatedStep(picks: seq<Pick>, p: Pick)
    ensures Accumulated(picks + [p]) == Wrap64(Accumulated(picks) + p.out.value)
  {
    assert Values(picks + [p])[..|picks|] == Values(picks);
    WrapAbsorbs(Sum(Values(picks)), p.out.value);
  }

  /** `unspentOutputs[txID] = append(unspentOutputs[txID], outIdx)` over a list of picks. */
  function Grouped(picks: seq<Pick>): map<Bytes, seq<int>> {
    if picks == [] then map[]
    else
      var last := picks[|picks| - 1];
      var g := Grouped(picks[..|picks| - 1]);
      g[last.txid := (if last.txid in g then g[last.txid] else []) + [last.position]]
  }

  /** The first picks of the scan, up to the first point where the total reaches the amount. */
  predicate ShortestPrefix(eligible: seq<Pick>, amount: int, n: nat) {
    n <= |eligible| &&
    (forall m :: 0 <= m < n ==> Accumulated(eligible[..m]) < amount) &&
    (n < |eligible| ==> Accumulated(eligible[..n]) >= amount)
  }

  /** The length of that prefix. */
  function Selection(eligible: seq<Pick>, amount: int): (n: nat)
    ensures ShortestPrefix(eligible, amount, n)
  {
    SelectionFrom(eligible, amount, 0)
  }

  function SelectionFrom(eligible: seq<Pick>, amount: int, k: nat): (n: nat)
    requires k <= |eligible| && forall m :: 0 <= m < k ==> Accumulated(eligible[..m]) < amount
    ensures ShortestPrefix(eligible, amount, n)
    decreases |eligible| - k
  {
    if k == |eligible| || Accumulated(eligible[..k]) >= amount then k else SelectionFrom(eligible, amount, k + 1)
  }

  lemma SelectionIsUnique(eligible: seq<Pick>, amount: int, n: nat)
    requires ShortestPrefix(eligible, amount, n)
    ensures n == Selection(eligible, amount)
  {
  }

  /** The outputs FindSpendableOutputs chooses. */
  function Selected(table: StoredTable, order: seq<Bytes>, keyHash: Bytes, amount: int): seq<Pick>
    requires forall i :: 0 <= i < |order| ==> order[i] in table
  {
    var all := AllEligible(table, order, keyHash);
    all[..Selection(all, amount)]
  }

  /** Only the wallet's own outputs are chosen, and never an escrow; when the total stays short of the
      amount, every output that could have been chosen was. */
  lemma SelectedIsOwned(table: StoredTable, order: seq<Bytes>, keyHash: Bytes, amount: int, p: Pick)
    requires forall i :: 0 <= i < |order| ==> order[i] in table
    ensures var picks := Selected(table, order, keyHash, amount);
            var candidate := p.txid in order && 0 <= p.position < |table[p.txid]| &&
                             p.out == table[p.txid][p.position] && p.out.pubKeyHash == keyHash &&
                             p.out.scriptType != ESCROW;
            (p in picks ==> candidate) && (Accumulated(picks) < amount && candidate ==> p in picks)
  {
    EligibleExactly(table, order, keyHash, p);
    var all := AllEligible(table, order, keyHash);
    assert all[..|all|] == all;
  }

  lemma GroupedStep(picks: seq<Pick>, p: Pick)
    ensures var g := Grouped(picks);
            Grouped(picks + [p]) == g[p.txid := (if p.txid in g then g[p.txid] else []) + [p.position]]
  {
    assert (picks + [p])[..|picks|] == picks;
  }

  lemma EligibleStep(id: Bytes, outs: Outputs, keyHash: Bytes, k: nat)
    requires k < |outs|
    ensures EligibleIn(id, outs[..k + 1], keyHash) ==
            EligibleIn(id, outs[..k], keyHash) + if Eligible(outs[k], keyHash) then [Pick(id, k, outs[k])] else []
  {
    assert outs[..k + 1][..k] == outs[..k];
  }

  /** The state of the scan: everything seen so far is `seen`, and the chosen ones are its
      shortest sufficient prefix. */
  predicate ScanState(seen: seq<Pick>, n: nat, amount: int, acc: int64, chosen: map<Bytes, seq<int>>) {
    n <= |seen| && ShortestPrefix(seen, amount, n) && acc == Accumulated(seen[..n]) && chosen == Grouped(seen[..n])
  }

  lemma Seen(seen: seq<Pick>, n: nat, amount: int, acc: int64, chosen: map<Bytes, seq<int>>, p: Pick)
    requires ScanState(seen, n, amount, acc, chosen)
    ensures acc >= amount ==> ScanState(seen + [p], n, amount, acc, chosen)
    ensures acc < amount ==> n == |seen|
    ensures acc < amount ==>
              ScanState(seen + [p], n + 1, amount, Wrap64(acc + p.out.value),
                        chosen[p.txid := (if p.txid in chosen then chosen[p.txid] else []) + [p.position]])
  {
    var longer := seen + [p];
    assert forall m :: 0 <= m <= |seen| ==> longer[..m] == seen[..m];
    if acc < amount {
      assert seen[..n] == seen;
      assert longer[..n + 1] == longer;
      AccumulatedStep(seen, p);
      GroupedStep(seen, p);
    }
  }

  /** The inner loop over one stored list. */
  method ScanOutputs(id: Bytes, outs: Outputs, keyHash: Bytes, amount: int64, acc: int64, chosen: map<Bytes, seq<int>>,
                     ghost seen: seq<Pick>, ghost n: nat)
    returns (acc': int64, chosen': map<Bytes, seq<int>>, ghost n': nat)
    requires ScanState(seen, n, amount, acc, chosen)
    ensures ScanState(seen + EligibleIn(id, outs, keyHash), n', amount, acc', chosen')
  {
    acc', chosen', n' := acc, chosen, n;
    ghost var now := seen;
    for outIdx := 0 to |outs|
      invariant now == seen + EligibleIn(id, outs[..outIdx], keyHash)
      invariant ScanState(now, n', amount, acc', chosen')
    {
      EligibleStep(id, outs, keyHash, outIdx);
      if Eligible(outs[outIdx], keyHash) {
        acc', chosen', n' := Take(id, outIdx, outs[outIdx], amount, acc', chosen', now, n');
        now := now + [Pick(id, outIdx, outs[outIdx])];
      }
    }
    assert outs[..|outs|] == outs;
  }

  /** An eligible output is taken while the total is short of the amount. */
  method Take(id: Bytes, outIdx: nat, out: TxOutput, amount: int64, acc: int64, chosen: map<Bytes, seq<int>>,
              ghost seen: seq<Pick>, ghost n: nat)
    returns (acc': int64, chosen': map<Bytes, seq<int>>, ghost n': nat)
    requires ScanState(seen, n, amount, acc, chosen)
    ensures ScanState(seen + [Pick(id, outIdx, out)], n', amount, acc', chosen')
  {
    acc', chosen', n' := acc, chosen, n;
    Seen(seen, n, amount, acc, chosen, Pick(id, outIdx, out));
    if acc < amount {
      acc' := Wrap64(acc + out.value);
      chosen' := chosen[id := (if id in chosen then chosen[id] else []) + [outIdx]];
      n' := n + 1;
    }
  }

  lemma {:induction false} EligiblePrefix(table: StoredTable, order: seq<Bytes>, keyHash: Bytes, k: nat)
    requires forall i :: 0 <= i < |order| ==> order[i] in table
    requires k <= |order|
    ensures AllEligible(table, order[..k], keyHash) <= AllEligible(table, order, keyHash)
  {
    if k < |order| {
      EligiblePrefix(table, order[..|order| - 1], keyHash, k);
      assert order[..|order| - 1][..k] == order[..k];
    } else {
      assert order[..k] == order;
    }
  }

  lemma EnoughIsFinal(short: seq<Pick>, all: seq<Pick>, n: nat, amount: int)
    requires short <= all && ShortestPrefix(short, amount, n) && Accumulated(short[..n]) >= amount
    ensures ShortestPrefix(all, amount, n) && all[..n] == short[..n]
  {
    assert all[..n] == short[..n];
    assert forall m :: 0 <= m < n ==> all[..m] == short[..m];
  }

  /** utxo_set.go FindSpendableOutputs: the chosen outputs are the shortest prefix of the
      eligible ones whose total reaches the amount, or all of them when none does. */
  method FindSpendableOutputs(table: StoredTable, order: seq<Bytes>, keyHash: Bytes, amount: int64)
    returns (acc: int64, chosen: map<Bytes, seq<int>>)
    requires forall i :: 0 <= i < |order| ==> order[i] in table
    ensures var picks := Selected(table, order, keyHash, amount);
            acc == Accumulated(picks) && chosen == Grouped(picks)
  {
    acc, chosen := 0, map[];
    ghost var n: nat := 0;
    ghost var all := AllEligible(table, order, keyHash);
    for i := 0 to |order|
      invariant ScanState(AllEligible(table, order[..i], keyHash), n, amount, acc, chosen)
    {
      ghost var seen := AllEligible(table, order[..i], keyHash);
      assert order[..i + 1][..i] == order[..i];
      acc, chosen, n := ScanOutputs(order[i], table[order[i]], keyHash, amount, acc, chosen, seen, n);
      if acc >= amount {
        EligiblePrefix(table, order, keyHash, i + 1);
        EnoughIsFinal(AllEligible(table, order[..i + 1], keyHash), all, n, amount);
        SelectionIsUnique(all, amount, n);
        return;
      }
    }
    assert order[..|order|] == order;
    SelectionIsUnique(all, amount, n);
  }

  /** With values and amount within limits the total is exact: it reaches the amount with the
      last choice necessary, or every eligible output was chosen and it does not. */
  lemma SelectionIsMinimal(eligible: seq<Pick>, amount: int)
    requires forall i :: 0 <= i < |eligible| ==> 0 < eligible[i].out.value
    requires amount < TWO63 && Sum(Values(eligible)) < TWO63
    ensures var n := Selection(eligible, amount);
            Accumulated(eligible[..n]) == Sum(Values(eligible[..n])) &&
            (Accumulated(eligible[..n]) < amount ==> n == |eligible|) &&
            (n > 0 ==> Sum(Values(eligible[..n - 1])) < amount)
  {
    var n := Selection(eligible, amount);
    PrefixSum(eligible, n);
    if n > 0 {
      PrefixSum(eligible, n - 1);
    }
  }

  lemma {:induction false} PrefixSum(picks: seq<Pick>, n: nat)
    requires n <= |picks| && forall i :: 0 <= i < |picks| ==> 0 < picks[i].out.value
    ensures 0 <= Sum(Values(picks[..n])) <= Sum(Values(picks))
    decreases |picks|
  {
    if picks == [] {
      assert picks[..n] == picks;
    } else {
      var k := |picks| - 1;
      assert Values(picks)[..k] == Values(picks[..k]);
      if n <= k {
        PrefixSum(picks[..k], n);
        assert picks[..k][..n] == picks[..n];
      } else {
        PrefixSum(picks[..k], k);
        assert picks[..n] == picks;
      }
    }
  }
}
