/** NewUTXOTransaction and NewEscrowTransaction of internal/core/transaction.go, and
    BuildZKCPTransaction of internal/marketplace/escrow_manager.go: three builders that differ
    only in their first output. */
module Spending {
  import opened Prelude
  import opened Ledger
  import opened Transactions
  import opened Signing
  import opened Wallets
  import opened Chain
  import opened Utxo
  import opened UtxoUpdate
  import opened CoinSelection
  import opened Builders
  import MinedChain

  function InputFor(pubKey: Bytes, id: Bytes, position: int): TxInput {
    TxInput(id, position, [], pubKey, [], false)
  }

  function InputsOf(pubKey: Bytes, picks: seq<Pick>): (r: seq<TxInput>)
    ensures |r| == |picks|
    ensures forall i :: 0 <= i < |picks| ==> r[i] == InputFor(pubKey, picks[i].txid, picks[i].position)
  {
    seq(|picks|, i requires 0 <= i < |picks| => InputFor(pubKey, picks[i].txid, picks[i].position))
  }

  predicate InGroup(chosen: map<Bytes, seq<int>>, id: Bytes, v: int) {
    id in chosen && v in chosen[id]
  }

  /** The two nested loops over the chosen map, whose iteration order is arbitrary. */
  method BuildInputs(chosen: map<Bytes, seq<int>>, pubKey: Bytes) returns (inputs: seq<TxInput>)
    requires forall id :: id in chosen ==> Distinct(chosen[id])
    ensures Distinct(inputs)
    ensures forall x :: x in inputs <==> x == InputFor(pubKey, x.txid, x.vout) && InGroup(chosen, x.txid, x.vout)
  {
    inputs := [];
    var keys := chosen.Keys;
    while keys != {}
      invariant keys <= chosen.Keys && Distinct(inputs)
      invariant forall x :: x in inputs <==>
                  x == InputFor(pubKey, x.txid, x.vout) && InGroup(chosen, x.txid, x.vout) && x.txid !in keys
      decreases keys
    {
      var id :| id in keys;
      inputs := AppendGroup(inputs, id, chosen[id], pubKey);
      keys := keys - {id};
    }
  }

  method AppendGroup(inputs: seq<TxInput>, id: Bytes, outs: seq<int>, pubKey: Bytes) returns (r: seq<TxInput>)
    requires Distinct(inputs) && Distinct(outs)
    requires forall x :: x in inputs ==> x.txid != id
    ensures Distinct(r)
    ensures forall x :: x in r <==> x in inputs || (x == InputFor(pubKey, id, x.vout) && x.vout in outs)
  {
    r := inputs;
    for i := 0 to |outs|
      invariant Distinct(r)
      invariant forall x :: x in r <==> x in inputs || (x == InputFor(pubKey, id, x.vout) && x.vout in outs[..i])
    {
      ghost var before := r;
      var input := InputFor(pubKey, id, outs[i]);
      assert input !in before by {
        assert forall j :: 0 <= j < i ==> outs[..i][j] != outs[i];
      }
      r := r + [input];
      assert outs[..i + 1] == outs[..i] + [outs[i]];
    }
    assert outs[..|outs|] == outs;
  }

  // ---------- Grouping loses nothing ----------

  predicate DistinctPicks(picks: seq<Pick>) {
    forall i, j :: 0 <= i < j < |picks| ==> picks[i].txid != picks[j].txid || picks[i].position != picks[j].position
  }

  predicate Picked(picks: seq<Pick>, id: Bytes, v: int) {
    exists i :: 0 <= i < |picks| && picks[i].txid == id && picks[i].position == v
  }

  lemma PickedLast(picks: seq<Pick>, id: Bytes, v: int)
    requires picks != []
    ensures Picked(picks, id, v) <==>
            Picked(picks[..|picks| - 1], id, v) || (picks[|picks| - 1].txid == id && picks[|picks| - 1].position == v)
  {
    var n := |picks| - 1;
    if Picked(picks[..n], id, v) {
      var i :| 0 <= i < n && picks[..n][i].txid == id && picks[..n][i].position == v;
      assert picks[i].txid == id;
    }
    if Picked(picks, id, v) {
      var i :| 0 <= i < |picks| && picks[i].txid == id && picks[i].position == v;
      if i < n {
        assert picks[..n][i].txid == id;
      }
    }
  }

  lemma {:induction false} GroupedIsPicked(picks: seq<Pick>, id: Bytes, v: int)
    ensures InGroup(Grouped(picks), id, v) <==> Picked(picks, id, v)
  {
    if picks != [] {
      GroupedIsPicked(picks[..|picks| - 1], id, v);
      PickedLast(picks, id, v);
    }
  }

  lemma {:induction false} GroupedDistinct(picks: seq<Pick>, id: Bytes)
    requires DistinctPicks(picks) && id in Grouped(picks)
    ensures Distinct(Grouped(picks)[id])
  {
    var n := |picks| - 1;
    var front, last := picks[..n], picks[n];
    if id in Grouped(front) {
      GroupedDistinct(front, id);
      if last.txid == id {
        GroupedIsPicked(front, id, last.position);
      }
    }
  }

  lemma {:induction false} EligibleInPositions(id: Bytes, outs: Outputs, keyHash: Bytes)
    ensures DistinctPicks(EligibleIn(id, outs, keyHash))
    ensures forall i :: 0 <= i < |EligibleIn(id, outs, keyHash)| ==>
              var p := EligibleIn(id, outs, keyHash)[i];
              p.txid == id && 0 <= p.position < |outs| && p.out == outs[p.position] && Eligible(p.out, keyHash)
  {
    if outs != [] {
      var n := |outs| - 1;
      EligibleInPositions(id, outs[..n], keyHash);
      var front, all := EligibleIn(id, outs[..n], keyHash), EligibleIn(id, outs, keyHash);
      assert all == front || (Eligible(outs[n], keyHash) && all == front + [Pick(id, n, outs[n])]);
      forall i | 0 <= i < |all|
        ensures all[i].txid == id && 0 <= all[i].position <= n && all[i].out == outs[all[i].position] &&
                Eligible(all[i].out, keyHash)
      {
        if i < |front| {
          assert all[i] == front[i];
        }
      }
    }
  }

  /** The picks are distinct eligible positions of lists in `ids`. */
  predicate PicksFrom(table: StoredTable, ids: seq<Bytes>, keyHash: Bytes, picks: seq<Pick>) {
    DistinctPicks(picks) && forall i :: 0 <= i < |picks| ==> picks[i].txid in ids && PickOf(table, keyHash, picks[i])
  }

  predicate PickOf(table: StoredTable, keyHash: Bytes, p: Pick) {
    p.txid in table && 0 <= p.position < |table[p.txid]| && p.out == table[p.txid][p.position] &&
    Eligible(p.out, keyHash)
  }

  lemma PicksJoin(table: StoredTable, front: seq<Bytes>, last: Bytes, ids: seq<Bytes>, keyHash: Bytes, a: seq<Pick>,
                  b: seq<Pick>)
    requires ids == front + [last] && last !in front && PicksFrom(table, front, keyHash, a) && DistinctPicks(b)
    requires forall i :: 0 <= i < |b| ==> b[i].txid == last && PickOf(table, keyHash, b[i])
    ensures PicksFrom(table, ids, keyHash, a + b)
  {
  }

  lemma {:induction false} AllEligiblePositions(table: StoredTable, order: seq<Bytes>, keyHash: Bytes)
    requires Distinct(order) && forall i :: 0 <= i < |order| ==> order[i] in table
    ensures PicksFrom(table, order, keyHash, AllEligible(table, order, keyHash))
  {
    if order != [] {
      var n := |order| - 1;
      AllEligiblePositions(table, order[..n], keyHash);
      EligibleInPositions(order[n], table[order[n]], keyHash);
      SplitLast(order);
      PicksJoin(table, order[..n], order[n], order, keyHash, AllEligible(table, order[..n], keyHash),
                EligibleIn(order[n], table[order[n]], keyHash));
    }
  }

  // ---------- Sums do not depend on the order ----------

  lemma {:induction false} SumSameElements(prev: PrevTxs, a: seq<TxInput>, b: seq<TxInput>)
    requires Distinct(a) && Distinct(b) && forall x :: x in a <==> x in b
    ensures Sum(InputValues(prev, a)) == Sum(InputValues(prev, b))
    decreases |a|
  {
    assert b != [] ==> b[0] in a;
    if a != [] {
      var n := |a| - 1;
      assert a[n] in a;
      var j := IndexOf(b, a[n]);
      WithoutOne(a, b, j);
      SumSameElements(prev, a[..n], RemoveAt(b, j));
      SumWithout(prev, b, j);
      SumWithout(prev, a, n);
      assert RemoveAt(a, n) == a[..n];
    }
  }

  lemma IndexOf(b: seq<TxInput>, x: TxInput) returns (j: nat)
    requires x in b
    ensures j < |b| && b[j] == x
  {
    j :| j < |b| && b[j] == x;
  }

  lemma WithoutOne(a: seq<TxInput>, b: seq<TxInput>, j: nat)
    requires Distinct(a) && Distinct(b) && a != [] && (forall x :: x in a <==> x in b)
    requires j < |b| && b[j] == a[|a| - 1]
    ensures Distinct(RemoveAt(b, j))
    ensures forall x :: x in a[..|a| - 1] <==> x in RemoveAt(b, j)
  {
    var front, b' := a[..|a| - 1], RemoveAt(b, j);
    assert a == front + [a[|a| - 1]];
    assert b == b[..j] + [b[j]] + b[j + 1..];
    assert forall x :: x in b <==> x in b' || x == b[j];
    assert b[j] !in b';
    assert a[|a| - 1] !in front;
  }

  lemma SumWithout(prev: PrevTxs, b: seq<TxInput>, j: nat)
    requires j < |b|
    ensures Sum(InputValues(prev, b)) == Sum(InputValues(prev, RemoveAt(b, j))) + InputValue(prev, b[j])
  {
    var vs := InputValues(prev, b);
    SumAround(vs, j);
    assert InputValues(prev, RemoveAt(b, j)) == vs[..j] + vs[j + 1..];
  }

  // ---------- Positions that are still indices ----------

  /** The position the index gives an output is its real index exactly when neither that index
      nor a lower one of the same transaction has been spent. */
  lemma PositionIsTrueIndex(outs: Outputs, spent: set<int>, position: nat)
    requires position < |Kept(outs, spent)|
    ensures Kept(outs, spent)[position].index == position <==> forall j :: 0 <= j <= position ==> j !in spent
  {
    KeptIsExact(outs, spent);
    var ts := Kept(outs, spent);
    assert ts[position] in ts;
    if forall j :: 0 <= j <= position ==> j !in spent {
      PositionIsIndex(outs, spent, position);
    } else {
      var j :| 0 <= j <= position && j in spent;
      GapBelow(ts, j, position);
    }
  }

  /** Once output 0 is spent, every remaining output sits one position below its index. */
  lemma SpentFirstShiftsAll(outs: Outputs, position: nat)
    requires position + 1 < |outs|
    ensures position < |Kept(outs, {0})| && Kept(outs, {0})[position] == Tagged(position + 1, outs[position + 1])
  {
    var none: set<int> := {};
    assert none + {0} == {0};
    PositionIsIndex(outs, none, 0);
    UnshiftedPosition(outs, none, position + 1);
    KeptTags(outs, none);
  }

  /** No output at or below a chosen position has been spent on the chain. */
  predicate PositionsTrue(walk: seq<Transaction>, picks: seq<Pick>) {
    forall i, j :: 0 <= i < |picks| && 0 <= j <= picks[i].position ==> Outpoint(picks[i].txid, j) !in SpentBy(walk)
  }

  /** The index is the true unspent table of the chain. */
  predicate IndexIsTrue(walk: seq<Transaction>, table: StoredTable) {
    UniqueIds(walk) && table == Stored(TrueTable(walk)) && forall k :: 0 <= k < |walk| ==> walk[k].id != []
  }

  lemma PickResolves(walk: seq<Transaction>, table: StoredTable, pick: Pick)
    requires IndexIsTrue(walk, table)
    requires pick.txid in table && 0 <= pick.position < |table[pick.txid]| &&
             pick.out == table[pick.txid][pick.position]
    requires forall j :: 0 <= j <= pick.position ==> Outpoint(pick.txid, j) !in SpentBy(walk)
    ensures var found := FindTx(walk, pick.txid);
            found.Some? && found.value.id != [] && pick.position < |found.value.vout| &&
            found.value.vout[pick.position] == pick.out
  {
    var spent := SpentBy(walk);
    KeysOccur(walk, spent, pick.txid);
    var k :| 0 <= k < |walk| && walk[k].id == pick.txid;
    MinedChain.FindUnique(walk, k);
    TableWithAt(walk, spent, k);
    KeptAtPosition(walk[k].vout, Indices(spent, pick.txid), pick.position);
  }

  lemma KeptAtPosition(outs: Outputs, spent: set<int>, position: nat)
    requires position < |Strip(Kept(outs, spent))|
    requires forall j :: 0 <= j <= position ==> j !in spent
    ensures position < |outs| && Strip(Kept(outs, spent))[position] == outs[position]
  {
    var ts := Kept(outs, spent);
    PositionIsTrueIndex(outs, spent, position);
    KeptIsExact(outs, spent);
    assert ts[position] in ts;
  }

  /** Every pick comes from the index. */
  predicate FromIndex(table: StoredTable, picks: seq<Pick>) {
    forall i :: 0 <= i < |picks| ==>
      picks[i].txid in table && 0 <= picks[i].position < |table[picks[i].txid]| &&
      picks[i].out == table[picks[i].txid][picks[i].position]
  }

  /** `inputs` are the picks in some order. */
  ghost predicate Permutes(inputs: seq<TxInput>, pubKey: Bytes, picks: seq<Pick>) {
    Distinct(inputs) &&
    forall x :: x in inputs <==> x == InputFor(pubKey, x.txid, x.vout) && Picked(picks, x.txid, x.vout)
  }

  lemma InputsOfPermutes(pubKey: Bytes, picks: seq<Pick>)
    requires DistinctPicks(picks)
    ensures Permutes(InputsOf(pubKey, picks), pubKey, picks)
  {
    var r := InputsOf(pubKey, picks);
    forall x | x in r ensures Picked(picks, x.txid, x.vout) {
      var i :| 0 <= i < |r| && r[i] == x;
      assert picks[i].txid == x.txid;
    }
    forall x: TxInput | x == InputFor(pubKey, x.txid, x.vout) && Picked(picks, x.txid, x.vout) ensures x in r {
      var i :| 0 <= i < |picks| && picks[i].txid == x.txid && picks[i].position == x.vout;
      assert r[i] == x;
    }
  }

  lemma PermutedPick(inputs: seq<TxInput>, pubKey: Bytes, picks: seq<Pick>, i: nat)
    requires Permutes(inputs, pubKey, picks) && i < |picks|
    ensures InputFor(pubKey, picks[i].txid, picks[i].position) in inputs
  {
    assert Picked(picks, picks[i].txid, picks[i].position);
  }

  lemma PickOfInput(inputs: seq<TxInput>, pubKey: Bytes, picks: seq<Pick>, j: nat) returns (i: nat)
    requires Permutes(inputs, pubKey, picks) && j < |inputs|
    ensures i < |picks| && inputs[j] == InputFor(pubKey, picks[i].txid, picks[i].position)
  {
    assert inputs[j] in inputs;
    i :| i < |picks| && picks[i].txid == inputs[j].txid && picks[i].position == inputs[j].vout;
  }

  /** Each input, looked up on the chain, is the output that was picked. */
  lemma InputResolves(walk: seq<Transaction>, table: StoredTable, pubKey: Bytes, picks: seq<Pick>,
                      inputs: seq<TxInput>, i: nat)
    requires IndexIsTrue(walk, table) && FromIndex(table, picks) && PositionsTrue(walk, picks)
    requires Permutes(inputs, pubKey, picks) && i < |picks|
    ensures var prev, x := PrevFor(walk, inputs), InputFor(pubKey, picks[i].txid, picks[i].position);
            x in inputs && FindTx(walk, x.txid).Some? && Resolves(prev, x) && PrevOut(prev, x) == picks[i].out
  {
    PickResolves(walk, table, picks[i]);
    PermutedPick(inputs, pubKey, picks, i);
    var x := InputFor(pubKey, picks[i].txid, picks[i].position);
    var j :| 0 <= j < |inputs| && inputs[j] == x;
    assert FindTx(walk, inputs[j].txid).Some?;
  }

  lemma InputsResolve(walk: seq<Transaction>, table: StoredTable, pubKey: Bytes, picks: seq<Pick>, inputs: seq<TxInput>)
    requires IndexIsTrue(walk, table) && FromIndex(table, picks) && PositionsTrue(walk, picks)
    requires Permutes(inputs, pubKey, picks) && DistinctPicks(picks)
    ensures AllFound(walk, inputs) && AllResolve(PrevFor(walk, inputs), inputs)
  {
    var prev := PrevFor(walk, inputs);
    forall j | 0 <= j < |inputs| ensures FindTx(walk, inputs[j].txid).Some? && Resolves(prev, inputs[j]) {
      var i := PickOfInput(inputs, pubKey, picks, j);
      InputResolves(walk, table, pubKey, picks, inputs, i);
    }
  }

  lemma InputsWorthPicks(walk: seq<Transaction>, table: StoredTable, pubKey: Bytes, picks: seq<Pick>,
                         inputs: seq<TxInput>)
    requires IndexIsTrue(walk, table) && FromIndex(table, picks) && PositionsTrue(walk, picks)
    requires Permutes(inputs, pubKey, picks) && DistinctPicks(picks)
    ensures Sum(InputValues(PrevFor(walk, inputs), inputs)) == Sum(Values(picks))
  {
    var prev, listed := PrevFor(walk, inputs), InputsOf(pubKey, picks);
    InputsOfPermutes(pubKey, picks);
    SumSameElements(prev, inputs, listed);
    forall i | 0 <= i < |picks| ensures InputValues(prev, listed)[i] == Values(picks)[i] {
      InputResolves(walk, table, pubKey, picks, inputs, i);
    }
    assert InputValues(prev, listed) == Values(picks);
  }

  // ---------- The builders ----------

  function ChangeOutputs(c: Suite, w: Wallet, acc: int64, amount: int64): seq<TxOutput> {
    if acc > amount then [TxOutput(Wrap64(acc - amount), c.hash160(w.publicKey), P2PKH, [], 0, [])] else []
  }

  /** A draft of one of the builders: the picks as inputs, `amount` to the first output, change
      to the wallet. */
  ghost predicate IsDraft(c: Suite, w: Wallet, amount: int64, primary: TxOutput, picks: seq<Pick>, draft: Transaction) {
    amount > 0 && primary.value == amount && Accumulated(picks) >= amount &&
    Permutes(draft.vin, w.publicKey, picks) && DistinctPicks(picks) && !draft.IsCoinbase() &&
    draft.vout == [primary] + ChangeOutputs(c, w, Accumulated(picks), amount) &&
    draft == WithId(c, draft.vin, draft.vout)
  }

  /** What a builder promises: not enough funds, a panic in the first output, or the signed
      draft over the shortest sufficient selection of the wallet's own outputs. */
  ghost predicate SpendResult(c: Suite, walk: seq<Transaction>, table: StoredTable, order: seq<Bytes>, w: Wallet,
                              amount: int64, primary: Option<TxOutput>, entropy: int -> int, r: BuildResult)
    requires forall i :: 0 <= i < |order| ==> order[i] in table
  {
    var picks := Selected(table, order, c.hash160(w.publicKey), amount);
    if Accumulated(picks) < amount then r == Failed
    else if primary.None? then r == Panicked
    else
      exists draft ::
        IsDraft(c, w, amount, primary.value, picks, draft) && r == SignOutcome(c, walk, draft, w.privateKey, entropy)
  }

  /** What all three builders do around their first output `primary`, which is None where
      constructing it panics. */
  method BuildSpend(c: Suite, walk: seq<Transaction>, table: StoredTable, order: seq<Bytes>, w: Wallet, amount: int64,
                    primary: Option<TxOutput>, entropy: int -> int)
    returns (r: BuildResult)
    requires Distinct(order) && forall i :: 0 <= i < |order| ==> order[i] in table
    requires primary.Some? ==> amount > 0 && primary.value.value == amount
    ensures SpendResult(c, walk, table, order, w, amount, primary, entropy, r)
  {
    var keyHash := c.hash160(w.publicKey);
    var acc, chosen := FindSpendableOutputs(table, order, keyHash, amount);
    ghost var picks := Selected(table, order, keyHash, amount);
    PickFacts(table, order, keyHash, amount);
    if acc < amount {
      return Failed;
    }
    forall id | id in chosen ensures Distinct(chosen[id]) {
      GroupedDistinct(picks, id);
    }
    var inputs := BuildInputs(chosen, w.publicKey);
    if primary.None? {
      return Panicked;
    }
    PermutesGrouped(inputs, w.publicKey, picks);
    var outputs := BuildOutputs(c, w, acc, amount, primary.value);
    var tx := WithId(c, inputs, outputs);
    NotCoinbase(inputs, w.publicKey, picks);
    assert IsDraft(c, w, amount, primary.value, picks, tx);
    r := SignTransaction(c, walk, tx, w.privateKey, entropy);
  }

  lemma PickFacts(table: StoredTable, order: seq<Bytes>, keyHash: Bytes, amount: int)
    requires Distinct(order) && forall i :: 0 <= i < |order| ==> order[i] in table
    ensures var picks := Selected(table, order, keyHash, amount);
            FromIndex(table, picks) && DistinctPicks(picks) &&
            forall i :: 0 <= i < |picks| ==> Eligible(picks[i].out, keyHash) && picks[i].position >= 0
  {
    AllEligiblePositions(table, order, keyHash);
  }

  /** The payment output and, if anything is left over, the change. */
  method BuildOutputs(c: Suite, w: Wallet, acc: int64, amount: int64, primary: TxOutput)
    returns (outputs: seq<TxOutput>)
    requires amount > 0
    ensures outputs == [primary] + ChangeOutputs(c, w, acc, amount)
  {
    outputs := [primary];
    if acc > amount {
      WalletOutput(c, w, acc - amount);
      var change := NewTXOutput(acc - amount, GetAddress(c, w.publicKey));
      outputs := outputs + [change.value];
    }
  }

  lemma WalletOutput(c: Suite, w: Wallet, value: int64)
    requires value > 0
    ensures NewTXOutput(value, GetAddress(c, w.publicKey)) ==
            Some(TxOutput(value, c.hash160(w.publicKey), P2PKH, [], 0, []))
  {
    WalletAddress(c, w.publicKey);
  }

  lemma PermutesGrouped(inputs: seq<TxInput>, pubKey: Bytes, picks: seq<Pick>)
    requires Distinct(inputs)
    requires forall x ::
               x in inputs <==> x == InputFor(pubKey, x.txid, x.vout) && InGroup(Grouped(picks), x.txid, x.vout)
    ensures Permutes(inputs, pubKey, picks)
  {
    forall x: TxInput ensures InGroup(Grouped(picks), x.txid, x.vout) <==> Picked(picks, x.txid, x.vout) {
      GroupedIsPicked(picks, x.txid, x.vout);
    }
  }

  lemma NotCoinbase(inputs: seq<TxInput>, pubKey: Bytes, picks: seq<Pick>)
    requires Permutes(inputs, pubKey, picks)
    requires forall i :: 0 <= i < |picks| ==> picks[i].position >= 0
    ensures forall j :: 0 <= j < |inputs| ==> inputs[j].vout >= 0
  {
    forall j | 0 <= j < |inputs| ensures inputs[j].vout >= 0 {
      var i := PickOfInput(inputs, pubKey, picks, j);
    }
  }

  /** transaction.go NewUTXOTransaction. */
  method NewUTXOTransaction(c: Suite, walk: seq<Transaction>, table: StoredTable, order: seq<Bytes>, w: Wallet,
                            to: Bytes, amount: int64, entropy: int -> int)
    returns (r: BuildResult)
    requires Distinct(order) && forall i :: 0 <= i < |order| ==> order[i] in table
    ensures SpendResult(c, walk, table, order, w, amount, NewTXOutput(amount, to), entropy, r)
  {
    r := BuildSpend(c, walk, table, order, w, amount, NewTXOutput(amount, to), entropy);
  }

  /** transaction.go NewEscrowTransaction. */
  method NewEscrowTransaction(c: Suite, walk: seq<Transaction>, table: StoredTable, order: seq<Bytes>, buyer: Wallet,
                              seller: Bytes, amount: int64, dataHash: Bytes, timeout: int64, entropy: int -> int)
    returns (r: BuildResult)
    requires Distinct(order) && forall i :: 0 <= i < |order| ==> order[i] in table
    ensures var escrow := NewEscrowOutput(amount, seller, GetAddress(c, buyer.publicKey), dataHash, timeout);
            SpendResult(c, walk, table, order, buyer, amount, escrow, entropy, r)
  {
    var escrow := NewEscrowOutput(amount, seller, GetAddress(c, buyer.publicKey), dataHash, timeout);
    r := BuildSpend(c, walk, table, order, buyer, amount, escrow, entropy);
  }

  /** escrow_manager.go BuildZKCPTransaction, which first validates the seller's address. */
  method BuildZKCPTransaction(c: Suite, walk: seq<Transaction>, table: StoredTable, order: seq<Bytes>, buyer: Wallet,
                              seller: Bytes, amount: int64, hashLock: Bytes, timeout: int64, entropy: int -> int)
    returns (r: BuildResult)
    requires Distinct(order) && forall i :: 0 <= i < |order| ==> order[i] in table
    ensures var zkcp := NewZKCPOutput(amount, seller, GetAddress(c, buyer.publicKey), hashLock, timeout);
            if !ValidateAddress(c, seller) then r == Failed
            else SpendResult(c, walk, table, order, buyer, amount, zkcp, entropy, r)
  {
    if !ValidateAddress(c, seller) {
      return Failed;
    }
    var zkcp := NewZKCPOutput(amount, seller, GetAddress(c, buyer.publicKey), hashLock, timeout);
    r := BuildSpend(c, walk, table, order, buyer, amount, zkcp, entropy);
  }

  lemma DraftOutputs(c: Suite, w: Wallet, amount: int64, primary: TxOutput, picks: seq<Pick>, draft: Transaction)
    requires IsDraft(c, w, amount, primary, picks, draft)
    ensures TotalValue(draft.vout) == Accumulated(picks)
    ensures forall i :: 0 <= i < |draft.vout| ==> draft.vout[i].value > 0
  {
    var vs := OutputValues(draft.vout);
    var first := vs[..1];
    assert first[..0] == [] && Sum(first) == amount;
    if Accumulated(picks) > amount {
      assert vs[..|vs| - 1] == first;
    } else {
      assert vs == first;
    }
  }

  /** When no output at or below a chosen position is spent, the inputs resolve on the chain to
      exactly the selected total and the outputs add up to exactly the same. */
  lemma SpendBalances(c: Suite, walk: seq<Transaction>, table: StoredTable, w: Wallet, amount: int64, primary: TxOutput,
                      picks: seq<Pick>, draft: Transaction)
    requires IndexIsTrue(walk, table) && FromIndex(table, picks) && PositionsTrue(walk, picks)
    requires IsDraft(c, w, amount, primary, picks, draft)
    requires Sum(Values(picks)) < TWO63 && Sum(Values(picks)) >= 0
    ensures AllFound(walk, draft.vin) && AllResolve(PrevFor(walk, draft.vin), draft.vin)
    ensures InputTotal(PrevFor(walk, draft.vin), draft) == Accumulated(picks) == TotalValue(draft.vout)
  {
    InputsResolve(walk, table, w.publicKey, picks, draft.vin);
    InputsWorthPicks(walk, table, w.publicKey, picks, draft.vin);
    DraftOutputs(c, w, amount, primary, picks, draft);
  }

  /** The same transaction, signed, is accepted at every height exactly when no chosen output is
      a ZKCP contract that the empty witness does not open. */
  lemma SpendAccepted(c: Suite, walk: seq<Transaction>, table: StoredTable, w: Wallet, amount: int64, primary: TxOutput,
                      picks: seq<Pick>, draft: Transaction, entropy: int -> int, height: int)
    requires c.SignaturesVerify() && OwnsItsKey(c, w)
    requires IndexIsTrue(walk, table) && FromIndex(table, picks) && PositionsTrue(walk, picks)
    requires IsDraft(c, w, amount, primary, picks, draft)
    requires Sum(Values(picks)) < TWO63 && Sum(Values(picks)) >= 0
    requires forall i :: 0 <= i < |picks| ==> Eligible(picks[i].out, c.hash160(w.publicKey))
    ensures AllResolve(PrevFor(walk, draft.vin), draft.vin)
    ensures VerifyVerdict(c, SignedTx(c, draft, PrevFor(walk, draft.vin), w.privateKey, entropy),
                          PrevFor(walk, draft.vin), height).Accepted? <==>
            forall i :: 0 <= i < |picks| ==> NeedsNoWitness(c, picks[i].out)
  {
    SpendBalances(c, walk, table, w, amount, primary, picks, draft);
    DraftOutputs(c, w, amount, primary, picks, draft);
    var prev := PrevFor(walk, draft.vin);
    forall j | 0 <= j < |draft.vin| ensures draft.vin[j].pubKey == c.publicKey(w.privateKey) {
      var i := PickOfInput(draft.vin, w.publicKey, picks, j);
    }
    SignThenVerify(c, draft, prev, w.privateKey, entropy, height);
    ScriptsOfPicks(c, walk, table, w, picks, draft, height);
  }

  /** Inputs without their signatures. */
  function Unsigned(vin: seq<TxInput>): seq<TxInput> {
    seq(|vin|, j requires 0 <= j < |vin| => vin[j].(signature := []))
  }

  /** `x` is the unsigned input of a key that spends one of the picks. */
  predicate SpendsPick(x: TxInput, pubKey: Bytes, picks: seq<Pick>) {
    exists i :: 0 <= i < |picks| && x == TxInput(picks[i].txid, picks[i].position, [], pubKey, [], false)
  }

  lemma PermutesSpendsPicks(vin: seq<TxInput>, pubKey: Bytes, picks: seq<Pick>, x: TxInput)
    requires Permutes(vin, pubKey, picks)
    ensures x in vin <==> SpendsPick(x, pubKey, picks)
  {
    if SpendsPick(x, pubKey, picks) {
      var i :| 0 <= i < |picks| && x == TxInput(picks[i].txid, picks[i].position, [], pubKey, [], false);
      assert Picked(picks, x.txid, x.vout);
    }
  }

  lemma UnsignedAgain(c: Suite, draft: Transaction, prev: PrevTxs, key: PrivateKey, entropy: int -> int)
    requires AllResolve(prev, draft.vin) && forall j :: 0 <= j < |draft.vin| ==> draft.vin[j].signature == []
    ensures Unsigned(SignedTx(c, draft, prev, key, entropy).vin) == draft.vin
  {
  }

  /** What a built spend says: it pays the first output and the exact change back to the wallet's own
      key; every input names a chosen output, none twice, and every chosen output is named; and
      the ID is the hash of the transaction before it was signed. */
  lemma BuiltSpends(c: Suite, walk: seq<Transaction>, table: StoredTable, order: seq<Bytes>, w: Wallet,
                    amount: int64, primary: TxOutput, picks: seq<Pick>, entropy: int -> int, r: BuildResult)
    requires Distinct(order) && forall i :: 0 <= i < |order| ==> order[i] in table
    requires picks == Selected(table, order, c.hash160(w.publicKey), amount)
    requires SpendResult(c, walk, table, order, w, amount, Some(primary), entropy, r) && r.Built?
    ensures Accumulated(picks) >= amount
    ensures var change := Accumulated(picks) - amount;
            r.tx.vout ==
            [primary] + if change == 0 then [] else [TxOutput(change, c.hash160(w.publicKey), P2PKH, [], 0, [])]
    ensures r.tx.id == c.sha256(c.serialize(Transaction([], Unsigned(r.tx.vin), r.tx.vout)))
    ensures Distinct(Unsigned(r.tx.vin))
    ensures forall x :: x in Unsigned(r.tx.vin) <==> SpendsPick(x, w.publicKey, picks)
  {
    var draft :|
      IsDraft(c, w, amount, primary, picks, draft) && r == SignOutcome(c, walk, draft, w.privateKey, entropy);
    forall x ensures x in draft.vin <==> SpendsPick(x, w.publicKey, picks) {
      PermutesSpendsPicks(draft.vin, w.publicKey, picks, x);
    }
    forall j | 0 <= j < |draft.vin| ensures draft.vin[j].signature == [] {
      assert draft.vin[j] in draft.vin;
    }
    UnsignedAgain(c, draft, PrevFor(walk, draft.vin), w.privateKey, entropy);
  }

  /** From end to end: with enough funds, on a true index and with no output at or below a chosen
      position spent, a builder returns a transaction that conserves value, and it is accepted at
      every height exactly when no chosen output is a ZKCP contract needing a witness. */
  lemma BuiltIsAccepted(c: Suite, walk: seq<Transaction>, table: StoredTable, order: seq<Bytes>, w: Wallet,
                        amount: int64, primary: TxOutput, picks: seq<Pick>, entropy: int -> int, r: BuildResult,
                        height: int)
    requires c.SignaturesVerify() && OwnsItsKey(c, w)
    requires Distinct(order) && forall i :: 0 <= i < |order| ==> order[i] in table
    requires picks == Selected(table, order, c.hash160(w.publicKey), amount)
    requires SpendResult(c, walk, table, order, w, amount, Some(primary), entropy, r)
    requires IndexIsTrue(walk, table) && PositionsTrue(walk, picks)
    requires amount <= Accumulated(picks) && 0 <= Sum(Values(picks)) < TWO63
    ensures r.Built? && r.tx.vout == [primary] + ChangeOutputs(c, w, Accumulated(picks), amount)
    ensures InputTotal(PrevFor(walk, r.tx.vin), r.tx) == TotalValue(r.tx.vout)
    ensures VerifyVerdict(c, r.tx, PrevFor(walk, r.tx.vin), height).Accepted? <==>
            forall i :: 0 <= i < |picks| ==> NeedsNoWitness(c, picks[i].out)
  {
    PickFacts(table, order, c.hash160(w.publicKey), amount);
    var draft :|
      IsDraft(c, w, amount, primary, picks, draft) && r == SignOutcome(c, walk, draft, w.privateKey, entropy);
    SpendBalances(c, walk, table, w, amount, primary, picks, draft);
    SpendAccepted(c, walk, table, w, amount, primary, picks, draft, entropy, height);
    SignedDraft(c, walk, draft, w.privateKey, entropy);
  }

  /** A draft that resolves is signed, and the signatures change neither its previous
      transactions nor its total. */
  lemma SignedDraft(c: Suite, walk: seq<Transaction>, draft: Transaction, key: PrivateKey, entropy: int -> int)
    requires AllFound(walk, draft.vin) && AllResolve(PrevFor(walk, draft.vin), draft.vin) && !draft.IsCoinbase()
    ensures var prev := PrevFor(walk, draft.vin);
            var tx := SignedTx(c, draft, prev, key, entropy);
            SignOutcome(c, walk, draft, key, entropy) == Built(tx) && PrevFor(walk, tx.vin) == prev &&
            InputTotal(prev, tx) == InputTotal(prev, draft)
  {
    var prev := PrevFor(walk, draft.vin);
    SameTxids(walk, draft.vin, SignedTx(c, draft, prev, key, entropy).vin);
    SignedValues(c, draft, prev, key, entropy);
    ResolvedIsSigned(c, walk, draft, key, entropy);
  }

  lemma ResolvedIsSigned(c: Suite, walk: seq<Transaction>, draft: Transaction, key: PrivateKey, entropy: int -> int)
    requires AllFound(walk, draft.vin) && AllResolve(PrevFor(walk, draft.vin), draft.vin) && !draft.IsCoinbase()
    ensures SignOutcome(c, walk, draft, key, entropy) ==
            Built(SignedTx(c, draft, PrevFor(walk, draft.vin), key, entropy))
  {
    var prev := PrevFor(walk, draft.vin);
    assert forall i :: 0 <= i < |draft.vin| ==> Resolves(prev, draft.vin[i]) ==> Known(prev, draft.vin[i]);
  }

  lemma SignedValues(c: Suite, draft: Transaction, prev: PrevTxs, key: PrivateKey, entropy: int -> int)
    requires AllResolve(prev, draft.vin)
    ensures InputValues(prev, SignedTx(c, draft, prev, key, entropy).vin) == InputValues(prev, draft.vin)
  {
  }

  /** The shortfall is reached: with a true index, where the scan comes first to an unspent ZKCP
      output of the wallet that heads its transaction, it selects that output for every amount it
      covers, and the transaction built from it is rejected at every height, unless the lock is the
      hash of nothing. */
  lemma ZkcpIsSelectedAndRejected(c: Suite, walk: seq<Transaction>, table: StoredTable, order: seq<Bytes>, w: Wallet,
                                  tx: Transaction, amount: int64, primary: TxOutput, entropy: int -> int,
                                  r: BuildResult, height: int)
    requires c.SignaturesVerify() && OwnsItsKey(c, w) && IndexIsTrue(walk, table)
    requires tx in walk && PaysZkcp(c, w, tx, amount) && Outpoint(tx.id, 0) !in SpentBy(walk)
    requires Distinct(order) && order != [] && order[0] == tx.id && forall i :: 0 <= i < |order| ==> order[i] in table
    requires SpendResult(c, walk, table, order, w, amount, Some(primary), entropy, r)
    ensures Selected(table, order, c.hash160(w.publicKey), amount) == [Pick(tx.id, 0, tx.vout[0])]
    ensures r.Built? && !VerifyVerdict(c, r.tx, PrevFor(walk, r.tx.vin), height).Accepted?
  {
    FirstIsStored(walk, table, tx);
    FirstIsSelected(table, order, tx.id, tx.vout[0], c.hash160(w.publicKey), amount);
    SoleZkcpIsRejected(c, walk, table, order, w, Pick(tx.id, 0, tx.vout[0]), amount, primary, entropy, r, height);
  }

  lemma SoleZkcpIsRejected(c: Suite, walk: seq<Transaction>, table: StoredTable, order: seq<Bytes>, w: Wallet,
                           pick: Pick, amount: int64, primary: TxOutput, entropy: int -> int, r: BuildResult,
                           height: int)
    requires c.SignaturesVerify() && OwnsItsKey(c, w) && IndexIsTrue(walk, table)
    requires Distinct(order) && forall i :: 0 <= i < |order| ==> order[i] in table
    requires Selected(table, order, c.hash160(w.publicKey), amount) == [pick] && 0 < amount <= pick.out.value
    requires pick.position == 0 && Outpoint(pick.txid, 0) !in SpentBy(walk) && !NeedsNoWitness(c, pick.out)
    requires SpendResult(c, walk, table, order, w, amount, Some(primary), entropy, r)
    ensures r.Built? && !VerifyVerdict(c, r.tx, PrevFor(walk, r.tx.vin), height).Accepted?
  {
    SolePick(pick);
    HeadIsTrue(walk, pick);
    BuiltIsAccepted(c, walk, table, order, w, amount, primary, [pick], entropy, r, height);
    assert [pick][0] == pick;
  }

  lemma HeadIsTrue(walk: seq<Transaction>, pick: Pick)
    requires pick.position == 0 && Outpoint(pick.txid, 0) !in SpentBy(walk)
    ensures PositionsTrue(walk, [pick])
  {
  }

  /** The first output is a ZKCP contract for the wallet, worth the amount. */
  predicate PaysZkcp(c: Suite, w: Wallet, tx: Transaction, amount: int64) {
    tx.vout != [] && 0 < amount <= tx.vout[0].value && tx.vout[0].scriptType == ZKCP &&
    tx.vout[0].pubKeyHash == c.hash160(w.publicKey) && tx.vout[0].dataHashLock != c.sha256([])
  }

  lemma FirstIsStored(walk: seq<Transaction>, table: StoredTable, tx: Transaction)
    requires IndexIsTrue(walk, table) && tx in walk && tx.vout != [] && Outpoint(tx.id, 0) !in SpentBy(walk)
    ensures tx.id in table && table[tx.id] != [] && table[tx.id][0] == tx.vout[0]
  {
    var k :| 0 <= k < |walk| && walk[k] == tx;
    var spent := Indices(SpentBy(walk), tx.id);
    TableWithAt(walk, SpentBy(walk), k);
    PositionIsIndex(tx.vout, spent, 0);
    KeptAtPosition(tx.vout, spent, 0);
  }

  lemma SolePick(pick: Pick)
    ensures Values([pick]) == [pick.out.value] && Sum(Values([pick])) == pick.out.value
  {
    assert Values([pick]) == [pick.out.value];
    SumOne(pick.out.value);
  }

  lemma {:induction false} FirstIsEligible(id: Bytes, outs: Outputs, keyHash: Bytes)
    requires outs != [] && Eligible(outs[0], keyHash)
    ensures [Pick(id, 0, outs[0])] <= EligibleIn(id, outs, keyHash)
  {
    var n := |outs| - 1;
    if n == 0 {
      assert outs[..0] == [];
    } else {
      FirstIsEligible(id, outs[..n], keyHash);
    }
  }

  /** An eligible output at the head of the first list, worth the amount, is all that is selected. */
  lemma FirstIsSelected(table: StoredTable, order: seq<Bytes>, id: Bytes, out: TxOutput, keyHash: Bytes, amount: int64)
    requires order != [] && order[0] == id && forall i :: 0 <= i < |order| ==> order[i] in table
    requires table[id] != [] && table[id][0] == out && Eligible(out, keyHash) && 0 < amount <= out.value
    ensures Selected(table, order, keyHash, amount) == [Pick(id, 0, out)]
  {
    var all := AllEligible(table, order, keyHash);
    assert order[..1][..0] == [];
    assert AllEligible(table, order[..1], keyHash) == EligibleIn(id, table[id], keyHash);
    FirstIsEligible(id, table[id], keyHash);
    EligiblePrefix(table, order, keyHash, 1);
    HeadIsEnough(all, Pick(id, 0, out), amount);
  }

  lemma HeadIsEnough(all: seq<Pick>, p: Pick, amount: int64)
    requires all != [] && all[0] == p && 0 < amount <= p.out.value
    ensures all[..Selection(all, amount)] == [p]
  {
    SolePick(p);
    assert [p][..0] == [] && [p][..1] == [p] && Values([]) == [];
    EnoughIsFinal([p], all, 1, amount);
    SelectionIsUnique(all, amount, 1);
  }

  // ---------- What a shifted position does to a payment ----------

  /** A transaction of two ordinary outputs to the wallet, the first spent and the second not. */
  predicate FirstOfTwoSpent(c: Suite, walk: seq<Transaction>, w: Wallet, tx: Transaction) {
    tx in walk && |tx.vout| == 2 && (forall i :: 0 <= i < 2 ==> Payable(c, w, tx.vout[i])) &&
    Outpoint(tx.id, 0) in SpentBy(walk) && Outpoint(tx.id, 1) !in SpentBy(walk)
  }

  predicate Payable(c: Suite, w: Wallet, out: TxOutput) {
    !IsContract(out) && out.pubKeyHash == c.hash160(w.publicKey) && out.value > 0
  }

  lemma SecondIsStored(c: Suite, walk: seq<Transaction>, table: StoredTable, w: Wallet, tx: Transaction)
    requires IndexIsTrue(walk, table) && FirstOfTwoSpent(c, walk, w, tx)
    ensures tx.id in table && table[tx.id] == [tx.vout[1]] && FindTx(walk, tx.id) == Some(tx)
  {
    var k :| 0 <= k < |walk| && walk[k] == tx;
    MinedChain.FindUnique(walk, k);
    TableWithAt(walk, SpentBy(walk), k);
    OnlySecondKept(tx, SpentBy(walk));
  }

  lemma OnlySecondKept(tx: Transaction, spent: set<Outpoint>)
    requires |tx.vout| == 2 && Outpoint(tx.id, 0) in spent && Outpoint(tx.id, 1) !in spent
    ensures Strip(Kept(tx.vout, Indices(spent, tx.id))) == [tx.vout[1]]
  {
    KeptDependsOnRange(tx.vout, Indices(spent, tx.id), {0});
    SecondIsKept(tx.vout);
  }

  lemma SecondIsKept(outs: Outputs)
    requires |outs| == 2
    ensures Strip(Kept(outs, {0})) == [outs[1]]
  {
    KeptUnfold(outs, {0});
    KeptUnfold(outs[..1], {0});
    assert outs[..1][..0] == [];
  }

  lemma SoleInput(inputs: seq<TxInput>, pubKey: Bytes, pick: Pick)
    requires Permutes(inputs, pubKey, [pick])
    ensures inputs == [InputFor(pubKey, pick.txid, pick.position)]
  {
    assert |inputs| > 1 ==> inputs[0] != inputs[1];
    PermutedPick(inputs, pubKey, [pick], 0);
    forall j | 0 <= j < |inputs| ensures inputs[j] == InputFor(pubKey, pick.txid, pick.position) {
      var i := PickOfInput(inputs, pubKey, [pick], j);
    }
  }

  /** With a true index, once the first of two outputs to a wallet is spent, a payment that selects
      the second names the first again: an output already spent on the chain. Verify accepts that
      payment, at every height, exactly when the first output is worth at least the second. */
  lemma ShiftedPaymentNamesSpentOutput(c: Suite, walk: seq<Transaction>, table: StoredTable, order: seq<Bytes>,
                                       w: Wallet, tx: Transaction, amount: int64, primary: TxOutput,
                                       entropy: int -> int, r: BuildResult, height: int)
    requires c.SignaturesVerify() && OwnsItsKey(c, w) && IndexIsTrue(walk, table) && FirstOfTwoSpent(c, walk, w, tx)
    requires order != [] && order[0] == tx.id && forall i :: 0 <= i < |order| ==> order[i] in table
    requires 0 < amount <= tx.vout[1].value
    requires SpendResult(c, walk, table, order, w, amount, Some(primary), entropy, r)
    ensures r.Built? && |r.tx.vin| == 1 && r.tx.vin[0].txid == tx.id && r.tx.vin[0].vout == 0
    ensures Outpoint(tx.id, 0) in SpentBy(walk)
    ensures VerifyVerdict(c, r.tx, PrevFor(walk, r.tx.vin), height).Accepted? <==> tx.vout[0].value >= tx.vout[1].value
  {
    var picks := [Pick(tx.id, 0, tx.vout[1])];
    SecondIsStored(c, walk, table, w, tx);
    FirstIsSelected(table, order, tx.id, tx.vout[1], c.hash160(w.publicKey), amount);
    SolePick(picks[0]);
    var draft :|
      IsDraft(c, w, amount, primary, picks, draft) && r == SignOutcome(c, walk, draft, w.privateKey, entropy);
    SoleInput(draft.vin, w.publicKey, picks[0]);
    DraftOutputs(c, w, amount, primary, picks, draft);
    ShiftedDraft(c, walk, w, tx, draft, entropy, height);
  }

  lemma ShiftedDraft(c: Suite, walk: seq<Transaction>, w: Wallet, tx: Transaction, draft: Transaction,
                     entropy: int -> int, height: int)
    requires c.SignaturesVerify() && OwnsItsKey(c, w) && tx.id != [] && FindTx(walk, tx.id) == Some(tx)
    requires |tx.vout| == 2 && Payable(c, w, tx.vout[0])
    requires draft.vin == [InputFor(w.publicKey, tx.id, 0)] && TotalValue(draft.vout) == tx.vout[1].value
    requires forall i :: 0 <= i < |draft.vout| ==> draft.vout[i].value > 0
    ensures AllFound(walk, draft.vin) && AllResolve(PrevFor(walk, draft.vin), draft.vin)
    ensures var signed := SignedTx(c, draft, PrevFor(walk, draft.vin), w.privateKey, entropy);
            SignOutcome(c, walk, draft, w.privateKey, entropy) == Built(signed) &&
            (VerifyVerdict(c, signed, PrevFor(walk, signed.vin), height).Accepted? <==>
             tx.vout[0].value >= tx.vout[1].value)
  {
    var prev := PrevFor(walk, draft.vin);
    assert Resolves(prev, draft.vin[0]) && PrevOut(prev, draft.vin[0]) == tx.vout[0];
    assert InputValues(prev, draft.vin) == [tx.vout[0].value];
    SumOne(tx.vout[0].value);
    SignedDraft(c, walk, draft, w.privateKey, entropy);
    SignThenVerify(c, draft, prev, w.privateKey, entropy, height);
  }

  /** An output that a payment without a witness may spend. */
  predicate NeedsNoWitness(c: Suite, out: TxOutput) {
    out.scriptType == ZKCP ==> out.dataHashLock == c.sha256([])
  }

  lemma ScriptOfPick(c: Suite, w: Wallet, pick: Pick, height: int)
    requires Eligible(pick.out, c.hash160(w.publicKey))
    ensures ScriptOk(c, InputFor(w.publicKey, pick.txid, pick.position), pick.out, height) <==>
            NeedsNoWitness(c, pick.out)
  {
  }

  lemma ScriptsOfPicks(c: Suite, walk: seq<Transaction>, table: StoredTable, w: Wallet, picks: seq<Pick>,
                       draft: Transaction, height: int)
    requires IndexIsTrue(walk, table) && FromIndex(table, picks) && PositionsTrue(walk, picks)
    requires Permutes(draft.vin, w.publicKey, picks)
    requires AllResolve(PrevFor(walk, draft.vin), draft.vin)
    requires forall i :: 0 <= i < |picks| ==> Eligible(picks[i].out, c.hash160(w.publicKey))
    ensures (forall j :: 0 <= j < |draft.vin| ==>
               ScriptOk(c, draft.vin[j], PrevOut(PrevFor(walk, draft.vin), draft.vin[j]), height)) <==>
            forall i :: 0 <= i < |picks| ==> NeedsNoWitness(c, picks[i].out)
  {
    var vin, prev := draft.vin, PrevFor(walk, draft.vin);
    if forall i :: 0 <= i < |picks| ==> NeedsNoWitness(c, picks[i].out) {
      forall j | 0 <= j < |vin| ensures ScriptOk(c, vin[j], PrevOut(prev, vin[j]), height) {
        var i := PickOfInput(vin, w.publicKey, picks, j);
        InputResolves(walk, table, w.publicKey, picks, vin, i);
        ScriptOfPick(c, w, picks[i], height);
      }
    }
    if forall j :: 0 <= j < |vin| ==> ScriptOk(c, vin[j], PrevOut(prev, vin[j]), height) {
      forall i | 0 <= i < |picks| ensures NeedsNoWitness(c, picks[i].out) {
        InputResolves(walk, table, w.publicKey, picks, vin, i);
        ScriptOfPick(c, w, picks[i], height);
        var j :| 0 <= j < |vin| && vin[j] == InputFor(w.publicKey, picks[i].txid, picks[i].position);
      }
    }
  }
}
