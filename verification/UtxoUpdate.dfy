/** UTXOSet.Update (internal/core/utxo_set.go): the index kept up to date block by block, and
    exactly when it agrees with rebuilding it. */
module UtxoUpdate {
  import opened Prelude
  import opened Utxo

  // ---------- One stored list ----------

  /** Update compares an input's index with the *position* in the stored list. */
  function RemoveAt<T>(ts: seq<T>, v: int): seq<T> {
    if 0 <= v < |ts| then ts[..v] + ts[v + 1..] else ts
  }

  function RemoveAll<T>(ts: seq<T>, vs: seq<int>): seq<T> {
    if vs == [] then ts else RemoveAll(RemoveAt(ts, vs[0]), vs[1..])
  }

  function TagSum(ts: seq<Tagged>): int {
    if ts == [] then 0 else TagSum(ts[..|ts| - 1]) + ts[|ts| - 1].index
  }

  function AsSet(vs: seq<int>): (s: set<int>)
    ensures forall i :: 0 <= i < |vs| ==> vs[i] in s
    ensures forall v :: v in s ==> v in vs
  {
    set v | v in vs
  }

  /** Each index is spent while every lower one is still unspent: highest first. */
  predicate HighestFirst(spent: set<int>, vs: seq<int>)
    decreases |vs|
  {
    vs == [] || ((forall j :: 0 <= j < vs[0] ==> j !in spent) && HighestFirst(spent + {vs[0]}, vs[1..]))
  }

  /** Distinct, existing, so far unspent indices. */
  predicate FreshSpends(n: nat, spent: set<int>, vs: seq<int>) {
    (forall i :: 0 <= i < |vs| ==> 0 <= vs[i] < n && vs[i] !in spent) && Distinct(vs)
  }

  lemma {:induction false} TagSumOfRemoval(ts: seq<Tagged>, v: nat)
    requires v < |ts|
    ensures TagSum(RemoveAt(ts, v)) == TagSum(ts) - ts[v].index
  {
    var n := |ts| - 1;
    var r := RemoveAt(ts, v);
    if v == n {
      assert r == ts[..n];
    } else {
      TagSumOfRemoval(ts[..n], v);
      assert r[..|r| - 1] == RemoveAt(ts[..n], v);
      assert r[|r| - 1] == ts[n];
    }
  }

  lemma RemovalKeepsOrder(ts: seq<Tagged>, v: int)
    requires Increasing(ts)
    ensures Increasing(RemoveAt(ts, v))
  {
  }

  lemma {:induction false} TagAtLeastPosition(ts: seq<Tagged>, p: nat)
    requires Increasing(ts) && p < |ts|
    ensures ts[p].index >= p
  {
    if p > 0 {
      TagAtLeastPosition(ts, p - 1);
    }
  }

  /** Removing by position never removes more entries, nor a smaller total of indices, than
      the inputs name. */
  lemma {:induction false} RemovalBound(ts: seq<Tagged>, vs: seq<int>)
    requires Increasing(ts)
    requires forall i :: 0 <= i < |vs| ==> vs[i] >= 0
    ensures |RemoveAll(ts, vs)| >= |ts| - |vs|
    ensures |RemoveAll(ts, vs)| == |ts| - |vs| ==> TagSum(RemoveAll(ts, vs)) <= TagSum(ts) - Sum(vs)
  {
    if vs != [] {
      RemovalKeepsOrder(ts, vs[0]);
      RemovalBound(RemoveAt(ts, vs[0]), vs[1..]);
      SumHead(vs);
      if vs[0] < |ts| {
        TagSumOfRemoval(ts, vs[0]);
        TagAtLeastPosition(ts, vs[0]);
      }
    }
  }

  lemma SumHead(vs: seq<int>)
    requires vs != []
    ensures Sum(vs) == vs[0] + Sum(vs[1..])
  {
    SumConcat([vs[0]], vs[1..]);
    assert [vs[0]] + vs[1..] == vs;
    SumOne(vs[0]);
  }

  /** The last output's share of the kept list. */
  function LastKept(outs: Outputs, spent: set<int>): seq<Tagged>
    requires outs != []
  {
    if |outs| - 1 in spent then [] else [Tagged(|outs| - 1, outs[|outs| - 1])]
  }

  lemma KeptUnfold(outs: Outputs, spent: set<int>)
    requires outs != []
    ensures Kept(outs, spent) == Kept(outs[..|outs| - 1], spent) + LastKept(outs, spent)
  {
  }

  lemma KeptTagInRange(outs: Outputs, spent: set<int>, p: nat)
    requires p < |Kept(outs, spent)|
    ensures 0 <= Kept(outs, spent)[p].index < |outs|
  {
    KeptIsExact(outs, spent);
    assert Kept(outs, spent)[p] in Kept(outs, spent);
  }

  lemma RemoveAtFront<T>(a: seq<T>, b: seq<T>, p: nat)
    ensures p < |a| ==> RemoveAt(a + b, p) == RemoveAt(a, p) + b
    ensures p == |a| && |b| == 1 ==> RemoveAt(a + b, p) == a
  {
  }

  lemma {:induction false} KeptWithout(outs: Outputs, spent: set<int>, p: nat)
    requires p < |Kept(outs, spent)|
    ensures RemoveAt(Kept(outs, spent), p) == Kept(outs, spent + {Kept(outs, spent)[p].index})
  {
    var n := |outs| - 1;
    var front, last := Kept(outs[..n], spent), LastKept(outs, spent);
    var v := Kept(outs, spent)[p].index;
    KeptUnfold(outs, spent);
    KeptUnfold(outs, spent + {v});
    RemoveAtFront(front, last, p);
    if p < |front| {
      KeptTagInRange(outs[..n], spent, p);
      KeptWithout(outs[..n], spent, p);
    } else {
      KeptDependsOnRange(outs[..n], spent, spent + {v});
    }
  }

  /** Spending one unspent index takes exactly that tag out. */
  lemma KeptMinusOne(outs: Outputs, spent: set<int>, v: int)
    requires 0 <= v < |outs| && v !in spent
    ensures |Kept(outs, spent + {v})| == |Kept(outs, spent)| - 1
    ensures TagSum(Kept(outs, spent + {v})) == TagSum(Kept(outs, spent)) - v
  {
    var ts := Kept(outs, spent);
    KeptIsExact(outs, spent);
    assert Tagged(v, outs[v]) in ts;
    var p :| 0 <= p < |ts| && ts[p] == Tagged(v, outs[v]);
    KeptWithout(outs, spent, p);
    TagSumOfRemoval(ts, p);
  }

  lemma {:induction false} KeptMinusMany(outs: Outputs, spent: set<int>, vs: seq<int>)
    requires FreshSpends(|outs|, spent, vs)
    ensures |Kept(outs, spent + AsSet(vs))| == |Kept(outs, spent)| - |vs|
    ensures TagSum(Kept(outs, spent + AsSet(vs))) == TagSum(Kept(outs, spent)) - Sum(vs)
    decreases |vs|
  {
    if vs == [] {
      assert spent + AsSet(vs) == spent;
    } else {
      var v, rest := vs[0], vs[1..];
      KeptMinusOne(outs, spent, v);
      KeptMinusMany(outs, spent + {v}, rest);
      SumHead(vs);
      AsSetHead(spent, vs);
    }
  }

  lemma AsSetHead(spent: set<int>, vs: seq<int>)
    requires vs != []
    ensures spent + AsSet(vs) == spent + {vs[0]} + AsSet(vs[1..])
  {
    forall v ensures v in AsSet(vs) <==> v == vs[0] || v in AsSet(vs[1..]) {
      if v in vs {
        var i :| 0 <= i < |vs| && vs[i] == v;
        assert i > 0 ==> vs[1..][i - 1] == v;
      }
    }
  }

  lemma {:induction false} UnshiftedPosition(outs: Outputs, spent: set<int>, v: nat)
    requires v < |outs| && forall j :: 0 <= j <= v ==> j !in spent
    ensures v < |Kept(outs, spent)| && Kept(outs, spent)[v].index == v
  {
    KeptIsExact(outs, spent);
    if v > 0 {
      UnshiftedPosition(outs, spent, v - 1);
    }
    NextTagInPlace(Kept(outs, spent), Tagged(v, outs[v]));
  }

  lemma NextTagInPlace(ts: seq<Tagged>, t: Tagged)
    requires Increasing(ts) && t in ts && t.index >= 0
    requires t.index > 0 ==> t.index <= |ts| && ts[t.index - 1].index == t.index - 1
    requires forall i :: 0 <= i < |ts| ==> ts[i].index >= 0
    ensures t.index < |ts| && ts[t.index].index == t.index
  {
    var p :| 0 <= p < |ts| && ts[p] == t;
    TagAtLeastPosition(ts, p);
  }

  /** With nothing spent below `v`, the entry at position `v` is the one tagged `v`. */
  lemma PositionIsIndex(outs: Outputs, spent: set<int>, v: nat)
    requires v < |outs| && v !in spent
    requires forall j :: 0 <= j < v ==> j !in spent
    ensures v < |Kept(outs, spent)| && Kept(outs, spent)[v].index == v
    ensures RemoveAt(Kept(outs, spent), v) == Kept(outs, spent + {v})
  {
    UnshiftedPosition(outs, spent, v);
    KeptWithout(outs, spent, v);
  }

  /** With a lower index spent, the removal takes out too large a tag, or nothing. */
  lemma WrongRemoval(outs: Outputs, spent: set<int>, v: int)
    requires 0 <= v < |outs| && v !in spent && exists j :: 0 <= j < v && j in spent
    ensures RemoveAt(Kept(outs, spent), v) != Kept(outs, spent + {v})
    ensures v < |Kept(outs, spent)| ==> TagSum(RemoveAt(Kept(outs, spent), v)) < TagSum(Kept(outs, spent)) - v
  {
    var ts := Kept(outs, spent);
    KeptMinusOne(outs, spent, v);
    if v < |ts| {
      TagSumOfRemoval(ts, v);
      LowerSpentShiftsTag(outs, spent, v);
    } else {
      assert RemoveAt(ts, v) == ts;
    }
  }

  /** One input: removal by position equals removal by index exactly when no lower index of
      that transaction was spent before. */
  lemma OneInputIsExact(outs: Outputs, spent: set<int>, v: int)
    requires 0 <= v < |outs| && v !in spent
    ensures RemoveAt(Kept(outs, spent), v) == Kept(outs, spent + {v}) <==> forall j :: 0 <= j < v ==> j !in spent
  {
    if forall j :: 0 <= j < v ==> j !in spent {
      PositionIsIndex(outs, spent, v);
    } else {
      WrongRemoval(outs, spent, v);
    }
  }

  /** A lower spent index pushes a larger tag to position `v`. */
  lemma LowerSpentShiftsTag(outs: Outputs, spent: set<int>, v: nat)
    requires exists j :: 0 <= j < v && j in spent
    requires v < |Kept(outs, spent)|
    ensures Kept(outs, spent)[v].index > v
  {
    var ts := Kept(outs, spent);
    KeptIsExact(outs, spent);
    var j :| 0 <= j < v && j in spent;
    if ts[v].index <= v {
      GapBelow(ts, j, v);
    }
  }

  lemma {:induction false} GapBelow(ts: seq<Tagged>, j: nat, p: nat)
    requires Increasing(ts) && j <= p < |ts|
    requires forall i :: 0 <= i < |ts| ==> ts[i].index != j
    ensures ts[p].index > p
  {
    if p > j {
      GapBelow(ts, j, p - 1);
    } else {
      TagAtLeastPosition(ts, p);
    }
  }

  /** All inputs of a block that spend one transaction: the list Update leaves equals the true
      unspent list exactly when the indices were spent highest first. A wrong removal is never
      repaired by a later one, because each removal takes out an index at least as large as the
      one named. */
  lemma {:induction false} AllInputsExact(outs: Outputs, spent: set<int>, vs: seq<int>)
    requires FreshSpends(|outs|, spent, vs)
    ensures RemoveAll(Kept(outs, spent), vs) == Kept(outs, spent + AsSet(vs)) <==> HighestFirst(spent, vs)
    decreases |vs|
  {
    if vs == [] {
      assert spent + AsSet(vs) == spent;
    } else {
      var v, rest := vs[0], vs[1..];
      OneInputIsExact(outs, spent, v);
      AsSetHead(spent, vs);
      if forall j :: 0 <= j < v ==> j !in spent {
        AllInputsExact(outs, spent + {v}, rest);
      } else {
        NeverRepaired(outs, spent, vs);
      }
    }
  }

  /** After a wrong first removal the list ends too long, or with too small a total of tags. */
  lemma NeverRepaired(outs: Outputs, spent: set<int>, vs: seq<int>)
    requires FreshSpends(|outs|, spent, vs) && vs != [] && exists j :: 0 <= j < vs[0] && j in spent
    ensures RemoveAll(Kept(outs, spent), vs) != Kept(outs, spent + AsSet(vs))
  {
    KeptMinusMany(outs, spent, vs);
    WrongRemoval(outs, spent, vs[0]);
    KeptIsExact(outs, spent);
    LeftBehind(Kept(outs, spent), vs);
  }

  /** A first removal that takes out more than it names is not made up for by the others. */
  lemma LeftBehind(ts: seq<Tagged>, vs: seq<int>)
    requires Increasing(ts) && vs != [] && forall i :: 0 <= i < |vs| ==> vs[i] >= 0
    requires vs[0] < |ts| ==> TagSum(RemoveAt(ts, vs[0])) < TagSum(ts) - vs[0]
    ensures |RemoveAll(ts, vs)| > |ts| - |vs| || TagSum(RemoveAll(ts, vs)) < TagSum(ts) - Sum(vs)
  {
    RemovalKeepsOrder(ts, vs[0]);
    RemovalBound(RemoveAt(ts, vs[0]), vs[1..]);
    SumHead(vs);
  }

  /** Spending the first and then the last output of any transaction changes nothing the
      second time: the last output stays in the index although it is spent. */
  lemma LowestFirstKeepsSpentOutput(outs: Outputs)
    requires |outs| >= 2
    ensures RemoveAll(Kept(outs, {}), [0, |outs| - 1]) == Kept(outs, {0})
    ensures |Kept(outs, {0})| > |Kept(outs, {0, |outs| - 1})|
  {
    var none: set<int> := {};
    assert none + {0} == {0} && {0} + {|outs| - 1} == {0, |outs| - 1};
    PositionIsIndex(outs, none, 0);
    KeptAll(outs, none);
    KeptMinusOne(outs, none, 0);
    KeptMinusOne(outs, {0}, |outs| - 1);
    TwoRemovals(Kept(outs, none), 0, |outs| - 1);
  }

  lemma TwoRemovals<T>(ts: seq<T>, v: int, w: int)
    ensures RemoveAll(ts, [v, w]) == RemoveAt(RemoveAt(ts, v), w)
  {
    var once := RemoveAt(ts, v);
    assert [v, w][1..] == [w] && [w][1..] == [];
    assert RemoveAll(once, [w]) == RemoveAll(RemoveAt(once, w), []);
  }

  // ---------- The stored list, where equal outputs cannot be told apart ----------

  lemma StripRemoveAt(ts: seq<Tagged>, v: int)
    ensures Strip(RemoveAt(ts, v)) == RemoveAt(Strip(ts), v)
  {
  }

  lemma SameRemoval(s: Outputs, p: nat, v: nat)
    requires p <= v < |s|
    ensures RemoveAt(s, p) == RemoveAt(s, v) <==> forall i :: p <= i < v ==> s[i] == s[i + 1]
  {
    var a, b := RemoveAt(s, p), RemoveAt(s, v);
    if a == b {
      forall i | p <= i < v ensures s[i] == s[i + 1] {
        assert a[i] == s[i + 1] && b[i] == s[i];
      }
    } else {
      var i :| 0 <= i < |a| && a[i] != b[i];
      assert p <= i < v && s[i] != s[i + 1];
    }
  }

  /** One input on the stored list, whose entry for `v` sits at position `p`: the right list
      results exactly when position `v` exists and every output from `p` to `v` is the same. */
  lemma OneStoredInputIsExact(outs: Outputs, spent: set<int>, p: nat)
    requires p < |Kept(outs, spent)|
    ensures var v := Kept(outs, spent)[p].index;
            var stored := Strip(Kept(outs, spent));
            RemoveAt(stored, v) == Strip(Kept(outs, spent + {v})) <==>
            v < |stored| && forall i :: p <= i < v ==> stored[i] == stored[i + 1]
  {
    var ts := Kept(outs, spent);
    var v, stored := ts[p].index, Strip(ts);
    assert v >= p by {
      KeptIsExact(outs, spent);
      TagAtLeastPosition(ts, p);
    }
    assert Strip(Kept(outs, spent + {v})) == RemoveAt(stored, p) by {
      KeptWithout(outs, spent, p);
      StripRemoveAt(ts, p);
    }
    if v < |stored| {
      SameRemoval(stored, p, v);
    } else {
      assert |RemoveAt(stored, p)| < |RemoveAt(stored, v)|;
    }
  }

  lemma {:induction false} StripRemoveAll(ts: seq<Tagged>, vs: seq<int>)
    ensures Strip(RemoveAll(ts, vs)) == RemoveAll(Strip(ts), vs)
    decreases |vs|
  {
    if vs != [] {
      StripRemoveAt(ts, vs[0]);
      StripRemoveAll(RemoveAt(ts, vs[0]), vs[1..]);
    }
  }

  /** Every entry carries the output its tag names. */
  predicate TagsOf(outs: Outputs, ts: seq<Tagged>) {
    forall p :: 0 <= p < |ts| ==> 0 <= ts[p].index < |outs| && ts[p].out == outs[ts[p].index]
  }

  lemma KeptTags(outs: Outputs, spent: set<int>)
    ensures TagsOf(outs, Kept(outs, spent))
  {
    KeptIsExact(outs, spent);
    var ts := Kept(outs, spent);
    forall p | 0 <= p < |ts| ensures 0 <= ts[p].index < |outs| && ts[p].out == outs[ts[p].index] {
      assert ts[p] in ts;
    }
  }

  lemma {:induction false} RemovedTags(outs: Outputs, ts: seq<Tagged>, vs: seq<int>)
    requires TagsOf(outs, ts)
    ensures TagsOf(outs, RemoveAll(ts, vs))
    decreases |vs|
  {
    if vs != [] {
      RemovedTags(outs, RemoveAt(ts, vs[0]), vs[1..]);
    }
  }

  /** When no two outputs of the transaction are equal, a stored list tells which entries it holds. */
  lemma StripTells(outs: Outputs, a: seq<Tagged>, b: seq<Tagged>)
    requires Distinct(outs) && TagsOf(outs, a) && TagsOf(outs, b) && Strip(a) == Strip(b)
    ensures a == b
  {
    assert |a| == |b|;
    forall p | 0 <= p < |a| ensures a[p] == b[p] {
      assert a[p].out == Strip(a)[p] == Strip(b)[p] == b[p].out;
    }
  }

  /** All inputs of a block that spend one transaction, on the stored list: spending highest first
      always leaves the right list, and when no two outputs of the transaction are equal nothing
      else does. */
  lemma AllStoredInputsExact(outs: Outputs, spent: set<int>, vs: seq<int>)
    requires FreshSpends(|outs|, spent, vs)
    ensures HighestFirst(spent, vs) ==> RemoveAll(Strip(Kept(outs, spent)), vs) == Strip(Kept(outs, spent + AsSet(vs)))
    ensures Distinct(outs) && RemoveAll(Strip(Kept(outs, spent)), vs) == Strip(Kept(outs, spent + AsSet(vs))) ==>
              HighestFirst(spent, vs)
  {
    AllInputsExact(outs, spent, vs);
    StripRemoveAll(Kept(outs, spent), vs);
    if Distinct(outs) && RemoveAll(Strip(Kept(outs, spent)), vs) == Strip(Kept(outs, spent + AsSet(vs))) {
      KeptTags(outs, spent);
      RemovedTags(outs, Kept(outs, spent), vs);
      KeptTags(outs, spent + AsSet(vs));
      StripTells(outs, RemoveAll(Kept(outs, spent), vs), Kept(outs, spent + AsSet(vs)));
    }
  }

  /** Equal outputs can hide the wrong order: of three equal outputs, spending 0 and then 1 leaves
      the right stored list although it is not highest first. */
  lemma {:induction false} EqualOutputsHideOrder(outs: Outputs)
    requires |outs| == 3 && outs[0] == outs[1] == outs[2]
    ensures RemoveAll(Strip(Kept(outs, {})), [0, 1]) == Strip(Kept(outs, {0, 1})) && !HighestFirst({}, [0, 1])
  {
    KeptAll(outs, {});
    TwoRemovals(outs, 0, 1);
    assert RemoveAt(RemoveAt(outs, 0), 1) == [outs[1]];
    ThirdIsKept(outs);
    NotHighestFirst();
  }

  lemma ThirdIsKept(outs: Outputs)
    requires |outs| == 3
    ensures Strip(Kept(outs, {0, 1})) == [outs[2]]
  {
    KeptUnfold(outs, {0, 1});
    KeptUnfold(outs[..2], {0, 1});
    KeptUnfold(outs[..1], {0, 1});
    assert outs[..2][..1] == outs[..1] && outs[..1][..0] == [];
  }

  lemma NotHighestFirst()
    ensures !HighestFirst({}, [0, 1])
  {
    var none: set<int> := {};
    assert [0, 1][1..] == [1] && [0, 1][0] == 0;
    assert !HighestFirst(none + {0}, [1]);
  }
}
