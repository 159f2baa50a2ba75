/** The FAT as a table of integers: chains, first-fit allocation and release. */
module FatTable {
  import opened Bytes

  type Table = seq<nat>

  // ---- Following a chain ----

  /** The guard of `follow_chain` fails, or its range check raises. */
  predicate Stops(t: Table, bad: nat, c: nat) {
    c >= bad || c >= |t|
  }

  /** The clusters the loop visits from c in at most `fuel` iterations. */
  function Steps(t: Table, bad: nat, c: nat, fuel: nat): seq<nat>
    decreases fuel
  {
    if Stops(t, bad, c) || fuel == 0 then [] else [c] + Steps(t, bad, t[c], fuel - 1)
  }

  /** The value the loop variable has reached by then. */
  function Final(t: Table, bad: nat, c: nat, fuel: nat): nat
    decreases fuel
  {
    if Stops(t, bad, c) || fuel == 0 then c else Final(t, bad, t[c], fuel - 1)
  }

  /** The loop started at c leaves within |t| iterations. */
  predicate Halts(t: Table, bad: nat, c: nat) {
    Stops(t, bad, Final(t, bad, c, |t|))
  }

  lemma {:induction false} StepsInRange(t: Table, bad: nat, c: nat, fuel: nat)
    ensures |Steps(t, bad, c, fuel)| <= fuel
    ensures forall i :: 0 <= i < |Steps(t, bad, c, fuel)| ==> Steps(t, bad, c, fuel)[i] < |t|
    decreases fuel
  {
    if !Stops(t, bad, c) && fuel > 0 {
      StepsInRange(t, bad, t[c], fuel - 1);
    }
  }

  /** Once the loop has halted, more iterations change nothing. */
  lemma {:induction false} FuelIrrelevant(t: Table, bad: nat, c: nat, f: nat, g: nat)
    requires Stops(t, bad, Final(t, bad, c, f)) && |Steps(t, bad, c, f)| <= g
    ensures Steps(t, bad, c, g) == Steps(t, bad, c, f)
    ensures Final(t, bad, c, g) == Final(t, bad, c, f)
    decreases f
  {
    if !Stops(t, bad, c) {
      FuelIrrelevant(t, bad, t[c], f - 1, g - 1);
    }
  }

  lemma {:induction false} StepsSuffix(t: Table, bad: nat, c: nat, fuel: nat, i: nat)
    requires i < |Steps(t, bad, c, fuel)|
    ensures i <= fuel
    ensures Steps(t, bad, Steps(t, bad, c, fuel)[i], fuel - i) == Steps(t, bad, c, fuel)[i..]
    ensures Final(t, bad, Steps(t, bad, c, fuel)[i], fuel - i) == Final(t, bad, c, fuel)
    decreases fuel
  {
    if i > 0 {
      StepsSuffix(t, bad, t[c], fuel - 1, i - 1);
    }
  }

  /** A halting walk visits no cluster twice. */
  lemma HaltingIsAcyclic(t: Table, bad: nat, c: nat, fuel: nat)
    requires Stops(t, bad, Final(t, bad, c, fuel))
    ensures Distinct(Steps(t, bad, c, fuel))
  {
    var s := Steps(t, bad, c, fuel);
    StepsInRange(t, bad, c, fuel);
    forall i, j | 0 <= i < j < |s|
      ensures s[i] != s[j]
    {
      StepsSuffix(t, bad, c, fuel, i);
      StepsSuffix(t, bad, c, fuel, j);
      if s[i] == s[j] {
        FuelIrrelevant(t, bad, s[i], fuel - j, fuel - i);
        assert false;
      }
    }
  }

  /** `follow_chain` has no cycle guard: it halts at all if and only if it halts
      within as many iterations as the table has entries. */
  lemma HaltsDecided(t: Table, bad: nat, c: nat, fuel: nat)
    ensures Stops(t, bad, Final(t, bad, c, fuel)) ==>
              Halts(t, bad, c) && Steps(t, bad, c, |t|) == Steps(t, bad, c, fuel)
              && Final(t, bad, c, |t|) == Final(t, bad, c, fuel)
  {
    if Stops(t, bad, Final(t, bad, c, fuel)) {
      HaltingIsAcyclic(t, bad, c, fuel);
      StepsInRange(t, bad, c, fuel);
      DistinctBound(Steps(t, bad, c, fuel), |t|);
      FuelIrrelevant(t, bad, c, fuel, |t|);
    }
  }

  /** With a free media cluster the walk from "cluster 0" runs in circles. */
  lemma {:induction false} ZeroLoops(t: Table, bad: nat, m: nat, fuel: nat)
    requires 2 <= m < |t| <= bad && t[0] == m && t[m] == 0
    ensures Final(t, bad, 0, fuel) == (if fuel % 2 == 0 then 0 else m)
    ensures Final(t, bad, m, fuel) == (if fuel % 2 == 0 then m else 0)
    decreases fuel
  {
    if fuel > 0 {
      ZeroLoops(t, bad, m, fuel - 1);
    }
  }

  /** A chain of data clusters ending in an end-of-chain mark. */
  ghost predicate IsChain(t: Table, bad: nat, chain: seq<nat>) {
    && |chain| > 0
    && (forall i :: 0 <= i < |chain| ==> 2 <= chain[i] < |t|)
    && (forall i :: 0 <= i < |chain| - 1 ==> t[chain[i]] == chain[i + 1])
    && t[chain[|chain| - 1]] >= bad
  }

  lemma {:induction false} ChainIsSteps(t: Table, bad: nat, chain: seq<nat>, fuel: nat)
    requires IsChain(t, bad, chain) && |t| <= bad && |chain| <= fuel
    ensures Steps(t, bad, chain[0], fuel) == chain
    ensures Final(t, bad, chain[0], fuel) >= bad
    decreases fuel
  {
    if |chain| > 1 {
      assert IsChain(t, bad, chain[1..]);
      ChainIsSteps(t, bad, chain[1..], fuel - 1);
    }
    assert chain == [chain[0]] + chain[1..];
  }

  /** Following a chain returns that chain, and the chain is acyclic. */
  lemma FollowReturnsChain(t: Table, bad: nat, chain: seq<nat>)
    requires IsChain(t, bad, chain) && |t| <= bad
    ensures Halts(t, bad, chain[0]) && Steps(t, bad, chain[0], |t|) == chain
    ensures Final(t, bad, chain[0], |t|) >= bad
    ensures Distinct(chain)
  {
    ChainIsSteps(t, bad, chain, |chain|);
    HaltsDecided(t, bad, chain[0], |chain|);
    HaltingIsAcyclic(t, bad, chain[0], |chain|);
  }

  /** A chain survives any change of the table outside it. */
  lemma ChainFrame(t: Table, t': Table, bad: nat, chain: seq<nat>)
    requires IsChain(t, bad, chain) && |t'| == |t|
    requires forall i :: 0 <= i < |chain| ==> t'[chain[i]] == t[chain[i]]
    ensures IsChain(t', bad, chain)
  {
  }

  // ---- First-fit allocation ----

  /** The free clusters from c on, in increasing order. */
  function FreeFrom(t: Table, c: nat): seq<nat>
    decreases |t| - c
  {
    if c >= |t| then [] else if t[c] == 0 then [c] + FreeFrom(t, c + 1) else FreeFrom(t, c + 1)
  }

  function FreeCount(t: Table): nat {
    |FreeFrom(t, 2)|
  }

  ghost predicate Increasing(s: seq<nat>) {
    forall i, j :: 0 <= i < j < |s| ==> s[i] < s[j]
  }

  lemma {:induction false} FreeFromMeaning(t: Table, c: nat)
    ensures Increasing(FreeFrom(t, c))
    ensures forall x :: x in FreeFrom(t, c) <==> c <= x < |t| && t[x] == 0
    decreases |t| - c
  {
    if c < |t| {
      FreeFromMeaning(t, c + 1);
      var rest := FreeFrom(t, c + 1);
      forall i | 0 <= i < |rest|
        ensures c < rest[i]
      {
        assert rest[i] in rest;
      }
    }
  }

  /** The n smallest free clusters. */
  function FirstFit(t: Table, n: nat): (chain: seq<nat>)
    requires n <= FreeCount(t)
    ensures |chain| == n && Distinct(chain) && Increasing(chain)
    ensures forall i :: 0 <= i < n ==> 2 <= chain[i] < |t| && t[chain[i]] == 0
  {
    FreeFromMeaning(t, 2);
    var chain := FreeFrom(t, 2)[..n];
    assert forall i :: 0 <= i < n ==> chain[i] in FreeFrom(t, 2);
    chain
  }

  /** No free cluster is passed over. */
  lemma FirstFitIsSmallest(t: Table, n: nat, x: nat)
    requires 0 < n <= FreeCount(t)
    requires 2 <= x < |t| && t[x] == 0 && x !in FirstFit(t, n)
    ensures x > FirstFit(t, n)[n - 1]
  {
    FreeFromMeaning(t, 2);
    var free := FreeFrom(t, 2);
    assert x in free;
    var k :| 0 <= k < |free| && free[k] == x;
    assert forall j :: 0 <= j < n ==> FirstFit(t, n)[j] == free[j];
    assert k >= n;
  }

  /** The table after the first k links of the chain are stored. */
  function Linked(t: Table, chain: seq<nat>, k: nat): (r: Table)
    requires k < |chain| && Distinct(chain)
    requires forall i :: 0 <= i < |chain| ==> chain[i] < |t|
    ensures |r| == |t|
    ensures forall i :: 0 <= i < k ==> r[chain[i]] == chain[i + 1]
    ensures forall x :: 0 <= x < |t| && x !in chain[..k] ==> r[x] == t[x]
  {
    if k == 0 then t
    else
      var r := Linked(t, chain, k - 1)[chain[k - 1] := chain[k]];
      assert forall x :: x !in chain[..k] ==> x !in chain[..k - 1] && x != chain[k - 1] by {
        assert chain[..k] == chain[..k - 1] + [chain[k - 1]];
      }
      r
  }

  /** `_alloc_clusters` on the table: link the chain and end it. */
  function Allocated(t: Table, eoc: nat, chain: seq<nat>): (r: Table)
    requires |chain| > 0 && Distinct(chain)
    requires forall i :: 0 <= i < |chain| ==> chain[i] < |t|
    ensures |r| == |t|
    ensures forall x :: 0 <= x < |t| && x !in chain ==> r[x] == t[x]
  {
    var last := |chain| - 1;
    assert forall x :: x !in chain ==> x !in chain[..last];
    Linked(t, chain, last)[chain[last] := eoc]
  }

  lemma LinkedNext(t: Table, chain: seq<nat>, k: nat)
    requires 0 < k < |chain| && Distinct(chain) && forall i :: 0 <= i < |chain| ==> chain[i] < |t|
    ensures Linked(t, chain, k) == Linked(t, chain, k - 1)[chain[k - 1] := chain[k]]
  {
  }

  lemma LinkedEnds(t: Table, eoc: nat, chain: seq<nat>)
    requires |chain| > 0 && Distinct(chain) && forall i :: 0 <= i < |chain| ==> chain[i] < |t|
    ensures Linked(t, chain, 0) == t
    ensures Allocated(t, eoc, chain) == Linked(t, chain, |chain| - 1)[chain[|chain| - 1] := eoc]
  {
  }

  lemma AllocatedIsChain(t: Table, bad: nat, eoc: nat, chain: seq<nat>)
    requires |chain| > 0 && Distinct(chain) && 0 < bad <= eoc
    requires forall i :: 0 <= i < |chain| ==> 2 <= chain[i] < |t|
    ensures IsChain(Allocated(t, eoc, chain), bad, chain)
    ensures forall x :: x in chain ==> Allocated(t, eoc, chain)[x] != 0
  {
    var r := Allocated(t, eoc, chain);
    forall i | 0 <= i < |chain| - 1
      ensures r[chain[i]] == chain[i + 1]
    {
      assert chain[i] != chain[|chain| - 1];
    }
    forall x | x in chain
      ensures r[x] != 0
    {
      var i :| 0 <= i < |chain| && chain[i] == x;
      assert i < |chain| - 1 ==> r[chain[i]] == chain[i + 1];
    }
  }

  /** `_free_chain`: the table after the first k clusters of the chain are freed. */
  function Freed(t: Table, chain: seq<nat>, k: nat): (r: Table)
    requires k <= |chain|
    requires forall i :: 0 <= i < |chain| ==> chain[i] < |t|
    ensures |r| == |t|
    ensures forall x :: 0 <= x < |t| ==> r[x] == if x in chain[..k] then 0 else t[x]
  {
    if k == 0 then t
    else
      assert chain[..k] == chain[..k - 1] + [chain[k - 1]];
      Freed(t, chain, k - 1)[chain[k - 1] := 0]
  }

  // ---- Counting ----

  ghost function FreeSet(t: Table): set<nat> {
    set x: nat | 2 <= x < |t| && t[x] == 0
  }

  ghost function Elements(s: seq<nat>): set<nat> {
    set x | x in s
  }

  lemma {:induction false} DistinctCard(s: seq<nat>)
    requires Distinct(s)
    ensures |Elements(s)| == |s|
  {
    if s != [] {
      var last := s[|s| - 1];
      var front := s[..|s| - 1];
      DistinctCard(front);
      assert s == front + [last];
      assert Elements(s) == Elements(front) + {last};
      assert last !in front;
    }
  }

  lemma FreeCountIsCard(t: Table)
    ensures FreeCount(t) == |FreeSet(t)|
  {
    FreeFromMeaning(t, 2);
    DistinctCard(FreeFrom(t, 2));
    assert Elements(FreeFrom(t, 2)) == FreeSet(t);
  }

  /** Taking the distinct free clusters of `chain` out of use, and nothing else,
      lowers the free count by exactly their number. Read from t' to t it is the
      law for releasing a chain. */
  lemma FreeCountChange(t: Table, t': Table, chain: seq<nat>)
    requires |t| == |t'| && Distinct(chain)
    requires forall x :: x in chain ==> 2 <= x < |t| && t[x] == 0 && t'[x] != 0
    requires forall x :: 2 <= x < |t| && x !in chain ==> (t'[x] == 0 <==> t[x] == 0)
    ensures FreeCount(t') == FreeCount(t) - |chain|
  {
    FreeCountIsCard(t);
    FreeCountIsCard(t');
    DistinctCard(chain);
    assert FreeSet(t) == FreeSet(t') + Elements(chain);
    assert FreeSet(t') !! Elements(chain);
  }

  /** First-fit allocation costs exactly n clusters, and releasing the chain
      gives back the very table it was taken from. */
  lemma AllocThenFree(t: Table, bad: nat, eoc: nat, n: nat)
    requires 0 < n <= FreeCount(t) && 0 < bad <= eoc
    ensures var chain := FirstFit(t, n);
            var t' := Allocated(t, eoc, chain);
            && FreeCount(t') == FreeCount(t) - n
            && Freed(t', chain, n) == t
  {
    var chain := FirstFit(t, n);
    var t' := Allocated(t, eoc, chain);
    AllocatedIsChain(t, bad, eoc, chain);
    assert forall x :: x in chain ==> 2 <= x < |t| && t[x] == 0;
    FreeCountChange(t, t', chain);
    var r := Freed(t', chain, n);
    assert chain[..n] == chain;
    assert forall x :: 0 <= x < |t| ==> r[x] == t[x];
  }
}
