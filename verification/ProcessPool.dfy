/** The parent of the process pool: round-robin dispatch over children that may die. */
module ProcessPools {

  import opened Wrappers

  // ---------- Specification on the set of live children ----------

  /** First live child from `i` on, or the number of children. */
  function FirstFrom(live: seq<bool>, i: nat): (k: nat)
    requires i <= |live|
    ensures i <= k <= |live| && (k < |live| ==> live[k])
    ensures forall j :: i <= j < k ==> !live[j]
    decreases |live| - i
  {
    if i == |live| || live[i] then i else FirstFrom(live, i + 1)
  }

  /** Steps from the counter `c` to child `i` in cyclic order. */
  function Distance(c: nat, i: nat, n: nat): int {
    if c <= i then i - c else i - c + n
  }

  /** First live child in cyclic order from the counter, if there is one. */
  function Pick(live: seq<bool>, c: nat): (p: Option<nat>)
    requires c < |live|
    ensures p.None? <==> forall j :: 0 <= j < |live| ==> !live[j]
    ensures p.Some? ==> p.value < |live| && live[p.value]
    ensures p.Some? ==> forall j: nat :: j < |live| && live[j] && j != p.value ==>
                          Distance(c, p.value, |live|) < Distance(c, j, |live|)
  {
    var k := FirstFrom(live, c);
    if k < |live| then Some(k)
    else
      var l := FirstFrom(live, 0);
      if l < |live| then Some(l) else None
  }

  /** The child after `i`, out of `n`. */
  function Advance(i: nat, n: nat): (r: nat)
    requires i < n
    ensures r == if i + 1 == n then 0 else i + 1
  {
    (i + 1) % n
  }

  /** The children picked by `m` dispatches in a row. */
  function Picks(live: seq<bool>, c: nat, m: nat): seq<nat>
    requires c < |live| && true in live
    decreases m
  {
    if m == 0 then []
    else
      SomeLive(live, c);
      var i := Pick(live, c).value;
      [i] + Picks(live, Advance(i, |live|), m - 1)
  }

  lemma SomeLive(live: seq<bool>, c: nat)
    requires c < |live| && true in live
    ensures Pick(live, c).Some?
  {
  }

  function Times(s: seq<nat>, i: nat): nat {
    multiset(s)[i]
  }

  lemma TimesJoin(s: seq<nat>, t: seq<nat>, i: nat)
    ensures Times(s + t, i) == Times(s, i) + Times(t, i)
  {
  }

  // ---------- Fairness ----------

  /** Number of live children before `i`. */
  function Rank(live: seq<bool>, i: nat): nat
    requires i <= |live|
  {
    if i == 0 then 0 else Rank(live, i - 1) + if live[i - 1] then 1 else 0
  }

  function LiveCount(live: seq<bool>): nat {
    Rank(live, |live|)
  }

  lemma {:induction false} RankGrows(live: seq<bool>, i: nat, j: nat)
    requires i <= j <= |live|
    ensures Rank(live, i) <= Rank(live, j) <= Rank(live, i) + (j - i)
    ensures (exists k :: i <= k < j && live[k]) ==> Rank(live, i) < Rank(live, j)
    ensures (forall k :: i <= k < j ==> !live[k]) ==> Rank(live, i) == Rank(live, j)
  {
    if i < j {
      RankGrows(live, i, j - 1);
    }
  }

  /** The rank of the child that is picked next. */
  function NextRank(live: seq<bool>, c: nat): nat
    requires c < |live|
  {
    if Rank(live, c) == LiveCount(live) then 0 else Rank(live, c)
  }

  lemma PickHasNextRank(live: seq<bool>, c: nat)
    requires c < |live| && true in live
    ensures var i := Pick(live, c).value;
            && Pick(live, c).Some? && i < |live| && live[i] && Rank(live, i) == NextRank(live, c)
            && NextRank(live, Advance(i, |live|)) == if Rank(live, i) + 1 == LiveCount(live) then 0 else Rank(live, i) + 1
  {
    SomeLive(live, c);
    var k, n := FirstFrom(live, c), |live|;
    RankGrows(live, c, k);
    if k == n {
      var l := FirstFrom(live, 0);
      RankGrows(live, 0, l);
    } else {
      RankGrows(live, k + 1, n);
    }
  }

  lemma RankTellsChildren(live: seq<bool>, i: nat, j: nat)
    requires i < |live| && j < |live| && live[i] && live[j]
    ensures Rank(live, i) == Rank(live, j) <==> i == j
  {
    if i < j { RankGrows(live, i, j); }
    if j < i { RankGrows(live, j, i); }
  }

  /** Dispatches until the child of rank `r` is picked, when rank `q` is next. */
  function Wait(live: seq<bool>, q: nat, r: nat): int {
    if q <= r then r - q else r - q + LiveCount(live)
  }

  lemma NextPickThenRest(live: seq<bool>, c: nat, m: nat, i: nat)
    requires c < |live| && true in live && m > 0
    ensures var p := Pick(live, c).value;
            && Pick(live, c).Some? && p < |live|
            && Times(Picks(live, c, m), i) == (if p == i then 1 else 0) + Times(Picks(live, Advance(p, |live|), m - 1), i)
  {
    SomeLive(live, c);
    var p := Pick(live, c).value;
    TimesJoin([p], Picks(live, Advance(p, |live|), m - 1), i);
    assert Times([p], i) == if p == i then 1 else 0;
  }

  lemma NoPicks(live: seq<bool>, c: nat, i: nat)
    requires c < |live| && true in live
    ensures Times(Picks(live, c, 0), i) == 0
  {
  }

  lemma RankBelowCount(live: seq<bool>, i: nat)
    requires i < |live|
    ensures 0 <= NextRank(live, i) <= LiveCount(live)
    ensures live[i] ==> 0 <= Rank(live, i) < LiveCount(live)
  {
    RankGrows(live, i, |live|);
  }

  lemma {:induction false} PickedOnceInRound(live: seq<bool>, c: nat, m: nat, i: nat)
    requires c < |live| && true in live && i < |live| && live[i] && m <= LiveCount(live)
    ensures Times(Picks(live, c, m), i) == if Wait(live, NextRank(live, c), Rank(live, i)) < m then 1 else 0
    decreases m
  {
    hide Picks, Times, Rank, NextRank, Pick, LiveCount;
    RankBelowCount(live, i);
    RankBelowCount(live, c);
    if m == 0 {
      NoPicks(live, c, i);
    } else {
      PickHasNextRank(live, c);
      var p := Pick(live, c).value;
      RankBelowCount(live, p);
      RankTellsChildren(live, p, i);
      NextPickThenRest(live, c, m, i);
      PickedOnceInRound(live, Advance(p, |live|), m - 1, i);
    }
  }

  function CounterAfter(live: seq<bool>, c: nat, m: nat): (r: nat)
    requires c < |live| && true in live
    ensures r < |live|
    decreases m
  {
    if m == 0 then c
    else
      SomeLive(live, c);
      CounterAfter(live, Advance(Pick(live, c).value, |live|), m - 1)
  }

  /** A run of dispatches goes on where the first part of it left the counter. */
  lemma {:induction false} PicksSplit(live: seq<bool>, c: nat, m: nat, k: nat, i: nat)
    requires c < |live| && true in live
    ensures Times(Picks(live, c, m + k), i)
         == Times(Picks(live, c, m), i) + Times(Picks(live, CounterAfter(live, c, m), k), i)
    decreases m
  {
    hide Picks, Times, Pick;
    if m == 0 {
      NoPicks(live, c, i);
    } else {
      NextPickThenRest(live, c, m, i);
      NextPickThenRest(live, c, m + k, i);
      PicksSplit(live, Advance(Pick(live, c).value, |live|), m - 1, k, i);
    }
  }

  /** While no child dies, any round of as many dispatches as there are live children picks each of
      them exactly once. */
  lemma EachOncePerRound(live: seq<bool>, c: nat, i: nat)
    requires c < |live| && i < |live| && live[i]
    ensures Times(Picks(live, c, LiveCount(live)), i) == 1
  {
    assert live[i] in live;
    RankGrows(live, i, |live|);
    RankGrows(live, c, |live|);
    PickHasNextRank(live, c);
    PickedOnceInRound(live, c, LiveCount(live), i);
  }

  /** After a round the counter is again where the same child is next. */
  lemma RoundThenRest(live: seq<bool>, c: nat, m: nat, i: nat)
    requires c < |live| && i < |live| && live[i] && true in live && LiveCount(live) <= m
    ensures Times(Picks(live, c, m), i) == 1 + Times(Picks(live, CounterAfter(live, c, LiveCount(live)), m - LiveCount(live)), i)
  {
    hide Picks, Times, CounterAfter, LiveCount;
    var a := LiveCount(live);
    PicksSplit(live, c, a, m - a, i);
    EachOncePerRound(live, c, i);
  }

  /** Over any number of dispatches, two live children are picked equally often, but for one. */
  lemma {:induction false} SharesDifferByOne(live: seq<bool>, c: nat, m: nat, i: nat, j: nat)
    requires c < |live| && i < |live| && j < |live| && live[i] && live[j] && true in live
    ensures -1 <= Times(Picks(live, c, m), i) - Times(Picks(live, c, m), j) <= 1
    decreases m
  {
    hide *;
    var a := LiveCount(live);
    RankBelowCount(live, i);
    if m < a {
      PickedOnceInRound(live, c, m, i);
      PickedOnceInRound(live, c, m, j);
    } else {
      RoundThenRest(live, c, m, i);
      RoundThenRest(live, c, m, j);
      SharesDifferByOne(live, CounterAfter(live, c, a), m - a, i, j);
    }
  }

  // ---------- The parent's loop ----------

  class ProcessPool {
    /** Process ids of the children; -1 marks one that has exited. */
    const pids: array<int>
    var counter: nat
    var stop: bool

    ghost predicate Valid()
      reads this
    {
      counter < pids.Length
    }

    ghost function Live(): (live: seq<bool>)
      reads pids
      ensures |live| == pids.Length && forall i :: 0 <= i < |live| ==> live[i] == (pids[i] != -1)
    {
      seq(pids.Length, i requires 0 <= i < pids.Length reads pids => pids[i] != -1)
    }

    constructor (pids: array<int>)
      requires pids.Length > 0
      ensures Valid() && this.pids == pids && counter == 0 && !stop
    {
      this.pids, counter, stop := pids, 0, false;
    }

    /** Chooses the child that a new connection goes to, or stops when there is none. */
    method Dispatch() returns (child: Option<nat>)
      requires Valid()
      modifies this`counter, this`stop
      ensures Valid() && child == Pick(Live(), old(counter))
      ensures counter == if child.None? then old(counter) else Advance(child.value, |Live()|)
      ensures stop == (old(stop) || child.None?)
    {
      hide Advance, Pick;
      var i := Search();
      if pids[i] == -1 {
        stop := true;
        return None;
      }
      counter := Advance(i, pids.Length);
      child := Some(i);
    }

    /** Goes round once from the counter, up to the first live child. */
    method Search() returns (i: nat)
      requires Valid()
      ensures i < pids.Length
      ensures Pick(Live(), counter) == if pids[i] == -1 then None else Some(i)
    {
      hide Advance;
      i := counter;
      ghost var wrapped, live := false, Live();
      while true
        invariant i < pids.Length == |live| && (wrapped ==> i < counter)
        invariant wrapped ==> FirstFrom(live, counter) == |live| && FirstFrom(live, 0) == FirstFrom(live, i)
        invariant !wrapped ==> counter <= i && FirstFrom(live, counter) == FirstFrom(live, i)
        decreases !wrapped, pids.Length - i
      {
        if pids[i] != -1 { return; }
        assert !live[i];
        i := Advance(i, pids.Length);
        if i == counter { return; }
        if i == 0 { wrapped := true; }
      }
    }

    /** Marks the children that have exited, and stops when none is left. */
    method OnChildExit(exited: seq<int>)
      requires Valid()
      modifies this`stop, pids
      ensures Valid()
      ensures forall i :: 0 <= i < pids.Length ==> pids[i] == if old(pids[i]) in exited then -1 else old(pids[i])
      ensures stop <==> true !in Live()
    {
      for k := 0 to |exited|
        invariant forall i :: 0 <= i < pids.Length ==> pids[i] == if old(pids[i]) in exited[..k] then -1 else old(pids[i])
      {
        for i := 0 to pids.Length
          invariant forall j :: 0 <= j < i ==> pids[j] == if old(pids[j]) in exited[..k + 1] then -1 else old(pids[j])
          invariant forall j :: i <= j < pids.Length ==> pids[j] == if old(pids[j]) in exited[..k] then -1 else old(pids[j])
        {
          if pids[i] == exited[k] {
            pids[i] := -1;
          }
        }
      }
      stop := true;
      for i := 0 to pids.Length
        invariant stop <==> forall j :: 0 <= j < i ==> pids[j] == -1
        modifies this`stop
      {
        if pids[i] != -1 {
          stop := false;
        }
      }
    }
  }
}
