/** The time wheel at work: clients keep a pointer to their timer until it fires or is cancelled. */
module WheelRuns {
  import opened Sequences
  import opened TimerAgenda
  import opened TimerSimulation
  import opened WheelOrders
  import W = TimeWheels

  // ---------- Nodes and what they stand for ----------

  /** The nodes of each slot stand for its contents. */
  ghost predicate Matches(lists: seq<seq<W.TwTimer>>, w: W.Wheel) {
    && w.Valid() && |lists| == W.N
    && (forall s :: 0 <= s < W.N ==> |lists[s]| == |w.slots[s]| && NoDuplicates(lists[s]))
    && (forall s, i :: 0 <= s < W.N && 0 <= i < |lists[s]| ==>
          lists[s][i].timeSlot == s && lists[s][i].id == w.slots[s][i].id)
  }

  /** The clients point to exactly these timers. */
  ghost predicate PointedTo(timers: map<nat, W.TwTimer>, nodes: set<W.TwTimer>) {
    && (forall id :: id in timers ==> timers[id].id == id && timers[id] in nodes)
    && (forall n :: n in nodes ==> n.id in timers && timers[n.id] == n)
  }

  lemma NodeAt(lists: seq<seq<W.TwTimer>>, n: W.TwTimer) returns (s: nat, i: nat)
    requires n in W.NodesOf(lists)
    ensures s < |lists| && i < |lists[s]| && lists[s][i] == n
  {
    s, i :| s < |lists| && i < |lists[s]| && lists[s][i] == n;
  }

  lemma InSlot(lists: seq<seq<W.TwTimer>>, w: W.Wheel, s: nat, t: W.SlotTimer) returns (n: W.TwTimer)
    requires Matches(lists, w) && s < W.N && t in w.slots[s]
    ensures n in W.NodesOf(lists) && n.id == t.id && n.timeSlot == s
  {
    var i :| 0 <= i < |w.slots[s]| && w.slots[s][i] == t;
    n := lists[s][i];
  }

  /** Clients' timers have different numbers, so that none is stored twice. */
  lemma StoredOncePointed(lists: seq<seq<W.TwTimer>>, w: W.Wheel, timers: map<nat, W.TwTimer>)
    requires Matches(lists, w) && PointedTo(timers, W.NodesOf(lists))
    ensures EachOnce(w)
  {
    forall s, i, j | 0 <= s < W.N && 0 <= i < j < |w.slots[s]| ensures w.slots[s][i].id != w.slots[s][j].id {
      assert lists[s][i] in W.NodesOf(lists) && lists[s][j] in W.NodesOf(lists);
      assert lists[s][i] != lists[s][j];
    }
    forall s: nat, t, s': nat, t' | In(w, s, t) && In(w, s', t') && t.id == t'.id ensures s == s' {
      var n := InSlot(lists, w, s, t);
      var n' := InSlot(lists, w, s', t');
    }
  }

  // ---------- The three calls ----------

  lemma AddPoints(lists: seq<seq<W.TwTimer>>, timers: map<nat, W.TwTimer>, s: nat, timer: W.TwTimer)
    requires PointedTo(timers, W.NodesOf(lists)) && s < |lists| && timer.id !in timers
    ensures PointedTo(timers[timer.id := timer], W.NodesOf(lists[s := [timer] + lists[s]]))
    ensures W.NodesOf(lists[s := [timer] + lists[s]]) == W.NodesOf(lists) + {timer}
  {
    var now := lists[s := [timer] + lists[s]];
    forall n | n in W.NodesOf(lists) ensures n in W.NodesOf(now) {
      var r, i := NodeAt(lists, n);
      assert now[r][if r == s then i + 1 else i] == n;
    }
    assert now[s][0] == timer;
    forall n | n in W.NodesOf(now) ensures n in W.NodesOf(lists) || n == timer {
      var r, i := NodeAt(now, n);
      assert r == s && i > 0 ==> lists[s][i - 1] == n;
    }
  }

  lemma CancelPoints(lists: seq<seq<W.TwTimer>>, w: W.Wheel, timers: map<nat, W.TwTimer>, s: nat, k: nat)
    requires Matches(lists, w) && PointedTo(timers, W.NodesOf(lists)) && s < W.N && k < |lists[s]|
    ensures PointedTo(timers - {lists[s][k].id}, W.NodesOf(lists[s := Without(lists[s], k)]))
    ensures W.NodesOf(lists[s := Without(lists[s], k)]) <= W.NodesOf(lists)
  {
    var now, gone := lists[s := Without(lists[s], k)], lists[s][k];
    forall n | n in W.NodesOf(lists) && n != gone ensures n in W.NodesOf(now) {
      var r, i := NodeAt(lists, n);
      assert now[r][if r == s && i > k then i - 1 else i] == n;
    }
    forall n | n in W.NodesOf(now) ensures n in W.NodesOf(lists) && n != gone {
      var r, i := NodeAt(now, n);
      var j := if r == s && i >= k then i + 1 else i;
      assert lists[r][j] == n;
      assert r == s ==> lists[s][j] != lists[s][k];
    }
    assert gone in W.NodesOf(lists);
  }

  lemma FiredDoesNotStay(l: seq<W.SlotTimer>, id: nat, t: W.SlotTimer)
    requires DistinctIds(l) && id in W.Fired(l) && t in W.Stay(l)
    ensures t.id != id
  {
    W.StayKeeps(l, t);
    W.FiredIsDue(l, id);
    var i :| 0 <= i < |l| && l[i] == W.SlotTimer(t.id, t.rotation + 1);
    var j :| 0 <= j < |l| && l[j] == W.SlotTimer(id, 0);
    assert i != j;
  }

  lemma TurnKeepsNode(lists: seq<seq<W.TwTimer>>, w: W.Wheel, now: seq<seq<W.TwTimer>>, timers: map<nat, W.TwTimer>, n: W.TwTimer)
    requires Matches(lists, w) && PointedTo(timers, W.NodesOf(lists))
    requires Matches(now, W.Turn(w)) && W.NodesOf(now) <= W.NodesOf(lists) && n in W.NodesOf(lists)
    ensures n in W.NodesOf(now) <==> n.id !in W.Fired(w.slots[w.cur])
  {
    var s, i := NodeAt(lists, n);
    var t := w.slots[s][i];
    W.FiredIsDue(w.slots[w.cur], n.id);
    if n.id !in W.Fired(w.slots[w.cur]) {
      var after := if s == w.cur then W.SlotTimer(t.id, t.rotation - 1) else t;
      W.StayKeeps(w.slots[w.cur], after);
      var m := InSlot(now, W.Turn(w), s, after);
    } else if n in W.NodesOf(now) {
      var r, j := NodeAt(now, n);
      var f := InSlot(lists, w, w.cur, W.SlotTimer(n.id, 0));
      StoredOncePointed(lists, w, timers);
      FiredDoesNotStay(w.slots[w.cur], n.id, W.Turn(w).slots[r][j]);
    }
  }

  lemma TurnPoints(lists: seq<seq<W.TwTimer>>, w: W.Wheel, now: seq<seq<W.TwTimer>>, timers: map<nat, W.TwTimer>)
    requires Matches(lists, w) && PointedTo(timers, W.NodesOf(lists))
    requires Matches(now, W.Turn(w)) && W.NodesOf(now) <= W.NodesOf(lists)
    ensures PointedTo(timers - (set id | id in W.Fired(w.slots[w.cur])), W.NodesOf(now))
  {
    forall n | n in W.NodesOf(lists) ensures n in W.NodesOf(now) <==> n.id !in W.Fired(w.slots[w.cur]) {
      TurnKeepsNode(lists, w, now, timers, n);
    }
  }

  // ---------- The clients ----------

  class WheelClients {
    const wheel: W.TimeWheel
    var timers: map<nat, W.TwTimer>

    ghost predicate Valid()
      reads this, wheel, wheel.slots, wheel.Nodes()
    {
      wheel.Valid() && PointedTo(timers, wheel.Nodes())
    }

    ghost function Repr(): set<object>
      reads this, wheel
    {
      {this, wheel, wheel.slots} + wheel.Nodes()
    }

    lemma Parts()
      requires Valid()
      ensures wheel.Valid() && Matches(wheel.lists, wheel.Contents()) && PointedTo(timers, W.NodesOf(wheel.lists))
      ensures wheel.Contents().Valid() && wheel.Contents().cur == wheel.curSlot
    {
    }

    lemma ReprIs()
      ensures Repr() == {this, wheel, wheel.slots} + W.NodesOf(wheel.lists) && wheel.Nodes() == W.NodesOf(wheel.lists)
    {
    }

    lemma Whole()
      requires wheel.Valid() && PointedTo(timers, W.NodesOf(wheel.lists))
      ensures Valid()
    {
    }

    constructor ()
      ensures Valid() && fresh(Repr()) && wheel.Contents() == W.EmptyWheel() && timers == map[]
    {
      wheel := new W.TimeWheel();
      timers := map[];
    }

    method Add(id: nat, timeout: nat)
      requires Valid() && id !in timers
      modifies Repr()
      ensures Valid() && fresh(Repr() - old(Repr())) && timers.Keys == old(timers.Keys) + {id}
      ensures wheel.Contents() == W.AddTo(old(wheel.Contents()), id, timeout)
    {
      hide *;
      Parts();
      ReprIs();
      ghost var lists, s := wheel.lists, W.SlotFor(wheel.curSlot, timeout);
      SlotsMatch();
      var timer := wheel.AddTimer(timeout, id);
      AddPoints(lists, timers, s, timer);
      timers := timers[id := timer];
      Whole();
      ReprIs();
    }

    lemma SlotsMatch()
      requires wheel.Valid()
      ensures |wheel.lists| == W.N && forall timeout :: W.SlotFor(wheel.curSlot, timeout) < W.N
    {
    }

    method Cancel(id: nat)
      requires Valid()
      modifies Repr()
      ensures Valid() && Repr() <= old(Repr()) && timers.Keys <= old(timers.Keys)
      ensures old(wheel.Contents().Valid()) && wheel.Contents() == WheelCancel(old(wheel.Contents()), id)
    {
      hide *;
      Parts();
      ReprIs();
      ghost var lists, w := wheel.lists, wheel.Contents();
      if id in timers {
        var timer := timers[id];
        ghost var s, k := CancelsAt(lists, w, timers, id);
        wheel.DelTimer(timer, k);
        timers := timers - {id};
        Whole();
      } else {
        NotStored(lists, w, timers, id);
      }
      ReprIs();
    }

    /** `stale` tells whether the heartbeat would read a deleted timer. */
    method Tick() returns (fired: seq<nat>, ghost stale: bool)
      requires Valid()
      modifies Repr()
      ensures Valid() && Repr() <= old(Repr()) && timers.Keys <= old(timers.Keys)
      ensures old(wheel.Contents().Valid()) && (wheel.Contents(), fired) == WheelStep(old(wheel.Contents()), Op.Tick)
      ensures stale <==> !SafeStep(old(wheel.Contents()), Op.Tick)
    {
      hide *;
      Parts();
      ReprIs();
      ghost var lists, w := wheel.lists, wheel.Contents();
      WheelTicks(w);
      SafeTick(w);
      fired, stale := wheel.Tick();
      ListsMatch(wheel);
      ReprIs();
      TurnPoints(lists, w, wheel.lists, timers);
      timers := timers - set id | id in fired;
      Whole();
      ReprIs();
    }

    /** One call; what it fires is empty unless it is a heartbeat. */
    method Do(op: Op) returns (fired: seq<nat>, ghost stale: bool)
      requires Valid() && Fresh(op, timers.Keys)
      modifies Repr()
      ensures Valid() && fresh(Repr() - old(Repr())) && timers.Keys <= Used(op, old(timers.Keys))
      ensures old(wheel.Contents().Valid()) && (wheel.Contents(), fired) == WheelStep(old(wheel.Contents()), op)
      ensures stale <==> !SafeStep(old(wheel.Contents()), op)
    {
      Parts();
      OneWheelStep(wheel.Contents(), op);
      hide Valid, Repr, WheelStep, WheelCancel, W.AddTo;
      OtherwiseSafe(wheel.Contents(), op);
      fired, stale := [], false;
      match op
      case Add(id, timeout) => Add(id, timeout);
      case Cancel(id) => Cancel(id);
      case Tick => fired, stale := Tick();
    }
  }

  lemma CancelsAt(lists: seq<seq<W.TwTimer>>, w: W.Wheel, timers: map<nat, W.TwTimer>, id: nat) returns (s: nat, k: nat)
    requires Matches(lists, w) && PointedTo(timers, W.NodesOf(lists)) && id in timers
    ensures s == timers[id].timeSlot < W.N == |lists| && k < |lists[s]| && lists[s][k] == timers[id]
    ensures w.Valid() && k < |w.slots[s]| && WheelCancel(w, id) == w.(slots := w.slots[s := Without(w.slots[s], k)])
    ensures PointedTo(timers - {id}, W.NodesOf(lists[s := Without(lists[s], k)]))
    ensures W.NodesOf(lists[s := Without(lists[s], k)]) <= W.NodesOf(lists)
  {
    s, k := NodeAt(lists, timers[id]);
    StoredOncePointed(lists, w, timers);
    CancelPoints(lists, w, timers, s, k);
    CancelIsCut(w, s, k, id);
  }

  lemma SafeTick(w: W.Wheel)
    requires w.Valid()
    ensures SafeStep(w, Op.Tick) <==> W.WalkAsWritten(w.slots[w.cur], true).0
  {
  }

  lemma OtherwiseSafe(w: W.Wheel, op: Op)
    requires w.Valid()
    ensures !op.Tick? ==> SafeStep(w, op)
  {
  }

  lemma OneWheelStep(w: W.Wheel, op: Op)
    requires w.Valid()
    ensures op.Add? ==> WheelStep(w, op) == (W.AddTo(w, op.id, op.timeout), [])
    ensures op.Cancel? ==> WheelStep(w, op) == (WheelCancel(w, op.id), [])
  {
  }

  lemma WheelTicks(w: W.Wheel)
    requires w.Valid()
    ensures WheelStep(w, Op.Tick) == (W.Turn(w), W.Fired(w.slots[w.cur]))
  {
  }

  lemma ListsMatch(wheel: W.TimeWheel)
    requires wheel.Valid()
    ensures Matches(wheel.lists, wheel.Contents())
  {
  }

  lemma NotStored(lists: seq<seq<W.TwTimer>>, w: W.Wheel, timers: map<nat, W.TwTimer>, id: nat)
    requires Matches(lists, w) && PointedTo(timers, W.NodesOf(lists)) && id !in timers
    ensures WheelCancel(w, id) == w
  {
    forall s: nat, k: nat | s < W.N && k < |w.slots[s]| ensures !StoredAt(w, s, k, id) {
      assert lists[s][k] in W.NodesOf(lists);
    }
  }

  // ---------- Whole runs ----------

  /** `trace` is what the wheel has run after `i` calls; it is `w` then. */
  ghost predicate WheelSoFar(ops: seq<Op>, i: nat, trace: seq<seq<nat>>, w: W.Wheel) {
    w.Valid() && i <= |ops| && WheelTrace(W.EmptyWheel(), ops) == trace + WheelTrace(w, ops[i..])
  }

  lemma WheelBegins(ops: seq<Op>)
    ensures WheelSoFar(ops, 0, [], W.EmptyWheel())
  {
    assert ops[0..] == ops;
  }

  lemma WheelGoesOn(ops: seq<Op>, i: nat, trace: seq<seq<nat>>, w: W.Wheel)
    requires WheelSoFar(ops, i, trace, w) && i < |ops|
    ensures w.Valid() && var (v, fired) := WheelStep(w, ops[i]);
            WheelSoFar(ops, i + 1, if ops[i].Tick? then trace + [fired] else trace, v)
  {
    var rest := ops[i..];
    assert rest[0] == ops[i] && rest[1..] == ops[i + 1..];
    var (v, fired) := WheelStep(w, ops[i]);
    var tail := WheelTrace(v, ops[i + 1..]);
    assert trace + ([fired] + tail) == trace + [fired] + tail && [] + tail == tail;
  }

  lemma WheelEnds(ops: seq<Op>, trace: seq<seq<nat>>, w: W.Wheel)
    requires WheelSoFar(ops, |ops|, trace, w)
    ensures trace == WheelTrace(W.EmptyWheel(), ops)
  {
    assert ops[|ops|..] == [] && trace + [] == trace;
  }

  /** `stale` tells whether one of the first `i` calls would have read a deleted timer; the wheel is `w` now. */
  ghost predicate StaleSoFar(ops: seq<Op>, i: nat, w: W.Wheel, stale: bool) {
    w.Valid() && i <= |ops| && (ReadsNoDeleted(W.EmptyWheel(), ops) <==> !stale && ReadsNoDeleted(w, ops[i..]))
  }

  lemma StaleBegins(ops: seq<Op>)
    ensures StaleSoFar(ops, 0, W.EmptyWheel(), false)
  {
    assert ops[0..] == ops;
  }

  lemma StaleGoesOn(ops: seq<Op>, i: nat, w: W.Wheel, stale: bool)
    requires StaleSoFar(ops, i, w, stale) && i < |ops|
    ensures w.Valid() && StaleSoFar(ops, i + 1, WheelStep(w, ops[i]).0, stale || !SafeStep(w, ops[i]))
  {
    var rest := ops[i..];
    assert rest[0] == ops[i] && rest[1..] == ops[i + 1..];
    assert ReadsNoDeleted(w, rest) <==> SafeStep(w, rest[0]) && ReadsNoDeleted(WheelStep(w, rest[0]).0, rest[1..]);
  }

  lemma StaleEnds(ops: seq<Op>, w: W.Wheel, stale: bool)
    requires StaleSoFar(ops, |ops|, w, stale)
    ensures stale <==> !ReadsNoDeleted(W.EmptyWheel(), ops)
  {
  }

  /** The callbacks that the wheel runs at each heartbeat; `stale` tells whether a heartbeat would read a
      timer that it has deleted: exactly if at one of them a due timer lies, in the order of the additions,
      between two of its slot of which the later is not due yet. */
  method RunWheel(clock: int, ops: seq<Op>) returns (trace: seq<seq<nat>>, ghost stale: bool)
    requires FreshAdds(ops, {})
    ensures trace == WheelTrace(W.EmptyWheel(), ops)
    ensures stale <==> !AllClean([], clock, ops)
  {
    var clients := new WheelClients();
    trace, stale := [], false;
    ghost var used: set<nat> := {};
    FirstIsFresh(ops);
    WheelBegins(ops);
    StaleBegins(ops);
    hide WheelSoFar, StaleSoFar, AllFresh, WheelClients.Valid, WheelClients.Repr, SafeStep, WheelStep, WheelTrace, FreshAdds;
    for i := 0 to |ops|
      invariant clients.Valid() && fresh(clients.Repr())
      invariant clients.timers.Keys <= used && AllFresh(ops, i, used)
      invariant WheelSoFar(ops, i, trace, clients.wheel.Contents())
      invariant StaleSoFar(ops, i, clients.wheel.Contents(), stale)
    {
      NextIsFresh(ops, i, used);
      WheelGoesOn(ops, i, trace, clients.wheel.Contents());
      StaleGoesOn(ops, i, clients.wheel.Contents(), stale);
      ghost var repr := clients.Repr();
      var fired;
      ghost var again;
      fired, again := clients.Do(ops[i]);
      stale := stale || again;
      assert clients.Repr() <= (clients.Repr() - repr) + repr;
      if ops[i].Tick? {
        trace := trace + [fired];
      }
      used := Used(ops[i], used);
    }
    WheelEnds(ops, trace, clients.wheel.Contents());
    StaleEnds(ops, clients.wheel.Contents(), stale);
    SafeRunsExactly(clock, ops);
  }
}
