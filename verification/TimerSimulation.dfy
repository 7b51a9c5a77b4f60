/** The sorted list, the time wheel and the time heap run the same callbacks at every heartbeat of
    every common run, when the clock advances by one slot interval per heartbeat. */
module TimerSimulation {
  import opened Sequences
  import opened TimerAgenda
  import L = SortedTimerList
  import W = TimeWheels
  import H = TimeHeaps

  ghost predicate Fresh(op: Op, used: set<nat>) {
    op.Add? ==> op.id !in used
  }

  function FiredBy(a: Agenda, op: Op): set<nat> {
    if op.Tick? then Ids(Due(a)) else {}
  }

  // ---------- The sorted list ----------

  function Position(l: seq<Timer>, id: nat): (k: nat)
    ensures k <= |l| && (k < |l| ==> l[k].id == id)
    ensures forall i :: 0 <= i < k ==> l[i].id != id
  {
    if l == [] || l[0].id == id then 0 else 1 + Position(l[1..], id)
  }

  function ListStep(l: seq<Timer>, clock: int, op: Op): (r: (seq<Timer>, seq<nat>)) {
    match op
    case Add(id, timeout) => (L.Insert(l, Timer(id, clock + Ticks(timeout))), [])
    case Cancel(id) =>
      var k := Position(l, id);
      (if k < |l| then Without(l, k) else l, [])
    case Tick =>
      var n := L.DueCount(l, clock);
      (l[n..], L.IdsOf(l[..n]))
  }

  ghost predicate EachIdOnce(l: seq<Timer>) {
    forall i, j :: 0 <= i < j < |l| ==> l[i].id != l[j].id
  }

  ghost predicate ListRel(l: seq<Timer>, a: Agenda) {
    && L.Ascending(l)
    && EachIdOnce(l)
    && (forall t :: t in l <==> t in a.pending)
  }

  lemma {:induction false} SplicedOnce(l: seq<Timer>, k: nat, t: Timer)
    requires k <= |l| && EachIdOnce(l) && forall i :: 0 <= i < |l| ==> l[i].id != t.id
    ensures EachIdOnce(Spliced(l, k, t))
  {
    var r := Spliced(l, k, t);
    forall i | 0 <= i < |r| ensures r[i] == if i < k then l[i] else if i == k then t else l[i - 1] {}
  }

  lemma ListAdd(l: seq<Timer>, a: Agenda, used: set<nat>, id: nat, timeout: nat)
    requires ListRel(l, a) && Ids(a.pending) <= used && id !in used
    ensures ListRel(ListStep(l, a.clock, Add(id, timeout)).0, Step(a, Add(id, timeout)))
  {
    var t := Timer(id, a.clock + Ticks(timeout));
    var r := L.Insert(l, t);
    L.InsertKeepsOrder(l, t);
    var k := L.InsertPoint(l, t);
    forall i | 0 <= i < |l| ensures l[i].id != id {
      assert l[i] in a.pending && l[i].id in Ids(a.pending);
    }
    SplicedOnce(l, k, t);
    forall u ensures u in r <==> u in l || u == t {
      assert u in r <==> u in multiset(r);
    }
  }

  lemma ListCancelled(l: seq<Timer>, k: nat, u: Timer)
    requires k < |l| && EachIdOnce(l)
    ensures u in Without(l, k) <==> u in l && u.id != l[k].id
  {
    var r := Without(l, k);
    if u in l && u.id != l[k].id {
      var i :| 0 <= i < |l| && l[i] == u;
      assert r[if i < k then i else i - 1] == u;
    }
    if u in r {
      var i :| 0 <= i < |r| && r[i] == u;
      assert l[if i < k then i else i + 1] == u;
    }
  }

  lemma {:induction false} ListCancel(l: seq<Timer>, a: Agenda, id: nat)
    requires ListRel(l, a)
    ensures ListRel(ListStep(l, a.clock, Cancel(id)).0, Step(a, Cancel(id)))
  {
    var k := Position(l, id);
    if k < |l| {
      var r := Without(l, k);
      forall i | 0 <= i < |r| ensures r[i] == l[if i < k then i else i + 1] {}
      forall u ensures u in r <==> u in l && u.id != id {
        ListCancelled(l, k, u);
      }
    }
  }

  lemma ListFires(l: seq<Timer>, a: Agenda, id: nat)
    requires ListRel(l, a)
    ensures id in L.IdsOf(l[..L.DueCount(l, a.clock)]) <==> id in Ids(Due(a))
  {
    var n := L.DueCount(l, a.clock);
    L.DueIsExact(l, a.clock);
    var fired := L.IdsOf(l[..n]);
    if id in fired {
      var i :| 0 <= i < n && fired[i] == id;
      assert l[i] in Due(a) && l[i].id == id;
    }
    if id in Ids(Due(a)) {
      var t :| t in Due(a) && t.id == id;
      var i :| 0 <= i < |l| && l[i] == t;
      assert fired[i] == id;
    }
  }

  lemma ListKeeps(l: seq<Timer>, a: Agenda, t: Timer)
    requires ListRel(l, a)
    ensures t in l[L.DueCount(l, a.clock)..] <==> t in Step(a, Tick).pending
  {
    var n := L.DueCount(l, a.clock);
    L.DueIsExact(l, a.clock);
    if t in l {
      var i :| 0 <= i < |l| && l[i] == t;
      if i >= n { assert l[n..][i - n] == t; }
    }
  }

  lemma {:induction false} ListTick(l: seq<Timer>, a: Agenda)
    requires ListRel(l, a)
    ensures var (l', fired) := ListStep(l, a.clock, Tick);
            && ListRel(l', Step(a, Tick)) && NoDuplicates(fired)
            && forall id :: id in fired <==> id in Ids(Due(a))
  {
    forall id ensures id in L.IdsOf(l[..L.DueCount(l, a.clock)]) <==> id in Ids(Due(a)) {
      ListFires(l, a, id);
    }
    forall t ensures t in l[L.DueCount(l, a.clock)..] <==> t in Step(a, Tick).pending {
      ListKeeps(l, a, t);
    }
  }

  lemma ListRefines(l: seq<Timer>, a: Agenda, op: Op, used: set<nat>)
    requires ListRel(l, a) && Ids(a.pending) <= used && Fresh(op, used)
    ensures var (l', fired) := ListStep(l, a.clock, op);
            && ListRel(l', Step(a, op)) && NoDuplicates(fired)
            && forall id :: id in fired <==> id in FiredBy(a, op)
  {
    match op
    case Add(id, timeout) => ListAdd(l, a, used, id, timeout);
    case Cancel(id) => ListCancel(l, a, id);
    case Tick => ListTick(l, a);
  }

  // ---------- The time wheel ----------

  ghost predicate StoredAt(w: W.Wheel, s: nat, k: nat, id: nat)
    requires w.Valid()
  {
    s < W.N && k < |w.slots[s]| && w.slots[s][k].id == id
  }

  function Cut(w: W.Wheel, s: nat, k: nat): (r: W.Wheel)
    requires w.Valid() && s < W.N && k < |w.slots[s]|
    ensures r.Valid()
  {
    w.(slots := w.slots[s := Without(w.slots[s], k)])
  }

  ghost function WheelCancel(w: W.Wheel, id: nat): (r: W.Wheel)
    requires w.Valid()
    ensures r.Valid()
  {
    if exists s: nat, k: nat :: StoredAt(w, s, k, id) then
      var s: nat, k: nat :| StoredAt(w, s, k, id);
      Cut(w, s, k)
    else w
  }

  ghost function WheelStep(w: W.Wheel, op: Op): (r: (W.Wheel, seq<nat>))
    requires w.Valid()
    ensures r.0.Valid()
  {
    match op
    case Add(id, timeout) => (W.AddTo(w, id, timeout), [])
    case Cancel(id) => (WheelCancel(w, id), [])
    case Tick => (W.Turn(w), W.Fired(w.slots[w.cur]))
  }

  ghost predicate DistinctIds(l: seq<W.SlotTimer>) {
    forall i, j :: 0 <= i < j < |l| ==> l[i].id != l[j].id
  }

  /** Timer `t` is stored in slot `s` and due when the clock has gone through what remains. */
  ghost predicate Holds(w: W.Wheel, clock: int, s: nat, t: W.SlotTimer, u: Timer)
    requires w.Valid()
  {
    s < W.N && t in w.slots[s] && u == Timer(t.id, clock + W.Remaining(w, s, t))
  }

  /** The wheel holds the pending timers and no others. */
  ghost predicate Agrees(w: W.Wheel, a: Agenda)
    requires w.Valid()
  {
    && (forall s: nat, t, u :: Holds(w, a.clock, s, t, u) ==> u in a.pending)
    && (forall u :: u in a.pending ==> exists s: nat, t :: Holds(w, a.clock, s, t, u))
  }

  ghost predicate EachOnce(w: W.Wheel)
    requires w.Valid()
  {
    && (forall s :: 0 <= s < W.N ==> DistinctIds(w.slots[s]))
    && (forall s: nat, t, s': nat, t' :: In(w, s, t) && In(w, s', t') && t.id == t'.id ==> s == s')
  }

  ghost predicate In(w: W.Wheel, s: nat, t: W.SlotTimer)
    requires w.Valid()
  {
    s < W.N && t in w.slots[s]
  }

  ghost predicate WheelRel(w: W.Wheel, a: Agenda) {
    w.Valid() && EachOnce(w) && Agrees(w, a)
  }

  lemma AddHolds(w: W.Wheel, clock: int, id: nat, timeout: nat, s: nat, t: W.SlotTimer, u: Timer)
    requires w.Valid()
    ensures var s0, t0 := W.SlotFor(w.cur, timeout), W.SlotTimer(id, Ticks(timeout) / W.N);
            && (In(W.AddTo(w, id, timeout), s, t) <==> In(w, s, t) || (s == s0 && t == t0))
            && (Holds(W.AddTo(w, id, timeout), clock, s, t, u) <==>
                Holds(w, clock, s, t, u) || (s == s0 && t == t0 && u == Timer(id, clock + Ticks(timeout))))
  {
    W.NewTimerRemains(w, id, timeout);
  }

  lemma StrangerToWheel(w: W.Wheel, a: Agenda, used: set<nat>, id: nat, s: nat, t: W.SlotTimer)
    requires WheelRel(w, a) && Ids(a.pending) <= used && id !in used && In(w, s, t)
    ensures t.id != id
  {
    assert Holds(w, a.clock, s, t, Timer(t.id, a.clock + W.Remaining(w, s, t)));
    assert t.id in Ids(a.pending);
  }

  lemma AddOnce(w: W.Wheel, a: Agenda, used: set<nat>, id: nat, timeout: nat)
    requires WheelRel(w, a) && Ids(a.pending) <= used && id !in used
    ensures EachOnce(W.AddTo(w, id, timeout))
  {
    var w' := W.AddTo(w, id, timeout);
    var s0 := W.SlotFor(w.cur, timeout);
    forall s: nat, t, s': nat, t' | In(w', s, t) && In(w', s', t') && t.id == t'.id ensures s == s' {
      AddHolds(w, 0, id, timeout, s, t, Timer(0, 0));
      AddHolds(w, 0, id, timeout, s', t', Timer(0, 0));
      if In(w, s, t) { StrangerToWheel(w, a, used, id, s, t); }
      if In(w, s', t') { StrangerToWheel(w, a, used, id, s', t'); }
    }
    var l := w'.slots[s0];
    forall i | 0 < i < |l| ensures l[i].id != l[0].id {
      assert l[i] == w.slots[s0][i - 1] && In(w, s0, l[i]);
      StrangerToWheel(w, a, used, id, s0, l[i]);
    }
  }

  lemma WheelAdd(w: W.Wheel, a: Agenda, used: set<nat>, id: nat, timeout: nat)
    requires WheelRel(w, a) && Ids(a.pending) <= used && id !in used
    ensures WheelRel(W.AddTo(w, id, timeout), Step(a, Add(id, timeout)))
  {
    var w', b := W.AddTo(w, id, timeout), Step(a, Add(id, timeout));
    AddOnce(w, a, used, id, timeout);
    forall s: nat, t, u | Holds(w', b.clock, s, t, u) ensures u in b.pending {
      AddHolds(w, a.clock, id, timeout, s, t, u);
    }
    forall u | u in b.pending ensures exists s: nat, t :: Holds(w', b.clock, s, t, u) {
      if u in a.pending {
        var s: nat, t :| Holds(w, a.clock, s, t, u);
        AddHolds(w, a.clock, id, timeout, s, t, u);
      } else {
        AddHolds(w, a.clock, id, timeout, W.SlotFor(w.cur, timeout), W.SlotTimer(id, Ticks(timeout) / W.N), u);
      }
    }
  }

  lemma WithoutById(l: seq<W.SlotTimer>, k: nat, t: W.SlotTimer)
    requires k < |l| && DistinctIds(l)
    ensures t in Without(l, k) <==> t in l && t.id != l[k].id
  {
    var r := Without(l, k);
    if t in r {
      var i :| 0 <= i < |r| && r[i] == t;
      assert t == l[if i < k then i else i + 1];
    }
    if t in l && t.id != l[k].id {
      var i :| 0 <= i < |l| && l[i] == t;
      assert r[if i < k then i else i - 1] == t;
    }
  }

  lemma WithoutDistinct(l: seq<W.SlotTimer>, k: nat)
    requires k < |l| && DistinctIds(l)
    ensures DistinctIds(Without(l, k))
  {
    var r := Without(l, k);
    forall i | 0 <= i < |r| ensures r[i] == l[if i < k then i else i + 1] {}
  }

  lemma StoredOnce(w: W.Wheel, s: nat, k: nat, s': nat, k': nat, id: nat)
    requires w.Valid() && EachOnce(w) && StoredAt(w, s, k, id) && StoredAt(w, s', k', id)
    ensures s == s' && k == k'
  {
    assert In(w, s, w.slots[s][k]) && In(w, s', w.slots[s'][k']);
  }

  /** Cancelling takes the timer out of the one place where it is stored. */
  lemma CancelIsCut(w: W.Wheel, s: nat, k: nat, id: nat)
    requires w.Valid() && EachOnce(w) && StoredAt(w, s, k, id)
    ensures WheelCancel(w, id) == Cut(w, s, k)
  {
    var s': nat, k': nat :| StoredAt(w, s', k', id) && WheelCancel(w, id) == Cut(w, s', k');
    StoredOnce(w, s, k, s', k', id);
  }

  lemma CutHolds(w: W.Wheel, s0: nat, k: nat, s: nat, t: W.SlotTimer)
    requires w.Valid() && EachOnce(w) && s0 < W.N && k < |w.slots[s0]|
    ensures In(Cut(w, s0, k), s, t) <==> In(w, s, t) && t.id != w.slots[s0][k].id
  {
    var gone := w.slots[s0][k];
    assert DistinctIds(w.slots[s0]) && In(w, s0, gone);
    WithoutById(w.slots[s0], k, t);
    if s < W.N && s != s0 {
      assert Cut(w, s0, k).slots[s] == w.slots[s];
      if In(w, s, t) {
        assert t.id == gone.id ==> s == s0;
      }
    }
  }

  lemma CancelHolds(w: W.Wheel, clock: int, id: nat, s: nat, t: W.SlotTimer, u: Timer)
    requires w.Valid() && EachOnce(w)
    ensures In(WheelCancel(w, id), s, t) <==> In(w, s, t) && t.id != id
    ensures Holds(WheelCancel(w, id), clock, s, t, u) <==> Holds(w, clock, s, t, u) && t.id != id
  {
    if s0: nat, k: nat :| StoredAt(w, s0, k, id) {
      CancelIsCut(w, s0, k, id);
      CutHolds(w, s0, k, s, t);
    } else if In(w, s, t) && t.id == id {
      var i :| 0 <= i < |w.slots[s]| && w.slots[s][i] == t;
      assert StoredAt(w, s, i, id);
    }
  }

  lemma CancelOnce(w: W.Wheel, id: nat)
    requires w.Valid() && EachOnce(w)
    ensures EachOnce(WheelCancel(w, id))
  {
    var w' := WheelCancel(w, id);
    forall s: nat, t, s': nat, t' | In(w', s, t) && In(w', s', t') && t.id == t'.id ensures s == s' {
      CancelHolds(w, 0, id, s, t, Timer(0, 0));
      CancelHolds(w, 0, id, s', t', Timer(0, 0));
    }
    if s0: nat, k: nat :| StoredAt(w, s0, k, id) {
      CancelIsCut(w, s0, k, id);
      WithoutDistinct(w.slots[s0], k);
    }
  }

  lemma WheelDrop(w: W.Wheel, a: Agenda, id: nat)
    requires WheelRel(w, a)
    ensures WheelRel(WheelCancel(w, id), Step(a, Cancel(id)))
  {
    var w', b := WheelCancel(w, id), Step(a, Cancel(id));
    CancelOnce(w, id);
    forall s: nat, t, u | Holds(w', b.clock, s, t, u) ensures u in b.pending {
      CancelHolds(w, a.clock, id, s, t, u);
    }
    forall u | u in b.pending ensures exists s: nat, t :: Holds(w', b.clock, s, t, u) {
      var s: nat, t :| Holds(w, a.clock, s, t, u);
      CancelHolds(w, a.clock, id, s, t, u);
    }
  }

  lemma {:induction false} StayDistinct(l: seq<W.SlotTimer>)
    requires DistinctIds(l)
    ensures DistinctIds(W.Stay(l))
  {
    if l != [] {
      assert forall i :: 0 <= i < |l[1..]| ==> l[1..][i] == l[i + 1];
      StayDistinct(l[1..]);
      forall t | t in W.Stay(l[1..]) ensures t.id != l[0].id {
        W.StayKeeps(l[1..], t);
      }
    }
  }

  lemma {:induction false} FiredDistinct(l: seq<W.SlotTimer>)
    requires DistinctIds(l)
    ensures NoDuplicates(W.Fired(l))
  {
    if l != [] {
      assert forall i :: 0 <= i < |l[1..]| ==> l[1..][i] == l[i + 1];
      FiredDistinct(l[1..]);
      forall id | id in W.Fired(l[1..]) ensures id != l[0].id {
        W.FiredIsDue(l[1..], id);
      }
      var rest := W.Fired(l[1..]);
      assert forall i :: 0 <= i < |rest| ==> rest[i] in rest;
    }
  }

  /** What a heartbeat makes of what the wheel holds. */
  lemma TurnHolds(w: W.Wheel, clock: int, s: nat, t: W.SlotTimer, u: Timer)
    requires w.Valid() && s < W.N
    ensures var was := if s == w.cur then W.SlotTimer(t.id, t.rotation + 1) else t;
            && (In(W.Turn(w), s, t) <==> In(w, s, was))
            && (Holds(W.Turn(w), clock + 1, s, t, u) <==> Holds(w, clock, s, was, u) && clock < u.expire)
  {
    if s == w.cur {
      W.StayKeeps(w.slots[s], t);
      W.TurnCountsDown(w, s, W.SlotTimer(t.id, t.rotation + 1));
    } else {
      W.TurnCountsDown(w, s, t);
    }
  }

  lemma FiredAreDue(w: W.Wheel, a: Agenda, id: nat)
    requires WheelRel(w, a)
    ensures id in W.Fired(w.slots[w.cur]) <==> id in Ids(Due(a))
  {
    W.FiredIsDue(w.slots[w.cur], id);
    if id in W.Fired(w.slots[w.cur]) {
      var t := W.SlotTimer(id, 0);
      W.TurnCountsDown(w, w.cur, t);
      assert Holds(w, a.clock, w.cur, t, Timer(id, a.clock));
      assert Timer(id, a.clock) in Due(a);
    }
    if id in Ids(Due(a)) {
      var u :| u in Due(a) && u.id == id;
      var s: nat, t :| Holds(w, a.clock, s, t, u);
      W.TurnCountsDown(w, s, t);
    }
  }

  lemma WheelFires(w: W.Wheel, a: Agenda)
    requires WheelRel(w, a)
    ensures NoDuplicates(W.Fired(w.slots[w.cur]))
    ensures forall id :: id in W.Fired(w.slots[w.cur]) <==> id in Ids(Due(a))
  {
    FiredDistinct(w.slots[w.cur]);
    forall id ensures id in W.Fired(w.slots[w.cur]) <==> id in Ids(Due(a)) {
      FiredAreDue(w, a, id);
    }
  }

  lemma TurnOnce(w: W.Wheel)
    requires w.Valid() && EachOnce(w)
    ensures EachOnce(W.Turn(w))
  {
    var w' := W.Turn(w);
    StayDistinct(w.slots[w.cur]);
    forall s: nat, t, s': nat, t' | In(w', s, t) && In(w', s', t') && t.id == t'.id ensures s == s' {
      TurnHolds(w, 0, s, t, Timer(0, 0));
      TurnHolds(w, 0, s', t', Timer(0, 0));
    }
  }

  lemma TurnLeavesPending(w: W.Wheel, a: Agenda, s: nat, t: W.SlotTimer, u: Timer)
    requires w.Valid() && Agrees(w, a) && Holds(W.Turn(w), a.clock + 1, s, t, u)
    ensures u in Step(a, Tick).pending
  {
    TurnHolds(w, a.clock, s, t, u);
  }

  lemma TurnKeepsPending(w: W.Wheel, a: Agenda, u: Timer) returns (s: nat, t: W.SlotTimer)
    requires w.Valid() && Agrees(w, a) && u in Step(a, Tick).pending
    ensures Holds(W.Turn(w), a.clock + 1, s, t, u)
  {
    s, t :| Holds(w, a.clock, s, t, u);
    W.TurnCountsDown(w, s, t);
    t := if s == w.cur then W.SlotTimer(t.id, t.rotation - 1) else t;
    TurnHolds(w, a.clock, s, t, u);
  }

  lemma WheelTick(w: W.Wheel, a: Agenda)
    requires WheelRel(w, a)
    ensures WheelRel(W.Turn(w), Step(a, Tick))
  {
    var w', b := W.Turn(w), Step(a, Tick);
    TurnOnce(w);
    hide EachOnce, Holds;
    forall s: nat, t, u | Holds(w', b.clock, s, t, u) ensures u in b.pending {
      TurnLeavesPending(w, a, s, t, u);
    }
    forall u | u in b.pending ensures exists s: nat, t :: Holds(w', b.clock, s, t, u) {
      var s, t := TurnKeepsPending(w, a, u);
    }
  }

  lemma WheelRefines(w: W.Wheel, a: Agenda, op: Op, used: set<nat>)
    requires WheelRel(w, a) && Ids(a.pending) <= used && Fresh(op, used)
    ensures var (w', fired) := WheelStep(w, op);
            && WheelRel(w', Step(a, op)) && NoDuplicates(fired)
            && forall id :: id in fired <==> id in FiredBy(a, op)
  {
    match op
    case Add(id, timeout) => WheelAdd(w, a, used, id, timeout);
    case Cancel(id) => WheelDrop(w, a, id);
    case Tick =>
      WheelTick(w, a);
      WheelFires(w, a);
  }

  // ---------- The time heap ----------

  function HeapStep(h: set<H.Entry>, clock: int, op: Op): set<H.Entry> {
    match op
    case Add(id, timeout) => h + {H.Entry(id, clock + Ticks(timeout), true)}
    case Cancel(id) => H.Disarm(h, id)
    case Tick => H.After(h, clock)
  }

  ghost predicate HeapRel(h: set<H.Entry>, a: Agenda, used: set<nat>) {
    && (forall e :: e in h ==> e.id in used)
    && (forall e, f :: e in h && f in h && e.id == f.id ==> e == f)
    && (forall t :: t in a.pending <==> H.Entry(t.id, t.expire, true) in h)
  }

  lemma HeapKeepsUp(h: set<H.Entry>, a: Agenda, op: Op, used: set<nat>)
    requires HeapRel(h, a, used) && Fresh(op, used)
    ensures HeapRel(HeapStep(h, a.clock, op), Step(a, op), Used(op, used))
  {
    if op.Cancel? {
      forall e | e in h && e.id != op.id ensures e in HeapStep(h, a.clock, op) {}
    }
  }

  lemma HeapFires(h: set<H.Entry>, a: Agenda, used: set<nat>, id: nat)
    requires HeapRel(h, a, used)
    ensures id in H.DueLive(h, a.clock) <==> id in Ids(Due(a))
  {
    if id in H.DueLive(h, a.clock) {
      var e :| e in h && e.live && e.expire <= a.clock && e.id == id;
      assert Timer(e.id, e.expire) in Due(a);
    }
    if id in Ids(Due(a)) {
      var t :| t in Due(a) && t.id == id;
      assert H.Entry(t.id, t.expire, true) in h;
    }
  }

  /** `fired` is what the heap may run on this call. */
  ghost predicate HeapMayFire(h: set<H.Entry>, clock: int, op: Op, fired: seq<nat>) {
    if op.Tick? then H.Fires(h, clock, fired) else fired == []
  }

  lemma HeapRefines(h: set<H.Entry>, a: Agenda, op: Op, used: set<nat>, fired: seq<nat>)
    requires HeapRel(h, a, used) && Fresh(op, used) && HeapMayFire(h, a.clock, op, fired)
    ensures HeapRel(HeapStep(h, a.clock, op), Step(a, op), Used(op, used)) && NoDuplicates(fired)
    ensures forall id :: id in fired <==> id in FiredBy(a, op)
  {
    HeapKeepsUp(h, a, op, used);
    forall id ensures id in H.DueLive(h, a.clock) <==> id in Ids(Due(a)) {
      HeapFires(h, a, used, id);
    }
  }

  // ---------- Whole runs ----------

  function ListTrace(l: seq<Timer>, clock: int, ops: seq<Op>): seq<seq<nat>>
    decreases |ops|
  {
    if ops == [] then []
    else
      var (l', fired) := ListStep(l, clock, ops[0]);
      (if ops[0].Tick? then [fired] else []) + ListTrace(l', if ops[0].Tick? then clock + 1 else clock, ops[1..])
  }

  ghost function WheelTrace(w: W.Wheel, ops: seq<Op>): seq<seq<nat>>
    requires w.Valid()
    decreases |ops|
  {
    if ops == [] then []
    else
      var (w', fired) := WheelStep(w, ops[0]);
      (if ops[0].Tick? then [fired] else []) + WheelTrace(w', ops[1..])
  }

  /** `trace` is what the heap may run at the heartbeats of a run; timers due together may come in any
      order. */
  ghost predicate HeapTrace(h: set<H.Entry>, clock: int, ops: seq<Op>, trace: seq<seq<nat>>)
    decreases |ops|
  {
    if ops == [] then trace == []
    else if ops[0].Tick? then
      && trace != [] && H.Fires(h, clock, trace[0])
      && HeapTrace(HeapStep(h, clock, ops[0]), clock + 1, ops[1..], trace[1..])
    else HeapTrace(HeapStep(h, clock, ops[0]), clock, ops[1..], trace)
  }

  /** The same timers, each once. */
  ghost predicate Runs(fired: seq<nat>, ids: set<nat>) {
    NoDuplicates(fired) && forall id :: id in fired <==> id in ids
  }

  /** The same callbacks at every heartbeat, each once. */
  ghost predicate SameCallbacks(trace: seq<seq<nat>>, ids: seq<set<nat>>) {
    |trace| == |ids| && forall j :: 0 <= j < |ids| ==> Runs(trace[j], ids[j])
  }

  lemma SameCallbacksNext(beats: bool, fired: seq<nat>, ids: set<nat>, trace: seq<seq<nat>>, rest: seq<set<nat>>)
    requires SameCallbacks(trace, rest) && NoDuplicates(fired) && (beats ==> forall id :: id in fired <==> id in ids)
    ensures SameCallbacks((if beats then [fired] else []) + trace, (if beats then [ids] else []) + rest)
  {
  }

  lemma UsedCovers(a: Agenda, op: Op, used: set<nat>)
    requires Ids(a.pending) <= used
    ensures Ids(Step(a, op).pending) <= Used(op, used)
  {
  }

  lemma FreshGoesOn(ops: seq<Op>, used: set<nat>)
    requires FreshAdds(ops, used) && ops != []
    ensures Fresh(ops[0], used) && FreshAdds(ops[1..], Used(ops[0], used))
  {
  }

  lemma Beat(a: Agenda, op: Op)
    ensures Step(a, op).clock == if op.Tick? then a.clock + 1 else a.clock
    ensures op.Tick? ==> FiredBy(a, op) == Ids(Due(a))
  {
  }

  lemma {:induction false} ListRunAgrees(l: seq<Timer>, a: Agenda, used: set<nat>, ops: seq<Op>)
    requires ListRel(l, a) && Ids(a.pending) <= used && FreshAdds(ops, used)
    ensures SameCallbacks(ListTrace(l, a.clock, ops), Trace(a, ops))
    decreases |ops|
  {
    if ops != [] {
      FreshGoesOn(ops, used);
      assert Trace(a, ops) == (if ops[0].Tick? then [Ids(Due(a))] else []) + Trace(Step(a, ops[0]), ops[1..]);
      hide ListRel, ListStep, Step, Ids, Due, FiredBy, NoDuplicates, FreshAdds, Fresh, SameCallbacks, Trace;
      var (m, fired) := ListStep(l, a.clock, ops[0]);
      var b := Step(a, ops[0]);
      Beat(a, ops[0]);
      ListRefines(l, a, ops[0], used);
      UsedCovers(a, ops[0], used);
      ListRunAgrees(m, b, Used(ops[0], used), ops[1..]);
      SameCallbacksNext(ops[0].Tick?, fired, Ids(Due(a)), ListTrace(m, b.clock, ops[1..]), Trace(b, ops[1..]));
    }
  }

  lemma {:induction false} WheelRunAgrees(w: W.Wheel, a: Agenda, used: set<nat>, ops: seq<Op>)
    requires WheelRel(w, a) && Ids(a.pending) <= used && FreshAdds(ops, used)
    ensures SameCallbacks(WheelTrace(w, ops), Trace(a, ops))
    decreases |ops|
  {
    if ops != [] {
      FreshGoesOn(ops, used);
      assert Trace(a, ops) == (if ops[0].Tick? then [Ids(Due(a))] else []) + Trace(Step(a, ops[0]), ops[1..]);
      WheelRefines(w, a, ops[0], used);
      var (v, fired) := WheelStep(w, ops[0]);
      assert WheelTrace(w, ops) == (if ops[0].Tick? then [fired] else []) + WheelTrace(v, ops[1..]);
      hide WheelRel, WheelStep, Step, Ids, Due, FiredBy, NoDuplicates, FreshAdds, Fresh, SameCallbacks, Trace, WheelTrace;
      var b := Step(a, ops[0]);
      Beat(a, ops[0]);
      UsedCovers(a, ops[0], used);
      WheelRunAgrees(v, b, Used(ops[0], used), ops[1..]);
      SameCallbacksNext(ops[0].Tick?, fired, Ids(Due(a)), WheelTrace(v, ops[1..]), Trace(b, ops[1..]));
    }
  }

  lemma {:induction false} HeapRunAgrees(h: set<H.Entry>, a: Agenda, used: set<nat>, ops: seq<Op>, trace: seq<seq<nat>>)
    requires HeapRel(h, a, used) && FreshAdds(ops, used) && HeapTrace(h, a.clock, ops, trace)
    ensures SameCallbacks(trace, Trace(a, ops))
    decreases |ops|
  {
    if ops != [] {
      hide HeapRel;
      HeapRefines(h, a, ops[0], used, if ops[0].Tick? then trace[0] else []);
      HeapRunAgrees(HeapStep(h, a.clock, ops[0]), Step(a, ops[0]), Used(ops[0], used), ops[1..],
                    if ops[0].Tick? then trace[1..] else trace);
    }
  }

  /** Every timer added from the i-th call on is a new one. */
  ghost predicate AllFresh(ops: seq<Op>, i: nat, used: set<nat>) {
    i <= |ops| && FreshAdds(ops[i..], used)
  }

  lemma NextIsFresh(ops: seq<Op>, i: nat, used: set<nat>)
    requires AllFresh(ops, i, used) && i < |ops|
    ensures Fresh(ops[i], used) && AllFresh(ops, i + 1, Used(ops[i], used))
  {
    assert ops[i..][0] == ops[i] && ops[i..][1..] == ops[i + 1..];
  }

  lemma FirstIsFresh(ops: seq<Op>)
    requires FreshAdds(ops, {})
    ensures AllFresh(ops, 0, {})
  {
    assert ops[0..] == ops;
  }

  /** Started empty at the same time, the three containers run the same callbacks, each once, at
      every heartbeat of every run of additions, cancellations and heartbeats. */
  lemma RunsAgree(clock: int, ops: seq<Op>, heap: seq<seq<nat>>)
    requires FreshAdds(ops, {}) && HeapTrace({}, clock, ops, heap)
    ensures var trace := Trace(Agenda(clock, {}), ops);
            var list, wheel := ListTrace([], clock, ops), WheelTrace(W.EmptyWheel(), ops);
            SameCallbacks(list, trace) && SameCallbacks(wheel, trace) && SameCallbacks(heap, trace)
  {
    var a := Agenda(clock, {});
    ListRunAgrees([], a, {}, ops);
    WheelRunAgrees(W.EmptyWheel(), a, {}, ops);
    HeapRunAgrees({}, a, {}, ops, heap);
  }

  /** In each container a timer that is not cancelled fires exactly once in the whole run: on the
      (k+1)-th heartbeat after its addition, for a timeout of k seconds. */
  lemma EveryTimerFiresOnTime(clock: int, pre: seq<Op>, id: nat, timeout: nat, post: seq<Op>, heap: seq<seq<nat>>)
    requires FreshAdds(pre + [Add(id, timeout)] + post, {}) && NeverCancelled(post, id)
    requires HeapTrace({}, clock, pre + [Add(id, timeout)] + post, heap)
    ensures var ops := pre + [Add(id, timeout)] + post;
            var list, wheel := ListTrace([], clock, ops), WheelTrace(W.EmptyWheel(), ops);
            && |list| == |wheel| == |heap|
            && forall j :: 0 <= j < |list| ==>
                 var now := j == Heartbeats(pre) + if timeout == 0 then 1 else timeout;
                 && NoDuplicates(list[j]) && NoDuplicates(wheel[j]) && NoDuplicates(heap[j])
                 && (id in list[j] <==> now) && (id in wheel[j] <==> now) && (id in heap[j] <==> now)
  {
    RunsAgree(clock, pre + [Add(id, timeout)] + post, heap);
    FiresExactlyOnce(clock, pre, id, timeout, post);
  }
}
