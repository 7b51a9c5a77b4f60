/** The time heap at work: clients keep a pointer to their timer until it fires or is cancelled. */
module HeapRuns {
  import opened TimerAgenda
  import opened TimerSimulation
  import opened HeapRooms
  import H = TimeHeaps

  type Stored = multiset<H.HeapTimer?>

  /** The clients point to exactly the stored timers that were not cancelled, as the entries tell. */
  ghost predicate PointedTo(timers: map<nat, H.HeapTimer>, m: Stored, es: set<H.Entry>) {
    && H.OnceEach(m) && Stand(m, es)
    && (forall id :: id in timers ==> timers[id].id == id && timers[id] in m && Live(timers[id], es))
    && (forall t: H.HeapTimer :: t in m && Live(t, es) ==> t.id in timers && timers[t.id] == t)
  }

  ghost predicate Live(t: H.HeapTimer, es: set<H.Entry>) {
    H.Entry(t.id, t.expire, true) in es
  }

  ghost predicate IsEntryOf(t: H.HeapTimer, e: H.Entry) {
    t.id == e.id && t.expire == e.expire
  }

  /** Every entry is that of a stored timer. */
  ghost predicate Stand(m: Stored, es: set<H.Entry>) {
    forall e :: e in es ==> exists t: H.HeapTimer :: t in m && IsEntryOf(t, e)
  }

  /** The numbers of the stored timers are among these. */
  ghost predicate Numbered(m: Stored, used: set<nat>) {
    forall t: H.HeapTimer :: t in m ==> t.id in used
  }

  lemma StandMore(m: Stored, es: set<H.Entry>, timer: H.HeapTimer, now: Stored)
    requires Stand(m, es) && now == m + multiset{timer}
    ensures Stand(now, es + {H.Entry(timer.id, timer.expire, true)})
  {
    forall e | e in es ensures exists t: H.HeapTimer :: t in now && IsEntryOf(t, e) {
      var t: H.HeapTimer :| t in m && IsEntryOf(t, e);
      assert t in now;
    }
    assert timer in now && IsEntryOf(timer, H.Entry(timer.id, timer.expire, true));
  }

  lemma OneMoreOnce(m: Stored, used: set<nat>, timer: H.HeapTimer, now: Stored)
    requires H.OnceEach(m) && Numbered(m, used) && timer.id !in used && now == m + multiset{timer}
    ensures timer !in m && H.OnceEach(now) && Numbered(now, used + {timer.id}) && Nodes(now) == Nodes(m) + {timer}
    ensures forall t :: t in now <==> t in m || t == timer
  {
  }

  lemma AddPoints(timers: map<nat, H.HeapTimer>, m: Stored, es: set<H.Entry>, used: set<nat>, timer: H.HeapTimer, now: Stored)
    requires PointedTo(timers, m, es) && Numbered(m, used) && timer.id !in used && now == m + multiset{timer}
    ensures PointedTo(timers[timer.id := timer], now, es + {H.Entry(timer.id, timer.expire, true)})
    ensures Numbered(now, used + {timer.id}) && Nodes(now) == Nodes(m) + {timer}
  {
    StandMore(m, es, timer, now);
    OneMoreOnce(m, used, timer, now);
    assert forall t: H.HeapTimer :: t in m ==> t.id != timer.id;
    assert Stand(m, es) && H.OnceEach(m);
    hide H.OnceEach, Stand, Nodes, Numbered;
    var pointers, entries := timers[timer.id := timer], es + {H.Entry(timer.id, timer.expire, true)};
    forall id | id in pointers ensures pointers[id].id == id && pointers[id] in now && Live(pointers[id], entries) {
      assert id != timer.id ==> id in timers && Live(timers[id], es);
    }
    forall t: H.HeapTimer | t in now && Live(t, entries) ensures t.id in pointers && pointers[t.id] == t {
      assert t != timer ==> t in m && Live(t, es);
    }
  }

  lemma StandDisarmed(m: Stored, es: set<H.Entry>, id: nat)
    requires Stand(m, es)
    ensures Stand(m, H.Disarm(es, id))
  {
    forall e | e in H.Disarm(es, id) ensures exists t: H.HeapTimer :: t in m && IsEntryOf(t, e) {
      var f :| f in es && e == if f.id == id then H.Entry(f.id, f.expire, false) else f;
      var t: H.HeapTimer :| t in m && IsEntryOf(t, f);
      assert IsEntryOf(t, e);
    }
  }

  lemma DisarmedIsNotLive(t: H.HeapTimer, es: set<H.Entry>, id: nat)
    ensures Live(t, H.Disarm(es, id)) <==> Live(t, es) && t.id != id
  {
    if Live(t, es) && t.id != id {
      var e := H.Entry(t.id, t.expire, true);
      assert e in es && e in H.Disarm(es, id);
    }
  }

  lemma CancelPoints(timers: map<nat, H.HeapTimer>, m: Stored, es: set<H.Entry>, id: nat)
    requires PointedTo(timers, m, es)
    ensures PointedTo(timers - {id}, m, H.Disarm(es, id))
  {
    StandDisarmed(m, es, id);
    forall t: H.HeapTimer ensures Live(t, H.Disarm(es, id)) <==> Live(t, es) && t.id != id {
      DisarmedIsNotLive(t, es, id);
    }
    hide Stand, H.OnceEach, Live, H.Disarm;
  }

  lemma NothingToCancel(timers: map<nat, H.HeapTimer>, m: Stored, es: set<H.Entry>, id: nat)
    requires PointedTo(timers, m, es) && id !in timers
    ensures H.Disarm(es, id) == es
  {
    forall e | e in es ensures (if e.id == id then H.Entry(e.id, e.expire, false) else e) == e {
      var t: H.HeapTimer :| t in m && IsEntryOf(t, e);
      assert e.live ==> Live(t, es);
    }
    hide PointedTo;
  }

  lemma FiredAreDue(timers: map<nat, H.HeapTimer>, all: Stored, es: set<H.Entry>, cur: int, fired: seq<nat>, id: nat)
    requires PointedTo(timers, all, es) && H.Fires(es, cur, fired) && id in timers
    ensures id in fired <==> timers[id].expire <= cur
  {
    if id in fired {
      var e :| e in es && e.live && e.expire <= cur && e.id == id;
      var t: H.HeapTimer :| t in all && IsEntryOf(t, e);
      assert Live(t, es);
    } else {
      assert H.Entry(id, timers[id].expire, true) in es;
    }
  }

  lemma StandLater(kept: Stored, all: Stored, es: set<H.Entry>, cur: int)
    requires Stand(all, es) && forall t: H.HeapTimer :: t in all ==> (t in kept <==> cur < t.expire)
    ensures Stand(kept, H.After(es, cur))
  {
    forall e | e in H.After(es, cur) ensures exists t: H.HeapTimer :: t in kept && IsEntryOf(t, e) {
      var t: H.HeapTimer :| t in all && IsEntryOf(t, e);
      assert t in kept;
    }
  }

  lemma TickPoints(timers: map<nat, H.HeapTimer>, popped: seq<H.HeapTimer?>, kept: Stored, all: Stored, es: set<H.Entry>,
                   cur: int, fired: seq<nat>)
    requires PointedTo(timers, all, es) && H.Partition(popped, kept, all, cur) && forall t :: t in kept ==> cur < H.Key(t)
    requires H.Fires(es, cur, fired)
    ensures PointedTo(timers - (set id | id in fired), kept, H.After(es, cur))
  {
    KeptAreLater(popped, kept, all, cur);
    StandLater(kept, all, es, cur);
    forall id | id in timers ensures id in fired <==> timers[id].expire <= cur {
      FiredAreDue(timers, all, es, cur, fired, id);
    }
    hide H.Partition, H.Fires, H.Key, Stand, H.OnceEach;
    forall t: H.HeapTimer | t in kept ensures Live(t, H.After(es, cur)) <==> Live(t, es) {}
  }

  lemma KeptAreLater(popped: seq<H.HeapTimer?>, kept: Stored, all: Stored, cur: int)
    requires H.Partition(popped, kept, all, cur) && H.OnceEach(all) && forall t :: t in kept ==> cur < H.Key(t)
    ensures forall t: H.HeapTimer :: t in all ==> (t in kept <==> cur < t.expire)
    ensures H.OnceEach(kept) && forall t :: t in kept ==> t in all
  {
    H.PartitionIsExact(popped, kept, all, cur);
  }

  // ---------- Places taken ----------

  /** Who is stored with which deadline, cancelled or not. */
  function Deadlines(es: set<H.Entry>): set<Timer> {
    set e | e in es :: Timer(e.id, e.expire)
  }

  function DeadlineOf(t: H.HeapTimer): Timer {
    Timer(t.id, t.expire)
  }

  lemma DeadlineIsStored(m: Stored, d: Timer)
    requires H.OnceEach(m)
    ensures d in Deadlines(H.Entries(m)) <==> exists t: H.HeapTimer :: t in m && DeadlineOf(t) == d
  {
    if t: H.HeapTimer :| t in m && DeadlineOf(t) == d {
      assert t.AsEntry() in H.Entries(m);
    }
  }

  lemma OneLess(m: Stored, t: H.HeapTimer)
    requires H.OnceEach(m) && t in m
    ensures var rest := m - multiset{t};
            && H.OnceEach(rest) && DeadlineOf(t) !in Deadlines(H.Entries(rest))
            && Deadlines(H.Entries(m)) == Deadlines(H.Entries(rest)) + {DeadlineOf(t)}
  {
    var rest := m - multiset{t};
    assert forall u :: u in rest <==> u in m && u != t;
    forall d ensures d in Deadlines(H.Entries(m)) <==> d in Deadlines(H.Entries(rest)) || d == DeadlineOf(t) {
      DeadlineIsStored(m, d);
      DeadlineIsStored(rest, d);
    }
    DeadlineIsStored(rest, DeadlineOf(t));
  }

  /** There are as many deadlines as stored timers. */
  lemma {:induction false} EachTakesAPlace(m: Stored)
    requires H.OnceEach(m)
    ensures |Deadlines(H.Entries(m))| == |m|
    decreases |m|
  {
    if m == multiset{} {
      assert Deadlines(H.Entries(m)) == {};
    } else {
      var t :| t in m;
      hide H.Entries, Deadlines;
      OneLess(m, t);
      EachTakesAPlace(m - multiset{t});
    }
  }

  lemma PlacesAfter(es: set<H.Entry>, now: int, op: Op)
    ensures Agenda(if op.Tick? then now + 1 else now, Deadlines(HeapStep(es, now, op))) ==
            Keep(Agenda(now, Deadlines(es)), op)
  {
    var after := Deadlines(HeapStep(es, now, op));
    forall d ensures d in after <==> d in Keep(Agenda(now, Deadlines(es)), op).pending {
      if d in Deadlines(es) {
        var e :| e in es && Timer(e.id, e.expire) == d;
        assert op.Cancel? ==> (if e.id == op.id then H.Entry(e.id, e.expire, false) else e) in H.Disarm(es, op.id);
      }
    }
  }

  // ---------- The clients ----------

  class HeapClients {
    const heap: H.TimeHeap
    var timers: map<nat, H.HeapTimer>
    /** The numbers given to timers so far. */
    ghost var used: set<nat>

    ghost function Timers(): (m: Stored)
      reads this, heap, heap.arr
    {
      if heap.curSize <= heap.arr.Length then multiset(heap.Stored()) else multiset{}
    }

    ghost predicate Valid()
      reads this, heap, heap.arr, set t | t in Timers()
    {
      && heap.Valid() && heap.capacity > 0
      && PointedTo(timers, Timers(), H.Entries(Timers())) && Numbered(Timers(), used)
    }

    ghost function Entries(): set<H.Entry>
      reads this, heap, heap.arr, set t | t in Timers()
    {
      H.Entries(Timers())
    }

    /** What a call may change: the heap, its array, and the timers in it. */
    ghost function Repr(): set<object>
      reads this, heap, heap.arr
    {
      {this, heap, heap.arr} + Nodes(Timers())
    }

    lemma Parts()
      requires Valid()
      ensures heap.Valid() && heap.capacity > 0 && heap.curSize <= heap.arr.Length && Timers() == multiset(heap.Stored())
      ensures PointedTo(timers, Timers(), H.Entries(Timers())) && Numbered(Timers(), used) && H.OnceEach(Timers())
      ensures Repr() == {this, heap, heap.arr} + Nodes(Timers()) && Entries() == H.Entries(Timers())
    {
    }

    lemma Whole(m: Stored)
      requires heap.Valid() && heap.capacity > 0 && heap.curSize <= heap.arr.Length && multiset(heap.Stored()) == m
      requires PointedTo(timers, m, H.Entries(m)) && Numbered(m, used)
      ensures Valid() && Timers() == m
      ensures Repr() == {this, heap, heap.arr} + Nodes(m) && Entries() == H.Entries(m)
    {
    }

    /** There are as many stored timers as deadlines of entries. */
    lemma PlacesTaken()
      requires Valid()
      ensures heap.curSize == |Deadlines(Entries())|
    {
      EachTakesAPlace(Timers());
    }

    constructor (capacity: nat)
      requires capacity > 0
      ensures Valid() && fresh(Repr()) && Entries() == {} && used == {} && heap.capacity == capacity
    {
      heap := new H.TimeHeap(capacity);
      timers, used := map[], {};
    }

    /** A new timer changes nothing. */
    method NewTimer(id: nat, timeout: nat, now: int) returns (timer: H.HeapTimer)
      requires Valid()
      ensures fresh(timer) && timer.id == id && timer.expire == now + Ticks(timeout) && timer.callback
      ensures Valid() && Entries() == old(Entries()) && Repr() == old(Repr()) && heap.capacity == old(heap.capacity)
    {
      hide PointedTo, Numbered, H.HeapFrom, H.Entries;
      timer := new H.HeapTimer(id, now, Ticks(timeout));
    }

    /** `stale` tells whether the heap would read a timer that it has deleted. */
    method Insert(timer: H.HeapTimer) returns (ghost stale: bool)
      requires Valid() && timer.id !in used && timer.callback
      modifies Repr()
      ensures stale <==> |Deadlines(old(Entries()))| == old(heap.capacity)
      ensures heap.capacity == if stale then 2 * old(heap.capacity) else old(heap.capacity)
      ensures Valid() && used == old(used) + {timer.id}
      ensures Repr() <= old(Repr()) + {timer, heap.arr} && (heap.arr == old(heap.arr) || fresh(heap.arr))
      ensures Entries() == old(Entries()) + {H.Entry(timer.id, timer.expire, true)}
    {
      hide *;
      Parts();
      ghost var m, es := Timers(), Entries();
      ghost var more: Stored := m + multiset{timer};
      AddPoints(timers, m, es, used, timer, more);
      PlacesTaken();
      stale := heap.AddTimer(timer);
      IsBounded(heap);
      AsEntry(timer);
      assert multiset(heap.Stored()) == more && H.Entries(more) == es + {H.Entry(timer.id, timer.expire, true)};
      timers, used := timers[timer.id := timer], used + {timer.id};
      Whole(more);
    }

    /** `born` are the timer and the array that has grown, if it has. */
    method Add(id: nat, timeout: nat, now: int) returns (ghost born: set<object>, ghost stale: bool)
      requires Valid() && id !in used
      modifies Repr()
      ensures stale <==> |Deadlines(old(Entries()))| == old(heap.capacity)
      ensures heap.capacity == if stale then 2 * old(heap.capacity) else old(heap.capacity)
      ensures Valid() && fresh(born) && Repr() <= old(Repr()) + born && used == old(used) + {id}
      ensures Entries() == old(Entries()) + {H.Entry(id, now + Ticks(timeout), true)}
    {
      hide Valid, Repr, Entries, Deadlines;
      var timer := NewTimer(id, timeout, now);
      ArrayIsPart();
      ghost var arr := heap.arr;
      stale := Insert(timer);
      born := {timer} + if heap.arr == arr then {} else {heap.arr};
    }

    lemma ArrayIsPart()
      ensures heap.arr in Repr()
    {
    }

    method Cancel(id: nat)
      requires Valid()
      modifies Repr()
      ensures Valid() && Repr() == old(Repr()) && used == old(used) && heap.capacity == old(heap.capacity)
      ensures Entries() == H.Disarm(old(Entries()), id)
    {
      hide *;
      Parts();
      ghost var m, es := Timers(), Entries();
      CancelPoints(timers, m, es, id);
      if id in timers {
        StoredAlone(timers, m, es, id);
        heap.DelTimer(timers[id]);
        timers := timers - {id};
        Whole(m);
      } else {
        NothingToCancel(timers, m, es, id);
      }
    }

    method Tick(now: int) returns (fired: seq<nat>)
      requires Valid()
      modifies Repr()
      ensures Valid() && Repr() <= old(Repr()) && used == old(used) && heap.capacity == old(heap.capacity)
      ensures Entries() == H.After(old(Entries()), now) && H.Fires(old(Entries()), now, fired)
    {
      hide *;
      Parts();
      ghost var popped, all, es := [], Timers(), Entries();
      fired, popped := heap.Tick(now);
      IsBounded(heap);
      ghost var kept := multiset(heap.Stored());
      TickPoints(timers, popped, kept, all, es, now, fired);
      FewerNodes(popped, kept, all, now, used);
      timers := timers - set id | id in fired;
      Whole(kept);
    }

    /** One call; what it fires is empty unless it is a heartbeat. */
    method Do(op: Op, now: int) returns (fired: seq<nat>, ghost born: set<object>, ghost stale: bool)
      requires Valid() && Fresh(op, used)
      modifies Repr()
      ensures Valid() && fresh(born) && Repr() <= old(Repr()) + born && used == Used(op, old(used))
      ensures Entries() == HeapStep(old(Entries()), now, op) && HeapMayFire(old(Entries()), now, op, fired)
      ensures heap.capacity == Grown(Agenda(now, Deadlines(old(Entries()))), op, old(heap.capacity))
      ensures stale <==> op.Add? && |Deadlines(old(Entries()))| == old(heap.capacity)
    {
      hide Valid, Repr, Entries, Deadlines, H.Fires, H.After, H.Disarm;
      fired, born, stale := [], {}, false;
      match op
      case Add(id, timeout) => born, stale := Add(id, timeout, now);
      case Cancel(id) => Cancel(id);
      case Tick => fired := Tick(now);
    }
  }

  lemma StoredAlone(timers: map<nat, H.HeapTimer>, m: Stored, es: set<H.Entry>, id: nat)
    requires PointedTo(timers, m, es) && id in timers
    ensures timers[id].id == id && timers[id] in Nodes(m)
    ensures forall t :: t in m && t != timers[id] ==> t != null && t.id != timers[id].id
  {
  }

  ghost function Nodes(m: Stored): set<object> {
    set t: H.HeapTimer | t in m
  }

  lemma AsEntry(timer: H.HeapTimer)
    ensures timer.AsEntry() == H.Entry(timer.id, timer.expire, timer.callback)
  {
  }

  lemma IsBounded(heap: H.TimeHeap)
    requires heap.Valid()
    ensures heap.curSize <= heap.arr.Length
  {
  }

  lemma FewerNodes(popped: seq<H.HeapTimer?>, kept: Stored, all: Stored, cur: int, used: set<nat>)
    requires H.Partition(popped, kept, all, cur)
    ensures Nodes(kept) <= Nodes(all)
    ensures Numbered(all, used) ==> Numbered(kept, used)
  {
    assert forall t :: t in kept ==> t in all;
  }

  // ---------- Whole runs ----------

  /** `trace` is what the heap has run after `i` calls, when its entries are `es`: whatever it runs from
      then on makes a trace of the whole run. */
  ghost predicate HeapSoFar(clock: int, ops: seq<Op>, i: nat, trace: seq<seq<nat>>, es: set<H.Entry>, now: int) {
    && i <= |ops|
    && forall rest :: HeapTrace(es, now, ops[i..], rest) ==> HeapTrace({}, clock, ops, trace + rest)
  }

  lemma HeapBegins(clock: int, ops: seq<Op>)
    ensures HeapSoFar(clock, ops, 0, [], {}, clock)
  {
    assert ops[0..] == ops;
    assert forall rest: seq<seq<nat>> :: [] + rest == rest;
  }

  lemma HeapGoesOn(clock: int, ops: seq<Op>, i: nat, trace: seq<seq<nat>>, es: set<H.Entry>, now: int, fired: seq<nat>)
    requires HeapSoFar(clock, ops, i, trace, es, now) && i < |ops| && HeapMayFire(es, now, ops[i], fired)
    ensures var next := HeapStep(es, now, ops[i]);
            if ops[i].Tick? then HeapSoFar(clock, ops, i + 1, trace + [fired], next, now + 1)
            else HeapSoFar(clock, ops, i + 1, trace, next, now)
  {
    var tail, next := ops[i..], HeapStep(es, now, ops[i]);
    assert tail[0] == ops[i] && tail[1..] == ops[i + 1..];
    hide H.Fires, HeapStep;
    if ops[i].Tick? {
      forall rest | HeapTrace(next, now + 1, ops[i + 1..], rest) ensures HeapTrace({}, clock, ops, (trace + [fired]) + rest) {
        assert ([fired] + rest)[1..] == rest && ([fired] + rest)[0] == fired;
        assert HeapTrace(es, now, tail, [fired] + rest);
        assert (trace + [fired]) + rest == trace + ([fired] + rest);
      }
    }
  }

  lemma HeapEnds(clock: int, ops: seq<Op>, trace: seq<seq<nat>>, es: set<H.Entry>, now: int)
    requires HeapSoFar(clock, ops, |ops|, trace, es, now)
    ensures HeapTrace({}, clock, ops, trace)
  {
    assert HeapTrace(es, now, ops[|ops|..], []);
    assert trace + [] == trace;
  }

  /** `stale` tells whether one of the first `i` calls would have read a deleted timer; the entries are now
      `es`, in an array of the given room. */
  ghost predicate StaleSoFar(clock: int, ops: seq<Op>, capacity: nat, i: nat, es: set<H.Entry>, now: int, room: nat, stale: bool) {
    && i <= |ops| && |Deadlines(es)| <= room && room > 0
    && (AlwaysRoom(Agenda(clock, {}), ops, capacity) <==>
        !stale && AlwaysRoom(Agenda(now, Deadlines(es)), ops[i..], room))
  }

  lemma StaleBegins(clock: int, ops: seq<Op>, capacity: nat)
    requires capacity > 0
    ensures StaleSoFar(clock, ops, capacity, 0, {}, clock, capacity, false)
  {
    assert ops[0..] == ops && Deadlines({}) == {};
  }

  lemma StaleGoesOn(clock: int, ops: seq<Op>, capacity: nat, i: nat, es: set<H.Entry>, now: int, room: nat, stale: bool)
    requires StaleSoFar(clock, ops, capacity, i, es, now, room, stale) && i < |ops|
    ensures var full := ops[i].Add? && |Deadlines(es)| == room;
            StaleSoFar(clock, ops, capacity, i + 1, HeapStep(es, now, ops[i]), if ops[i].Tick? then now + 1 else now,
                       Grown(Agenda(now, Deadlines(es)), ops[i], room), stale || full)
  {
    var a := Agenda(now, Deadlines(es));
    PlacesAfter(es, now, ops[i]);
    KeepFits(a, ops[i], room);
    assert ops[i..][0] == ops[i] && ops[i..][1..] == ops[i + 1..];
    assert AlwaysRoom(a, ops[i..], room) <==>
           (ops[i].Add? ==> |a.pending| < room) && AlwaysRoom(Keep(a, ops[i]), ops[i + 1..], room);
  }

  lemma StaleEnds(clock: int, ops: seq<Op>, capacity: nat, es: set<H.Entry>, now: int, room: nat, stale: bool)
    requires StaleSoFar(clock, ops, capacity, |ops|, es, now, room, stale)
    ensures stale <==> !AlwaysRoom(Agenda(clock, {}), ops, capacity)
  {
  }

  /** The callbacks that the heap runs at each heartbeat; `stale` tells whether a call would read a timer
      that the doubling of the array has deleted. */
  method RunHeap(capacity: nat, clock: int, ops: seq<Op>) returns (trace: seq<seq<nat>>, ghost stale: bool)
    requires FreshAdds(ops, {}) && capacity > 0
    ensures HeapTrace({}, clock, ops, trace)
    ensures stale <==> !AlwaysRoom(Agenda(clock, {}), ops, capacity)
  {
    hide *;
    var clients := new HeapClients(capacity);
    var now := clock;
    trace, stale := [], false;
    FirstIsFresh(ops);
    HeapBegins(clock, ops);
    StaleBegins(clock, ops, capacity);
    for i := 0 to |ops|
      invariant clients.Valid() && fresh(clients.Repr()) && AllFresh(ops, i, clients.used)
      invariant HeapSoFar(clock, ops, i, trace, clients.Entries(), now)
      invariant StaleSoFar(clock, ops, capacity, i, clients.Entries(), now, clients.heap.capacity, stale)
    {
      NextIsFresh(ops, i, clients.used);
      ghost var es, room := clients.Entries(), clients.heap.capacity;
      var fired;
      ghost var born, again;
      fired, born, again := clients.Do(ops[i], now);
      HeapGoesOn(clock, ops, i, trace, es, now, fired);
      StaleGoesOn(clock, ops, capacity, i, es, now, room, stale);
      stale := stale || again;
      if ops[i].Tick? {
        trace, now := trace + [fired], now + 1;
      }
    }
    HeapEnds(clock, ops, trace, clients.Entries(), now);
    StaleEnds(clock, ops, capacity, clients.Entries(), now, clients.heap.capacity, stale);
  }
}
