/** The sorted list at work: clients keep a pointer to their timer until it fires or is cancelled. */
module ListRuns {
  import opened Sequences
  import opened TimerAgenda
  import opened TimerSimulation
  import L = SortedTimerList

  ghost function Elements(s: seq<L.UtilTimer>): set<L.UtilTimer> {
    set n | n in s
  }

  lemma SplicedIsPart(s: seq<L.UtilTimer>, p: nat, x: L.UtilTimer)
    requires p <= |s|
    ensures Elements(Spliced(s, p, x)) <= Elements(s) + {x}
  {
  }

  lemma WithoutIsPart(s: seq<L.UtilTimer>, k: nat)
    requires k < |s|
    ensures Elements(Without(s, k)) <= Elements(s)
  {
  }

  lemma TailIsPart(s: seq<L.UtilTimer>, n: nat)
    requires n <= |s|
    ensures Elements(s[n..]) <= Elements(s)
  {
  }

  /** The clients point to exactly the timers in the list. */
  ghost predicate PointedTo(timers: map<nat, L.UtilTimer>, nodes: seq<L.UtilTimer>) {
    && NoDuplicates(nodes)
    && (forall id :: id in timers ==> timers[id].id == id && timers[id] in nodes)
    && (forall i :: 0 <= i < |nodes| ==> nodes[i].id in timers && timers[nodes[i].id] == nodes[i])
  }

  lemma PointedToSpliced(timers: map<nat, L.UtilTimer>, nodes: seq<L.UtilTimer>, p: nat, timer: L.UtilTimer)
    requires PointedTo(timers, nodes) && p <= |nodes| && timer.id !in timers
    ensures PointedTo(timers[timer.id := timer], Spliced(nodes, p, timer))
  {
    var r, now := Spliced(nodes, p, timer), timers[timer.id := timer];
    forall n ensures n in r <==> n in nodes || n == timer {
      SplicedHas(nodes, p, timer, n);
    }
    assert timer !in nodes;
    SplicedDistinct(nodes, p, timer);
    hide Spliced, NoDuplicates;
    forall i | 0 <= i < |r| ensures r[i].id in now && now[r[i].id] == r[i] {
      assert r[i] in r;
    }
  }

  lemma PointedToWithout(timers: map<nat, L.UtilTimer>, nodes: seq<L.UtilTimer>, k: nat)
    requires PointedTo(timers, nodes) && k < |nodes|
    ensures PointedTo(timers - {nodes[k].id}, Without(nodes, k))
  {
    var r, now := Without(nodes, k), timers - {nodes[k].id};
    forall i | 0 <= i < |r| ensures r[i] == nodes[if i < k then i else i + 1] {}
    forall id | id in now ensures now[id] in r {
      var i :| 0 <= i < |nodes| && nodes[i] == timers[id];
      assert r[if i < k then i else i - 1] == nodes[i];
    }
  }

  lemma PointedToFrom(timers: map<nat, L.UtilTimer>, nodes: seq<L.UtilTimer>, n: nat, fired: seq<nat>)
    requires PointedTo(timers, nodes) && n <= |nodes|
    requires |fired| == n && forall i :: 0 <= i < n ==> fired[i] == nodes[i].id
    ensures PointedTo(timers - (set id | id in fired), nodes[n..])
  {
    var r, now := nodes[n..], timers - set id | id in fired;
    assert forall j :: 0 <= j < n ==> fired[j] in fired;
    forall id | id in now ensures now[id] in r {
      var i :| 0 <= i < |nodes| && nodes[i] == timers[id];
      assert r[i - n] == nodes[i];
    }
    forall i, j | 0 <= i < |r| && 0 <= j < n ensures fired[j] != r[i].id {
      assert r[i] == nodes[n + i] && nodes[j] != nodes[n + i];
    }
  }

  lemma PositionIs(l: seq<Timer>, timers: map<nat, L.UtilTimer>, nodes: seq<L.UtilTimer>, id: nat)
    requires PointedTo(timers, nodes) && |l| == |nodes| && forall i :: 0 <= i < |l| ==> l[i].id == nodes[i].id
    ensures var k := Position(l, id); if k < |l| then id in timers && timers[id] == nodes[k] else id !in timers
  {
    if id in timers {
      var i :| 0 <= i < |nodes| && nodes[i] == timers[id];
      assert l[i].id == id;
    }
  }

  class ListClients {
    const list: L.SortTimerList
    var timers: map<nat, L.UtilTimer>

    ghost predicate Valid()
      reads this, list, list.nodes
    {
      list.Valid() && PointedTo(timers, list.nodes)
    }

    constructor ()
      ensures Valid() && fresh(Repr()) && list.Contents() == [] && timers == map[]
    {
      list := new L.SortTimerList();
      timers := map[];
    }

    ghost function Repr(): set<object>
      reads this, list
    {
      {this, list} + Elements(list.nodes)
    }

    lemma Parts()
      requires Valid()
      ensures list.Linked() && L.Ascending(list.Contents()) && PointedTo(timers, list.nodes) && list.Valid()
      ensures |list.Contents()| == |list.nodes|
      ensures forall i :: 0 <= i < |list.nodes| ==> list.Contents()[i].id == list.nodes[i].id
    {
    }

    lemma Whole()
      requires list.Linked() && L.Ascending(list.Contents()) && PointedTo(timers, list.nodes)
      ensures Valid()
    {
    }

    lemma WholeList()
      requires list.Valid() && PointedTo(timers, list.nodes)
      ensures Valid()
    {
    }

    lemma ReprIs()
      ensures Repr() == {this, list} + Elements(list.nodes)
      ensures forall n :: n in list.nodes ==> n in Repr()
    {
    }

    method Add(id: nat, timeout: nat, now: int)
      requires Valid() && id !in timers
      modifies Repr()
      ensures Valid() && fresh(Repr() - old(Repr()))
      ensures list.Contents() == L.Insert(old(list.Contents()), Timer(id, now + Ticks(timeout)))
      ensures timers.Keys == old(timers.Keys) + {id}
    {
      hide *;
      Parts();
      ReprIs();
      ghost var nodes := list.nodes;
      var t := new L.UtilTimer(id, now + Ticks(timeout));
      ghost var p := list.AddTimer(t);
      SplicedNullable(nodes, p, t);
      PointedToSpliced(timers, nodes, p, t);
      SplicedIsPart(nodes, p, t);
      timers := timers[id := t];
      WholeList();
      ReprIs();
    }

    method Cancel(id: nat)
      requires Valid()
      modifies Repr()
      ensures Valid() && Repr() <= old(Repr())
      ensures list.Contents() == ListStep(old(list.Contents()), 0, Op.Cancel(id)).0
      ensures timers.Keys <= old(timers.Keys)
    {
      hide *;
      Parts();
      ReprIs();
      ghost var l, nodes, k := list.Contents(), list.nodes, Position(list.Contents(), id);
      PositionIs(l, timers, nodes, id);
      ListCancels(l, id);
      if id in timers {
        PointedToWithout(timers, nodes, k);
        WithoutAscends(l, k);
        WithoutIsPart(nodes, k);
        assert nodes[k].id == id;
        list.DelTimer(timers[id], k);
        assert list.Contents() == Without(l, k) && list.nodes == Without(nodes, k);
        timers := timers - {id};
        Whole();
      }
      ReprIs();
    }

    /** Puts off the deadline of a timer that still waits. */
    method Extend(id: nat, timeout: nat, now: int)
      requires Valid()
      requires forall t :: t in list.Contents() && t.id == id ==> t.expire <= now + Ticks(timeout)
      modifies Repr()
      ensures Valid() && Repr() == old(Repr()) && timers == old(timers)
      ensures list.Contents() == Extended(old(list.Contents()), id, now + Ticks(timeout))
    {
      hide *;
      Parts();
      ReprIs();
      ghost var l, nodes, k := list.Contents(), list.nodes, Position(list.Contents(), id);
      PositionIs(l, timers, nodes, id);
      if id in timers {
        var timer := timers[id];
        ExtendedIs(l, id, now + Ticks(timeout));
        PutOff(list, timer, k, now + Ticks(timeout));
        assert list.Contents() == Extended(l, id, now + Ticks(timeout));
        SameNodes(timers, nodes, list.nodes);
        Whole();
      } else {
        NothingExtended(l, id, now + Ticks(timeout));
      }
      ReprIs();
    }

    method Tick(now: int) returns (fired: seq<nat>)
      requires Valid()
      modifies Repr()
      ensures Valid() && Repr() <= old(Repr())
      ensures (list.Contents(), fired) == ListStep(old(list.Contents()), now, Op.Tick)
      ensures timers.Keys <= old(timers.Keys)
    {
      hide *;
      Parts();
      ReprIs();
      ghost var l, nodes, n := list.Contents(), list.nodes, L.DueCount(list.Contents(), now);
      PointedToFrom(timers, nodes, n, L.IdsOf(l[..n]));
      ListTicks(l, now);
      TailAscends(l, n);
      TailIsPart(nodes, n);
      fired := list.Tick(now);
      timers := timers - set id | id in fired;
      Whole();
      ReprIs();
    }

    /** One call; what it fires is empty unless it is a heartbeat. */
    method Do(op: Op, now: int) returns (fired: seq<nat>)
      requires Valid() && Fresh(op, timers.Keys)
      modifies Repr()
      ensures Valid() && fresh(Repr() - old(Repr())) && timers.Keys <= Used(op, old(timers.Keys))
      ensures (list.Contents(), fired) == ListStep(old(list.Contents()), now, op)
    {
      OneListStep(list.Contents(), now, op);
      hide Valid, Repr, ListStep, L.Insert;
      fired := [];
      match op
      case Add(id, timeout) => Add(id, timeout, now);
      case Cancel(id) => Cancel(id);
      case Tick => fired := Tick(now);
    }
  }

  /** What a list makes of a new deadline for one of its timers. */
  function Extended(l: seq<Timer>, id: nat, expire: int): seq<Timer> {
    var k := Position(l, id);
    if k < |l| then L.Adjust(l[k := Timer(id, expire)], k) else l
  }

  lemma ExtendedIs(l: seq<Timer>, id: nat, expire: int)
    requires L.Ascending(l) && Position(l, id) < |l| && forall t :: t in l && t.id == id ==> t.expire <= expire
    ensures var k, t := Position(l, id), Timer(id, expire);
            && Extended(l, id, expire) == L.Adjust(l[k := t], k) && L.Ascending(Extended(l, id, expire))
            && l[k].id == id && L.Ascending(Without(l[k := t], k))
  {
    var k, t := Position(l, id), Timer(id, expire);
    L.ExtendedTimerIsReinserted(l, k, expire);
    WithoutAscends(l, k);
    assert Without(l[k := t], k) == Without(l, k);
  }

  lemma NothingExtended(l: seq<Timer>, id: nat, expire: int)
    requires Position(l, id) == |l|
    ensures Extended(l, id, expire) == l
  {
  }

  /** A client writes a new deadline into its timer and has the list adjusted. */
  method PutOff(list: L.SortTimerList, timer: L.UtilTimer, ghost k: nat, expire: int)
    requires list.Linked() && k < |list.nodes| && list.nodes[k] == timer
    requires L.Ascending(Without(list.Contents()[k := Timer(timer.id, expire)], k))
    modifies list, list.nodes
    ensures list.Linked() && multiset(list.nodes) == multiset(old(list.nodes)) && NoDuplicates(list.nodes)
    ensures list.Contents() == L.Adjust(old(list.Contents())[k := Timer(timer.id, expire)], k)
  {
    hide L.Adjust, L.Ascending, Without;
    SetDeadline(list, timer, k, expire);
    list.AdjustTimer(timer, k);
  }

  method SetDeadline(list: L.SortTimerList, timer: L.UtilTimer, ghost k: nat, expire: int)
    requires list.Linked() && k < |list.nodes| && list.nodes[k] == timer
    modifies timer`expire
    ensures list.Linked() && list.Contents() == old(list.Contents())[k := Timer(timer.id, expire)]
  {
    timer.expire := expire;
  }

  lemma SameNodes(timers: map<nat, L.UtilTimer>, was: seq<L.UtilTimer>, now: seq<L.UtilTimer>)
    requires PointedTo(timers, was) && multiset(now) == multiset(was) && NoDuplicates(now)
    ensures PointedTo(timers, now) && Elements(now) == Elements(was)
  {
    forall n ensures n in now <==> n in was {
      assert n in now <==> n in multiset(now);
    }
    forall i | 0 <= i < |now| ensures now[i].id in timers && timers[now[i].id] == now[i] {
      assert now[i] in was;
    }
  }

  lemma ListCancels(l: seq<Timer>, id: nat)
    ensures var k := Position(l, id); ListStep(l, 0, Op.Cancel(id)).0 == if k < |l| then Without(l, k) else l
  {
  }

  lemma OneListStep(l: seq<Timer>, now: int, op: Op)
    ensures op.Add? ==> ListStep(l, now, op) == (L.Insert(l, Timer(op.id, now + Ticks(op.timeout))), [])
    ensures op.Cancel? ==> ListStep(l, now, op) == (ListStep(l, 0, op).0, [])
  {
  }

  lemma ListTicks(l: seq<Timer>, now: int)
    ensures var n := L.DueCount(l, now); ListStep(l, now, Op.Tick) == (l[n..], L.IdsOf(l[..n]))
  {
  }

  lemma WithoutAscends(l: seq<Timer>, k: nat)
    requires L.Ascending(l) && k < |l|
    ensures L.Ascending(Without(l, k))
  {
    forall i | 0 <= i < |Without(l, k)| ensures Without(l, k)[i] == l[if i < k then i else i + 1] {}
  }

  lemma TailAscends(l: seq<Timer>, n: nat)
    requires L.Ascending(l) && n <= |l|
    ensures L.Ascending(l[n..])
  {
  }

  lemma SplicedNullable(s: seq<L.UtilTimer>, p: nat, x: L.UtilTimer)
    requires p <= |s|
    ensures Spliced<L.UtilTimer?>(s, p, x) == Spliced<L.UtilTimer>(s, p, x)
  {
  }

  /** `trace` is what the list has run after `i` calls; it holds `l` then. */
  ghost predicate ListSoFar(clock: int, ops: seq<Op>, i: nat, trace: seq<seq<nat>>, l: seq<Timer>, now: int) {
    i <= |ops| && ListTrace([], clock, ops) == trace + ListTrace(l, now, ops[i..])
  }

  lemma ListBegins(clock: int, ops: seq<Op>)
    ensures ListSoFar(clock, ops, 0, [], [], clock)
  {
    assert ops[0..] == ops;
  }

  lemma ListGoesOn(clock: int, ops: seq<Op>, i: nat, trace: seq<seq<nat>>, l: seq<Timer>, now: int)
    requires ListSoFar(clock, ops, i, trace, l, now) && i < |ops|
    ensures var (m, fired) := ListStep(l, now, ops[i]);
            if ops[i].Tick? then ListSoFar(clock, ops, i + 1, trace + [fired], m, now + 1)
            else ListSoFar(clock, ops, i + 1, trace, m, now)
  {
    var rest := ops[i..];
    assert rest[0] == ops[i] && rest[1..] == ops[i + 1..];
    var (m, fired) := ListStep(l, now, ops[i]);
    if ops[i].Tick? {
      var tail := ListTrace(m, now + 1, ops[i + 1..]);
      assert trace + ([fired] + tail) == trace + [fired] + tail;
    } else {
      var tail := ListTrace(m, now, ops[i + 1..]);
      assert [] + tail == tail;
    }
  }

  lemma ListEnds(clock: int, ops: seq<Op>, trace: seq<seq<nat>>, l: seq<Timer>, now: int)
    requires ListSoFar(clock, ops, |ops|, trace, l, now)
    ensures trace == ListTrace([], clock, ops)
  {
    assert ops[|ops|..] == [] && trace + [] == trace;
  }

  /** The callbacks that the list runs at each heartbeat. */
  method RunList(clock: int, ops: seq<Op>) returns (trace: seq<seq<nat>>)
    requires FreshAdds(ops, {})
    ensures trace == ListTrace([], clock, ops)
  {
    var clients := new ListClients();
    var now := clock;
    trace := [];
    ghost var used: set<nat> := {};
    FirstIsFresh(ops);
    ListBegins(clock, ops);
    hide ListSoFar, AllFresh, ListClients.Valid, FreshAdds, ListTrace, ListStep, Fresh;
    for i := 0 to |ops|
      invariant clients.Valid() && fresh(clients.Repr())
      invariant clients.timers.Keys <= used && AllFresh(ops, i, used)
      invariant ListSoFar(clock, ops, i, trace, clients.list.Contents(), now)
    {
      NextIsFresh(ops, i, used);
      ListGoesOn(clock, ops, i, trace, clients.list.Contents(), now);
      ghost var repr := clients.Repr();
      var fired := clients.Do(ops[i], now);
      assert clients.Repr() <= (clients.Repr() - repr) + repr;
      if ops[i].Tick? {
        trace, now := trace + [fired], now + 1;
      }
      used := Used(ops[i], used);
    }
    ListEnds(clock, ops, trace, clients.list.Contents(), now);
  }
}
