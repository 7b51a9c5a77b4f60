/** Runs of the sorted list in which clients put off the deadlines of their timers. */
module ExtendRuns {
  import opened Sequences
  import opened TimerAgenda
  import opened TimerSimulation
  import opened ListRuns
  import L = SortedTimerList

  datatype Call = Plain(op: Op) | Extend(id: nat, timeout: nat)

  predicate Beats(c: Call) {
    c.Plain? && c.op.Tick?
  }

  function Redated(s: set<Timer>, id: nat, expire: int): set<Timer> {
    set t | t in s :: if t.id == id then Timer(id, expire) else t
  }

  /** A pending timer that is extended is pending for its new deadline. */
  function After(a: Agenda, c: Call): Agenda {
    match c
    case Plain(op) => Step(a, op)
    case Extend(id, timeout) => a.(pending := Redated(a.pending, id, a.clock + Ticks(timeout)))
  }

  function AfterAll(a: Agenda, calls: seq<Call>): Agenda
    decreases |calls|
  {
    if calls == [] then a else AfterAll(After(a, calls[0]), calls[1..])
  }

  function CallTrace(a: Agenda, calls: seq<Call>): seq<set<nat>>
    decreases |calls|
  {
    if calls == [] then [] else (if Beats(calls[0]) then [Ids(Due(a))] else []) + CallTrace(After(a, calls[0]), calls[1..])
  }

  function ListCall(l: seq<Timer>, clock: int, c: Call): (seq<Timer>, seq<nat>) {
    match c
    case Plain(op) => ListStep(l, clock, op)
    case Extend(id, timeout) => (Extended(l, id, clock + Ticks(timeout)), [])
  }

  ghost predicate FreshCall(c: Call, used: set<nat>) {
    c.Plain? ==> Fresh(c.op, used)
  }

  function UsedBy(c: Call, used: set<nat>): set<nat> {
    if c.Plain? then Used(c.op, used) else used
  }

  /** Every timer added by the run is a new one. */
  ghost predicate FreshCalls(calls: seq<Call>, used: set<nat>)
    decreases |calls|
  {
    calls != [] ==> FreshCall(calls[0], used) && FreshCalls(calls[1..], UsedBy(calls[0], used))
  }

  /** A deadline is put off, not moved forward. */
  ghost predicate PutsOff(a: Agenda, c: Call) {
    c.Extend? ==> forall t :: t in a.pending && t.id == c.id ==> t.expire <= a.clock + Ticks(c.timeout)
  }

  ghost predicate OnlyPutsOff(a: Agenda, calls: seq<Call>)
    decreases |calls|
  {
    calls != [] ==> PutsOff(a, calls[0]) && OnlyPutsOff(After(a, calls[0]), calls[1..])
  }

  // ---------- One call ----------

  lemma ExtendIsCancelAndAdd(a: Agenda, id: nat, timeout: nat)
    ensures After(a, Extend(id, timeout)) ==
            if id in Ids(a.pending) then Step(Step(a, Cancel(id)), Add(id, timeout)) else a
  {
    var b := After(a, Extend(id, timeout));
    if id in Ids(a.pending) {
      var t :| t in a.pending && t.id == id;
      forall u ensures u in b.pending <==> u in Step(Step(a, Cancel(id)), Add(id, timeout)).pending {
        if u in a.pending && u.id != id { assert u in b.pending; }
      }
    } else {
      forall u ensures u in b.pending <==> u in a.pending {
        if u in a.pending { assert u.id in Ids(a.pending); }
      }
    }
  }

  lemma FoundIsPending(l: seq<Timer>, a: Agenda, id: nat, timeout: nat)
    requires ListRel(l, a) && PutsOff(a, Extend(id, timeout)) && Position(l, id) < |l|
    ensures var t := l[Position(l, id)];
            L.Ascending(l) && id in Ids(a.pending) && t.id == id && t.expire <= a.clock + Ticks(timeout)
  {
    var t := l[Position(l, id)];
    assert t in l && t in a.pending;
  }

  lemma ExtendedAt(l: seq<Timer>, id: nat, expire: int)
    requires Position(l, id) < |l|
    ensures Extended(l, id, expire) == L.Adjust(l[Position(l, id) := Timer(id, expire)], Position(l, id))
  {
  }

  lemma ExtendedIsReinserted(l: seq<Timer>, a: Agenda, id: nat, timeout: nat)
    requires ListRel(l, a) && PutsOff(a, Extend(id, timeout)) && Position(l, id) < |l|
    ensures id in Ids(a.pending)
    ensures Extended(l, id, a.clock + Ticks(timeout)) ==
            ListStep(ListStep(l, a.clock, Cancel(id)).0, a.clock, Add(id, timeout)).0
  {
    hide *;
    var k, t := Position(l, id), Timer(id, a.clock + Ticks(timeout));
    FoundIsPending(l, a, id, timeout);
    ExtendedAt(l, id, t.expire);
    L.ExtendedTimerIsReinserted(l, k, t.expire);
    ListCancels(l, id);
    OneListStep(l, a.clock, Cancel(id));
    OneListStep(Without(l, k), a.clock, Add(id, timeout));
  }

  lemma NothingToExtend(l: seq<Timer>, a: Agenda, id: nat)
    requires ListRel(l, a) && Position(l, id) == |l|
    ensures id !in Ids(a.pending)
  {
    forall t | t in a.pending ensures t.id != id {
      assert t in l;
    }
  }

  lemma CancelledAgenda(a: Agenda, id: nat)
    ensures var b := Step(a, Cancel(id)); b.clock == a.clock && id !in Ids(b.pending)
  {
  }

  lemma ListExtends(l: seq<Timer>, a: Agenda, id: nat, timeout: nat)
    requires ListRel(l, a) && PutsOff(a, Extend(id, timeout))
    ensures ListRel(Extended(l, id, a.clock + Ticks(timeout)), After(a, Extend(id, timeout)))
  {
    ExtendIsCancelAndAdd(a, id, timeout);
    if Position(l, id) < |l| {
      var b := Step(a, Cancel(id));
      hide ListRel, ListStep, Step, After, Extended, Ids, PutsOff, Position;
      ExtendedIsReinserted(l, a, id, timeout);
      CancelledAgenda(a, id);
      ListRefines(l, a, Cancel(id), Ids(a.pending));
      ListRefines(ListStep(l, a.clock, Cancel(id)).0, b, Add(id, timeout), Ids(b.pending));
    } else {
      NothingToExtend(l, a, id);
      NothingExtended(l, id, a.clock + Ticks(timeout));
    }
  }

  lemma ListCallRefines(l: seq<Timer>, a: Agenda, c: Call, used: set<nat>)
    requires ListRel(l, a) && Ids(a.pending) <= used && FreshCall(c, used) && PutsOff(a, c)
    ensures var (m, fired) := ListCall(l, a.clock, c);
            && ListRel(m, After(a, c)) && NoDuplicates(fired)
            && forall id :: id in fired <==> Beats(c) && id in Ids(Due(a))
  {
    match c
    case Plain(op) => ListRefines(l, a, op, used);
    case Extend(id, timeout) => ListExtends(l, a, id, timeout);
  }

  lemma CallKeepsIds(a: Agenda, c: Call, used: set<nat>)
    requires Ids(a.pending) <= used && UniqueIds(a.pending) && FreshCall(c, used)
    ensures Ids(After(a, c).pending) <= UsedBy(c, used) && UniqueIds(After(a, c).pending)
    ensures c.Extend? ==> Ids(After(a, c).pending) == Ids(a.pending)
  {
    match c
    case Plain(op) => StepKeepsIds(a, op, used);
    case Extend(id, timeout) =>
      forall i ensures i in Ids(After(a, c).pending) <==> i in Ids(a.pending) {
        if i in Ids(a.pending) {
          var t :| t in a.pending && t.id == i;
          assert (if t.id == id then Timer(id, a.clock + Ticks(timeout)) else t) in After(a, c).pending;
        }
      }
  }

  // ---------- Whole runs ----------

  /** A timer that was numbered before and is not pending never fires again, nor is it ever pending. */
  lemma {:induction false} AbsentStaysAbsent(a: Agenda, calls: seq<Call>, used: set<nat>, id: nat)
    requires FreshCalls(calls, used) && Ids(a.pending) <= used && UniqueIds(a.pending) && id in used && id !in Ids(a.pending)
    ensures id !in Ids(AfterAll(a, calls).pending)
    ensures forall j :: 0 <= j < |CallTrace(a, calls)| ==> id !in CallTrace(a, calls)[j]
    decreases |calls|
  {
    if calls != [] {
      CallKeepsIds(a, calls[0], used);
      assert id !in Ids(After(a, calls[0]).pending);
      AbsentStaysAbsent(After(a, calls[0]), calls[1..], UsedBy(calls[0], used), id);
    }
  }

  lemma OthersStay(s: set<Timer>, id: nat, expire: int, t: Timer)
    requires t in s && t.id != id
    ensures t in Redated(s, id, expire)
  {
  }

  /** No call of the run is about the timer. */
  ghost predicate LeftAlone(calls: seq<Call>, id: nat) {
    forall i :: 0 <= i < |calls| ==> calls[i] != Plain(Cancel(id)) && !(calls[i].Extend? && calls[i].id == id)
  }

  lemma LeftPending(a: Agenda, c: Call, used: set<nat>, t: Timer)
    requires Ids(a.pending) <= used && FreshCall(c, used) && t in a.pending && LeftAlone([c], t.id)
    ensures t in After(a, c).pending <==> !(Beats(c) && t.expire <= a.clock)
  {
    assert [c][0] == c && t.id in Ids(a.pending);
    if c.Extend? { OthersStay(a.pending, c.id, a.clock + Ticks(c.timeout), t); }
  }

  /** A pending timer that is left alone fires once, at its deadline. */
  lemma {:induction false} LeftAloneFiresOnce(a: Agenda, calls: seq<Call>, used: set<nat>, t: Timer)
    requires FreshCalls(calls, used) && Ids(a.pending) <= used && UniqueIds(a.pending)
    requires t in a.pending && a.clock <= t.expire && LeftAlone(calls, t.id)
    ensures forall j :: 0 <= j < |CallTrace(a, calls)| ==> (t.id in CallTrace(a, calls)[j] <==> j == t.expire - a.clock)
    decreases |calls|
  {
    if calls != [] {
      var b, more := After(a, calls[0]), UsedBy(calls[0], used);
      assert t.id in Ids(a.pending) && LeftAlone([calls[0]], t.id) && LeftAlone(calls[1..], t.id);
      LeftPending(a, calls[0], used, t);
      CallKeepsIds(a, calls[0], used);
      if Beats(calls[0]) && t.expire == a.clock {
        assert t in Due(a) && t.id !in Ids(b.pending);
        AbsentStaysAbsent(b, calls[1..], more, t.id);
      } else {
        LeftAloneFiresOnce(b, calls[1..], more, t);
      }
    }
  }

  /** A timer that is pending after a run has not fired in it. */
  lemma {:induction false} PendingHasNotFired(a: Agenda, calls: seq<Call>, used: set<nat>, id: nat)
    requires FreshCalls(calls, used) && Ids(a.pending) <= used && UniqueIds(a.pending)
    requires id in Ids(AfterAll(a, calls).pending)
    ensures forall j :: 0 <= j < |CallTrace(a, calls)| ==> id !in CallTrace(a, calls)[j]
    decreases |calls|
  {
    if calls != [] {
      var b, more := After(a, calls[0]), UsedBy(calls[0], used);
      CallKeepsIds(a, calls[0], used);
      if Beats(calls[0]) && id in Ids(Due(a)) {
        FiredIsGone(a, id);
        AbsentStaysAbsent(b, calls[1..], more, id);
      }
      PendingHasNotFired(b, calls[1..], more, id);
    }
  }

  lemma FiredIsGone(a: Agenda, id: nat)
    requires UniqueIds(a.pending) && id in Ids(Due(a))
    ensures id in Ids(a.pending) && id !in Ids(Step(a, Tick).pending)
  {
  }

  function Beaten(calls: seq<Call>): nat {
    if calls == [] then 0 else (if Beats(calls[0]) then 1 else 0) + Beaten(calls[1..])
  }

  lemma {:induction false} CallsCompose(a: Agenda, pre: seq<Call>, post: seq<Call>)
    ensures CallTrace(a, pre + post) == CallTrace(a, pre) + CallTrace(AfterAll(a, pre), post)
    ensures |CallTrace(a, pre)| == Beaten(pre) && AfterAll(a, pre).clock == a.clock + Beaten(pre)
    decreases |pre|
  {
    if pre == [] {
      assert pre + post == post;
    } else {
      assert (pre + post)[1..] == pre[1..] + post;
      CallsCompose(After(a, pre[0]), pre[1..], post);
      hide Redated;
    }
  }

  /** The numbers in use after the first calls of a run. */
  lemma {:induction false} FreshFrom(a: Agenda, pre: seq<Call>, post: seq<Call>, used: set<nat>) returns (more: set<nat>)
    requires Ids(a.pending) <= used && UniqueIds(a.pending) && FreshCalls(pre + post, used)
    ensures FreshCalls(pre, used) && FreshCalls(post, more)
    ensures Ids(AfterAll(a, pre).pending) <= more && UniqueIds(AfterAll(a, pre).pending)
    decreases |pre|
  {
    if pre == [] {
      assert pre + post == post;
      more := used;
    } else {
      assert (pre + post)[1..] == pre[1..] + post;
      hide UniqueIds, FreshCall, Ids, After, UsedBy;
      CallKeepsIds(a, pre[0], used);
      more := FreshFrom(After(a, pre[0]), pre[1..], post, UsedBy(pre[0], used));
    }
  }

  /** In a whole run from an empty container, a timer that is extended while it is pending and left alone
      from then on fires once, at its last deadline. */
  lemma ExtendedFiresOnce(clock: int, pre: seq<Call>, id: nat, timeout: nat, post: seq<Call>)
    requires FreshCalls(pre + ([Extend(id, timeout)] + post), {}) && LeftAlone(post, id)
    requires id in Ids(AfterAll(Agenda(clock, {}), pre).pending)
    ensures var trace := CallTrace(Agenda(clock, {}), pre + ([Extend(id, timeout)] + post));
            forall j :: 0 <= j < |trace| ==> (id in trace[j] <==> j == Beaten(pre) + if timeout == 0 then 1 else timeout)
  {
    var a, rest := Agenda(clock, {}), [Extend(id, timeout)] + post;
    CallsCompose(a, pre, rest);
    var used := FreshFrom(a, pre, rest, {});
    var b := AfterAll(a, pre);
    PendingHasNotFired(a, pre, {}, id);
    assert rest[0] == Extend(id, timeout) && rest[1..] == post;
    var u :| u in b.pending && u.id == id;
    var t := Timer(id, b.clock + Ticks(timeout));
    assert (if u.id == id then t else u) in After(b, rest[0]).pending;
    CallKeepsIds(b, rest[0], used);
    LeftAloneFiresOnce(After(b, rest[0]), post, used, t);
    assert CallTrace(b, rest) == CallTrace(After(b, rest[0]), post);
  }

  /** All timeouts are the same. */
  ghost predicate SameTimeout(calls: seq<Call>, k: nat) {
    forall i :: 0 <= i < |calls| ==>
      match calls[i] case Plain(op) => (op.Add? ==> Ticks(op.timeout) == k) case Extend(_, timeout) => Ticks(timeout) == k
  }

  ghost predicate Within(a: Agenda, k: nat) {
    forall t :: t in a.pending ==> t.expire <= a.clock + k
  }

  /** A caller that gives every timer the same time only puts deadlines off. */
  lemma {:induction false} SameTimeoutPutsOff(a: Agenda, calls: seq<Call>, k: nat)
    requires SameTimeout(calls, k) && Within(a, k)
    ensures OnlyPutsOff(a, calls)
    decreases |calls|
  {
    if calls != [] {
      assert Within(After(a, calls[0]), k);
      assert SameTimeout(calls[1..], k);
      SameTimeoutPutsOff(After(a, calls[0]), calls[1..], k);
    }
  }

  // ---------- The list at work ----------

  /** After `i` calls the agenda is `a`, `ids` have fired, and the numbers `used` are given out. */
  ghost predicate CallsSoFar(clock: int, calls: seq<Call>, i: nat, a: Agenda, ids: seq<set<nat>>, used: set<nat>) {
    && i <= |calls| && CallTrace(Agenda(clock, {}), calls) == ids + CallTrace(a, calls[i..])
    && FreshCalls(calls[i..], used) && OnlyPutsOff(a, calls[i..]) && Ids(a.pending) <= used && UniqueIds(a.pending)
  }

  lemma CallsBegin(clock: int, calls: seq<Call>)
    requires FreshCalls(calls, {}) && OnlyPutsOff(Agenda(clock, {}), calls)
    ensures CallsSoFar(clock, calls, 0, Agenda(clock, {}), [], {}) && ListRel([], Agenda(clock, {})) && SameCallbacks([], [])
  {
    assert calls[0..] == calls && [] + CallTrace(Agenda(clock, {}), calls) == CallTrace(Agenda(clock, {}), calls);
  }

  lemma CallsGoOn(clock: int, calls: seq<Call>, i: nat, a: Agenda, ids: seq<set<nat>>, used: set<nat>)
    requires CallsSoFar(clock, calls, i, a, ids, used) && i < |calls|
    ensures FreshCall(calls[i], used) && PutsOff(a, calls[i]) && Ids(a.pending) <= used
    ensures CallsSoFar(clock, calls, i + 1, After(a, calls[i]), ids + (if Beats(calls[i]) then [Ids(Due(a))] else []),
                       UsedBy(calls[i], used))
    ensures After(a, calls[i]).clock == if Beats(calls[i]) then a.clock + 1 else a.clock
  {
    var c, tail := calls[i], calls[i..];
    assert tail[0] == c && tail[1..] == calls[i + 1..];
    CallKeepsIds(a, c, used);
    var now := if Beats(c) then [Ids(Due(a))] else [];
    assert CallTrace(a, tail) == now + CallTrace(After(a, c), tail[1..]);
    assert ids + (now + CallTrace(After(a, c), tail[1..])) == (ids + now) + CallTrace(After(a, c), tail[1..]);
    hide UniqueIds, Ids, Due;
  }

  lemma CallsEnd(clock: int, calls: seq<Call>, a: Agenda, ids: seq<set<nat>>, used: set<nat>)
    requires CallsSoFar(clock, calls, |calls|, a, ids, used)
    ensures ids == CallTrace(Agenda(clock, {}), calls)
  {
    assert calls[|calls|..] == [] && ids + [] == ids;
  }

  lemma SameCallbacksSnoc(trace: seq<seq<nat>>, all: seq<set<nat>>, fired: seq<nat>, ids: set<nat>)
    requires SameCallbacks(trace, all) && NoDuplicates(fired) && forall id :: id in fired <==> id in ids
    ensures SameCallbacks(trace + [fired], all + [ids])
  {
  }

  lemma ExtensionFits(l: seq<Timer>, a: Agenda, c: Call)
    requires ListRel(l, a) && PutsOff(a, c) && c.Extend?
    ensures forall t :: t in l && t.id == c.id ==> t.expire <= a.clock + Ticks(c.timeout)
  {
  }

  /** One call on the list; what it fires is empty unless it is a heartbeat. */
  method DoCall(clients: ListClients, c: Call, now: int, ghost a: Agenda, ghost used: set<nat>) returns (fired: seq<nat>)
    requires clients.Valid() && clients.timers.Keys <= used && FreshCall(c, used)
    requires ListRel(clients.list.Contents(), a) && PutsOff(a, c) && a.clock == now
    modifies clients.Repr()
    ensures clients.Valid() && fresh(clients.Repr() - old(clients.Repr())) && clients.timers.Keys <= UsedBy(c, used)
    ensures (clients.list.Contents(), fired) == ListCall(old(clients.list.Contents()), now, c)
  {
    hide ListClients.Valid, ListClients.Repr, ListRel, ListStep, Extended, PutsOff;
    fired := [];
    match c
    case Plain(op) => fired := clients.Do(op, now);
    case Extend(id, timeout) =>
      ExtensionFits(clients.list.Contents(), a, c);
      clients.Extend(id, timeout, now);
  }

  /** A list whose clients only put deadlines off runs at every heartbeat the callbacks of the timers that are
      due by their last deadlines, each once. */
  method RunCalls(clock: int, calls: seq<Call>) returns (trace: seq<seq<nat>>)
    requires FreshCalls(calls, {}) && OnlyPutsOff(Agenda(clock, {}), calls)
    ensures SameCallbacks(trace, CallTrace(Agenda(clock, {}), calls))
  {
    hide ListClients.Valid, CallsSoFar, ListRel, SameCallbacks, ListCall, FreshCall, FreshCalls, PutsOff, OnlyPutsOff;
    hide After, UsedBy, Ids, Due, CallTrace;
    var clients := new ListClients();
    var now := clock;
    trace := [];
    ghost var a, ids, used := Agenda(clock, {}), [], {};
    CallsBegin(clock, calls);
    for i := 0 to |calls|
      invariant clients.Valid() && fresh(clients.Repr()) && clients.timers.Keys <= used
      invariant CallsSoFar(clock, calls, i, a, ids, used) && a.clock == now
      invariant ListRel(clients.list.Contents(), a) && SameCallbacks(trace, ids)
    {
      CallsGoOn(clock, calls, i, a, ids, used);
      ListCallRefines(clients.list.Contents(), a, calls[i], used);
      ghost var repr := clients.Repr();
      var fired := DoCall(clients, calls[i], now, a, used);
      assert clients.Repr() <= (clients.Repr() - repr) + repr;
      if Beats(calls[i]) {
        SameCallbacksSnoc(trace, ids, fired, Ids(Due(a)));
        trace, now := trace + [fired], now + 1;
        ids := ids + [Ids(Due(a))];
      } else {
        assert ids + [] == ids;
      }
      a, used := After(a, calls[i]), UsedBy(calls[i], used);
    }
    CallsEnd(clock, calls, a, ids, used);
  }

  /** In such a run a timer that was extended and is left alone from then on is run once, on the (k+1)-th
      heartbeat after it was extended last by k seconds. */
  method RunExtended(clock: int, pre: seq<Call>, id: nat, timeout: nat, post: seq<Call>) returns (trace: seq<seq<nat>>)
    requires FreshCalls(pre + ([Extend(id, timeout)] + post), {})
    requires OnlyPutsOff(Agenda(clock, {}), pre + ([Extend(id, timeout)] + post))
    requires id in Ids(AfterAll(Agenda(clock, {}), pre).pending) && LeftAlone(post, id)
    ensures forall j :: 0 <= j < |trace| ==> NoDuplicates(trace[j]) && (id in trace[j] <==> j == Beaten(pre) + if timeout == 0 then 1 else timeout)
  {
    trace := RunCalls(clock, pre + ([Extend(id, timeout)] + post));
    ExtendedFiresOnce(clock, pre, id, timeout, post);
  }
}
