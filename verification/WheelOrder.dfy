/** In which runs the wheel, as written, deletes a timer that it goes on to read. The lists of its slots
    keep the order in which timers were added, so that this can be told from the calls alone. */
module WheelOrders {
  import opened Sequences
  import opened TimerAgenda
  import opened TimerSimulation
  import W = TimeWheels

  // ---------- Told from the calls ----------

  /** The pending timers in the order in which they were added, without those of one number. */
  function DropId(p: seq<Timer>, id: nat): seq<Timer> {
    if p == [] then []
    else
      var front, last := p[..|p| - 1], p[|p| - 1];
      DropId(front, id) + if last.id == id then [] else [last]
  }

  function DropDue(p: seq<Timer>, clock: int): seq<Timer> {
    if p == [] then []
    else
      var front, last := p[..|p| - 1], p[|p| - 1];
      DropDue(front, clock) + if last.expire <= clock then [] else [last]
  }

  function After(p: seq<Timer>, clock: int, op: Op): seq<Timer> {
    match op
    case Add(id, timeout) => p + [Timer(id, clock + Ticks(timeout))]
    case Cancel(id) => DropId(p, id)
    case Tick => DropDue(p, clock)
  }

  /** The timer shares the slot that the heartbeat at `clock` goes through. */
  predicate Meets(t: Timer, clock: int) {
    (t.expire - clock) % W.N == 0
  }

  /** No due timer was added after one of its slot and before one of its slot that is not due yet. */
  ghost predicate Clean(p: seq<Timer>, clock: int) {
    forall i, j, k :: 0 <= i < j < k < |p| && Meets(p[i], clock) && p[j].expire == clock && Meets(p[k], clock) ==>
      p[k].expire == clock
  }

  ghost predicate AllClean(p: seq<Timer>, clock: int, ops: seq<Op>)
    decreases |ops|
  {
    ops != [] ==>
      && (ops[0].Tick? ==> Clean(p, clock))
      && AllClean(After(p, clock, ops[0]), if ops[0].Tick? then clock + 1 else clock, ops[1..])
  }

  // ---------- What the wheel does ----------

  ghost predicate SafeStep(w: W.Wheel, op: Op)
    requires w.Valid()
  {
    op.Tick? ==> W.WalkAsWritten(w.slots[w.cur], true).0
  }

  /** No heartbeat of the run reads a deleted timer. */
  ghost predicate ReadsNoDeleted(w: W.Wheel, ops: seq<Op>)
    requires w.Valid()
    decreases |ops|
  {
    ops != [] ==>
      && SafeStep(w, ops[0])
      && ReadsNoDeleted(WheelStep(w, ops[0]).0, ops[1..])
  }

  ghost predicate NotPast(p: seq<Timer>, clock: int) {
    forall i :: 0 <= i < |p| ==> clock <= p[i].expire
  }

  /** What a slot holds of one timer. */
  function Part(t: Timer, clock: int, cur: int, s: int): seq<W.SlotTimer>
    requires clock <= t.expire
  {
    if (t.expire - clock) % W.N == (s - cur) % W.N then [W.SlotTimer(t.id, (t.expire - clock) / W.N)] else []
  }

  /** What a slot holds: its timers, the latest first. */
  function SlotList(p: seq<Timer>, clock: int, cur: int, s: int): seq<W.SlotTimer>
    requires NotPast(p, clock)
  {
    if p == [] then []
    else
      var front, last := p[..|p| - 1], p[|p| - 1];
      Part(last, clock, cur, s) + SlotList(front, clock, cur, s)
  }

  ghost predicate InOrder(w: W.Wheel, p: seq<Timer>, clock: int) {
    w.Valid() && NotPast(p, clock) && forall s :: 0 <= s < W.N ==> w.slots[s] == SlotList(p, clock, w.cur, s)
  }

  // ---------- One heartbeat ----------

  /** Every due timer is the first one of its slot. */
  ghost predicate DueFirst(p: seq<Timer>, clock: int) {
    forall i, j :: 0 <= i < j < |p| && Meets(p[i], clock) ==> p[j].expire != clock
  }

  lemma LastInSlot(p: seq<Timer>, clock: int, cur: int)
    requires NotPast(p, clock) && p != []
    ensures var front, t := p[..|p| - 1], p[|p| - 1];
            && NotPast(front, clock) && clock <= t.expire
            && SlotList(p, clock, cur, cur) ==
               (if Meets(t, clock) then [W.SlotTimer(t.id, (t.expire - clock) / W.N)] else []) + SlotList(front, clock, cur, cur)
  {
  }

  lemma {:induction false} EmptySlot(p: seq<Timer>, clock: int, cur: int)
    requires NotPast(p, clock)
    ensures SlotList(p, clock, cur, cur) == [] <==> forall i :: 0 <= i < |p| ==> !Meets(p[i], clock)
    decreases |p|
  {
    if p != [] {
      LastInSlot(p, clock, cur);
      hide SlotList, Meets, NotPast;
      var front := p[..|p| - 1];
      EmptySlot(front, clock, cur);
      assert forall i :: 0 <= i < |front| ==> front[i] == p[i];
    }
  }

  lemma MeetsLater(t: Timer, clock: int)
    requires clock <= t.expire && Meets(t, clock)
    ensures (t.expire - clock) / W.N > 0 <==> t.expire > clock
  {
  }

  lemma CleanBy(p: seq<Timer>, clock: int)
    requires p != []
    ensures var front, t := p[..|p| - 1], p[|p| - 1];
            && (DueFirst(p, clock) <==> DueFirst(front, clock) && (t.expire == clock ==> forall i :: 0 <= i < |front| ==> !Meets(front[i], clock)))
            && (Clean(p, clock) <==> Clean(front, clock) && (Meets(t, clock) && t.expire != clock ==> DueFirst(front, clock)))
            && (DueFirst(front, clock) ==> Clean(front, clock))
  {
    var n := |p| - 1;
    assert forall i :: 0 <= i < n ==> p[..n][i] == p[i];
  }

  lemma WalkBy(h: W.SlotTimer, l: seq<W.SlotTimer>, atHead: bool)
    ensures W.WalkAsWritten([h] + l, atHead).0 ==
            if h.rotation > 0 then W.WalkAsWritten(l, false).0
            else (atHead || l == []) && W.WalkAsWritten(l, atHead).0
  {
    assert ([h] + l)[1..] == l && ([h] + l)[0] == h;
  }

  /** The pass as written over the current slot. */
  lemma {:induction false} WalkTellsOrder(p: seq<Timer>, clock: int, cur: int)
    requires NotPast(p, clock)
    ensures W.WalkAsWritten(SlotList(p, clock, cur, cur), true).0 <==> Clean(p, clock)
    ensures W.WalkAsWritten(SlotList(p, clock, cur, cur), false).0 <==> DueFirst(p, clock)
    decreases |p|
  {
    if p != [] {
      var front, t := p[..|p| - 1], p[|p| - 1];
      LastInSlot(p, clock, cur);
      WalkTellsOrder(front, clock, cur);
      EmptySlot(front, clock, cur);
      CleanBy(p, clock);
      var l := SlotList(front, clock, cur, cur);
      if Meets(t, clock) {
        MeetsLater(t, clock);
        var h := W.SlotTimer(t.id, (t.expire - clock) / W.N);
        WalkBy(h, l, true);
        WalkBy(h, l, false);
        hide *;
      } else {
        assert t.expire != clock;
        assert [] + l == l;
        hide *;
      }
    }
  }

  // ---------- Every call keeps the order ----------

  lemma OneMore(p: seq<Timer>, t: Timer, clock: int, cur: int, s: int)
    requires NotPast(p, clock) && clock <= t.expire
    ensures NotPast(p + [t], clock) && SlotList(p + [t], clock, cur, s) == Part(t, clock, cur, s) + SlotList(p, clock, cur, s)
  {
    assert (p + [t])[..|p|] == p && (p + [t])[|p|] == t;
  }

  lemma EmptyLists(clock: int, cur: int, s: int, next: int)
    ensures NotPast([], clock) && NotPast([], clock + 1) && SlotList([], clock, cur, s) == [] && SlotList([], clock + 1, next, s) == []
    ensures W.Stay([]) == [] && DropDue([], clock) == [] && forall id :: DropId([], id) == [] && Others([], id) == []
  {
  }

  lemma Snoc(p: seq<Timer>, clock: int, id: nat) returns (front: seq<Timer>, t: Timer)
    requires p != [] && NotPast(p, clock)
    ensures front == p[..|p| - 1] && t == p[|p| - 1] && p == front + [t] && |front| < |p|
    ensures NotPast(front, clock) && clock <= t.expire
    ensures DropId(p, id) == DropId(front, id) + if t.id == id then [] else [t]
    ensures DropDue(p, clock) == DropDue(front, clock) + if t.expire <= clock then [] else [t]
  {
    front, t := p[..|p| - 1], p[|p| - 1];
  }

  lemma SlotOfTicks(cur: nat, timeout: nat, s: nat)
    requires cur < W.N && s < W.N
    ensures Ticks(timeout) % W.N == (s - cur) % W.N <==> s == W.SlotFor(cur, timeout)
  {
    assert (s - cur) % W.N == if s >= cur then s - cur else s - cur + W.N;
  }

  lemma AddKeepsOrder(w: W.Wheel, p: seq<Timer>, clock: int, id: nat, timeout: nat)
    requires InOrder(w, p, clock)
    ensures InOrder(W.AddTo(w, id, timeout), p + [Timer(id, clock + Ticks(timeout))], clock)
  {
    var t := Timer(id, clock + Ticks(timeout));
    forall s | 0 <= s < W.N ensures W.AddTo(w, id, timeout).slots[s] == SlotList(p + [t], clock, w.cur, s) {
      OneMore(p, t, clock, w.cur, s);
      SlotOfTicks(w.cur, timeout, s);
    }
    OneMore(p, t, clock, w.cur, 0);
  }

  function Others(l: seq<W.SlotTimer>, id: nat): seq<W.SlotTimer> {
    if l == [] then [] else (if l[0].id == id then [] else [l[0]]) + Others(l[1..], id)
  }

  lemma WithoutTail(l: seq<W.SlotTimer>, k: nat)
    requires k < |l|
    ensures Without(l, k) == if k == 0 then l[1..] else [l[0]] + Without(l[1..], k - 1)
  {
    if k > 0 {
      assert l[..k] == [l[0]] + l[1..][..k - 1] && l[1..][k..] == l[k + 1..];
    }
  }

  lemma {:induction false} OthersAre(l: seq<W.SlotTimer>, id: nat, k: nat)
    requires DistinctIds(l) && (if k < |l| then l[k].id == id else forall i :: 0 <= i < |l| ==> l[i].id != id)
    ensures Others(l, id) == if k < |l| then Without(l, k) else l
    decreases |l|
  {
    if l != [] {
      var rest := l[1..];
      assert forall i :: 0 <= i < |rest| ==> rest[i] == l[i + 1];
      OthersAre(rest, id, if k == 0 then |l| else k - 1);
      if k < |l| { WithoutTail(l, k); }
      hide Without, DistinctIds;
      assert [l[0]] + rest == l && [] + rest == rest;
    }
  }

  lemma OthersOfPart(t: Timer, clock: int, cur: int, s: int, l: seq<W.SlotTimer>, id: nat)
    requires clock <= t.expire
    ensures Others(Part(t, clock, cur, s) + l, id) == (if t.id == id then [] else Part(t, clock, cur, s)) + Others(l, id)
  {
    var h := W.SlotTimer(t.id, (t.expire - clock) / W.N);
    assert ([h] + l)[1..] == l && ([h] + l)[0] == h && [] + l == l && [] + Others(l, id) == Others(l, id);
  }

  lemma {:induction false} DroppedSlot(p: seq<Timer>, clock: int, cur: int, s: int, id: nat)
    requires NotPast(p, clock)
    ensures NotPast(DropId(p, id), clock)
    ensures SlotList(DropId(p, id), clock, cur, s) == Others(SlotList(p, clock, cur, s), id)
    decreases |p|
  {
    if p == [] {
      EmptyLists(clock, cur, s, cur);
    } else {
      hide *;
      var front, t := Snoc(p, clock, id);
      DroppedSlot(front, clock, cur, s, id);
      var rest := DropId(front, id);
      OneMore(front, t, clock, cur, s);
      OneMore(rest, t, clock, cur, s);
      OthersOfPart(t, clock, cur, s, SlotList(front, clock, cur, s), id);
      assert rest + [] == rest && [] + SlotList(rest, clock, cur, s) == SlotList(rest, clock, cur, s);
    }
  }

  lemma CancelledSlot(w: W.Wheel, id: nat, s: nat)
    requires w.Valid() && EachOnce(w) && s < W.N
    ensures WheelCancel(w, id).slots[s] == Others(w.slots[s], id)
  {
    var l := w.slots[s];
    if r: nat, k: nat :| StoredAt(w, r, k, id) {
      CancelIsCut(w, r, k, id);
      forall i | 0 <= i < |l| && l[i].id == id ensures r == s && i == k {
        StoredOnce(w, r, k, s, i, id);
      }
      OthersAre(l, id, if r == s then k else |l|);
    } else {
      forall i | 0 <= i < |l| ensures l[i].id != id {
        assert !StoredAt(w, s, i, id);
      }
      OthersAre(l, id, |l|);
    }
  }

  lemma CancelKeepsOrder(w: W.Wheel, p: seq<Timer>, clock: int, id: nat)
    requires InOrder(w, p, clock) && EachOnce(w)
    ensures InOrder(WheelCancel(w, id), DropId(p, id), clock)
  {
    DroppedSlot(p, clock, w.cur, 0, id);
    forall s | 0 <= s < W.N ensures WheelCancel(w, id).slots[s] == SlotList(DropId(p, id), clock, w.cur, s) {
      CancelledSlot(w, id, s);
      DroppedSlot(p, clock, w.cur, s, id);
    }
    CancelKeepsCur(w, id);
  }

  lemma CancelKeepsCur(w: W.Wheel, id: nat)
    requires w.Valid()
    ensures WheelCancel(w, id).cur == w.cur
  {
  }

  /** Dividing by the number of slots, one less than a multiple and otherwise. */
  lemma OneLess(d: nat)
    requires d > 0
    ensures (d - 1) % W.N == if d % W.N == 0 then W.N - 1 else d % W.N - 1
    ensures (d - 1) / W.N == if d % W.N == 0 then d / W.N - 1 else d / W.N
    ensures d % W.N == 0 ==> d / W.N > 0
  {
  }

  lemma SlotsApart(cur: nat, s: nat)
    requires cur < W.N && s < W.N
    ensures (s - cur) % W.N == if s >= cur then s - cur else s - cur + W.N
    ensures var c := (cur + 1) % W.N; (s - c) % W.N == if s == cur then W.N - 1 else (s - cur) % W.N - 1
  {
    var c := (cur + 1) % W.N;
    assert c == if cur + 1 == W.N then 0 else cur + 1;
    assert (s - c) % W.N == if s >= c then s - c else s - c + W.N;
  }

  lemma OneTurn(e: int, clock: int, cur: nat, s: nat)
    requires clock < e && cur < W.N && s < W.N
    ensures (e - (clock + 1)) % W.N == (s - (cur + 1) % W.N) % W.N <==> (e - clock) % W.N == (s - cur) % W.N
    ensures (e - clock) % W.N == (s - cur) % W.N ==>
              (e - (clock + 1)) / W.N == (e - clock) / W.N - (if s == cur then 1 else 0)
              && (s == cur ==> (e - clock) / W.N > 0)
  {
    OneLess(e - clock);
    SlotsApart(cur, s);
    assert e - (clock + 1) == e - clock - 1;
  }

  lemma PartOfDue(t: Timer, clock: int, cur: nat, s: nat)
    requires t.expire == clock && cur < W.N && s < W.N
    ensures Part(t, clock, cur, s) == if s == cur then [W.SlotTimer(t.id, 0)] else []
  {
    assert (s - cur) % W.N == if s >= cur then s - cur else s - cur + W.N;
  }

  lemma PartOfLater(t: Timer, clock: int, cur: nat, s: nat)
    requires clock < t.expire && cur < W.N && s < W.N
    ensures var now, after := Part(t, clock, cur, s), Part(t, clock + 1, (cur + 1) % W.N, s);
            if s == cur && now != [] then now[0].rotation > 0 && after == [W.SlotTimer(t.id, now[0].rotation - 1)] && |now| == 1 && now[0].id == t.id
            else after == now
  {
    OneTurn(t.expire, clock, cur, s);
  }

  lemma StayOfPart(t: Timer, clock: int, cur: nat, s: nat, l: seq<W.SlotTimer>)
    requires clock <= t.expire && cur < W.N && s < W.N
    ensures var now, after := Part(t, clock, cur, s), (cur + 1) % W.N;
            if t.expire <= clock then (if s == cur then W.Stay(now + l) == W.Stay(l) else now + l == l)
            else if s == cur then W.Stay(now + l) == Part(t, clock + 1, after, s) + W.Stay(l)
            else Part(t, clock + 1, after, s) == now
  {
    var now := Part(t, clock, cur, s);
    if clock < t.expire { PartOfLater(t, clock, cur, s); } else { PartOfDue(t, clock, cur, s); }
    W.StayOf(if now != [] then now[0] else W.SlotTimer(0, 0), l);
    hide Part, W.Stay;
    assert [] + l == l && [] + W.Stay(l) == W.Stay(l);
    assert now != [] && |now| == 1 ==> now == [now[0]];
  }

  lemma {:induction false} TurnedSlot(p: seq<Timer>, clock: int, cur: nat, s: nat)
    requires NotPast(p, clock) && cur < W.N && s < W.N
    ensures NotPast(DropDue(p, clock), clock + 1)
    ensures var l := SlotList(p, clock, cur, s);
            SlotList(DropDue(p, clock), clock + 1, (cur + 1) % W.N, s) == if s == cur then W.Stay(l) else l
    decreases |p|
  {
    if p == [] {
      EmptyLists(clock, cur, s, (cur + 1) % W.N);
    } else {
      hide *;
      var front, t := Snoc(p, clock, 0);
      TurnedSlot(front, clock, cur, s);
      var l, rest, next := SlotList(front, clock, cur, s), DropDue(front, clock), (cur + 1) % W.N;
      OneMore(front, t, clock, cur, s);
      StayOfPart(t, clock, cur, s, l);
      if clock < t.expire {
        OneMore(rest, t, clock + 1, next, s);
      } else {
        assert rest + [] == rest;
      }
    }
  }

  lemma SlotAfterTurn(w: W.Wheel, s: nat)
    requires w.Valid() && s < W.N
    ensures W.Turn(w).Valid() && W.Turn(w).cur == (w.cur + 1) % W.N
    ensures W.Turn(w).slots[s] == if s == w.cur then W.Stay(w.slots[s]) else w.slots[s]
  {
  }

  lemma TurnedInOrder(w: W.Wheel, p: seq<Timer>, clock: int, s: nat)
    requires InOrder(w, p, clock) && s < W.N
    ensures W.Turn(w).Valid() && NotPast(DropDue(p, clock), clock + 1)
    ensures W.Turn(w).slots[s] == SlotList(DropDue(p, clock), clock + 1, W.Turn(w).cur, s)
  {
    hide DropDue, SlotList, W.Stay, NotPast, W.Turn;
    SlotAfterTurn(w, s);
    TurnedSlot(p, clock, w.cur, s);
  }

  lemma TurnKeepsOrder(w: W.Wheel, p: seq<Timer>, clock: int)
    requires InOrder(w, p, clock)
    ensures InOrder(W.Turn(w), DropDue(p, clock), clock + 1)
  {
    hide DropDue, SlotList, W.Stay, NotPast, W.Turn;
    TurnedInOrder(w, p, clock, 0);
    forall s | 0 <= s < W.N ensures W.Turn(w).slots[s] == SlotList(DropDue(p, clock), clock + 1, W.Turn(w).cur, s) {
      TurnedInOrder(w, p, clock, s);
    }
  }

  // ---------- Whole runs ----------

  lemma StepKeepsOrder(w: W.Wheel, p: seq<Timer>, clock: int, op: Op)
    requires InOrder(w, p, clock) && EachOnce(w)
    ensures InOrder(WheelStep(w, op).0, After(p, clock, op), if op.Tick? then clock + 1 else clock)
  {
    match op
    case Add(id, timeout) => AddKeepsOrder(w, p, clock, id, timeout);
    case Cancel(id) => CancelKeepsOrder(w, p, clock, id);
    case Tick => TurnKeepsOrder(w, p, clock);
  }

  lemma OrderedSlot(w: W.Wheel, p: seq<Timer>, clock: int)
    requires InOrder(w, p, clock)
    ensures w.Valid() && w.cur < |w.slots| && NotPast(p, clock) && w.slots[w.cur] == SlotList(p, clock, w.cur, w.cur)
  {
  }

  lemma RelatedWheel(w: W.Wheel, a: Agenda)
    requires WheelRel(w, a)
    ensures w.Valid() && EachOnce(w)
  {
  }

  lemma {:induction false} RunTellsOrder(w: W.Wheel, a: Agenda, p: seq<Timer>, used: set<nat>, ops: seq<Op>)
    requires WheelRel(w, a) && Ids(a.pending) <= used && FreshAdds(ops, used) && InOrder(w, p, a.clock)
    ensures ReadsNoDeleted(w, ops) <==> AllClean(p, a.clock, ops)
    decreases |ops|
  {
    if ops != [] {
      OrderedSlot(w, p, a.clock);
      WalkTellsOrder(p, a.clock, w.cur);
      FreshGoesOn(ops, used);
      RelatedWheel(w, a);
      Beat(a, ops[0]);
      hide SlotList, NotPast, Ids, Step, WheelStep, After, Clean, InOrder, WheelRel, EachOnce, NoDuplicates, FiredBy, FreshAdds, W.WalkAsWritten;
      StepKeepsOrder(w, p, a.clock, ops[0]);
      WheelRefines(w, a, ops[0], used);
      UsedCovers(a, ops[0], used);
      RunTellsOrder(WheelStep(w, ops[0]).0, Step(a, ops[0]), After(p, a.clock, ops[0]), Used(ops[0], used), ops[1..]);
    }
  }

  /** From the empty wheel, no heartbeat of a run reads a deleted timer exactly when at no heartbeat a due
      timer was added between one of its slot and a later one of its slot that is not due yet. */
  lemma SafeRunsExactly(clock: int, ops: seq<Op>)
    requires FreshAdds(ops, {})
    ensures ReadsNoDeleted(W.EmptyWheel(), ops) <==> AllClean([], clock, ops)
  {
    RunTellsOrder(W.EmptyWheel(), Agenda(clock, {}), [], {}, ops);
  }

  lemma OneCall(p: seq<Timer>, clock: int, op: Op, rest: seq<Op>)
    ensures AllClean(p, clock, [op] + rest) <==>
            (op.Tick? ==> Clean(p, clock)) && AllClean(After(p, clock, op), if op.Tick? then clock + 1 else clock, rest)
  {
    assert ([op] + rest)[0] == op && ([op] + rest)[1..] == rest;
  }

  lemma OneFresh(op: Op, rest: seq<Op>, used: set<nat>)
    ensures FreshAdds([op] + rest, used) <==> (op.Add? ==> op.id !in used) && FreshAdds(rest, Used(op, used))
  {
    assert ([op] + rest)[0] == op && ([op] + rest)[1..] == rest;
  }

  /** Three additions and two heartbeats, from the i-th call on. */
  function UnsafeRun(i: nat): seq<Op>
    requires i <= 5
    decreases 5 - i
  {
    if i == 5 then [] else [match i case 0 => Add(0, 1) case 1 => Add(1, 1) case 2 => Add(2, 61) case _ => Tick] + UnsafeRun(i + 1)
  }

  lemma UnsafeRunIsFresh()
    ensures FreshAdds(UnsafeRun(0), {})
  {
    hide FreshAdds, UnsafeRun;
    UnsafeRunIs();
    assert FreshAdds(UnsafeRun(5), {0, 1, 2}) by { NoneToAdd({0, 1, 2}); }
    OneFresh(Tick, UnsafeRun(5), {0, 1, 2});
    OneFresh(Tick, UnsafeRun(4), {0, 1, 2});
    OneFresh(Add(2, 61), UnsafeRun(3), {0, 1});
    OneFresh(Add(1, 1), UnsafeRun(2), {0});
    OneFresh(Add(0, 1), UnsafeRun(1), {});
    assert {0, 1} + {2} == {0, 1, 2} && {0} + {1} == {0, 1} && {} + {0} == {0};
  }

  lemma NoneToAdd(used: set<nat>)
    ensures FreshAdds([], used)
  {
  }

  lemma UnsafeRunIs()
    ensures UnsafeRun(0) == [Add(0, 1)] + UnsafeRun(1) && UnsafeRun(1) == [Add(1, 1)] + UnsafeRun(2)
    ensures UnsafeRun(2) == [Add(2, 61)] + UnsafeRun(3) && UnsafeRun(3) == [Tick] + UnsafeRun(4)
    ensures UnsafeRun(4) == [Tick] + UnsafeRun(5) && UnsafeRun(5) == []
    ensures UnsafeRun(0) == [Add(0, 1), Add(1, 1), Add(2, 61), Tick, Tick]
  {
    assert UnsafeRun(4) == [Tick] && UnsafeRun(3) == [Tick, Tick] && UnsafeRun(2) == [Add(2, 61), Tick, Tick];
    assert UnsafeRun(1) == [Add(1, 1), Add(2, 61), Tick, Tick];
  }

  lemma AfterIs(p: seq<Timer>, clock: int, id: nat, timeout: nat)
    requires timeout > 0
    ensures After(p, clock, Add(id, timeout)) == p + [Timer(id, clock + timeout)] && After(p, clock, Tick) == DropDue(p, clock)
  {
  }

  lemma UncleanQueue(clock: int)
    ensures !Clean([Timer(0, clock + 1), Timer(1, clock + 1), Timer(2, clock + 61)], clock + 1)
  {
    var p := [Timer(0, clock + 1), Timer(1, clock + 1), Timer(2, clock + 61)];
    assert Meets(p[0], clock + 1) && p[1].expire == clock + 1 && Meets(p[2], clock + 1);
  }

  lemma UnsafeRunIsUnclean(clock: int)
    ensures !AllClean([], clock, UnsafeRun(0))
  {
    var p0 := [] + [Timer(0, clock + 1)];
    var p1 := p0 + [Timer(1, clock + 1)];
    var p := p1 + [Timer(2, clock + 61)];
    AfterIs([], clock, 0, 1);
    AfterIs(p0, clock, 1, 1);
    AfterIs(p1, clock, 2, 61);
    AfterIs(p, clock, 2, 61);
    hide *;
    UncleanQueue(clock);
    assert p == [Timer(0, clock + 1), Timer(1, clock + 1), Timer(2, clock + 61)];
    NothingDue(p, clock);
    UnsafeRunIs();
    OneCall(p, clock + 1, Tick, UnsafeRun(5));
    OneCall(p, clock, Tick, UnsafeRun(4));
    OneCall(p1, clock, Add(2, 61), UnsafeRun(3));
    OneCall(p0, clock, Add(1, 1), UnsafeRun(2));
    OneCall([], clock, Add(0, 1), UnsafeRun(1));
  }

  /** Timeouts of 1, 1 and 61 and two heartbeats: the second timer takes the first with it, and the pass
      goes on to read that one. */
  lemma SuccessorIsRead()
    ensures !ReadsNoDeleted(W.EmptyWheel(), [Add(0, 1), Add(1, 1), Add(2, 61), Tick, Tick])
  {
    hide *;
    UnsafeRunIs();
    UnsafeRunIsFresh();
    UnsafeRunIsUnclean(0);
    SafeRunsExactly(0, UnsafeRun(0));
  }

  lemma {:induction false} NothingDue(p: seq<Timer>, clock: int)
    requires forall i :: 0 <= i < |p| ==> clock < p[i].expire
    ensures DropDue(p, clock) == p
  {
    if p != [] {
      NothingDue(p[..|p| - 1], clock);
      assert p == p[..|p| - 1] + [p[|p| - 1]];
    }
  }

  lemma {:induction false} DropIdKeeps(p: seq<Timer>, id: nat, i: nat) returns (j: nat)
    requires i < |DropId(p, id)|
    ensures j < |p| && DropId(p, id)[i] == p[j]
  {
    var n := |p| - 1;
    if i < |DropId(p[..n], id)| {
      j := DropIdKeeps(p[..n], id, i);
    } else {
      j := n;
    }
  }

  lemma {:induction false} DropDueKeeps(p: seq<Timer>, clock: int, i: nat) returns (j: nat)
    requires i < |DropDue(p, clock)|
    ensures j < |p| && DropDue(p, clock)[i] == p[j] && clock < p[j].expire
  {
    var n := |p| - 1;
    if i < |DropDue(p[..n], clock)| {
      j := DropDueKeeps(p[..n], clock, i);
    } else {
      j := n;
    }
  }

  /** All timers are due within a turn of the wheel. */
  ghost predicate Soon(p: seq<Timer>, clock: int) {
    forall i :: 0 <= i < |p| ==> clock <= p[i].expire < clock + W.N
  }

  lemma SoonStaysSoon(p: seq<Timer>, clock: int, op: Op)
    requires Soon(p, clock) && (op.Add? ==> Ticks(op.timeout) < W.N)
    ensures Soon(After(p, clock, op), if op.Tick? then clock + 1 else clock)
  {
    var q := After(p, clock, op);
    if op.Cancel? {
      forall i | 0 <= i < |q| ensures clock <= q[i].expire < clock + W.N {
        var j := DropIdKeeps(p, op.id, i);
      }
    } else if op.Tick? {
      forall i | 0 <= i < |q| ensures clock + 1 <= q[i].expire < clock + W.N {
        var j := DropDueKeeps(p, clock, i);
      }
    }
  }

  /** A run whose timeouts are all shorter than a turn of the wheel reads no deleted timer. */
  lemma {:induction false} ShortTimeoutsAreClean(p: seq<Timer>, clock: int, ops: seq<Op>)
    requires Soon(p, clock) && forall i :: 0 <= i < |ops| && ops[i].Add? ==> Ticks(ops[i].timeout) < W.N
    ensures AllClean(p, clock, ops)
    decreases |ops|
  {
    if ops != [] {
      SoonStaysSoon(p, clock, ops[0]);
      ShortTimeoutsAreClean(After(p, clock, ops[0]), if ops[0].Tick? then clock + 1 else clock, ops[1..]);
    }
  }

  lemma ShortTimeoutsAreSafe(clock: int, ops: seq<Op>)
    requires FreshAdds(ops, {}) && forall i :: 0 <= i < |ops| && ops[i].Add? ==> Ticks(ops[i].timeout) < W.N
    ensures ReadsNoDeleted(W.EmptyWheel(), ops)
  {
    ShortTimeoutsAreClean([], clock, ops);
    SafeRunsExactly(clock, ops);
  }
}
