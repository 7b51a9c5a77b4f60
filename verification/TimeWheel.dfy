/** The hashed time wheel: an array of unordered doubly linked lists. */
module TimeWheels {
  import opened Sequences
  import opened TimerAgenda

  const N: nat := 60

  // ---------- Specification on sequences ----------

  /** A stored timer: how many times the heartbeat still has to pass it over. */
  datatype SlotTimer = SlotTimer(id: nat, rotation: nat)

  datatype Wheel = Wheel(slots: seq<seq<SlotTimer>>, cur: nat) {
    ghost predicate Valid() {
      |slots| == N && cur < N
    }
  }

  function EmptyWheel(): (w: Wheel)
    ensures w.Valid() && forall s :: 0 <= s < N ==> w.slots[s] == []
  {
    Wheel(seq(N, _ => []), 0)
  }

  function SlotFor(cur: nat, timeout: nat): (s: nat)
    ensures s < N
  {
    (cur + Ticks(timeout) % N) % N
  }

  function AddTo(w: Wheel, id: nat, timeout: nat): Wheel
    requires w.Valid()
  {
    var s := SlotFor(w.cur, timeout);
    w.(slots := w.slots[s := [SlotTimer(id, Ticks(timeout) / N)] + w.slots[s]])
  }

  /** The timers that stay in a slot after one pass over it, one rotation less. */
  function Stay(l: seq<SlotTimer>): seq<SlotTimer> {
    if l == [] then []
    else (if l[0].rotation > 0 then [SlotTimer(l[0].id, l[0].rotation - 1)] else []) + Stay(l[1..])
  }

  /** The ids of the timers that one pass over a slot fires. */
  function Fired(l: seq<SlotTimer>): seq<nat> {
    if l == [] then [] else (if l[0].rotation > 0 then [] else [l[0].id]) + Fired(l[1..])
  }

  function Turn(w: Wheel): Wheel
    requires w.Valid()
  {
    Wheel(w.slots[w.cur := Stay(w.slots[w.cur])], (w.cur + 1) % N)
  }

  lemma StayOf(h: SlotTimer, l: seq<SlotTimer>)
    ensures Stay([h] + l) == Stay([h]) + Stay(l)
    ensures Stay([h]) == if h.rotation > 0 then [SlotTimer(h.id, h.rotation - 1)] else []
  {
    assert ([h] + l)[1..] == l && [h][1..] == [];
  }

  lemma FiredOf(h: SlotTimer, l: seq<SlotTimer>)
    ensures Fired([h] + l) == Fired([h]) + Fired(l)
    ensures Fired([h]) == if h.rotation > 0 then [] else [h.id]
  {
    assert ([h] + l)[1..] == l && [h][1..] == [];
  }

  lemma NothingPassed()
    ensures Stay([]) == [] && Fired([]) == []
  {
  }

  lemma {:induction false} PassOneMore(l: seq<SlotTimer>, q: nat)
    requires q < |l|
    ensures Stay(l[..q + 1]) == Stay(l[..q]) + Stay([l[q]])
    ensures Fired(l[..q + 1]) == Fired(l[..q]) + Fired([l[q]])
  {
    hide *;
    NothingPassed();
    if q > 0 {
      var h, rest := l[0], l[1..];
      PassOneMore(rest, q - 1);
      assert l[..q + 1] == [h] + rest[..q] && l[..q] == [h] + rest[..q - 1];
      StayOf(h, rest[..q]);
      StayOf(h, rest[..q - 1]);
      FiredOf(h, rest[..q]);
      FiredOf(h, rest[..q - 1]);
    } else {
      assert l[..0] == [] && l[..1] == [l[0]];
    }
  }

  /** A pass that has come to the q-th timer of `v`: the slot then holds what stays of those before
      and all those behind. */
  function HalfDone(v: seq<SlotTimer>, q: nat): seq<SlotTimer>
    requires q <= |v|
  {
    Stay(v[..q]) + v[q..]
  }

  /** What stands in place of the k-th timer once the pass has been there. */
  function PassedAt(v: seq<SlotTimer>, k: nat): seq<SlotTimer>
    requires k < |v|
  {
    v[..k] + Stay([v[k]]) + v[k + 1..]
  }

  lemma PassedAtByCase(v: seq<SlotTimer>, k: nat)
    requires k < |v|
    ensures v[k].rotation > 0 ==>
              |Stay([v[k]])| == 1 && Fired([v[k]]) == [] && PassedAt(v, k) == v[k := SlotTimer(v[k].id, v[k].rotation - 1)]
    ensures v[k].rotation == 0 ==>
              |Stay([v[k]])| == 0 && Fired([v[k]]) == [v[k].id] && PassedAt(v, k) == Without(v, k)
  {
  }

  lemma HalfDoneSize(v: seq<SlotTimer>, q: nat)
    requires q <= |v|
    ensures |HalfDone(v, q)| == |Stay(v[..q])| + |v| - q
    ensures q < |v| ==> |Stay([v[q]])| == if v[q].rotation > 0 then 1 else 0
  {
  }

  lemma HalfDoneStep(v: seq<SlotTimer>, q: nat)
    requires q < |v|
    ensures var p := |Stay(v[..q])|; var c := HalfDone(v, q);
            && p < |c| && c[p] == v[q]
            && HalfDone(v, q + 1) == PassedAt(c, p)
            && |Stay(v[..q + 1])| == p + |Stay([v[q]])|
            && Fired(v[..q + 1]) == Fired(v[..q]) + Fired([v[q]])
  {
    PassOneMore(v, q);
    var p := |Stay(v[..q])|;
    assert HalfDone(v, q)[p + 1..] == v[q + 1..];
  }

  /** The pass as line 200 has it: a timer that fires anywhere but at the head of its slot takes
      its successor with it, and the pass then goes on to read that successor. The result
      is false when a deleted timer is read. */
  function WalkAsWritten(l: seq<SlotTimer>, atHead: bool): (r: (bool, seq<SlotTimer>, seq<nat>)) {
    if l == [] then (true, [], [])
    else if l[0].rotation > 0 then
      var (ok, kept, fired) := WalkAsWritten(l[1..], false);
      (ok, [SlotTimer(l[0].id, l[0].rotation - 1)] + kept, fired)
    else if atHead || |l| == 1 then
      var (ok, kept, fired) := WalkAsWritten(l[1..], atHead);
      (ok, kept, [l[0].id] + fired)
    else (false, [], [])
  }

  /** One visit of the pass as written. */
  lemma WalkOn(l: seq<SlotTimer>, atHead: bool)
    requires l != []
    ensures var fires := l[0].rotation == 0;
            WalkAsWritten(l, atHead).0 <==> !(fires && !atHead && |l| > 1) && WalkAsWritten(l[1..], atHead && fires).0
  {
  }

  /** A pass over `v` that has come to its q-th timer, with `p` that stay and `fired` that were fired. It would
      have read a deleted timer if `stale`, and is about to if `gone`. */
  ghost predicate PassSoFar(v: seq<SlotTimer>, q: nat, p: nat, fired: seq<nat>, stale: bool, gone: bool) {
    && q <= |v| && p == |Stay(v[..q])| && fired == Fired(v[..q])
    && (WalkAsWritten(v, true).0 <==> !stale && !gone && WalkAsWritten(v[q..], p == 0).0)
  }

  lemma PassBegins(v: seq<SlotTimer>)
    ensures PassSoFar(v, 0, 0, [], false, false) && HalfDone(v, 0) == v
  {
    assert v[0..] == v;
  }

  lemma PassGoesOn(v: seq<SlotTimer>, q: nat, p: nat, fired: seq<nat>, stale: bool, gone: bool)
    requires PassSoFar(v, q, p, fired, stale, gone) && q < |v|
    ensures PassSoFar(v, q + 1, p + |Stay([v[q]])|, fired + Fired([v[q]]), stale || gone,
                      v[q].rotation == 0 && p > 0 && q + 1 < |v|)
  {
    HalfDoneSize(v, q);
    PassOneMore(v, q);
    WalkOn(v[q..], p == 0);
    hide WalkAsWritten, Stay, Fired;
    assert v[q..][1..] == v[q + 1..];
  }

  /** The pass is through when nothing stands behind what stays. */
  lemma PassEnds(v: seq<SlotTimer>, q: nat, p: nat, fired: seq<nat>, stale: bool)
    requires PassSoFar(v, q, p, fired, stale, false) && |HalfDone(v, q)| == p
    ensures HalfDone(v, q) == Stay(v) && fired == Fired(v) && (stale <==> !WalkAsWritten(v, true).0)
  {
    assert v[..q] == v && v[q..] == [];
  }

  lemma PassIsAt(v: seq<SlotTimer>, q: nat, p: nat, fired: seq<nat>, stale: bool, gone: bool)
    requires PassSoFar(v, q, p, fired, stale, gone)
    ensures q <= |v| && |HalfDone(v, q)| == p + |v| - q
    ensures q < |v| ==> HalfDone(v, q)[p] == v[q] && HalfDone(v, q + 1) == PassedAt(HalfDone(v, q), p)
  {
    HalfDoneSize(v, q);
    if q < |v| { HalfDoneStep(v, q); }
  }

  /** No timer with a successor fires behind one that stays. */
  ghost predicate NoneFiresMidList(l: seq<SlotTimer>) {
    forall i, j :: 0 <= i < j < |l| - 1 && l[j].rotation == 0 ==> l[i].rotation == 0
  }

  /** The pass as written reads no deleted timer exactly when no timer with a successor fires
      behind one that stays, and then it is the pass modelled here. */
  lemma {:induction false} WalkAsWrittenIsWalk(l: seq<SlotTimer>, atHead: bool)
    ensures WalkAsWritten(l, atHead).0 <==>
            if atHead then NoneFiresMidList(l) else forall j :: 0 <= j < |l| - 1 ==> l[j].rotation > 0
    ensures WalkAsWritten(l, atHead).0 ==> WalkAsWritten(l, atHead) == (true, Stay(l), Fired(l))
  {
    if l != [] {
      WalkAsWrittenIsWalk(l[1..], atHead && l[0].rotation == 0);
      forall j | 0 <= j < |l| - 1 ensures l[1..][j] == l[j + 1] {}
      assert [] + Stay(l[1..]) == Stay(l[1..]) && [] + Fired(l[1..]) == Fired(l[1..]);
      if atHead && l[0].rotation == 0 {
        assert NoneFiresMidList(l) <==> NoneFiresMidList(l[1..]) by {
          forall i, j | 0 <= i < j < |l| - 1 && l[j].rotation == 0 && NoneFiresMidList(l[1..])
            ensures l[i].rotation == 0
          {
            if i > 0 { assert l[1..][i - 1].rotation == 0; }
          }
          if NoneFiresMidList(l) {
            forall i, j | 0 <= i < j < |l[1..]| - 1 && l[1..][j].rotation == 0
              ensures l[1..][i].rotation == 0
            {
              assert l[j + 1].rotation == 0;
            }
          }
        }
      } else if atHead {
        assert NoneFiresMidList(l) <==> forall j :: 0 <= j < |l| - 2 ==> l[1..][j].rotation > 0 by {
          if NoneFiresMidList(l) {
            forall j | 0 <= j < |l| - 2 ensures l[1..][j].rotation > 0 {
              assert l[j + 1] == l[1..][j];
            }
          }
        }
      }
    }
  }

  // ---------- When a stored timer fires ----------

  /** Heartbeats that will pass before the one that runs the timer. */
  function Remaining(w: Wheel, s: nat, t: SlotTimer): (r: nat) {
    t.rotation * N + (s - w.cur) % N
  }

  lemma {:induction false} NewTimerRemains(w: Wheel, id: nat, timeout: nat)
    requires w.Valid()
    ensures Remaining(w, SlotFor(w.cur, timeout), SlotTimer(id, Ticks(timeout) / N)) == Ticks(timeout)
  {
  }

  /** What becomes of a stored timer: it fires at rotation zero and else stays with one less. */
  lemma {:induction false} StayKeeps(l: seq<SlotTimer>, t: SlotTimer)
    ensures t in Stay(l) <==> SlotTimer(t.id, t.rotation + 1) in l
  {
    if l != [] {
      StayKeeps(l[1..], t);
      assert l == [l[0]] + l[1..];
    }
  }

  lemma {:induction false} FiredIsDue(l: seq<SlotTimer>, id: nat)
    ensures id in Fired(l) <==> SlotTimer(id, 0) in l
  {
    if l != [] {
      FiredIsDue(l[1..], id);
      assert l == [l[0]] + l[1..];
    }
  }

  lemma {:induction false} TurnCountsDown(w: Wheel, s: nat, t: SlotTimer)
    requires w.Valid() && s < N
    ensures s == w.cur && t.rotation == 0 <==> Remaining(w, s, t) == 0
    ensures s == w.cur && t.rotation > 0 ==>
              Remaining(Turn(w), s, SlotTimer(t.id, t.rotation - 1)) == Remaining(w, s, t) - 1
    ensures s != w.cur ==> Remaining(Turn(w), s, t) == Remaining(w, s, t) - 1
  {
    assert (s - w.cur) % N == if s >= w.cur then s - w.cur else s - w.cur + N;
    var c := Turn(w).cur;
    assert (s - c) % N == if s >= c then s - c else s - c + N;
  }

  // ---------- Implementation ----------

  class TwTimer {
    const id: nat
    const timeSlot: nat
    var rotation: nat
    var prev: TwTimer?
    var next: TwTimer?

    constructor (id: nat, rotation: nat, timeSlot: nat)
      ensures this.id == id && this.rotation == rotation && this.timeSlot == timeSlot
      ensures prev == null && next == null
    {
      this.id, this.rotation, this.timeSlot := id, rotation, timeSlot;
      prev, next := null, null;
    }
  }

  /** The links of one slot agree with the sequence `l`. */
  ghost predicate Chain(head: TwTimer?, l: seq<TwTimer>)
    reads l
  {
    && (forall i, j :: 0 <= i < j < |l| ==> l[i] != l[j])
    && (head == if l == [] then null else l[0])
    && (forall i {:trigger l[i].prev} :: 0 <= i < |l| ==> l[i].prev == if i == 0 then null else l[i - 1])
    && (forall i {:trigger l[i].next} :: 0 <= i < |l| ==> l[i].next == if i == |l| - 1 then null else l[i + 1])
  }

  /** `n` is the k-th node of the slot, or absent behind its last. */
  ghost predicate At(head: TwTimer?, l: seq<TwTimer>, n: TwTimer?, k: nat)
    reads l
  {
    Chain(head, l) && k <= |l| && n == if k == |l| then null else l[k]
  }

  lemma StartsAt(head: TwTimer?, l: seq<TwTimer>)
    requires Chain(head, l)
    ensures At(head, l, head, 0)
  {
  }

  lemma AtEnd(head: TwTimer?, l: seq<TwTimer>, k: nat)
    requires At(head, l, null, k)
    ensures Chain(head, l) && k == |l|
  {
  }

  ghost function SlotContents(l: seq<TwTimer>): (v: seq<SlotTimer>)
    reads l
    ensures |v| == |l|
  {
    seq(|l|, i requires 0 <= i < |l| reads l => SlotTimer(l[i].id, l[i].rotation))
  }

  lemma ContentsWithout(l: seq<TwTimer>, k: nat)
    requires k < |l|
    ensures SlotContents(Without(l, k)) == Without(SlotContents(l), k)
  {
  }

  twostate lemma SameContents(l: seq<TwTimer>)
    requires forall i :: 0 <= i < |l| ==> allocated(l[i]) && old(allocated(l[i])) && l[i].rotation == old(l[i].rotation)
    ensures SlotContents(l) == old(SlotContents(l))
  {
  }

  lemma NotYetAtEnd(head: TwTimer?, l: seq<TwTimer>, n: TwTimer, k: nat)
    requires At(head, l, n, k)
    ensures k < |l| && SlotContents(l)[k].rotation == n.rotation
  {
  }

  ghost function NodesOf(lists: seq<seq<TwTimer>>): set<TwTimer> {
    set s, i | 0 <= s < |lists| && 0 <= i < |lists[s]| :: lists[s][i]
  }

  class TimeWheel {
    const slots: array<TwTimer?>
    var curSlot: nat
    ghost var lists: seq<seq<TwTimer>>

    ghost function Nodes(): set<TwTimer>
      reads this
    {
      NodesOf(lists)
    }

    ghost predicate Valid()
      reads this, slots, Nodes()
    {
      && slots.Length == N == |lists| && curSlot < N
      && (forall s :: 0 <= s < N ==> Chain(slots[s], lists[s]))
      && (forall s, i :: 0 <= s < N && 0 <= i < |lists[s]| ==> lists[s][i].timeSlot == s)
    }

    ghost function Contents(): Wheel
      reads this, Nodes()
    {
      Wheel(seq(|lists|, s requires 0 <= s < |lists| reads this, Nodes() => SlotContents(lists[s])), curSlot)
    }

    constructor ()
      ensures Valid() && Contents() == EmptyWheel() && fresh(slots) && Nodes() == {}
    {
      slots := new TwTimer?[N](_ => null);
      curSlot := 0;
      lists := seq(N, _ => []);
    }

    /** Makes `timer` the head of slot `s`. */
    method PushFront(s: nat, timer: TwTimer, ghost l: seq<TwTimer>)
      requires s < slots.Length && Chain(slots[s], l)
      requires timer !in l && timer.prev == null && timer.next == null
      modifies slots, timer`next, l`prev
      ensures slots[..] == old(slots[..])[s := timer] && Chain(slots[s], [timer] + l)
      ensures SlotContents([timer] + l) == [SlotTimer(timer.id, timer.rotation)] + old(SlotContents(l))
    {
      if slots[s] == null {
        slots[s] := timer;
      } else {
        timer.next := slots[s];
        slots[s].prev := timer;
        slots[s] := timer;
      }
    }

    /** Takes the k-th timer out of slot `s`. */
    method Unlink(s: nat, timer: TwTimer, ghost l: seq<TwTimer>, ghost k: nat)
      requires s < slots.Length && Chain(slots[s], l) && k < |l| && timer == l[k]
      modifies slots, l`prev, l`next
      ensures (forall i :: 0 <= i < slots.Length && i != s ==> slots[i] == old(slots[i])) && Chain(slots[s], Without(l, k))
      ensures SlotContents(Without(l, k)) == Without(old(SlotContents(l)), k)
      ensures timer.next == old(timer.next)
    {
      ContentsWithout(l, k);
      WithoutAt(l, k);
      hide Without, SlotContents;
      if timer == slots[s] {
        slots[s] := slots[s].next;
        if slots[s] != null {
          slots[s].prev := null;
        }
      } else {
        timer.prev.next := timer.next;
        if timer.next != null {
          timer.next.prev := timer.prev;
        }
      }
      SameContents(Without(l, k));
    }

    /** The pass at the k-th timer of slot `s`. `gone` tells whether line 200 would delete the timer that
        comes next. */
    method Visit(s: nat, timer: TwTimer, ghost l: seq<TwTimer>, ghost k: nat)
        returns (next: TwTimer?, fired: seq<nat>, ghost rest: seq<TwTimer>, ghost gone: bool)
      requires s < slots.Length && At(slots[s], l, timer, k)
      modifies slots, l
      ensures gone <==> old(timer.rotation) == 0 && k > 0 && k + 1 < |l|
      ensures gone ==> next != null
      ensures forall i :: 0 <= i < slots.Length && i != s ==> slots[i] == old(slots[i])
      ensures k < |l| && forall i :: 0 <= i < |rest| ==> rest[i] in l
      ensures var v := old(SlotContents(l));
              && SlotContents(rest) == PassedAt(v, k) && fired == Fired([v[k]])
              && At(slots[s], rest, next, k + |Stay([v[k]])|)
    {
      PassedAtByCase(SlotContents(l), k);
      hide PassedAt, Stay, Fired;
      gone := false;
      if timer.rotation > 0 {
        timer.rotation := timer.rotation - 1;
        next, fired, rest := timer.next, [], l;
      } else {
        gone := timer != slots[s] && timer.next != null;
        fired := [timer.id];
        Unlink(s, timer, l, k);
        rest := Without(l, k);
        next := timer.next;
      }
    }

    /** The pass over slot `s` that a heartbeat makes. `stale` tells whether it would read a timer that it has
        deleted. */
    method WalkSlot(s: nat, ghost l: seq<TwTimer>, ghost all: set<TwTimer>)
        returns (fired: seq<nat>, ghost rest: seq<TwTimer>, ghost stale: bool)
      requires s < slots.Length && Chain(slots[s], l) && forall i :: 0 <= i < |l| ==> l[i] in all
      modifies slots, all
      ensures (forall i :: 0 <= i < slots.Length && i != s ==> slots[i] == old(slots[i])) && Chain(slots[s], rest)
      ensures forall i :: 0 <= i < |rest| ==> rest[i] in all
      ensures SlotContents(rest) == Stay(old(SlotContents(l))) && fired == Fired(old(SlotContents(l)))
      ensures stale <==> !WalkAsWritten(old(SlotContents(l)), true).0
    {
      hide *;
      var tmp := slots[s];
      fired, rest, stale := [], l, false;
      ghost var gone := false;
      ghost var v, p: nat, q: nat := SlotContents(l), 0, 0;
      PassBegins(v);
      StartsAt(tmp, l);
      while tmp != null
        invariant q <= |v| && At(slots[s], rest, tmp, p) && PassSoFar(v, q, p, fired, stale, gone)
        invariant forall i :: 0 <= i < slots.Length && i != s ==> slots[i] == old(slots[i])
        invariant forall i :: 0 <= i < |rest| ==> rest[i] in all
        invariant SlotContents(rest) == HalfDone(v, q) && (gone ==> tmp != null)
        decreases |v| - q
      {
        PassIsAt(v, q, p, fired, stale, gone);
        NotYetAtEnd(slots[s], rest, tmp, p);
        PassGoesOn(v, q, p, fired, stale, gone);
        stale := stale || gone;
        var now;
        tmp, now, rest, gone := Visit(s, tmp, rest, p);
        assert now == Fired([v[q]]);
        fired := fired + now;
        p, q := p + |Stay([v[q]])|, q + 1;
      }
      AtEnd(slots[s], rest, p);
      PassEnds(v, q, p, fired, stale);
    }

    method AddTimer(timeout: int, id: nat) returns (timer: TwTimer?)
      requires Valid()
      modifies this, slots, Nodes()
      ensures Valid() && (timer == null <==> timeout < 0)
      ensures timer == null ==> lists == old(lists) && Contents() == old(Contents())
      ensures timer != null ==> fresh(timer) && timer.id == id
      ensures timer != null ==>
                var s := SlotFor(old(curSlot), timeout); lists == old(lists)[s := [timer] + old(lists[s])]
      ensures timer != null ==> Contents() == AddTo(old(Contents()), id, timeout)
    {
      if timeout < 0 { return null; }
      var ticks := if timeout < SLOT_INTERVAL then 1 else timeout / SLOT_INTERVAL;
      var rotation := ticks / N;
      var ts := (curSlot + ticks % N) % N;
      timer := new TwTimer(id, rotation, ts);
      Hang(timer);
    }

    /** Puts a new timer into its slot. */
    method Hang(timer: TwTimer)
      requires Valid() && timer !in Nodes() && timer.timeSlot < N && timer.prev == null && timer.next == null
      modifies this`lists, slots, timer`next, lists[timer.timeSlot]`prev
      ensures Valid() && lists == old(lists)[timer.timeSlot := [timer] + old(lists[timer.timeSlot])]
      ensures var s, w := timer.timeSlot, old(Contents());
              Contents() == w.(slots := w.slots[s := [SlotTimer(timer.id, timer.rotation)] + w.slots[s]])
    {
      hide Chain, SlotContents;
      var ts := timer.timeSlot;
      PushFront(ts, timer, lists[ts]);
      lists := lists[ts := [timer] + lists[ts]];
    }

    /** Deletes a stored timer, the k-th of its slot. */
    method DelTimer(timer: TwTimer?, ghost k: nat)
      requires Valid()
      requires timer != null ==> timer.timeSlot < N && k < |lists[timer.timeSlot]| && timer == lists[timer.timeSlot][k]
      modifies this`lists, slots, Nodes()
      ensures Valid()
      ensures timer == null ==> lists == old(lists) && Contents() == old(Contents())
      ensures timer != null ==> lists == old(lists)[timer.timeSlot := Without(old(lists[timer.timeSlot]), k)]
      ensures timer != null ==>
                var s, w := timer.timeSlot, old(Contents());
                Contents() == w.(slots := w.slots[s := Without(w.slots[s], k)])
    {
      if timer == null { return; }
      var ts := timer.timeSlot;
      Unlink(ts, timer, lists[ts], k);
      lists := lists[ts := Without(lists[ts], k)];
      assert SlotContents(lists[ts]) == Without(old(Contents()).slots[ts], k);
      assert Contents().slots == old(Contents()).slots[ts := SlotContents(lists[ts])];
    }

    /** `stale` tells whether the pass over the current slot would read a deleted timer. */
    method Tick() returns (fired: seq<nat>, ghost stale: bool)
      requires Valid()
      modifies this, slots, Nodes()
      ensures Valid() && Contents() == Turn(old(Contents()))
      ensures fired == Fired(old(Contents()).slots[old(curSlot)])
      ensures stale <==> !WalkAsWritten(old(Contents()).slots[old(curSlot)], true).0
      ensures Nodes() <= old(Nodes())
    {
      hide WalkAsWritten, Chain, SlotContents, Stay, Fired;
      ghost var rest;
      fired, rest, stale := WalkSlot(curSlot, lists[curSlot], set n | n in lists[curSlot]);
      lists := lists[curSlot := rest];
      curSlot := (curSlot + 1) % N;
    }
  }
}
