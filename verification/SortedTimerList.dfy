/** The ascending doubly linked list of timers. */
module SortedTimerList {
  import opened Sequences
  import opened TimerAgenda

  // ---------- Specification on sequences ----------

  ghost predicate Ascending(s: seq<Timer>) {
    forall i, j :: 0 <= i < j < |s| ==> s[i].expire <= s[j].expire
  }

  /** Stable insertion: after every timer of equal deadline. */
  function Insert(s: seq<Timer>, t: Timer): seq<Timer> {
    if s == [] || t.expire < s[0].expire then [t] + s else [s[0]] + Insert(s[1..], t)
  }

  /** What a call for the timer at k does after its deadline was rewritten in place. */
  function Adjust(s: seq<Timer>, k: nat): seq<Timer>
    requires k < |s|
  {
    if k + 1 == |s| || s[k].expire < s[k + 1].expire then s else Insert(Without(s, k), s[k])
  }

  function IdsOf(s: seq<Timer>): (ids: seq<nat>)
    ensures |ids| == |s| && forall i :: 0 <= i < |s| ==> ids[i] == s[i].id
  {
    if s == [] then [] else [s[0].id] + IdsOf(s[1..])
  }

  lemma IdsOfSnoc(s: seq<Timer>, p: nat)
    requires p < |s|
    ensures IdsOf(s[..p + 1]) == IdsOf(s[..p]) + [s[p].id]
  {
  }

  /** Number of leading timers whose deadline has come. */
  function DueCount(s: seq<Timer>, cur: int): (n: nat)
    ensures n <= |s|
    ensures forall i :: 0 <= i < n ==> s[i].expire <= cur
    ensures n < |s| ==> cur < s[n].expire
  {
    if s == [] || cur < s[0].expire then 0 else 1 + DueCount(s[1..], cur)
  }

  lemma DueFrom(s: seq<Timer>, cur: int, p: nat)
    requires p <= DueCount(s, cur)
    ensures p < |s| ==> (p < DueCount(s, cur) <==> s[p].expire <= cur)
    ensures DueCount(s, cur) <= |s| && IdsOf(s[..0]) == []
  {
  }

  lemma {:induction false} InsertAt(s: seq<Timer>, t: Timer, k: nat)
    requires k <= |s|
    requires forall i :: 0 <= i < k ==> s[i].expire <= t.expire
    requires k < |s| ==> t.expire < s[k].expire
    ensures Insert(s, t) == Spliced(s, k, t)
  {
    if k > 0 {
      InsertAt(s[1..], t, k - 1);
      assert s[..k] == [s[0]] + s[1..][..k - 1];
      assert s[1..][k - 1..] == s[k..];
    }
  }

  /** Where insertion puts the timer: behind everything due no later, before everything due later. */
  lemma InsertPoint(s: seq<Timer>, t: Timer) returns (k: nat)
    requires Ascending(s)
    ensures k <= |s| && Insert(s, t) == Spliced(s, k, t)
    ensures forall i :: 0 <= i < k ==> s[i].expire <= t.expire
    ensures forall i :: k <= i < |s| ==> t.expire < s[i].expire
  {
    k := DueCount(s, t.expire);
    InsertAt(s, t, k);
    forall i | k <= i < |s| ensures t.expire < s[i].expire {
      if i > k { assert s[k].expire <= s[i].expire; }
    }
  }

  /** Insertion keeps the order, loses nothing and adds exactly the timer. */
  lemma InsertKeepsOrder(s: seq<Timer>, t: Timer)
    requires Ascending(s)
    ensures Ascending(Insert(s, t))
    ensures multiset(Insert(s, t)) == multiset(s) + multiset{t}
  {
    var k := InsertPoint(s, t);
    var r := Spliced(s, k, t);
    SplicedMultiset(s, k, t);
    forall i, j | 0 <= i < j < |r| ensures r[i].expire <= r[j].expire {
      SplicedAt(s, k, t, i);
      SplicedAt(s, k, t, j);
      hide Spliced;
    }
    hide *;
  }

  /** The call is deletion followed by stable reinsertion, and leaves an ascending list, exactly
      when the new deadline is not before that of the timer in front; a caller that only extends
      deadlines always meets this. */
  lemma AdjustIsReinsertion(s: seq<Timer>, k: nat)
    requires k < |s| && Ascending(Without(s, k))
    ensures Adjust(s, k) == Insert(Without(s, k), s[k]) <==> k == 0 || s[k - 1].expire <= s[k].expire
    ensures Ascending(Adjust(s, k)) <==> k == 0 || s[k - 1].expire <= s[k].expire
  {
    var w := Without(s, k);
    InsertKeepsOrder(w, s[k]);
    if k + 1 < |s| && s[k + 1].expire <= s[k].expire {
      assert k > 0 ==> w[k - 1] == s[k - 1] && w[k] == s[k + 1];
    } else {
      AdjustInPlace(s, k);
    }
  }

  /** Reinsertion may start its walk from the timer that stood behind. */
  lemma ReinsertAt(s: seq<Timer>, k: nat, p: nat)
    requires k + 1 < |s| && k < p < |s| && Ascending(Without(s, k)) && s[k + 1].expire <= s[k].expire
    requires forall i :: k < i < p ==> Without(s, k)[i].expire <= s[k].expire
    requires p + 1 < |s| ==> s[k].expire < Without(s, k)[p].expire
    ensures Insert(Without(s, k), s[k]) == Spliced(Without(s, k), p, s[k])
  {
    var w := Without(s, k);
    assert w[k] == s[k + 1];
    forall i | 0 <= i < p ensures w[i].expire <= s[k].expire {
      if i < k { assert w[i].expire <= w[k].expire; }
    }
    InsertAt(w, s[k], p);
  }

  /** The early return: nothing behind the timer is due before it. */
  lemma AdjustInPlace(s: seq<Timer>, k: nat)
    requires k < |s| && Ascending(Without(s, k))
    requires k + 1 < |s| ==> s[k].expire < s[k + 1].expire
    ensures s == Insert(Without(s, k), s[k]) <==> k == 0 || s[k - 1].expire <= s[k].expire
    ensures Ascending(s) <==> k == 0 || s[k - 1].expire <= s[k].expire
  {
    var w := Without(s, k);
    assert k > 0 ==> w[k - 1] == s[k - 1];
    assert k < |w| ==> w[k] == s[k + 1];
    var j := InsertPoint(w, s[k]);
    if k == 0 || s[k - 1].expire <= s[k].expire {
      assert j == k;
      assert s == Spliced(w, k, s[k]);
      InsertKeepsOrder(w, s[k]);
    } else {
      assert j < k && Spliced(w, j, s[k])[j] == s[k];
      assert s[j].expire > s[k].expire by { assert s[j] == w[j]; }
    }
  }

  /** A caller that only extends a deadline gets deletion followed by stable reinsertion. */
  lemma ExtendedTimerIsReinserted(s: seq<Timer>, k: nat, expire: int)
    requires Ascending(s) && k < |s| && s[k].expire <= expire
    ensures var t := Timer(s[k].id, expire);
            Adjust(s[k := t], k) == Insert(Without(s, k), t) && Ascending(Adjust(s[k := t], k))
  {
    var t := Timer(s[k].id, expire);
    assert Without(s[k := t], k) == Without(s, k);
    AdjustIsReinsertion(s[k := t], k);
  }

  /** On an ascending list the heartbeat takes exactly the timers that are due. */
  lemma {:induction false} DueIsExact(s: seq<Timer>, cur: int)
    requires Ascending(s)
    ensures forall i :: 0 <= i < |s| ==> (s[i].expire <= cur <==> i < DueCount(s, cur))
  {
    var n := DueCount(s, cur);
    forall i | n <= i < |s| ensures cur < s[i].expire {
      assert s[n].expire <= s[i].expire;
    }
  }

  // ---------- Implementation ----------

  class UtilTimer {
    const id: nat
    var expire: int
    var prev: UtilTimer?
    var next: UtilTimer?

    constructor (id: nat, expire: int)
      ensures this.id == id && this.expire == expire && prev == null && next == null
    {
      this.id, this.expire := id, expire;
      prev, next := null, null;
    }
  }

  class SortTimerList {
    var head: UtilTimer?
    var tail: UtilTimer?
    ghost var nodes: seq<UtilTimer>

    /** The links agree with `nodes`. An emptied list may keep a stale tail. */
    ghost predicate Linked()
      reads this, nodes
    {
      && (forall i, j :: 0 <= i < j < |nodes| ==> nodes[i] != nodes[j])
      && (head == if nodes == [] then null else nodes[0])
      && (nodes != [] ==> tail == nodes[|nodes| - 1])
      && (forall i {:trigger nodes[i].prev} :: 0 <= i < |nodes| ==> nodes[i].prev == if i == 0 then null else nodes[i - 1])
      && (forall i {:trigger nodes[i].next} :: 0 <= i < |nodes| ==> nodes[i].next == if i == |nodes| - 1 then null else nodes[i + 1])
    }

    ghost function Contents(): (s: seq<Timer>)
      reads this, nodes
      ensures |s| == |nodes|
    {
      seq(|nodes|, i requires 0 <= i < |nodes| reads this, nodes => Timer(nodes[i].id, nodes[i].expire))
    }

    ghost predicate Valid()
      reads this, nodes
    {
      Linked() && Ascending(Contents())
    }

    constructor ()
      ensures Valid() && Contents() == []
    {
      head, tail, nodes := null, null, [];
    }

    /** Inserts behind `front`, the k-th timer, and behind every later one up to the first that
        is due after `timer`. */
    method AddTimerAfter(timer: UtilTimer, front: UtilTimer, ghost k: nat) returns (ghost p: nat)
      requires Linked() && k < |nodes| && nodes[k] == front && timer !in nodes
      modifies this`tail, this`nodes, nodes`prev, nodes`next, timer`prev, timer`next
      ensures Linked() && k < p <= |old(nodes)|
      ensures nodes == Spliced(old(nodes), p, timer)
      ensures Contents() == Spliced(old(Contents()), p, Timer(timer.id, timer.expire))
      ensures forall i :: k < i < p ==> old(Contents()[i]).expire <= timer.expire
      ensures p < |old(nodes)| ==> timer.expire < old(Contents()[p]).expire
    {
      var prev := front;
      var tmp := prev.next;
      p := k + 1;
      while tmp != null && !(timer.expire < tmp.expire)
        invariant k < p <= |nodes| && prev == nodes[p - 1]
        invariant tmp == if p == |nodes| then null else nodes[p]
        invariant forall i :: k < i < p ==> Contents()[i].expire <= timer.expire
        decreases |nodes| - p
      {
        prev := tmp;
        tmp := tmp.next;
        p := p + 1;
      }
      Splice(prev, timer, tmp, p);
    }

    /** Hangs `timer` between `prev` and `tmp`, which is absent at the end of the list. */
    method Splice(prev: UtilTimer, timer: UtilTimer, tmp: UtilTimer?, ghost p: nat)
      requires Linked() && 0 < p <= |nodes| && prev == nodes[p - 1] && timer !in nodes
      requires tmp == if p == |nodes| then null else nodes[p]
      modifies this`tail, this`nodes, nodes`prev, nodes`next, timer`prev, timer`next
      ensures Linked() && nodes == Spliced(old(nodes), p, timer)
    {
      prev.next := timer;
      timer.next := tmp;
      timer.prev := prev;
      if tmp != null {
        tmp.prev := timer;
      } else {
        tail := timer;
      }
      nodes := Spliced(nodes, p, timer);
    }

    method AddTimer(timer: UtilTimer?) returns (ghost p: nat)
      requires Valid()
      requires timer != null ==> timer !in nodes && timer.prev == null && timer.next == null
      modifies this, nodes, timer
      ensures Valid() && p <= |old(nodes)|
      ensures nodes == if timer == null then old(nodes) else Spliced(old(nodes), p, timer)
      ensures timer == null ==> Contents() == old(Contents())
      ensures timer != null ==> Contents() == Insert(old(Contents()), Timer(timer.id, old(timer.expire)))
    {
      p := 0;
      if timer == null { return; }
      ghost var s, t := Contents(), Timer(timer.id, timer.expire);
      if head == null {
        head, tail := timer, timer;
        nodes := [timer];
      } else if timer.expire < head.expire {
        PushFront(timer);
      } else {
        p := AddTimerAfter(timer, head, 0);
      }
      assert Contents() == Spliced(s, p, t);
      InsertAt(s, t, p);
      InsertKeepsOrder(s, t);
    }

    method PushFront(timer: UtilTimer)
      requires Linked() && |nodes| > 0 && timer !in nodes && timer.prev == null
      modifies this`head, this`nodes, nodes`prev, timer`next
      ensures Linked() && nodes == Spliced(old(nodes), 0, timer)
    {
      timer.next := head;
      head.prev := timer;
      head := timer;
      nodes := Spliced(nodes, 0, timer);
    }

    /** Called after the deadline of `timer`, the k-th of the list, was changed. */
    method AdjustTimer(timer: UtilTimer?, ghost k: nat)
      requires Linked()
      requires timer != null ==> k < |nodes| && nodes[k] == timer && Ascending(Without(Contents(), k))
      modifies this, nodes`prev, nodes`next
      ensures Linked() && multiset(nodes) == multiset(old(nodes))
      ensures Contents() == if timer == null then old(Contents()) else Adjust(old(Contents()), k)
    {
      if timer == null { return; }
      var tmp := timer.next;
      if tmp == null || timer.expire < tmp.expire { return; }
      ghost var p := Reinsert(timer, k);
      ReinsertAt(old(Contents()), k, p);
      SplicedMultiset(Without(old(nodes), k), p, timer);
      WithoutMultiset(old(nodes), k);
    }

    /** Takes out a timer that has one behind it and walks on from that one. */
    method Reinsert(timer: UtilTimer, ghost k: nat) returns (ghost p: nat)
      requires Linked() && k + 1 < |nodes| && nodes[k] == timer
      modifies this, nodes`prev, nodes`next
      ensures Linked() && k < p < |old(nodes)|
      ensures nodes == Spliced(Without(old(nodes), k), p, timer)
      ensures Contents() == Spliced(Without(old(Contents()), k), p, old(Contents()[k]))
      ensures forall i :: k < i < p ==> Without(old(Contents()), k)[i].expire <= timer.expire
      ensures p + 1 < |old(nodes)| ==> timer.expire < Without(old(Contents()), k)[p].expire
    {
      ghost var s := Contents();
      if timer == head {
        DetachHead();
        timer.next := null;
        assert Contents() == Without(s, k);
        p := AddTimerAfter(timer, head, 0);
      } else {
        DetachMiddle(timer, k);
        assert Contents() == Without(s, k);
        p := AddTimerAfter(timer, timer.next, k);
      }
    }

    method DetachHead()
      requires Linked() && |nodes| > 1
      modifies this`head, this`nodes, nodes`prev
      ensures Linked() && nodes == Without(old(nodes), 0)
    {
      head := head.next;
      head.prev := null;
      nodes := Without(nodes, 0);
    }

    method DetachMiddle(timer: UtilTimer, ghost k: nat)
      requires Linked() && 0 < k < |nodes| - 1 && nodes[k] == timer
      modifies this`nodes, timer.prev`next, timer.next`prev
      ensures Linked() && nodes == Without(old(nodes), k)
    {
      timer.prev.next := timer.next;
      timer.next.prev := timer.prev;
      nodes := Without(nodes, k);
    }

    method DetachTail()
      requires Linked() && |nodes| > 1
      modifies this`tail, this`nodes, nodes`next
      ensures Linked() && nodes == Without(old(nodes), |old(nodes)| - 1)
    {
      tail := tail.prev;
      tail.next := null;
      nodes := Without(nodes, |nodes| - 1);
    }

    method DelTimer(timer: UtilTimer?, ghost k: nat)
      requires Linked()
      requires timer != null ==> k < |nodes| && nodes[k] == timer
      modifies this, nodes`prev, nodes`next
      ensures Linked()
      ensures nodes == if timer == null then old(nodes) else Without(old(nodes), k)
      ensures Contents() == if timer == null then old(Contents()) else Without(old(Contents()), k)
    {
      if timer == null { return; }
      Unlink(timer, k);
    }

    method Unlink(timer: UtilTimer, ghost k: nat)
      requires Linked() && k < |nodes| && nodes[k] == timer
      modifies this, nodes`prev, nodes`next
      ensures Linked() && nodes == Without(old(nodes), k)
    {
      if timer == head && timer == tail {
        head, tail := null, null;
        nodes := Without(nodes, 0);
      } else if timer == head {
        DetachHead();
      } else if timer == tail {
        DetachTail();
      } else {
        DetachMiddle(timer, k);
      }
    }

    /** Runs, in list order, the callbacks of the leading timers that are due and drops them. */
    method Tick(cur: int) returns (fired: seq<nat>)
      requires Linked()
      modifies this`head, this`nodes, nodes`prev
      ensures Linked()
      ensures var s := old(Contents()); var n := DueCount(s, cur);
              Contents() == s[n..] && nodes == old(nodes)[n..] && fired == IdsOf(s[..n])
    {
      fired := [];
      ghost var s := Contents();
      if head == null { return; }
      var tmp := head;
      ghost var p := 0;
      DueFrom(s, cur, p);
      hide DueCount, IdsOf, Ascending;
      while tmp != null && !(cur < tmp.expire)
        invariant 0 <= p <= |s| && nodes == old(nodes)[p..] && Linked() && tmp == head
        invariant p <= DueCount(s, cur)
        invariant fired == IdsOf(s[..p])
        decreases |nodes|
      {
        assert Timer(tmp.id, tmp.expire) == s[p];
        DueFrom(s, cur, p);
        IdsOfSnoc(s, p);
        fired := fired + [tmp.id];
        DropHead();
        tmp := head;
        p := p + 1;
      }
      assert tmp != null ==> Timer(tmp.id, tmp.expire) == s[p];
      DueFrom(s, cur, p);
      assert Contents() == s[p..];
    }

    method DropHead()
      requires Linked() && |nodes| > 0
      modifies this`head, this`nodes, nodes`prev
      ensures Linked() && nodes == old(nodes)[1..]
    {
      head := head.next;
      if head != null {
        head.prev := null;
      }
      nodes := nodes[1..];
    }
  }
}
