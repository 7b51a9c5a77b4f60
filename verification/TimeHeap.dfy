/** The min-heap of timers with lazy deletion. */
module TimeHeaps {
  import opened Sequences

  /** A stored timer as far as its deadline and callback go. */
  datatype Entry = Entry(id: nat, expire: int, live: bool)

  function After(h: set<Entry>, cur: int): set<Entry> {
    set e | e in h && cur < e.expire
  }

  function DueLive(h: set<Entry>, cur: int): set<nat> {
    set e | e in h && e.live && e.expire <= cur :: e.id
  }

  function Disarm(h: set<Entry>, id: nat): set<Entry> {
    set e | e in h :: if e.id == id then Entry(e.id, e.expire, false) else e
  }

  class HeapTimer {
    const id: nat
    const expire: int
    /** False once the callback pointer was set to null. */
    var callback: bool

    constructor (id: nat, now: int, delay: int)
      ensures this.id == id && expire == now + delay && callback
    {
      this.id, expire, callback := id, now + delay, true;
    }

    function AsEntry(): Entry
      reads this
    {
      Entry(id, expire, callback)
    }
  }

  function Key(t: HeapTimer?): int {
    if t == null then 0 else t.expire
  }

  function Parent(i: nat): nat {
    if i == 0 then 0 else (i - 1) / 2
  }

  /** Heap order below the nodes from `lo` on. */
  ghost predicate HeapFrom(s: seq<HeapTimer?>, lo: nat) {
    forall i :: 1 <= i < |s| && lo <= Parent(i) ==> Key(s[Parent(i)]) <= Key(s[i])
  }

  /** Heap order except below `h`, whose own parent is in order with what stands below `h`. */
  ghost predicate HeapBut(s: seq<HeapTimer?>, lo: nat, h: nat) {
    && (forall i :: 1 <= i < |s| && lo <= Parent(i) && Parent(i) != h ==> Key(s[Parent(i)]) <= Key(s[i]))
    && (0 < h < |s| && lo <= Parent(h) ==> forall i :: 1 <= i < |s| && Parent(i) == h ==> Key(s[Parent(h)]) <= Key(s[i]))
  }

  /** Heap order except between `h` and its parent. */
  ghost predicate HeapAbove(s: seq<HeapTimer?>, h: nat) {
    && (forall i :: 1 <= i < |s| && i != h ==> Key(s[Parent(i)]) <= Key(s[i]))
    && (0 < h < |s| ==> forall i :: 1 <= i < |s| && Parent(i) == h ==> Key(s[Parent(h)]) <= Key(s[i]))
  }

  lemma {:induction false} RootIsLeast(s: seq<HeapTimer?>, i: nat)
    requires HeapFrom(s, 0) && i < |s|
    ensures Key(s[0]) <= Key(s[i])
  {
    if i > 0 {
      RootIsLeast(s, Parent(i));
    }
  }

  lemma SiftStart(s: seq<HeapTimer?>, lo: nat)
    requires HeapFrom(s, lo + 1)
    ensures HeapBut(s, lo, lo)
  {
  }

  /** `c` is the child of `h` that is due earlier. */
  ghost predicate LeastChild(s: seq<HeapTimer?>, h: nat, c: nat) {
    && 2 * h + 1 <= c <= 2 * h + 2 && c < |s|
    && forall i :: 1 <= i < |s| && Parent(i) == h ==> Key(s[c]) <= Key(s[i])
  }

  lemma SiftStop(s: seq<HeapTimer?>, lo: nat, h: nat, c: nat)
    requires HeapBut(s, lo, h) && LeastChild(s, h, c) && Key(s[h]) <= Key(s[c])
    ensures HeapFrom(s, lo)
  {
  }

  lemma SiftLeaf(s: seq<HeapTimer?>, lo: nat, h: nat)
    requires HeapBut(s, lo, h) && |s| <= 2 * h + 1
    ensures HeapFrom(s, lo)
  {
  }

  lemma {:induction false} SiftStep(s: seq<HeapTimer?>, lo: nat, h: nat, c: nat)
    requires HeapBut(s, lo, h) && lo <= h && LeastChild(s, h, c) && Key(s[c]) < Key(s[h])
    ensures HeapBut(Swapped(s, h, c), lo, c)
  {
    var t := Swapped(s, h, c);
    forall i | 1 <= i < |t| && lo <= Parent(i) && Parent(i) != c
      ensures Key(t[Parent(i)]) <= Key(t[i])
    {
      if i == h { assert t[i] == s[c] && t[Parent(i)] == s[Parent(i)]; }
      else if Parent(i) == h { assert t[Parent(i)] == s[c]; }
    }
  }

  lemma {:induction false} RiseStep(s: seq<HeapTimer?>, h: nat)
    requires HeapAbove(s, h) && 0 < h < |s| && Key(s[h]) < Key(s[Parent(h)])
    ensures HeapAbove(Swapped(s, h, Parent(h)), Parent(h))
  {
    var p := Parent(h);
    var t := Swapped(s, h, p);
    forall i | 1 <= i < |t| && i != p ensures Key(t[Parent(i)]) <= Key(t[i]) {
      if Parent(i) == p && i != h { assert t[i] == s[i]; }
    }
  }

  lemma RiseStart(s: seq<HeapTimer?>, t: HeapTimer)
    requires HeapFrom(s, 0)
    ensures HeapAbove(s + [t], |s|)
  {
  }

  lemma RiseDone(s: seq<HeapTimer?>, h: nat)
    requires HeapAbove(s, h) && (0 < h < |s| ==> Key(s[Parent(h)]) <= Key(s[h]))
    ensures HeapFrom(s, 0)
  {
  }

  /** Taking the last timer to the root leaves the others in order. */
  lemma LastToRoot(s: seq<HeapTimer?>, t: seq<HeapTimer?>)
    requires HeapFrom(s, 0) && |s| > 0
    requires t == if |s| == 1 then [] else [s[|s| - 1]] + s[1..|s| - 1]
    ensures HeapFrom(t, 1) && multiset(t) + multiset{s[0]} == multiset(s)
  {
    assert forall i :: 1 <= i < |t| ==> t[i] == s[i];
    hide HeapFrom, Key;
    assert s == [s[0]] + s[1..];
    if |s| > 1 {
      assert s[1..] == s[1..|s| - 1] + [s[|s| - 1]];
    }
  }

  ghost function EntryOf(t: HeapTimer?): Entry
    reads t
  {
    if t == null then Entry(0, 0, false) else t.AsEntry()
  }

  ghost function Entries(m: multiset<HeapTimer?>): set<Entry>
    reads set t | t in m
  {
    set t | t in m :: EntryOf(t)
  }

  ghost function LiveIds(s: seq<HeapTimer?>): seq<nat>
    reads s
  {
    if s == [] then []
    else LiveIds(s[..|s| - 1]) +
         (if s[|s| - 1] != null && s[|s| - 1].callback then [s[|s| - 1].id] else [])
  }

  /** `popped` went before what is `kept`, in order of deadline and none later than `cur`; together
      they are `all`. */
  ghost predicate Partition(popped: seq<HeapTimer?>, kept: multiset<HeapTimer?>, all: multiset<HeapTimer?>, cur: int) {
    && multiset(popped) + kept == all
    && (forall i :: 0 <= i < |popped| ==> popped[i] != null && Key(popped[i]) <= cur)
    && (forall i, j :: 0 <= i < j < |popped| ==> Key(popped[i]) <= Key(popped[j]))
    && (forall i, t :: 0 <= i < |popped| && t in kept ==> Key(popped[i]) <= Key(t))
  }

  /** When nothing due is kept, the popped timers are exactly those that were due. */
  lemma {:induction false} PartitionIsExact(popped: seq<HeapTimer?>, kept: multiset<HeapTimer?>, all: multiset<HeapTimer?>, cur: int)
    requires Partition(popped, kept, all, cur) && forall t :: t in kept ==> cur < Key(t)
    ensures forall t :: t in all ==> multiset(popped)[t] == (if Key(t) <= cur then all[t] else 0)
                                     && kept[t] == (if Key(t) <= cur then 0 else all[t])
  {
    forall t | t in all ensures Key(t) <= cur ==> t !in kept {}
    forall t | t in multiset(popped) ensures Key(t) <= cur {
      var i :| 0 <= i < |popped| && popped[i] == t;
    }
  }

  lemma {:induction false} EntriesOfOneMore(m: multiset<HeapTimer?>, t: HeapTimer)
    ensures Entries(m + multiset{t}) == Entries(m) + {t.AsEntry()}
  {
    forall e ensures e in Entries(m + multiset{t}) <==> e in Entries(m) + {t.AsEntry()} {
      assert t in m + multiset{t} && EntryOf(t) == t.AsEntry();
    }
  }

  lemma {:induction false} LiveIdsAreLive(popped: seq<HeapTimer?>, id: nat)
    ensures id in LiveIds(popped) <==> exists i :: 0 <= i < |popped| && popped[i] != null && popped[i].callback && popped[i].id == id
  {
    if popped != [] {
      LiveIdsAreLive(popped[..|popped| - 1], id);
    }
  }

  /** Lazy deletion is deletion: the callbacks run are those of the due timers that were not
      cancelled, and what is kept is what is not due. */
  lemma LazyIsEager(popped: seq<HeapTimer?>, kept: multiset<HeapTimer?>, all: multiset<HeapTimer?>, cur: int)
    requires Partition(popped, kept, all, cur) && forall t :: t in kept ==> cur < Key(t)
    ensures (set id | id in LiveIds(popped)) == DueLive(Entries(all), cur)
    ensures Entries(kept) == After(Entries(all), cur)
  {
    PartitionIsExact(popped, kept, all, cur);
    forall id ensures id in LiveIds(popped) <==> id in DueLive(Entries(all), cur) {
      LiveIdsAreLive(popped, id);
      if id in LiveIds(popped) {
        var i :| 0 <= i < |popped| && popped[i] != null && popped[i].callback && popped[i].id == id;
        assert popped[i] in multiset(popped);
        assert EntryOf(popped[i]) in Entries(all);
      }
      if id in DueLive(Entries(all), cur) {
        var t :| t in all && EntryOf(t).live && EntryOf(t).expire <= cur && EntryOf(t).id == id;
        assert t in multiset(popped);
        var i :| 0 <= i < |popped| && popped[i] == t;
      }
    }
    forall e ensures e in Entries(kept) <==> e in After(Entries(all), cur) {
      if e in Entries(kept) {
        var t :| t in kept && EntryOf(t) == e;
        assert t in all;
      }
      if e in After(Entries(all), cur) {
        var t :| t in all && EntryOf(t) == e;
        assert t in kept;
      }
    }
  }

  /** Every timer is stored once, and timers have different numbers. */
  ghost predicate OnceEach(m: multiset<HeapTimer?>) {
    && (forall t :: t in m ==> t != null && m[t] == 1)
    && (forall t, u :: t in m && u in m && t != null && u != null && t.id == u.id ==> t == u)
  }

  /** The callbacks of the due timers that were not cancelled, each once. */
  ghost predicate Fires(h: set<Entry>, cur: int, fired: seq<nat>) {
    NoDuplicates(fired) && forall id :: id in fired <==> id in DueLive(h, cur)
  }

  lemma {:induction false} PoppedOnce(popped: seq<HeapTimer?>, all: multiset<HeapTimer?>)
    requires OnceEach(all) && multiset(popped) <= all
    ensures NoDuplicates(LiveIds(popped))
  {
    if popped != [] {
      var front, last := popped[..|popped| - 1], popped[|popped| - 1];
      assert popped == front + [last] && multiset(popped) == multiset(front) + multiset{last};
      assert all[last] == 1 && multiset(front)[last] == 0;
      PoppedOnce(front, all);
      forall i | 0 <= i < |front| && front[i] != null ensures front[i].id != last.id {
        assert front[i] in multiset(front) && last in multiset(popped);
      }
      LiveIdsAreLive(front, last.id);
    }
  }

  lemma TickIsEager(popped: seq<HeapTimer?>, kept: multiset<HeapTimer?>, all: multiset<HeapTimer?>, cur: int)
    requires Partition(popped, kept, all, cur) && forall t :: t in kept ==> cur < Key(t)
    ensures Entries(kept) == After(Entries(all), cur)
    ensures OnceEach(all) ==> Fires(Entries(all), cur, LiveIds(popped))
  {
    LazyIsEager(popped, kept, all, cur);
    assert forall id :: id in LiveIds(popped) <==> id in (set i | i in LiveIds(popped));
    if OnceEach(all) {
      PoppedOnce(popped, all);
    }
  }

  lemma NothingPopped(all: multiset<HeapTimer?>, cur: int)
    ensures Partition([], all, all, cur) && LiveIds([]) == []
  {
  }

  lemma KeyIs(t: HeapTimer)
    ensures Key(t) == t.expire
  {
  }

  lemma PartitionStep(popped: seq<HeapTimer?>, kept: multiset<HeapTimer?>, all: multiset<HeapTimer?>, cur: int,
                      top: HeapTimer, rest: multiset<HeapTimer?>)
    requires Partition(popped, kept, all, cur)
    requires kept == rest + multiset{top} && Key(top) <= cur && forall t :: t in kept ==> Key(top) <= Key(t)
    ensures Partition(popped + [top], rest, all, cur)
  {
    assert top in kept;
    assert forall t :: t in rest ==> t in kept;
  }

  class TimeHeap {
    var arr: array<HeapTimer?>
    var capacity: nat
    var curSize: nat

    ghost predicate Bounded()
      reads this, arr
    {
      arr.Length == capacity && curSize <= capacity && forall i :: 0 <= i < curSize ==> arr[i] != null
    }

    ghost predicate Valid()
      reads this, arr
    {
      Bounded() && HeapFrom(Stored(), 0)
    }

    ghost function Stored(): seq<HeapTimer?>
      reads this, arr
      requires curSize <= arr.Length
    {
      arr[..curSize]
    }

    /** An empty heap of the given capacity. */
    constructor (cap: nat)
      ensures Valid() && fresh(arr) && capacity == cap && curSize == 0
    {
      arr := new HeapTimer?[cap](_ => null);
      capacity, curSize := cap, 0;
    }

    /** A heap of the first `size` timers of `init`; no heap when they exceed the capacity. */
    static method Build(init: array<HeapTimer>, size: nat, capacity: nat) returns (h: TimeHeap?)
      requires size <= init.Length
      ensures h == null <==> capacity < size
      ensures h != null ==> fresh(h) && fresh(h.arr) && h.Valid() && h.capacity == capacity
      ensures h != null ==> multiset(h.Stored()) == multiset(init[..size])
    {
      if capacity < size { return null; }
      h := new TimeHeap(capacity);
      if size != 0 {
        for i := 0 to size
          invariant h.arr.Length == capacity == h.capacity && fresh(h.arr)
          invariant forall j :: 0 <= j < i ==> h.arr[j] == init[j]
        {
          h.arr[i] := init[i];
        }
        h.curSize := size;
        assert h.Stored() == init[..size];
        var i := (size - 1) / 2;
        while i >= 0
          invariant -1 <= i < size && h.Bounded() && fresh(h.arr) && h.curSize == size && h.capacity == capacity
          invariant HeapFrom(h.Stored(), i + 1)
          invariant multiset(h.Stored()) == multiset(init[..size])
        {
          h.PercolateDown(i);
          i := i - 1;
        }
      }
    }

    /** The stored timers are `v` once `temp` is put into the hole at `h`. */
    ghost predicate Holed(v: seq<HeapTimer?>, h: nat, temp: HeapTimer?)
      reads this, arr
    {
      && arr.Length == capacity && |v| == curSize <= capacity && h < capacity
      && (forall i :: 0 <= i < curSize ==> v[i] != null && v[i] == if i == h then temp else arr[i])
    }

    lemma DigHole(h: nat)
      requires Bounded() && h < capacity
      ensures Holed(Stored(), h, arr[h])
    {
    }

    /** The child of `h` that is due earlier, the left one when both are due together. */
    method EarlierChild(h: nat, ghost v: seq<HeapTimer?>, ghost temp: HeapTimer?) returns (child: nat)
      requires Holed(v, h, temp) && h * 2 + 1 < curSize
      ensures h * 2 + 1 <= child <= h * 2 + 2 && child < curSize && arr[child] == v[child] != null
      ensures v[h] == temp != null
      ensures LeastChild(v, h, child) && (child == h * 2 + 2 ==> Key(v[child]) < Key(v[h * 2 + 1]))
    {
      child := h * 2 + 1;
      if child < curSize - 1 && arr[child + 1].expire < arr[child].expire {
        child := child + 1;
      }
    }

    /** Fills the hole at `h` from another place, which becomes the hole. */
    method MoveInto(h: nat, from: nat, temp: HeapTimer, ghost v: seq<HeapTimer?>) returns (ghost w: seq<HeapTimer?>)
      requires Holed(v, h, temp) && h < curSize && from < curSize && h != from
      modifies arr
      ensures Holed(w, from, temp) && w == Swapped(v, h, from)
    {
      arr[h] := arr[from];
      w := Swapped(v, h, from);
    }

    /** Puts `temp` into the hole. */
    method Fill(h: nat, temp: HeapTimer?, ghost v: seq<HeapTimer?>)
      requires Holed(v, h, temp)
      modifies arr
      ensures Bounded() && Stored() == v
    {
      arr[h] := temp;
    }

    /** One round of sinking: the hole moves to the child that is due earlier, unless `temp` may stay. */
    method SinkOnce(hole: nat, h: nat, temp: HeapTimer?, ghost v: seq<HeapTimer?>)
        returns (down: nat, ghost w: seq<HeapTimer?>)
      requires hole <= h && h * 2 + 1 <= curSize - 1 && Holed(v, h, temp) && HeapBut(v, hole, h)
      modifies arr
      ensures Holed(w, down, temp) && multiset(w) == multiset(v)
      ensures if down == h then HeapFrom(w, hole) else h < down && HeapBut(w, hole, down)
    {
      var child := EarlierChild(h, v, temp);
      if arr[child].expire < temp.expire {
        SiftStep(v, hole, h, child);
        w := MoveInto(h, child, temp, v);
        down := child;
      } else {
        SiftStop(v, hole, h, child);
        down, w := h, v;
      }
    }

    /** Lets the timer at `hole` sink until nothing below it is due earlier. */
    method PercolateDown(hole: nat)
      requires Bounded() && hole < capacity && HeapFrom(Stored(), hole + 1)
      modifies arr
      ensures Bounded() && HeapFrom(Stored(), hole) && multiset(Stored()) == multiset(old(Stored()))
    {
      var temp := arr[hole];
      var h := hole;
      ghost var v := Stored();
      ghost var m := multiset(v);
      SiftStart(v, hole);
      DigHole(h);
      hide HeapFrom, HeapBut, Holed;
      while h * 2 + 1 <= curSize - 1
        invariant hole <= h && |v| == curSize && Holed(v, h, temp)
        invariant HeapBut(v, hole, h) && multiset(v) == m
        decreases curSize - h
      {
        var down;
        down, v := SinkOnce(hole, h, temp, v);
        if down == h { break; }
        h := down;
      }
      if h * 2 + 1 > curSize - 1 {
        SiftLeaf(v, hole, h);
      }
      Fill(h, temp, v);
    }

    /** `stale` tells whether the call would read a timer that it has deleted. */
    method AddTimer(timer: HeapTimer?) returns (ghost stale: bool)
      requires Valid() && capacity > 0
      modifies this, arr
      ensures stale <==> timer != null && old(curSize) == old(capacity)
      ensures Valid() && (arr == old(arr) || fresh(arr)) && capacity > 0
      ensures capacity == if timer != null && old(curSize) == old(capacity) then 2 * old(capacity) else old(capacity)
      ensures multiset(Stored()) == multiset(old(Stored())) + if timer == null then multiset{} else multiset{timer}
      ensures timer != null ==> Entries(multiset(Stored())) == old(Entries(multiset(Stored()))) + {timer.AsEntry()}
    {
      if timer == null { return false; }
      hide HeapFrom, Entries, Stored;
      ghost var m := multiset(Stored()) + multiset{timer};
      EntriesOfOneMore(multiset(Stored()), timer);
      ghost var entries := Entries(m);
      stale := Insert(timer);
      assert multiset(Stored()) == m && Entries(m) == entries;
    }

    /** Lets a new timer rise from the first free place. */
    method Insert(timer: HeapTimer) returns (ghost stale: bool)
      requires Valid() && capacity > 0
      modifies this, arr
      ensures stale <==> old(curSize) == old(capacity)
      ensures Valid() && (arr == old(arr) || fresh(arr)) && capacity > 0
      ensures capacity == if old(curSize) == old(capacity) then 2 * old(capacity) else old(capacity)
      ensures multiset(Stored()) == multiset(old(Stored())) + multiset{timer}
    {
      ghost var s, full, gone := Stored(), curSize == capacity, {};
      if curSize >= capacity {
        gone := Resize();
      }
      var hole: nat := curSize;
      curSize := curSize + 1;
      stale := false;
      ghost var v := s + [timer];
      RiseStart(s, timer);
      assert Holed(v, hole, timer) && (full ==> |s| > 0);
      hide HeapFrom, HeapAbove, Holed;
      while hole > 0
        invariant Holed(v, hole, timer) && hole < curSize
        invariant HeapAbove(v, hole) && multiset(v) == multiset(s + [timer])
        invariant (hole == |s| ==> v == s + [timer]) && (stale ==> full) && (full && hole < |s| ==> stale)
        modifies arr
      {
        ParentIs(v, hole, timer);
        stale := stale || arr[(hole - 1) / 2] in gone;
        var up;
        up, v := RiseOnce(hole, timer, v);
        if up == hole { break; }
        hole := up;
      }
      if hole == 0 {
        RiseDone(v, hole);
      }
      Fill(hole, timer, v);
    }

    lemma ParentIs(v: seq<HeapTimer?>, hole: nat, timer: HeapTimer)
      requires Holed(v, hole, timer) && 0 < hole < curSize
      ensures |v| == curSize <= arr.Length && arr[(hole - 1) / 2] == v[(hole - 1) / 2]
    {
    }

    /** One round of rising: the hole moves to its parent unless that is not due later. */
    method RiseOnce(hole: nat, timer: HeapTimer, ghost v: seq<HeapTimer?>)
        returns (up: nat, ghost w: seq<HeapTimer?>)
      requires 0 < hole < curSize && Holed(v, hole, timer) && HeapAbove(v, hole)
      modifies arr
      ensures Holed(w, up, timer) && multiset(w) == multiset(v)
      ensures if up == hole then HeapFrom(w, 0) else up < hole && HeapAbove(w, up)
    {
      var parent := (hole - 1) / 2;
      if arr[parent].expire <= timer.expire {
        RiseDone(v, hole);
        up, w := hole, v;
      } else {
        RiseStep(v, hole);
        w := MoveInto(hole, parent, timer, v);
        up := parent;
      }
    }

    /** Doubles the capacity. `gone` are the timers that it would delete after having copied them. */
    method Resize() returns (ghost gone: set<HeapTimer?>)
      requires Bounded()
      modifies this`arr, this`capacity
      ensures Bounded() && fresh(arr) && capacity == 2 * old(capacity) && Stored() == old(Stored())
      ensures gone == set t | t in Stored()
    {
      var temp := new HeapTimer?[2 * capacity](_ => null);
      gone := {};
      for i := 0 to curSize
        invariant forall j :: 0 <= j < i ==> temp[j] == arr[j]
        invariant gone == set t | t in arr[..i]
        modifies temp
      {
        temp[i] := arr[i];
        gone := gone + {arr[i]};
      }
      capacity := 2 * capacity;
      arr := temp;
    }

    /** Lazy deletion: the timer stays where it is, without its callback. */
    method DelTimer(timer: HeapTimer?)
      requires Bounded()
      requires timer != null ==> forall t :: t in multiset(Stored()) && t != timer ==> t != null && t.id != timer.id
      modifies timer
      ensures timer != null ==> !timer.callback
      ensures timer != null ==> Entries(multiset(Stored())) == Disarm(old(Entries(multiset(Stored()))), timer.id)
    {
      if timer == null { return; }
      timer.callback := false;
    }

    method Top() returns (t: HeapTimer?)
      requires Valid()
      ensures t == null <==> curSize == 0
      ensures t != null ==> t == Stored()[0] && forall u :: u in multiset(Stored()) ==> t.expire <= Key(u)
    {
      if curSize == 0 { return null; }
      t := arr[0];
      TopIsLeast();
    }

    lemma TopIsLeast()
      requires Valid() && curSize > 0
      ensures arr[0] != null && forall t :: t in multiset(Stored()) ==> Key(arr[0]) <= Key(t)
    {
      var s := Stored();
      forall t | t in multiset(s) ensures Key(arr[0]) <= Key(t) {
        var i :| 0 <= i < |s| && s[i] == t;
        RootIsLeast(s, i);
      }
    }

    method PopTimer()
      requires Valid()
      modifies this`curSize, arr
      ensures Valid() && curSize == if old(curSize) == 0 then 0 else old(curSize) - 1
      ensures old(curSize) > 0 ==> multiset(Stored()) + multiset{old(arr[0])} == multiset(old(Stored()))
    {
      if curSize == 0 { return; }
      ghost var s := Stored();
      if arr[0] != null {
        curSize := curSize - 1;
        arr[0] := arr[curSize];
        LastToRoot(s, Stored());
        PercolateDown(0);
      }
    }

    /** Runs the callback of the top timer, which is due, and pops it. */
    method FireTop(cur: int, ghost popped: seq<HeapTimer?>, ghost all: multiset<HeapTimer?>)
        returns (fired: seq<nat>, ghost more: seq<HeapTimer?>)
      requires Valid() && curSize > 0 && Key(arr[0]) <= cur && Partition(popped, multiset(Stored()), all, cur)
      modifies this`curSize, arr
      ensures Valid() && curSize == old(curSize) - 1
      ensures Partition(more, multiset(Stored()), all, cur) && LiveIds(more) == LiveIds(popped) + fired
    {
      var top := arr[0];
      fired := if top.callback then [top.id] else [];
      more := popped + [top];
      TopIsLeast();
      ghost var kept := multiset(Stored());
      hide Partition;
      PopTimer();
      PartitionStep(popped, kept, all, cur, top, multiset(Stored()));
      assert more[..|popped|] == popped;
    }

    /** Runs the callbacks of the timers that are due at `cur`. */
    method Tick(cur: int) returns (fired: seq<nat>, ghost popped: seq<HeapTimer?>)
      requires Valid() && capacity > 0
      modifies this`curSize, arr
      ensures Valid() && Partition(popped, multiset(Stored()), multiset(old(Stored())), cur)
      ensures forall t :: t in multiset(Stored()) ==> cur < Key(t)
      ensures fired == LiveIds(popped)
      ensures Entries(multiset(Stored())) == After(old(Entries(multiset(Stored()))), cur)
      ensures OnceEach(multiset(old(Stored()))) ==> Fires(old(Entries(multiset(Stored()))), cur, fired)
    {
      hide HeapFrom, Partition, Entries, After, Fires, OnceEach, Key, LiveIds;
      ghost var all := multiset(Stored());
      ghost var entries := Entries(all);
      fired, popped := PopDue(cur);
      assert Entries(all) == entries;
      TickIsEager(popped, multiset(Stored()), all, cur);
    }

    /** Pops in order of deadline until nothing kept is due. */
    method PopDue(cur: int) returns (fired: seq<nat>, ghost popped: seq<HeapTimer?>)
      requires Valid() && capacity > 0
      modifies this`curSize, arr
      ensures Valid() && Partition(popped, multiset(Stored()), multiset(old(Stored())), cur)
      ensures forall t :: t in multiset(Stored()) ==> cur < Key(t)
      ensures fired == LiveIds(popped)
    {
      hide *;
      fired, popped := [], [];
      HasPlaces();
      var tmp := arr[0];
      ghost var all := multiset(Stored());
      NothingPopped(all, cur);
      while curSize != 0 && tmp != null && !(tmp.expire > cur)
        invariant Valid() && capacity > 0 && curSize <= arr.Length && arr.Length > 0 && tmp == arr[0]
        invariant Partition(popped, multiset(Stored()), all, cur) && fired == LiveIds(popped)
        decreases curSize
      {
        KeyIs(tmp);
        var now;
        now, popped := FireTop(cur, popped, all);
        fired := fired + now;
        HasPlaces();
        tmp := arr[0];
      }
      NothingDue(cur);
    }

    lemma HasPlaces()
      requires Valid() && capacity > 0
      ensures curSize <= arr.Length && arr.Length > 0
    {
    }

    lemma NothingDue(cur: int)
      requires Valid() && capacity > 0 && curSize <= arr.Length && (curSize == 0 || arr[0] == null || cur < arr[0].expire)
      ensures forall t :: t in multiset(Stored()) ==> cur < Key(t)
    {
      if curSize > 0 {
        TopIsLeast();
      }
    }
  }
}
