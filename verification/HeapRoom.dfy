/** In which runs the time heap doubles its array, told from the calls alone. */
module HeapRooms {
  import opened Sequences
  import opened TimerAgenda

  /** The timers that take up a place in the heap: a cancelled one keeps its place until it is due. */
  function Keep(a: Agenda, op: Op): Agenda {
    if op.Cancel? then a else Step(a, op)
  }

  /** The capacity after one call, when the array is doubled for an addition that finds it full. */
  function Grown(a: Agenda, op: Op, capacity: nat): nat {
    if op.Add? && |a.pending| == capacity then 2 * capacity else capacity
  }

  function CapacityAfter(a: Agenda, ops: seq<Op>, capacity: nat): nat
    decreases |ops|
  {
    if ops == [] then capacity else CapacityAfter(Keep(a, ops[0]), ops[1..], Grown(a, ops[0], capacity))
  }

  /** Every addition finds fewer timers, cancelled ones not yet due included, than the capacity. */
  ghost predicate AlwaysRoom(a: Agenda, ops: seq<Op>, capacity: nat)
    decreases |ops|
  {
    ops != [] ==> (ops[0].Add? ==> |a.pending| < capacity) && AlwaysRoom(Keep(a, ops[0]), ops[1..], capacity)
  }

  lemma KeepFits(a: Agenda, op: Op, capacity: nat)
    requires |a.pending| <= capacity && capacity > 0
    ensures |Keep(a, op).pending| <= |a.pending| + (if op.Add? then 1 else 0)
    ensures |Keep(a, op).pending| <= Grown(a, op, capacity)
  {
    if op.Tick? { SubsetIsNoLarger(Keep(a, op).pending, a.pending); }
  }

  lemma {:induction false} CapacityNeverFalls(a: Agenda, ops: seq<Op>, capacity: nat)
    ensures CapacityAfter(a, ops, capacity) >= capacity
    decreases |ops|
  {
    if ops != [] {
      CapacityNeverFalls(Keep(a, ops[0]), ops[1..], Grown(a, ops[0], capacity));
    }
  }

  /** A run leaves the array as it was exactly when every addition finds room in it. */
  lemma {:induction false} GrowsExactly(a: Agenda, ops: seq<Op>, capacity: nat)
    requires |a.pending| <= capacity && capacity > 0
    ensures CapacityAfter(a, ops, capacity) == capacity <==> AlwaysRoom(a, ops, capacity)
    decreases |ops|
  {
    if ops != [] {
      KeepFits(a, ops[0], capacity);
      CapacityNeverFalls(Keep(a, ops[0]), ops[1..], Grown(a, ops[0], capacity));
      if Grown(a, ops[0], capacity) == capacity {
        GrowsExactly(Keep(a, ops[0]), ops[1..], capacity);
      }
    }
  }

  function Additions(ops: seq<Op>): nat {
    if ops == [] then 0 else (if ops[0].Add? then 1 else 0) + Additions(ops[1..])
  }

  /** So does one with no more additions than places. */
  lemma {:induction false} FewAdditionsFit(a: Agenda, ops: seq<Op>, capacity: nat)
    requires |a.pending| + Additions(ops) <= capacity && capacity > 0
    ensures AlwaysRoom(a, ops, capacity)
    decreases |ops|
  {
    if ops != [] {
      KeepFits(a, ops[0], capacity);
      FewAdditionsFit(Keep(a, ops[0]), ops[1..], capacity);
    }
  }

  /** `n` additions, of the timers with numbers from `id` on. */
  function ManyAdds(id: nat, n: nat): seq<Op>
    decreases n
  {
    if n == 0 then [] else [Add(id, 1)] + ManyAdds(id + 1, n - 1)
  }

  lemma {:induction false} ManyAddsAreFresh(id: nat, n: nat, used: set<nat>)
    requires forall i :: i in used ==> i < id
    ensures FreshAdds(ManyAdds(id, n), used)
    decreases n
  {
    if n > 0 {
      ManyAddsAreFresh(id + 1, n - 1, used + {id});
      assert ManyAdds(id, n)[1..] == ManyAdds(id + 1, n - 1);
    }
  }

  lemma {:induction false} ManyAddsFillUp(a: Agenda, id: nat, n: nat, capacity: nat)
    requires (forall t :: t in a.pending ==> t.id < id) && |a.pending| + n == capacity + 1 && n > 0
    ensures !AlwaysRoom(a, ManyAdds(id, n), capacity)
    decreases n
  {
    var ops := ManyAdds(id, n);
    assert ops[0] == Add(id, 1) && ops[1..] == ManyAdds(id + 1, n - 1);
    if n > 1 {
      ManyAddsFillUp(Keep(a, ops[0]), id + 1, n - 1, capacity);
    }
  }

  /** One addition more than places, with no heartbeat, doubles the array. */
  lemma OneAdditionTooMany(clock: int, capacity: nat)
    requires capacity > 0
    ensures FreshAdds(ManyAdds(0, capacity + 1), {})
    ensures CapacityAfter(Agenda(clock, {}), ManyAdds(0, capacity + 1), capacity) != capacity
  {
    ManyAddsAreFresh(0, capacity + 1, {});
    ManyAddsFillUp(Agenda(clock, {}), 0, capacity + 1, capacity);
    GrowsExactly(Agenda(clock, {}), ManyAdds(0, capacity + 1), capacity);
  }
}
