/** The three timer containers at work on the same run. */
module TimerRuns {
  import opened Sequences
  import opened TimerAgenda
  import opened TimerSimulation
  import ListRuns
  import WheelRuns
  import HeapRuns
  import opened HeapRooms
  import WheelOrders

  /** A list, a wheel and a heap that are given the same additions, cancellations and heartbeats run the
      same callbacks at every heartbeat, each once. `safe` tells whether the deletes that the wheel and the
      heap make too many never have a deleted timer read: exactly then no due timer was added between one
      of its slot and a later one not due yet, and every addition to the heap finds room. */
  method RunAll(capacity: nat, clock: int, ops: seq<Op>)
      returns (list: seq<seq<nat>>, wheel: seq<seq<nat>>, heap: seq<seq<nat>>, ghost safe: bool)
    requires FreshAdds(ops, {}) && capacity > 0
    ensures |list| == |wheel| == |heap| == |Trace(Agenda(clock, {}), ops)|
    ensures forall j :: 0 <= j < |list| ==> NoDuplicates(list[j]) && NoDuplicates(wheel[j]) && NoDuplicates(heap[j])
    ensures forall j, id :: 0 <= j < |list| ==> (id in list[j] <==> id in wheel[j]) && (id in list[j] <==> id in heap[j])
    ensures forall j, id :: 0 <= j < |list| ==> (id in list[j] <==> id in Trace(Agenda(clock, {}), ops)[j])
    ensures safe <==> WheelOrders.AllClean([], clock, ops) && AlwaysRoom(Agenda(clock, {}), ops, capacity)
  {
    list := ListRuns.RunList(clock, ops);
    ghost var stale, full;
    wheel, stale := WheelRuns.RunWheel(clock, ops);
    heap, full := HeapRuns.RunHeap(capacity, clock, ops);
    RunsAgree(clock, ops, heap);
    safe := !stale && !full;
  }

  /** In such a run a timer that is not cancelled is run once by each, on the (k+1)-th heartbeat after its
      addition, for a timeout of k seconds. */
  method RunOneTimer(capacity: nat, clock: int, pre: seq<Op>, id: nat, timeout: nat, post: seq<Op>)
      returns (list: seq<seq<nat>>, wheel: seq<seq<nat>>, heap: seq<seq<nat>>)
    requires FreshAdds(pre + [Add(id, timeout)] + post, {}) && NeverCancelled(post, id) && capacity > 0
    ensures |list| == |wheel| == |heap|
    ensures forall j :: 0 <= j < |list| ==>
              var now := j == Heartbeats(pre) + if timeout == 0 then 1 else timeout;
              (id in list[j] <==> now) && (id in wheel[j] <==> now) && (id in heap[j] <==> now)
  {
    ghost var safe;
    list, wheel, heap, safe := RunAll(capacity, clock, pre + [Add(id, timeout)] + post);
    FiresExactlyOnce(clock, pre, id, timeout, post);
  }
}
