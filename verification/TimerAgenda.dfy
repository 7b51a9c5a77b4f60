/** What the three timer containers of chapter 11 have in common: a clock, a set of pending
    timers, and a heartbeat that runs the callback of every timer whose deadline has come.
    The containers are specified in their own modules and compared with this one in
    TimerSimulation. */
module TimerAgenda {

  datatype Timer = Timer(id: nat, expire: int)

  /** One call on a timer container. A timer is identified by the address it was created at. */
  datatype Op = Add(id: nat, timeout: nat) | Cancel(id: nat) | Tick

  const SLOT_INTERVAL := 1

  /** Number of slot intervals (of one second) a timeout stands for; less than one counts as one. */
  function Ticks(timeout: nat): nat {
    if timeout < SLOT_INTERVAL then 1 else timeout / SLOT_INTERVAL
  }

  datatype Agenda = Agenda(clock: int, pending: set<Timer>)

  function Due(a: Agenda): set<Timer> {
    set t | t in a.pending && t.expire <= a.clock
  }

  function Ids(s: set<Timer>): set<nat> {
    set t | t in s :: t.id
  }

  function Step(a: Agenda, op: Op): Agenda {
    match op
    case Add(id, timeout) => a.(pending := a.pending + {Timer(id, a.clock + Ticks(timeout))})
    case Cancel(id) => a.(pending := set t | t in a.pending && t.id != id)
    case Tick => Agenda(a.clock + 1, a.pending - Due(a))
  }

  /** The callbacks run by each heartbeat of a run, in order. */
  function Trace(a: Agenda, ops: seq<Op>): seq<set<nat>>
    decreases |ops|
  {
    if ops == [] then []
    else (if ops[0].Tick? then [Ids(Due(a))] else []) + Trace(Step(a, ops[0]), ops[1..])
  }

  ghost predicate UniqueIds(s: set<Timer>) {
    forall t, u :: t in s && u in s && t.id == u.id ==> t == u
  }

  /** Every timer added by the run is a new one. */
  ghost predicate FreshAdds(ops: seq<Op>, used: set<nat>) {
    ops == [] ||
    match ops[0]
    case Add(id, _) => id !in used && FreshAdds(ops[1..], used + {id})
    case _ => FreshAdds(ops[1..], used)
  }

  ghost predicate NeverCancelled(ops: seq<Op>, id: nat) {
    forall i :: 0 <= i < |ops| ==> ops[i] != Cancel(id)
  }

  lemma {:induction false} AbsentNeverFires(a: Agenda, ops: seq<Op>, used: set<nat>, id: nat)
    requires FreshAdds(ops, used) && id in used && id !in Ids(a.pending)
    ensures forall j :: 0 <= j < |Trace(a, ops)| ==> id !in Trace(a, ops)[j]
    decreases |ops|
  {
    if ops != [] {
      var used' := if ops[0].Add? then used + {ops[0].id} else used;
      AbsentNeverFires(Step(a, ops[0]), ops[1..], used', id);
    }
  }

  /** A pending timer that is not cancelled fires exactly once, at the heartbeat that finds the
      clock at its deadline. */
  lemma {:induction false} PendingFiresOnce(a: Agenda, ops: seq<Op>, used: set<nat>, t: Timer)
    requires FreshAdds(ops, used) && Ids(a.pending) <= used
    requires UniqueIds(a.pending) && t in a.pending && a.clock <= t.expire
    requires NeverCancelled(ops, t.id)
    ensures forall j :: 0 <= j < |Trace(a, ops)| ==> (t.id in Trace(a, ops)[j] <==> j == t.expire - a.clock)
    decreases |ops|
  {
    if ops != [] {
      var used' := if ops[0].Add? then used + {ops[0].id} else used;
      var b := Step(a, ops[0]);
      assert t.id in Ids(a.pending);
      assert NeverCancelled(ops[1..], t.id);
      if ops[0].Tick? && t.expire == a.clock {
        assert t in Due(a) && t.id in Ids(Due(a));
        AbsentNeverFires(b, ops[1..], used', t.id);
      } else {
        assert t in b.pending && UniqueIds(b.pending) by {
          assert ops[0] != Cancel(t.id);
          if ops[0].Add? {
            forall u | u in a.pending ensures u.id != ops[0].id {
              assert u.id in Ids(a.pending);
            }
          }
        }
        assert Ids(b.pending) <= used';
        PendingFiresOnce(b, ops[1..], used', t);
      }
    }
  }

  /** A timer added with a timeout of k seconds, where none counts as one, fires on the (k+1)-th later
      heartbeat and on no other; once cancelled it never fires again. */
  lemma AddedFiresOnTime(a: Agenda, ops: seq<Op>, used: set<nat>, id: nat, timeout: nat)
    requires Ids(a.pending) <= used && UniqueIds(a.pending) && id !in used
    requires FreshAdds(ops, used + {id})
    ensures var trace := Trace(Step(a, Add(id, timeout)), ops);
            NeverCancelled(ops, id) ==>
            forall j :: 0 <= j < |trace| ==> (id in trace[j] <==> j == if timeout == 0 then 1 else timeout)
    ensures forall j :: 0 <= j < |Trace(Step(Step(a, Add(id, timeout)), Cancel(id)), ops)| ==>
              id !in Trace(Step(Step(a, Add(id, timeout)), Cancel(id)), ops)[j]
  {
    var b := Step(a, Add(id, timeout));
    var t := Timer(id, a.clock + Ticks(timeout));
    forall u | u in a.pending ensures u.id != id {
      assert u.id in Ids(a.pending);
    }
    if NeverCancelled(ops, id) {
      PendingFiresOnce(b, ops, used + {id}, t);
    }
    AbsentNeverFires(Step(b, Cancel(id)), ops, used + {id}, id);
  }

  function StateAfter(a: Agenda, ops: seq<Op>): Agenda
    decreases |ops|
  {
    if ops == [] then a else StateAfter(Step(a, ops[0]), ops[1..])
  }

  function Used(op: Op, used: set<nat>): set<nat> {
    if op.Add? then used + {op.id} else used
  }

  function UsedAfter(ops: seq<Op>, used: set<nat>): set<nat> {
    if ops == [] then used else UsedAfter(ops[1..], Used(ops[0], used))
  }

  function Heartbeats(ops: seq<Op>): nat {
    if ops == [] then 0 else (if ops[0].Tick? then 1 else 0) + Heartbeats(ops[1..])
  }

  lemma StepKeepsIds(a: Agenda, op: Op, used: set<nat>)
    requires Ids(a.pending) <= used && UniqueIds(a.pending) && (op.Add? ==> op.id !in used)
    ensures Ids(Step(a, op).pending) <= Used(op, used) && UniqueIds(Step(a, op).pending)
  {
    forall t | t in a.pending ensures t.id in used {
      assert t.id in Ids(a.pending);
    }
  }

  /** A run may be cut anywhere; what the first part fires are timers it knew. */
  lemma {:induction false} RunsCompose(a: Agenda, pre: seq<Op>, post: seq<Op>, used: set<nat>)
    requires Ids(a.pending) <= used && UniqueIds(a.pending) && FreshAdds(pre + post, used)
    ensures Trace(a, pre + post) == Trace(a, pre) + Trace(StateAfter(a, pre), post)
    ensures |Trace(a, pre)| == Heartbeats(pre)
    ensures forall j :: 0 <= j < |Trace(a, pre)| ==> Trace(a, pre)[j] <= UsedAfter(pre, used)
    ensures Ids(StateAfter(a, pre).pending) <= UsedAfter(pre, used) && UniqueIds(StateAfter(a, pre).pending)
    ensures FreshAdds(post, UsedAfter(pre, used)) && used <= UsedAfter(pre, used)
    decreases |pre|
  {
    if pre == [] {
      assert pre + post == post;
    } else {
      assert (pre + post)[1..] == pre[1..] + post;
      StepKeepsIds(a, pre[0], used);
      RunsCompose(Step(a, pre[0]), pre[1..], post, Used(pre[0], used));
    }
  }

  /** In a whole run from an empty container, a timer that is not cancelled after its addition
      fires at one heartbeat only: the one that finds its deadline. */
  lemma FiresExactlyOnce(clock: int, pre: seq<Op>, id: nat, timeout: nat, post: seq<Op>)
    requires FreshAdds(pre + [Add(id, timeout)] + post, {}) && NeverCancelled(post, id)
    ensures var trace := Trace(Agenda(clock, {}), pre + [Add(id, timeout)] + post);
            forall j :: 0 <= j < |trace| ==> (id in trace[j] <==> j == Heartbeats(pre) + if timeout == 0 then 1 else timeout)
  {
    var a := Agenda(clock, {});
    var rest := [Add(id, timeout)] + post;
    assert pre + [Add(id, timeout)] + post == pre + rest;
    RunsCompose(a, pre, rest, {});
    var b := StateAfter(a, pre);
    assert rest[1..] == post && Trace(b, rest) == Trace(Step(b, rest[0]), post);
    AddedFiresOnTime(b, post, UsedAfter(pre, {}), id, timeout);
    assert id !in UsedAfter(pre, {});
    forall j | 0 <= j < Heartbeats(pre) ensures id !in Trace(a, pre + rest)[j] {
      assert Trace(a, pre + rest)[j] == Trace(a, pre)[j];
    }
  }
}
