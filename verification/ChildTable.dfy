/** The chat server's table of child processes: one child for each client, found by slot through
    `users` and by process id through `subProcess`. */
module ChildTables {

  import opened Sequences

  const USER_LIMIT := 5
  const PROCESS_LIMIT := 65536

  datatype Client = Client(connfd: int, pid: int)

  // ---------- What the table stands for ----------

  /** The live children, each with the connection it serves. */
  function Children(users: seq<Client>): (m: map<int, int>)
    ensures |m| <= |users|
  {
    if users == [] then map[]
    else
      var last := users[|users| - 1];
      Children(users[..|users| - 1])[last.pid := last.connfd]
  }

  /** The second table takes the process id of each used slot back to the slot. */
  ghost predicate Indexed(users: seq<Client>, sub: seq<int>) {
    forall i :: 0 <= i < |users| ==> 0 <= users[i].pid < |sub| && sub[users[i].pid] == i
  }

  ghost predicate DistinctPids(users: seq<Client>) {
    forall i, j :: 0 <= i < j < |users| ==> users[i].pid != users[j].pid
  }

  lemma IndexedPidsAreDistinct(users: seq<Client>, sub: seq<int>)
    requires Indexed(users, sub)
    ensures DistinctPids(users)
  {
  }

  lemma {:induction false} ChildrenAreUsers(users: seq<Client>, pid: int)
    ensures pid in Children(users) <==> exists i :: 0 <= i < |users| && users[i].pid == pid
  {
    if users != [] {
      var front := users[..|users| - 1];
      ChildrenAreUsers(front, pid);
      assert forall i :: 0 <= i < |front| ==> front[i] == users[i];
    }
  }

  lemma {:induction false} ChildKeepsConnection(users: seq<Client>, i: nat)
    requires DistinctPids(users) && i < |users|
    ensures users[i].pid in Children(users) && Children(users)[users[i].pid] == users[i].connfd
  {
    if i + 1 < |users| {
      ChildKeepsConnection(users[..|users| - 1], i);
    }
  }

  lemma {:induction false} EachHasItsSlot(users: seq<Client>)
    requires DistinctPids(users)
    ensures |Children(users)| == |users|
  {
    if users != [] {
      var front := users[..|users| - 1];
      EachHasItsSlot(front);
      ChildrenAreUsers(front, users[|users| - 1].pid);
    }
  }

  lemma MovedKeepsDistinct(users: seq<Client>, d: nat)
    requires DistinctPids(users) && d < |users|
    ensures DistinctPids(Moved(users, d))
  {
  }

  /** Another child than that of slot `d` stays, with its connection. */
  lemma {:induction false} OthersStay(users: seq<Client>, d: nat, pid: int)
    requires DistinctPids(users) && d < |users| && pid in Children(users) && pid != users[d].pid
    ensures pid in Children(Moved(users, d)) && Children(Moved(users, d))[pid] == Children(users)[pid]
  {
    hide Children, DistinctPids;
    ChildrenAreUsers(users, pid);
    var i: nat :| i < |users| && users[i].pid == pid;
    var j := if i == |users| - 1 then d else i;
    assert Moved(users, d)[j] == users[i];
    MovedKeepsDistinct(users, d);
    ChildKeepsConnection(users, i);
    ChildKeepsConnection(Moved(users, d), j);
  }

  /** No child appears, and that of slot `d` is gone. */
  lemma {:induction false} OneLeaves(users: seq<Client>, d: nat, pid: int)
    requires DistinctPids(users) && d < |users| && pid in Children(Moved(users, d))
    ensures pid in Children(users) && pid != users[d].pid
  {
    hide Children;
    ChildrenAreUsers(Moved(users, d), pid);
    ChildrenAreUsers(users, pid);
    var j: nat :| j < |Moved(users, d)| && Moved(users, d)[j].pid == pid;
    assert Moved(users, d)[j] == users[if j == d then |users| - 1 else j];
  }

  /** Swapping the last slot in removes exactly the child that has exited: every other child stays,
      with its own connection. */
  lemma {:induction false} ReapRemovesOne(users: seq<Client>, d: nat)
    requires DistinctPids(users) && d < |users|
    ensures Children(Moved(users, d)) == Children(users) - {users[d].pid}
  {
    hide Children, DistinctPids, Moved;
    var was, now, gone := Children(users), Children(Moved(users, d)), users[d].pid;
    forall pid | pid in was && pid != gone ensures pid in now && now[pid] == was[pid] {
      OthersStay(users, d, pid);
    }
    forall pid | pid in now ensures pid in was && pid != gone {
      OneLeaves(users, d, pid);
    }
  }

  lemma {:induction false} ForkAddsOne(users: seq<Client>, client: Client)
    ensures Children(users + [client]) == Children(users)[client.pid := client.connfd]
  {
    assert (users + [client])[..|users|] == users;
  }

  /** What the two assignments to the second table leave in it. */
  function Unindexed(users: seq<Client>, sub: seq<int>, d: nat): seq<int>
    requires Indexed(users, sub) && d < |users|
  {
    sub[users[d].pid := -1][users[|users| - 1].pid := d]
  }

  lemma {:induction false} MovedIsIndexed(users: seq<Client>, sub: seq<int>, d: nat)
    requires Indexed(users, sub) && d < |users|
    ensures Indexed(Moved(users, d), Unindexed(users, sub, d))
  {
  }

  /** The entry of a child that has exited is cleared, unless it was in the last slot: then the second
      assignment writes the slot's number back. */
  lemma {:induction false} EntryIsClearedUnlessLast(users: seq<Client>, sub: seq<int>, d: nat)
    requires Indexed(users, sub) && d < |users|
    ensures Unindexed(users, sub, d)[users[d].pid] == -1 <==> d != |users| - 1
  {
  }

  lemma AddedIsIndexed(users: seq<Client>, sub: seq<int>, client: Client)
    requires Indexed(users, sub) && 0 <= client.pid < |sub| && client.pid !in Children(users)
    ensures Indexed(users + [client], sub[client.pid := |users|])
  {
    ChildrenAreUsers(users, client.pid);
  }

  // ---------- Events ----------

  /** A connection with what fork returned for it, or the process id of a child that has exited. */
  datatype Event = Connects(connfd: int, pid: int) | Exits(pid: int)

  /** A plain map of live children, changed by one event. */
  function Happens(live: map<int, int>, e: Event): map<int, int> {
    match e
    case Connects(connfd, pid) =>
      if connfd < 0 || |live| >= USER_LIMIT || pid < 0 then live else live[pid := connfd]
    case Exits(pid) => live - {pid}
  }

  function AllHappen(live: map<int, int>, events: seq<Event>): map<int, int>
    decreases |events|
  {
    if events == [] then live else AllHappen(Happens(live, events[0]), events[1..])
  }

  /** fork gives the parent an id no live child has, or a negative number, and only a live child exits. */
  ghost predicate Possible(live: map<int, int>, e: Event) {
    match e
    case Connects(connfd, pid) => pid != 0 && pid < PROCESS_LIMIT && pid !in live
    case Exits(pid) => pid in live
  }

  ghost predicate AllPossible(live: map<int, int>, events: seq<Event>)
    decreases |events|
  {
    events == [] || (Possible(live, events[0]) && AllPossible(Happens(live, events[0]), events[1..]))
  }

  lemma {:induction false} HappensLast(live: map<int, int>, events: seq<Event>)
    requires events != []
    ensures AllHappen(live, events) == Happens(AllHappen(live, events[..|events| - 1]), events[|events| - 1])
    ensures AllPossible(live, events) ==>
              && AllPossible(live, events[..|events| - 1])
              && Possible(AllHappen(live, events[..|events| - 1]), events[|events| - 1])
    decreases |events|
  {
    hide *;
    var front, rest := events[..|events| - 1], events[1..];
    OneHappens(live, events);
    if |events| > 1 {
      assert front[0] == events[0] && front[1..] == rest[..|rest| - 1] && rest[|rest| - 1] == events[|events| - 1];
      OneHappens(live, front);
      HappensLast(Happens(live, events[0]), rest);
    } else {
      assert rest == [] && front == [];
      NoneHappens(live);
      NoneHappens(Happens(live, events[0]));
    }
  }

  lemma OneHappens(live: map<int, int>, events: seq<Event>)
    requires events != []
    ensures AllHappen(live, events) == AllHappen(Happens(live, events[0]), events[1..])
    ensures AllPossible(live, events) <==> Possible(live, events[0]) && AllPossible(Happens(live, events[0]), events[1..])
  {
  }

  lemma NoneHappens(live: map<int, int>)
    ensures AllHappen(live, []) == live && AllPossible(live, [])
  {
  }

  /** The i-th event connects a client, with room for it, to the child of this process id, which has not exited
      since. */
  ghost predicate ServedSince(events: seq<Event>, i: nat, pid: int, connfd: int) {
    && i < |events| && events[i] == Connects(connfd, pid) && connfd >= 0 && pid >= 0
    && |AllHappen(map[], events[..i])| < 5
    && forall j :: i < j < |events| ==> events[j] != Exits(pid)
  }

  lemma ServedByFront(events: seq<Event>, i: nat, pid: int, connfd: int)
    requires i + 1 < |events|
    ensures ServedSince(events, i, pid, connfd) <==>
            ServedSince(events[..|events| - 1], i, pid, connfd) && events[|events| - 1] != Exits(pid)
  {
    var front := events[..|events| - 1];
    assert front[..i] == events[..i];
    assert forall j :: 0 <= j < |front| ==> front[j] == events[j];
  }

  /** The children that are alive, with their connections, told from the events: those that were given a client and have
      not exited since. */
  lemma {:induction false} AliveExactly(events: seq<Event>, pid: int, connfd: int)
    requires AllPossible(map[], events)
    ensures var live := AllHappen(map[], events);
            (pid in live && live[pid] == connfd) <==> exists i: nat :: ServedSince(events, i, pid, connfd)
    decreases |events|
  {
    if events != [] {
      var n := |events| - 1;
      var front, last := events[..n], events[n];
      HappensLast(map[], events);
      hide AllHappen, AllPossible;
      AliveExactly(front, pid, connfd);
      AliveAfter(events, pid, connfd);
    }
  }

  lemma AliveWasServed(events: seq<Event>, pid: int, connfd: int, i: nat)
    requires ServedSince(events, i, pid, connfd) && i < |events|
    requires var live, front := AllHappen(map[], events[..|events| - 1]), events[..|events| - 1];
             ServedSince(front, i, pid, connfd) ==> pid in live && live[pid] == connfd
    requires var live := AllHappen(map[], events[..|events| - 1]);
             Possible(live, events[|events| - 1]) && AllHappen(map[], events) == Happens(live, events[|events| - 1])
    ensures var live := AllHappen(map[], events); pid in live && live[pid] == connfd
  {
    hide AllHappen, ServedSince;
    ServedIs(events, i, pid, connfd);
    if i < |events| - 1 { ServedByFront(events, i, pid, connfd); }
  }

  lemma AliveAfter(events: seq<Event>, pid: int, connfd: int)
    requires events != []
    requires var live := AllHappen(map[], events[..|events| - 1]);
             && Possible(live, events[|events| - 1])
             && AllHappen(map[], events) == Happens(live, events[|events| - 1])
    requires var live, front := AllHappen(map[], events[..|events| - 1]), events[..|events| - 1];
             (pid in live && live[pid] == connfd) <==> exists i: nat :: ServedSince(front, i, pid, connfd)
    ensures var live := AllHappen(map[], events);
            (pid in live && live[pid] == connfd) <==> exists i: nat :: ServedSince(events, i, pid, connfd)
  {
    var n := |events| - 1;
    var front := events[..n];
    var was, now := AllHappen(map[], front), AllHappen(map[], events);
    hide AllHappen, ServedSince;
    if i: nat :| ServedSince(events, i, pid, connfd) {
      ServedIs(events, i, pid, connfd);
      AliveWasServed(events, pid, connfd, i);
    }
    if pid in now && now[pid] == connfd {
      if pid in was && was[pid] == connfd {
        var i: nat :| ServedSince(front, i, pid, connfd);
        ServedIs(front, i, pid, connfd);
        ServedByFront(events, i, pid, connfd);
        assert ServedSince(events, i, pid, connfd);
      } else {
        JustServed(events, pid, connfd);
        assert ServedSince(events, n, pid, connfd);
      }
    }
  }

  lemma ServedIs(events: seq<Event>, i: nat, pid: int, connfd: int)
    requires ServedSince(events, i, pid, connfd)
    ensures i < |events| && events[i] == Connects(connfd, pid) && connfd >= 0 && pid >= 0
    ensures |AllHappen(map[], events[..i])| < 5
  {
  }

  lemma JustServed(events: seq<Event>, pid: int, connfd: int)
    requires events != [] && events[|events| - 1] == Connects(connfd, pid) && connfd >= 0 && pid >= 0
    requires |AllHappen(map[], events[..|events| - 1])| < 5
    ensures ServedSince(events, |events| - 1, pid, connfd)
  {
  }

  // ---------- The parent's state ----------

  class ChildTable {
    const users: array<Client>
    const subProcess: array<int>
    var userCount: nat

    ghost predicate Valid()
      reads this, users, subProcess
    {
      && users.Length == USER_LIMIT + 1 && subProcess.Length == PROCESS_LIMIT && userCount <= USER_LIMIT
      && Indexed(users[..userCount], subProcess[..])
    }

    ghost function Live(): map<int, int>
      reads this, users
      requires userCount <= users.Length
    {
      Children(users[..userCount])
    }

    constructor ()
      ensures Valid() && fresh(users) && fresh(subProcess) && Live() == map[]
      ensures forall pid :: 0 <= pid < PROCESS_LIMIT ==> subProcess[pid] == -1
    {
      users := new Client[USER_LIMIT + 1](_ => Client(-1, -1));
      subProcess := new int[PROCESS_LIMIT](_ => -1);
      userCount := 0;
    }

    /** A new connection: `pid` is what fork returns if it comes to that. */
    method Accept(connfd: int, pid: int)
      requires Valid() && Possible(Live(), Connects(connfd, pid))
      modifies this`userCount, users, subProcess
      ensures Valid() && Live() == Happens(old(Live()), Connects(connfd, pid))
    {
      ghost var before, sub := users[..userCount], subProcess[..];
      IndexedPidsAreDistinct(before, sub);
      EachHasItsSlot(before);
      if connfd < 0 || userCount >= USER_LIMIT {
        return;
      }
      users[userCount] := users[userCount].(connfd := connfd);
      assert users[..userCount] == before;
      if pid < 0 {
        return;
      }
      var client := users[userCount].(pid := pid);
      AddedIsIndexed(before, sub, client);
      ForkAddsOne(before, client);
      users[userCount] := client;
      subProcess[pid] := userCount;
      userCount := userCount + 1;
      assert users[..userCount] == before + [client];
    }

    /** A child that waitpid reports has exited. */
    method Reap(pid: int)
      requires Valid() && Possible(Live(), Exits(pid))
      modifies this`userCount, users, subProcess
      ensures Valid() && Live() == Happens(old(Live()), Exits(pid))
      ensures 0 <= pid < PROCESS_LIMIT && (subProcess[pid] == -1 <==> old(subProcess[..])[pid] != userCount)
    {
      ghost var before, sub := users[..userCount], subProcess[..];
      ChildrenAreUsers(before, pid);
      var delUser := subProcess[pid];
      subProcess[pid] := -1;
      if delUser < 0 || delUser > USER_LIMIT {
        assert false;
      }
      IndexedPidsAreDistinct(before, sub);
      MovedIsIndexed(before, sub, delUser);
      EntryIsClearedUnlessLast(before, sub, delUser);
      ReapRemovesOne(before, delUser);
      userCount := userCount - 1;
      users[delUser] := users[userCount];
      subProcess[users[delUser].pid] := delUser;
      assert users[..userCount] == Moved(before, delUser);
      assert subProcess[..] == Unindexed(before, sub, delUser);
    }

    /** Any sequence of connections and exits leaves the table standing for exactly the children that
        a plain map of them would hold. */
    method Serve(events: seq<Event>)
      requires Valid() && AllPossible(Live(), events)
      modifies this`userCount, users, subProcess
      ensures Valid() && Live() == AllHappen(old(Live()), events)
    {
      for i := 0 to |events|
        invariant Valid() && AllPossible(Live(), events[i..])
        invariant AllHappen(Live(), events[i..]) == AllHappen(old(Live()), events)
      {
        assert events[i..][1..] == events[i + 1..];
        match events[i]
        case Connects(connfd, pid) => Accept(connfd, pid);
        case Exits(pid) => Reap(pid);
      }
    }
  }
}
