/** The chat server's sweep over the descriptors that poll has reported on, with clients leaving and
    one arriving while it is under way. */
module PollSweeps {

  import opened Sequences

  const USER_LIMIT := 5

  /** A slot of the array given to poll, with what poll has reported on it. */
  datatype PollFd = PollFd(fd: int, err: bool, rdhup: bool, inn: bool)

  // ---------- Specification on the used slots ----------

  ghost predicate DistinctFds(s: seq<PollFd>) {
    forall i, j :: 0 <= i < j < |s| ==> s[i].fd != s[j].fd
  }

  function Fds(s: seq<PollFd>): set<int> {
    set p | p in s :: p.fd
  }

  /** What was reported on a client has its connection closed. `failing` are the descriptors from which
      recv gives an error other than EAGAIN. */
  predicate Leaves(p: PollFd, failing: set<int>) {
    !p.err && (p.rdhup || (p.inn && p.fd in failing))
  }

  /** The reports handled from slot `i` on, and the slots in use at the end. */
  function SweepFrom(s: seq<PollFd>, i: nat, failing: set<int>): (seq<PollFd>, seq<PollFd>)
    decreases |s| - i
  {
    if i >= |s| then ([], s)
    else
      var (handled, left) := if Leaves(s[i], failing) then SweepFrom(Moved(s, i), i, failing)
                             else SweepFrom(s, i + 1, failing);
      ([s[i]] + handled, left)
  }

  /** The slots after the listening socket has been handled. */
  function Accepted(s: seq<PollFd>, connfd: int): seq<PollFd>
    requires s != []
  {
    if s[0].inn && connfd >= 0 && |s| <= USER_LIMIT then s + [PollFd(connfd, false, false, false)] else s
  }

  lemma AcceptedIs(s: seq<PollFd>, connfd: int)
    requires s != []
    ensures Accepted(s, connfd) ==
            s + if s[0].inn && connfd >= 0 && |s| - 1 < 5 then [PollFd(connfd, false, false, false)] else []
  {
    assert s + [] == s;
  }

  lemma LeavesIs(failing: set<int>)
    ensures forall p :: !Leaves(p, failing) <==> p.err || (!p.rdhup && !(p.inn && p.fd in failing))
  {
  }

  lemma MovedBetween(s: seq<PollFd>, i: nat)
    requires i < |s| - 1
    ensures s[i..] == [s[i]] + s[i + 1..|s| - 1] + [s[|s| - 1]]
    ensures Moved(s, i)[i..] == [s[|s| - 1]] + s[i + 1..|s| - 1]
  {
  }

  lemma MovedFront(s: seq<PollFd>, i: nat)
    requires i < |s|
    ensures Moved(s, i)[..i] == s[..i]
    ensures i == |s| - 1 ==> Moved(s, i)[i..] == []
  {
  }

  lemma LastFirst(a: PollFd, middle: seq<PollFd>, b: PollFd)
    ensures multiset([b] + middle) == multiset([a] + middle + [b]) - multiset{a}
  {
  }

  lemma MovedMultiset(s: seq<PollFd>, i: nat)
    requires i < |s|
    ensures multiset(Moved(s, i)[i..]) == multiset(s[i..]) - multiset{s[i]}
    ensures Moved(s, i)[..i] == s[..i]
  {
    hide *;
    MovedFront(s, i);
    if i < |s| - 1 {
      MovedBetween(s, i);
      LastFirst(s[i], s[i + 1..|s| - 1], s[|s| - 1]);
    } else {
      assert s[i..] == [s[i]];
    }
  }

  function Count(s: seq<PollFd>, p: PollFd): nat {
    multiset(s)[p]
  }

  lemma CountFirst(s: seq<PollFd>, i: nat, p: PollFd)
    requires i < |s|
    ensures Count(s[i..], p) == (if p == s[i] then 1 else 0) + Count(s[i + 1..], p)
    ensures Count(s[..i + 1], p) == Count(s[..i], p) + if p == s[i] then 1 else 0
  {
    assert s[i..] == [s[i]] + s[i + 1..];
    assert s[..i + 1] == s[..i] + [s[i]];
  }

  lemma CountMoved(s: seq<PollFd>, i: nat, p: PollFd)
    requires i < |s|
    ensures Count(s[i..], p) == (if p == s[i] then 1 else 0) + Count(Moved(s, i)[i..], p)
  {
    CountFirst(s, i, p);
    MovedMultiset(s, i);
  }

  lemma CountJoin(s: seq<PollFd>, t: seq<PollFd>, p: PollFd)
    ensures Count(s + t, p) == Count(s, p) + Count(t, p)
    ensures Count([], p) == 0
  {
  }

  lemma CountOne(x: PollFd, p: PollFd)
    ensures Count([x], p) == if p == x then 1 else 0
  {
  }

  /** Every slot from `i` on is handled exactly once, although they change places on the way. */
  lemma {:induction false} EachHandledOnce(s: seq<PollFd>, i: nat, failing: set<int>, p: PollFd)
    requires i <= |s|
    ensures Count(SweepFrom(s, i, failing).0, p) == Count(s[i..], p)
    decreases |s| - i
  {
    hide Count, Moved;
    if i == |s| {
      assert s[i..] == [];
    } else {
      if Leaves(s[i], failing) {
        CountMoved(s, i, p);
        EachHandledOnce(Moved(s, i), i, failing, p);
        CountJoin([s[i]], SweepFrom(Moved(s, i), i, failing).0, p);
      } else {
        EachHandledOnce(s, i + 1, failing, p);
        CountJoin([s[i]], SweepFrom(s, i + 1, failing).0, p);
      }
      CountFirst(s, i, p);
      CountOne(s[i], p);
    }
  }

  /** Of the slots from `i` on, exactly those stay on which nothing was reported that closes them. */
  lemma {:induction false} LeaversLeave(s: seq<PollFd>, i: nat, failing: set<int>, p: PollFd)
    requires i <= |s|
    ensures Count(SweepFrom(s, i, failing).1, p) == Count(s[..i], p) + if Leaves(p, failing) then 0 else Count(s[i..], p)
    decreases |s| - i
  {
    hide Count;
    if i == |s| {
      assert s[..i] == s && s[i..] == [];
      CountJoin([], [], p);
    } else if Leaves(s[i], failing) {
      MovedMultiset(s, i);
      CountMoved(s, i, p);
      LeaversLeave(Moved(s, i), i, failing, p);
    } else {
      CountFirst(s, i, p);
      LeaversLeave(s, i + 1, failing, p);
    }
  }

  /** The listening socket's slot stays whatever happens. */
  lemma WholeSweep(s: seq<PollFd>, failing: set<int>, p: PollFd)
    requires DistinctFds(s) && s != []
    ensures Count([s[0]] + SweepFrom(s, 1, failing).0, p) == Count(s, p)
    ensures Count(SweepFrom(s, 1, failing).1, p) == if p == s[0] || !Leaves(p, failing) then Count(s, p) else 0
  {
    hide Leaves, SweepFrom;
    EachHandledOnce(s, 1, failing, p);
    LeaversLeave(s, 1, failing, p);
    CountJoin([s[0]], SweepFrom(s, 1, failing).0, p);
    CountFirst(s, 0, p);
    assert s[0..] == s && s[..0] == [] && s[..1] == [s[0]];
    assert p == s[0] ==> p !in s[1..];
  }

  /** Before slot `i` is looked at, `handled` and the slots in use are on the way to what a sweep of
      `s` comes to. */
  ghost predicate Underway(s: seq<PollFd>, handled: seq<PollFd>, slots: seq<PollFd>, i: nat, failing: set<int>) {
    && s != [] && i <= |slots|
    && handled + SweepFrom(slots, i, failing).0 == [s[0]] + SweepFrom(s, 1, failing).0
    && SweepFrom(slots, i, failing).1 == SweepFrom(s, 1, failing).1
  }

  lemma SweepBegins(s: seq<PollFd>, connfd: int, failing: set<int>)
    requires s != [] && DistinctFds(s) && connfd !in Fds(s)
    ensures DistinctFds(Accepted(s, connfd))
    ensures Underway(Accepted(s, connfd), [s[0]], Accepted(s, connfd), 1, failing)
  {
    assert forall i :: 0 <= i < |s| ==> s[i].fd in Fds(s);
  }

  lemma UnderwayNext(s: seq<PollFd>, handled: seq<PollFd>, slots: seq<PollFd>, i: nat, failing: set<int>)
    requires Underway(s, handled, slots, i, failing) && i < |slots|
    ensures Leaves(slots[i], failing) ==> Underway(s, handled + [slots[i]], Moved(slots, i), i, failing)
    ensures !Leaves(slots[i], failing) ==> Underway(s, handled + [slots[i]], slots, i + 1, failing)
  {
    hide Leaves, Moved;
    var p := slots[i];
    var rest := if Leaves(p, failing) then SweepFrom(Moved(slots, i), i, failing).0 else SweepFrom(slots, i + 1, failing).0;
    assert handled + ([p] + rest) == handled + [p] + rest;
  }

  lemma SweepLeaves(s: seq<PollFd>, handled: seq<PollFd>, slots: seq<PollFd>, failing: set<int>)
    requires Underway(s, handled, slots, |slots|, failing) && DistinctFds(s)
    ensures multiset(handled) == multiset(s)
    ensures forall p :: multiset(slots)[p] == if p == s[0] || !Leaves(p, failing) then multiset(s)[p] else 0
  {
    assert handled + [] == handled;
    assert handled == [s[0]] + SweepFrom(s, 1, failing).0 && slots == SweepFrom(s, 1, failing).1;
    hide Leaves, SweepFrom;
    forall p: PollFd
      ensures multiset(handled)[p] == multiset(s)[p]
      ensures multiset(slots)[p] == if p == s[0] || !Leaves(p, failing) then multiset(s)[p] else 0
    {
      WholeSweep(s, failing, p);
    }
  }

  lemma SweepEnds(s: seq<PollFd>, connfd: int, handled: seq<PollFd>, slots: seq<PollFd>, failing: set<int>)
    requires s != [] && DistinctFds(Accepted(s, connfd))
    requires Underway(Accepted(s, connfd), handled, slots, |slots|, failing)
    ensures var taken := s[0].inn && connfd >= 0 && |s| - 1 < 5;
            var t := s + if taken then [PollFd(connfd, false, false, false)] else [];
            && multiset(handled) == multiset(t)
            && forall p :: multiset(slots)[p] ==
                 if p == t[0] || p.err || (!p.rdhup && !(p.inn && p.fd in failing)) then multiset(t)[p] else 0
  {
    AcceptedIs(s, connfd);
    LeavesIs(failing);
    hide *;
    SweepLeaves(Accepted(s, connfd), handled, slots, failing);
  }

  lemma MovedFds(s: seq<PollFd>, i: nat)
    requires DistinctFds(s) && i < |s|
    ensures DistinctFds(Moved(s, i)) && Fds(Moved(s, i)) == Fds(s) - {s[i].fd}
  {
    var t, last := Moved(s, i), |s| - 1;
    forall fd | fd in Fds(s) && fd != s[i].fd ensures fd in Fds(t) {
      var k: nat :| k < |s| && s[k].fd == fd;
      assert t[if k == last then i else k] == s[k];
    }
    forall fd | fd in Fds(t) ensures fd in Fds(s) && fd != s[i].fd {
      var k: nat :| k < |t| && t[k].fd == fd;
      assert t[k] == s[if k == i then last else k];
    }
  }

  // ---------- The server's array ----------

  class PollTable {
    const fds: array<PollFd>
    const listenFd: int
    var userCounter: nat
    /** The descriptors the server has open. */
    var open: set<int>

    ghost predicate Valid()
      reads this, fds
    {
      && fds.Length == USER_LIMIT + 1 && userCounter <= USER_LIMIT && fds[0].fd == listenFd
      && DistinctFds(Slots()) && open == Fds(Slots())
    }

    ghost function Slots(): (s: seq<PollFd>)
      reads this, fds
      requires userCounter < fds.Length
      ensures |s| == userCounter + 1
    {
      fds[..userCounter + 1]
    }

    constructor (listenFd: int)
      ensures Valid() && fresh(fds) && userCounter == 0 && this.listenFd == listenFd
    {
      fds := new PollFd[USER_LIMIT + 1](_ => PollFd(-1, false, false, false));
      this.listenFd, userCounter, open := listenFd, 0, {listenFd};
      new;
      fds[0] := PollFd(listenFd, false, false, false);
      assert Slots() == [fds[0]];
    }

    /** The listening socket is ready; `connfd` is what accept returns. */
    method AcceptClient(connfd: int)
      requires Valid() && fds[0].inn && connfd !in open
      modifies this`userCounter, this`open, fds
      ensures Valid() && Slots() == Accepted(old(Slots()), connfd)
    {
      if connfd < 0 {
        return;
      }
      open := open + {connfd};
      if userCounter >= USER_LIMIT {
        open := open - {connfd};
        return;
      }
      ghost var before := Slots();
      userCounter := userCounter + 1;
      fds[userCounter] := PollFd(connfd, false, false, false);
      assert Slots() == before + [PollFd(connfd, false, false, false)];
      assert connfd !in Fds(before);
      assert Fds(Slots()) == Fds(before) + {connfd};
    }

    /** Closes a client's connection and copies the last slot over its slot. */
    method Remove(i: nat)
      requires Valid() && 1 <= i <= userCounter
      modifies this`userCounter, this`open, fds
      ensures Valid() && Slots() == Moved(old(Slots()), i)
    {
      ghost var before := Slots();
      MovedFds(before, i);
      open := open - {fds[i].fd};
      fds[i] := fds[userCounter];
      userCounter := userCounter - 1;
      assert Slots() == Moved(before, i);
    }

    /** Handles what was reported on slot `i`, and says which slot comes before the next one to handle. */
    method Handle(i: nat, connfd: int, failing: set<int>) returns (k: int)
      requires Valid() && i <= userCounter && (i == 0 ==> connfd !in open && !fds[0].rdhup)
      modifies this`userCounter, this`open, fds
      ensures Valid() && i - 1 <= k <= i
      ensures i == 0 ==> k == 0 && Slots() == Accepted(old(Slots()), connfd)
      ensures i > 0 && Leaves(old(fds[i]), failing) ==> k == i - 1 && Slots() == Moved(old(Slots()), i)
      ensures i > 0 && !Leaves(old(fds[i]), failing) ==> k == i && Slots() == old(Slots())
    {
      assert i > 0 ==> fds[i].fd != listenFd by {
        assert Slots()[0].fd == listenFd && Slots()[i] == fds[i];
      }
      k := i;
      if fds[i].fd == listenFd && fds[i].inn {
        AcceptClient(connfd);
      } else if fds[i].err {
      } else if fds[i].rdhup {
        Remove(i);
        k := i - 1;
      } else if fds[i].inn {
        if fds[i].fd in failing {
          Remove(i);
          k := i - 1;
        }
      }
    }

    /** One sweep. poll is asked for input and errors on the listening socket, so that it reports no
        hang-up there, and accept gives a descriptor that is not open. */
    method Sweep(connfd: int, failing: set<int>) returns (handled: seq<PollFd>)
      requires Valid() && !fds[0].rdhup && connfd !in open
      modifies this`userCounter, this`open, fds
      ensures Valid()
      ensures var taken := old(fds[0].inn) && connfd >= 0 && old(userCounter) < 5;
              var s := old(Slots()) + if taken then [PollFd(connfd, false, false, false)] else [];
              && multiset(handled) == multiset(s)
              && forall p :: multiset(Slots())[p] ==
                   if p == s[0] || p.err || (!p.rdhup && !(p.inn && p.fd in failing)) then multiset(s)[p] else 0
    {
      hide SweepFrom, Leaves, Moved, Accepted, DistinctFds, Underway, Fds;
      ghost var first := Slots();
      ghost var s := Accepted(first, connfd);
      handled := [];
      var i := 0;
      while i < userCounter + 1
        invariant Valid() && 0 <= i <= userCounter + 1
        invariant i == 0 ==> Slots() == first && handled == [] && !fds[0].rdhup && connfd !in open
        invariant i > 0 ==> DistinctFds(s) && Underway(s, handled, Slots(), i, failing)
        decreases i == 0, userCounter + 1 - i
      {
        ghost var slots, was, at := Slots(), handled, i;
        handled := handled + [fds[i]];
        i := Handle(i, connfd, failing);
        i := i + 1;
        assert handled == was + [slots[at]];
        if at == 0 {
          SweepBegins(slots, connfd, failing);
          assert handled == [slots[0]];
          assert Slots() == s;
        } else {
          UnderwayNext(s, was, slots, at, failing);
        }
      }
      SweepEnds(first, connfd, handled, Slots(), failing);
    }
  }
}
