/** Who may touch a connection object: the main loop, the work queue, or one worker, passed on by
    one-shot epoll registrations. */
module OneShot {
  import opened Sequences

  type Fd = nat
  type Tid = nat

  /** A worker in process; one that has closed its socket and still has to note that in the object; and
      one that has modfd left to call. */
  datatype Job = Working(fd: Fd) | Closing(fd: Fd) | Closed(fd: Fd)

  /** The limit of the work queue; connections that are open, whose object holds their number, armed in
      epoll, reported by the last epoll_wait and not yet handled, queued for a worker, in the hands of a
      worker; and those that nobody will look at again. */
  datatype Server = Server(limit: nat, open: set<Fd>, named: set<Fd>, armed: set<Fd>, batch: seq<Fd>, queue: seq<Fd>,
                           jobs: map<Tid, Job>, lost: set<Fd>)

  datatype Event =
    | Accept(fd: Fd)          // init of the connection object, with its registration
    | Wait(fds: seq<Fd>)      // epoll_wait reports these connections
    | Hangup                  // the main loop handles the next report: an error or hang-up,
    | Input(readOk: bool)     // input, read and offered to the pool,
    | Output(rearmed: bool)   // or output
    | Take(t: Tid)            // a worker takes a request out of the queue
    | Rearm(t: Tid)           // process ends with modfd: more input wanted, or a response ready
    | Close(t: Tid)           // process_write failed and the worker closes the socket,
    | Forget(t: Tid)          // sets the number in the object to -1,
    | LateModfd(t: Tid)       // and then calls modfd all the same

  ghost predicate Distinct(s: seq<Fd>) {
    forall i, j :: 0 <= i < j < |s| ==> s[i] != s[j]
  }

  function Elements(s: seq<Fd>): set<Fd> {
    set fd | fd in s
  }

  /** close_conn by the main loop; it does nothing when the object holds no number. */
  function Drop(s: Server, fd: Fd): Server {
    if fd in s.named then
      s.(open := s.open - {fd}, named := s.named - {fd}, armed := s.armed - {fd}, lost := s.lost - {fd})
    else s.(lost := s.lost + {fd})
  }

  /** modfd by the one who has the connection; it fails when the object holds no number. */
  function Arm(s: Server, fd: Fd): Server {
    if fd in s.named then s.(armed := s.armed + {fd}) else s.(lost := s.lost + {fd})
  }

  /** append to the pool, whose queue takes one request more than the limit. */
  function Offer(s: Server, fd: Fd): Server {
    if |s.queue| > s.limit then s.(lost := s.lost + {fd}) else s.(queue := s.queue + [fd])
  }

  /** One step; a step that cannot be taken changes nothing. */
  ghost function Step(s: Server, e: Event): Server {
    match e
    case Accept(fd) =>
      if fd in s.open then s
      else s.(open := s.open + {fd}, named := s.named + {fd}, armed := s.armed + {fd})
    case Wait(fds) =>
      if s.batch == [] && Distinct(fds) && forall i :: 0 <= i < |fds| ==> fds[i] in s.armed
      then s.(armed := s.armed - Elements(fds), batch := fds) else s
    case Hangup => if s.batch == [] then s else Drop(s.(batch := s.batch[1..]), s.batch[0])
    case Input(readOk) =>
      if s.batch == [] then s
      else
        var fd, u := s.batch[0], s.(batch := s.batch[1..]);
        if readOk && fd in s.named then Offer(u, fd) else Drop(u, fd)
    case Output(rearmed) =>
      if s.batch == [] then s
      else
        var fd, u := s.batch[0], s.(batch := s.batch[1..]);
        if rearmed then Arm(u, fd) else Drop(u, fd)
    case Take(t) =>
      if t in s.jobs || s.queue == [] then s else s.(jobs := s.jobs[t := Working(s.queue[0])], queue := s.queue[1..])
    case Rearm(t) =>
      if t in s.jobs && s.jobs[t].Working? then Arm(s.(jobs := s.jobs - {t}), s.jobs[t].fd) else s
    case Close(t) =>
      if t in s.jobs && s.jobs[t].Working? then
        var fd := s.jobs[t].fd;
        if fd in s.named then
          s.(open := s.open - {fd}, armed := s.armed - {fd}, lost := s.lost - {fd}, jobs := s.jobs[t := Closing(fd)])
        else s.(lost := s.lost + {fd}, jobs := s.jobs - {t})
      else s
    case Forget(t) =>
      if t in s.jobs && s.jobs[t].Closing?
      then s.(named := s.named - {s.jobs[t].fd}, jobs := s.jobs[t := Closed(s.jobs[t].fd)]) else s
    case LateModfd(t) =>
      if t in s.jobs && s.jobs[t].Closed? then
        var fd, u := s.jobs[t].fd, s.(jobs := s.jobs - {t});
        // the number was given to a new connection in the meantime
        if fd in s.open && fd in s.named then u.(armed := u.armed + {fd}, lost := u.lost - {fd}) else u
      else s
  }

  ghost function Exec(s: Server, run: seq<Event>): Server
    decreases |run|
  {
    if run == [] then s else Exec(Step(s, run[0]), run[1..])
  }

  function Start(limit: nat): Server {
    Server(limit, {}, {}, {}, [], [], map[], {})
  }

  // ---------- Ownership ----------

  function Workers(jobs: map<Tid, Job>, fd: Fd): set<Tid> {
    set t | t in jobs && jobs[t] == Working(fd)
  }

  function Holders(s: Server, fd: Fd): nat {
    (if fd in s.armed then 1 else 0) + multiset(s.batch)[fd] + multiset(s.queue)[fd] + |Workers(s.jobs, fd)|
  }

  /** Every open connection has exactly one holder, unless it is lost: then it has none. */
  ghost predicate Owned(s: Server) {
    && s.lost <= s.open
    && forall fd :: Holders(s, fd) == if fd in s.open && fd !in s.lost then 1 else 0
  }

  lemma CountDistinct(s: seq<Fd>, fd: Fd)
    requires Distinct(s)
    ensures multiset(s)[fd] == if fd in s then 1 else 0
  {
    if s != [] {
      assert s == [s[0]] + s[1..];
      CountDistinct(s[1..], fd);
    }
  }

  lemma CountFront(s: seq<Fd>, fd: Fd)
    requires s != []
    ensures multiset(s[1..])[fd] == multiset(s)[fd] - (if fd == s[0] then 1 else 0)
  {
    assert s == [s[0]] + s[1..];
  }

  predicate Has(jobs: map<Tid, Job>, t: Tid, fd: Fd) {
    t in jobs && jobs[t] == Working(fd)
  }

  lemma CountOthers(jobs: map<Tid, Job>, t: Tid, fd: Fd)
    ensures |Workers(jobs, fd)| == |Workers(jobs, fd) - {t}| + if Has(jobs, t, fd) then 1 else 0
  {
    var all := Workers(jobs, fd);
    assert t in all <==> Has(jobs, t, fd);
    assert all == if t in all then (all - {t}) + {t} else all - {t};
  }

  lemma OthersKeepJobs(jobs: map<Tid, Job>, t: Tid, job: Job, fd: Fd)
    ensures Workers(jobs[t := job], fd) - {t} == Workers(jobs, fd) - {t}
    ensures Workers(jobs - {t}, fd) == Workers(jobs, fd) - {t}
  {
  }

  lemma CountJob(jobs: map<Tid, Job>, t: Tid, job: Job, fd: Fd)
    ensures |Workers(jobs[t := job], fd)| == |Workers(jobs, fd)| + (if job == Working(fd) then 1 else 0) - (if Has(jobs, t, fd) then 1 else 0)
    ensures |Workers(jobs - {t}, fd)| == |Workers(jobs, fd)| - (if Has(jobs, t, fd) then 1 else 0)
  {
    hide Workers;
    CountOthers(jobs, t, fd);
    CountOthers(jobs[t := job], t, fd);
    OthersKeepJobs(jobs, t, job, fd);
  }

  lemma ReportsKeepOwnership(s: Server, e: Event)
    requires Owned(s) && (e.Accept? || e.Wait?)
    ensures Owned(Step(s, e))
  {
    var u := Step(s, e);
    if u != s {
      forall fd ensures Holders(u, fd) == if fd in u.open && fd !in u.lost then 1 else 0 {
        if e.Wait? {
          CountDistinct(e.fds, fd);
          assert multiset(s.batch)[fd] == 0;
        }
      }
    }
  }

  /** The main loop has the connection it handles to itself. */
  lemma HandledIsHeldOnce(s: Server, fd: Fd)
    requires Owned(s) && s.batch != []
    ensures s.batch[0] in s.open && s.batch[0] !in s.lost && s.batch[0] !in s.armed
    ensures Holders(s.(batch := s.batch[1..]), fd) ==
            if fd in s.open && fd !in s.lost && fd != s.batch[0] then 1 else 0
  {
    CountFront(s.batch, fd);
    assert multiset(s.batch)[s.batch[0]] > 0;
    assert Holders(s, s.batch[0]) == 1 && Holders(s, fd) <= 1;
  }

  /** One connection is in hand and has no other holder. */
  ghost predicate InHand(s: Server, fd: Fd) {
    && s.lost <= s.open && fd in s.open && fd !in s.lost && fd !in s.armed
    && forall f :: Holders(s, f) == if f in s.open && f !in s.lost && f != fd then 1 else 0
  }

  lemma DropKeepsOwnership(s: Server, fd: Fd)
    requires InHand(s, fd)
    ensures Owned(Drop(s, fd))
  {
    forall f ensures Holders(Drop(s, fd), f) == Holders(s, f) {}
  }

  lemma ArmKeepsOwnership(s: Server, fd: Fd)
    requires InHand(s, fd)
    ensures Owned(Arm(s, fd))
  {
    forall f ensures Holders(Arm(s, fd), f) == Holders(s, f) + if f == fd && fd in s.named then 1 else 0 {}
  }

  lemma OfferKeepsOwnership(s: Server, fd: Fd)
    requires InHand(s, fd)
    ensures Owned(Offer(s, fd))
    ensures Holders(Offer(s, fd), fd) == if |s.queue| <= s.limit then 1 else 0
  {
    forall f ensures Holders(Offer(s, fd), f) == Holders(s, f) + if f == fd && |s.queue| <= s.limit then 1 else 0 {}
  }

  lemma MainKeepsOwnership(s: Server, e: Event)
    requires Owned(s) && (e.Hangup? || e.Input? || e.Output?)
    ensures Owned(Step(s, e))
  {
    if s.batch != [] {
      var fd, u := s.batch[0], s.(batch := s.batch[1..]);
      HandledIsInHand(s);
      hide Owned, InHand;
      DropKeepsOwnership(u, fd);
      ArmKeepsOwnership(u, fd);
      OfferKeepsOwnership(u, fd);
    }
  }

  lemma HandledIsInHand(s: Server)
    requires Owned(s) && s.batch != []
    ensures InHand(s.(batch := s.batch[1..]), s.batch[0])
  {
    HandledIsHeldOnce(s, s.batch[0]);
    forall f ensures Holders(s.(batch := s.batch[1..]), f) == if f in s.open && f !in s.lost && f != s.batch[0] then 1 else 0 {
      HandledIsHeldOnce(s, f);
    }
  }

  /** A connection whose input has been read keeps a holder exactly when the queue was within its
      limit. */
  lemma OfferedKeepsHolder(s: Server)
    requires Owned(s) && s.batch != [] && s.batch[0] in s.named
    ensures Holders(Step(s, Input(true)), s.batch[0]) == if |s.queue| <= s.limit then 1 else 0
  {
    HandledIsInHand(s);
    OfferKeepsOwnership(s.(batch := s.batch[1..]), s.batch[0]);
  }

  lemma WorkedIsInHand(s: Server, t: Tid)
    requires Owned(s) && t in s.jobs && s.jobs[t].Working?
    ensures InHand(s.(jobs := s.jobs - {t}), s.jobs[t].fd)
  {
    var fd := s.jobs[t].fd;
    assert t in Workers(s.jobs, fd);
    assert Holders(s, fd) == 1;
    forall f ensures Holders(s.(jobs := s.jobs - {t}), f) == Holders(s, f) - if f == fd then 1 else 0 {
      CountJob(s.jobs, t, Closing(fd), f);
    }
  }

  lemma TakeKeepsOwnership(s: Server, t: Tid)
    requires Owned(s)
    ensures Owned(Step(s, Take(t)))
  {
    var u := Step(s, Take(t));
    if u != s {
      forall f ensures Holders(u, f) == Holders(s, f) {
        CountJob(s.jobs, t, Working(s.queue[0]), f);
        CountFront(s.queue, f);
      }
    }
  }

  /** A job that is not at work holds nothing. */
  lemma IdleJobHoldsNothing(s: Server, t: Tid, job: Job)
    requires t in s.jobs && !s.jobs[t].Working? && !job.Working?
    ensures forall f :: Holders(s.(jobs := s.jobs[t := job]), f) == Holders(s, f) == Holders(s.(jobs := s.jobs - {t}), f)
  {
    forall f ensures Holders(s.(jobs := s.jobs[t := job]), f) == Holders(s, f) == Holders(s.(jobs := s.jobs - {t}), f) {
      CountJob(s.jobs, t, job, f);
    }
  }

  lemma CloseKeepsOwnership(s: Server, t: Tid)
    requires Owned(s)
    ensures Owned(Step(s, Close(t)))
  {
    if t in s.jobs && s.jobs[t].Working? {
      var fd, u := s.jobs[t].fd, s.(jobs := s.jobs - {t});
      WorkedIsInHand(s, t);
      DropKeepsOwnership(u, fd);
      if fd in s.named {
        var v := Step(s, Close(t));
        forall f ensures Holders(v, f) == Holders(Drop(u, fd), f) {
          CountJob(s.jobs, t, Closing(fd), f);
        }
      }
    }
  }

  lemma ForgetKeepsOwnership(s: Server, t: Tid)
    requires Owned(s)
    ensures Owned(Step(s, Forget(t)))
  {
    if t in s.jobs && s.jobs[t].Closing? {
      var fd, u := s.jobs[t].fd, Step(s, Forget(t));
      IdleJobHoldsNothing(s, t, Closed(fd));
      assert forall f :: Holders(u, f) == Holders(s.(jobs := s.jobs[t := Closed(fd)]), f);
    }
  }

  lemma WorkerKeepsOwnership(s: Server, e: Event)
    requires Owned(s) && (e.Take? || e.Rearm? || e.Close? || e.Forget?)
    ensures Owned(Step(s, e))
  {
    hide Owned, InHand;
    match e
    case Take(t) => TakeKeepsOwnership(s, t);
    case Close(t) => CloseKeepsOwnership(s, t);
    case Forget(t) => ForgetKeepsOwnership(s, t);
    case Rearm(t) =>
      if t in s.jobs && s.jobs[t].Working? {
        WorkedIsInHand(s, t);
        ArmKeepsOwnership(s.(jobs := s.jobs - {t}), s.jobs[t].fd);
      }
  }

  /** The number that a late modfd reads from the object belongs to an open connection. */
  ghost predicate Reused(s: Server, fd: Fd) {
    fd in s.open && fd in s.named
  }

  /** modfd after close_conn keeps ownership exactly when the number of the connection was not given
      to a new one in between, or that one waits in epoll anyway, or nobody has it. */
  lemma LateModfdKeepsOwnership(s: Server, t: Tid)
    requires Owned(s) && t in s.jobs && s.jobs[t].Closed?
    ensures var fd := s.jobs[t].fd;
            Owned(Step(s, LateModfd(t))) <==> !Reused(s, fd) || fd in s.armed || fd in s.lost
  {
    var f, u := s.jobs[t].fd, Step(s, LateModfd(t));
    IdleJobHoldsNothing(s, t, Closed(f));
    var v := s.(jobs := s.jobs - {t});
    assert forall fd :: Holders(v, fd) == Holders(s, fd);
    assert forall fd :: Holders(u, fd) == Holders(v, fd) + if fd == f && Reused(s, f) && f !in s.armed then 1 else 0;
  }

  /** If the step is a late modfd, it does not find its number with a connection in somebody's hands. */
  ghost predicate NotInHands(s: Server, e: Event) {
    e.LateModfd? && e.t in s.jobs && s.jobs[e.t].Closed? ==>
      var fd := s.jobs[e.t].fd; !Reused(s, fd) || fd in s.armed || fd in s.lost
  }

  ghost predicate NeverInHands(s: Server, run: seq<Event>)
    decreases |run|
  {
    run != [] ==> NotInHands(s, run[0]) && NeverInHands(Step(s, run[0]), run[1..])
  }

  lemma StepKeepsOwnership(s: Server, e: Event)
    requires Owned(s) && NotInHands(s, e)
    ensures Owned(Step(s, e))
  {
    hide Owned;
    if e.Accept? || e.Wait? {
      ReportsKeepOwnership(s, e);
    } else if e.Hangup? || e.Input? || e.Output? {
      MainKeepsOwnership(s, e);
    } else if e.LateModfd? {
      if e.t in s.jobs && s.jobs[e.t].Closed? {
        LateModfdKeepsOwnership(s, e.t);
      }
    } else {
      WorkerKeepsOwnership(s, e);
    }
  }

  lemma {:induction false} RunKeepsOwnership(s: Server, run: seq<Event>)
    requires Owned(s) && NeverInHands(s, run)
    ensures Owned(Exec(s, run))
    decreases |run|
  {
    if run != [] {
      StepKeepsOwnership(s, run[0]);
      RunKeepsOwnership(Step(s, run[0]), run[1..]);
    }
  }

  /** No two threads have the same connection object in hand, and none has one that the queue or
      epoll may hand to another. */
  lemma OwnedIsExclusive(s: Server, t: Tid, fd: Fd)
    requires Owned(s) && t in s.jobs && s.jobs[t] == Working(fd)
    ensures forall u :: u in s.jobs && s.jobs[u] == Working(fd) ==> u == t
    ensures fd in s.open && fd !in s.armed && fd !in s.batch && fd !in s.queue
  {
    assert t in Workers(s.jobs, fd);
    assert Holders(s, fd) == 1 && |Workers(s.jobs, fd)| == 1;
    forall u | u in s.jobs && s.jobs[u] == Working(fd) ensures u == t {
      if u != t {
        assert {t, u} <= Workers(s.jobs, fd);
        SubsetIsNoLarger({t, u}, Workers(s.jobs, fd));
      }
    }
    assert multiset(s.batch)[fd] == 0 && multiset(s.queue)[fd] == 0;
  }

  // ---------- One connection's way ----------

  /** Where a connection is: not open, waiting in epoll, reported to the main loop, in the work queue, with a
      worker, or nowhere. */
  datatype Place = Absent | Armed | Reported | Queued | AtWork(t: Tid) | Lost

  ghost predicate IsAt(s: Server, fd: Fd, p: Place) {
    match p
    case Absent => fd !in s.open
    case Armed => fd in s.armed
    case Reported => fd in s.batch
    case Queued => fd in s.queue
    case AtWork(t) => Has(s.jobs, t, fd)
    case Lost => fd in s.lost
  }

  /** One place it is in; the others it is not. */
  ghost predicate OnlyAt(s: Server, fd: Fd, p: Place) {
    IsAt(s, fd, p) && forall q :: IsAt(s, fd, q) ==> q == p
  }

  lemma HeldWhere(s: Server, fd: Fd)
    ensures Holders(s, fd) > 0 <==> fd in s.armed || fd in s.batch || fd in s.queue || exists t :: Has(s.jobs, t, fd)
  {
    assert fd in s.batch <==> multiset(s.batch)[fd] > 0;
    assert fd in s.queue <==> multiset(s.queue)[fd] > 0;
    if t :| Has(s.jobs, t, fd) { assert t in Workers(s.jobs, fd); }
    if |Workers(s.jobs, fd)| > 0 {
      var t :| t in Workers(s.jobs, fd);
      assert Has(s.jobs, t, fd);
    }
  }

  /** A number that is not open is in nobody's hands and armed nowhere, and an open one is in one place. */
  lemma EachInOnePlace(s: Server, fd: Fd) returns (p: Place)
    requires Owned(s)
    ensures OnlyAt(s, fd, p) && (p.Absent? <==> fd !in s.open)
    ensures fd !in s.open ==> fd !in s.armed && fd !in s.batch && fd !in s.queue && forall t :: !Has(s.jobs, t, fd)
  {
    HeldWhere(s, fd);
    var n := Holders(s, fd);
    assert n == if fd in s.open && fd !in s.lost then 1 else 0;
    assert fd in s.batch <==> multiset(s.batch)[fd] > 0;
    assert fd in s.queue <==> multiset(s.queue)[fd] > 0;
    WorkersOfOne(s, fd);
    hide Owned;
    if fd !in s.open {
      p := Absent;
    } else if fd in s.lost {
      p := Lost;
    } else if fd in s.armed {
      p := Armed;
    } else if fd in s.batch {
      p := Reported;
    } else if fd in s.queue {
      p := Queued;
    } else {
      var t :| Has(s.jobs, t, fd);
      p := AtWork(t);
    }
  }

  lemma WorkersOfOne(s: Server, fd: Fd)
    requires Owned(s)
    ensures forall t, u :: Has(s.jobs, t, fd) && Has(s.jobs, u, fd) ==> t == u
    ensures fd !in s.open || fd in s.lost || fd in s.armed || fd in s.batch || fd in s.queue ==> forall t :: !Has(s.jobs, t, fd)
    ensures s.lost <= s.open
  {
    forall t, u | Has(s.jobs, t, fd) && Has(s.jobs, u, fd) ensures t == u {
      OwnedIsExclusive(s, t, fd);
    }
    forall t | Has(s.jobs, t, fd) ensures fd in s.open && fd !in s.armed && fd !in s.batch && fd !in s.queue && fd !in s.lost {
      OwnedIsExclusive(s, t, fd);
      assert t in Workers(s.jobs, fd) && Holders(s, fd) > 0;
    }
  }

  /** Its turn in the main loop: it is the first of those reported. */
  predicate Handled(s: Server, fd: Fd) {
    s.batch != [] && s.batch[0] == fd
  }

  /** Where an event takes a connection from `p`: told for this one connection, from its number in the object
      and from whether it comes first. */
  ghost function Next(s: Server, e: Event, fd: Fd, p: Place): Place {
    var named := fd in s.named;
    match p
    case Absent => if e == Accept(fd) then Armed else Absent
    case Armed =>
      if e.Wait? && fd in e.fds && s.batch == [] && Distinct(e.fds) && (forall i :: 0 <= i < |e.fds| ==> e.fds[i] in s.armed)
      then Reported else Armed
    case Reported =>
      if !Handled(s, fd) then Reported
      else if e.Hangup? || e == Input(false) || e == Output(false) then if named then Absent else Lost
      else if e.Input? then if named && |s.queue| <= s.limit then Queued else Lost
      else if e.Output? then if named then Armed else Lost
      else Reported
    case Queued => if e.Take? && e.t !in s.jobs && s.queue != [] && s.queue[0] == fd then AtWork(e.t) else Queued
    case AtWork(t) =>
      if e == Rearm(t) then if named then Armed else Lost
      else if e == Close(t) then if named then Absent else Lost
      else AtWork(t)
    case Lost => if RearmsLate(s, e, fd) then Armed else Lost
  }

  lemma HeadMoves(s: Server, e: Event, fd: Fd)
    requires Handled(s, fd) && fd in s.open && (e.Hangup? || e.Input? || e.Output?)
    ensures IsAt(Step(s, e), fd, Next(s, e, fd, Reported))
  {
  }

  lemma OtherStays(s: Server, e: Event, fd: Fd, p: Place)
    requires IsAt(s, fd, p) && !Handled(s, fd) && (e.Hangup? || e.Input? || e.Output?)
    ensures IsAt(Step(s, e), fd, p)
  {
    if s.batch != [] { assert s.batch == [s.batch[0]] + s.batch[1..]; }
  }

  lemma MainMoves(s: Server, e: Event, fd: Fd, p: Place)
    requires Owned(s) && OnlyAt(s, fd, p) && (e.Hangup? || e.Input? || e.Output?)
    ensures IsAt(Step(s, e), fd, Next(s, e, fd, p))
  {
    if Handled(s, fd) {
      HandledIsHeldOnce(s, fd);
      assert IsAt(s, fd, Reported);
      hide Step, Owned;
      HeadMoves(s, e, fd);
    } else {
      hide Step, Owned, Distinct;
      OtherStays(s, e, fd, p);
    }
  }

  lemma ReportsMove(s: Server, e: Event, fd: Fd, p: Place)
    requires Owned(s) && OnlyAt(s, fd, p) && (e.Accept? || e.Wait?)
    ensures IsAt(Step(s, e), fd, Next(s, e, fd, p))
  {
    WorkersOfOne(s, fd);
    hide Owned;
  }

  lemma TakeMoves(s: Server, t: Tid, fd: Fd, p: Place)
    requires Owned(s) && OnlyAt(s, fd, p)
    ensures IsAt(Step(s, Take(t)), fd, Next(s, Take(t), fd, p))
  {
    WorkersOfOne(s, fd);
    if t !in s.jobs && s.queue != [] {
      assert s.queue == [s.queue[0]] + s.queue[1..];
      QueuedOnce(s);
    }
    hide Owned;
  }

  lemma JobEndMoves(s: Server, e: Event, fd: Fd, p: Place)
    requires Owned(s) && OnlyAt(s, fd, p) && (e.Rearm? || e.Close?)
    ensures IsAt(Step(s, e), fd, Next(s, e, fd, p))
  {
    WorkersOfOne(s, fd);
    assert Has(s.jobs, e.t, fd) ==> IsAt(s, fd, AtWork(e.t));
    hide Owned, OnlyAt;
    if e.Rearm? { assert p != AtWork(e.t) ==> !Has(s.jobs, e.t, fd); }
  }

  lemma LateMoves(s: Server, e: Event, fd: Fd, p: Place)
    requires Owned(s) && IsAt(s, fd, p) && NotInHands(s, e) && (e.Forget? || e.LateModfd?)
    ensures IsAt(Step(s, e), fd, Next(s, e, fd, p))
  {
    WorkersOfOne(s, fd);
    hide Owned;
  }

  lemma QueuedOnce(s: Server)
    requires Owned(s) && s.queue != []
    ensures s.queue[0] !in s.queue[1..]
  {
    CountFront(s.queue, s.queue[0]);
    assert Holders(s, s.queue[0]) <= 1;
  }

  /** Every connection goes this way, and no other, whatever becomes of the others. */
  lemma EachGoesItsWay(s: Server, e: Event, fd: Fd, p: Place)
    requires Owned(s) && OnlyAt(s, fd, p) && NotInHands(s, e)
    ensures OnlyAt(Step(s, e), fd, Next(s, e, fd, p))
  {
    hide *;
    StepKeepsOwnership(s, e);
    if e.Hangup? || e.Input? || e.Output? {
      MainMoves(s, e, fd, p);
    } else if e.Accept? || e.Wait? {
      ReportsMove(s, e, fd, p);
    } else if e.Take? {
      TakeMoves(s, e.t, fd, p);
    } else if e.Rearm? || e.Close? {
      JobEndMoves(s, e, fd, p);
    } else {
      ItIsAt(s, fd, p);
      LateMoves(s, e, fd, p);
    }
    var q := EachInOnePlace(Step(s, e), fd);
    OnlyPlaceIs(Step(s, e), fd, q, Next(s, e, fd, p));
  }

  lemma ItIsAt(s: Server, fd: Fd, p: Place)
    requires OnlyAt(s, fd, p)
    ensures IsAt(s, fd, p)
  {
  }

  lemma OnlyPlaceIs(s: Server, fd: Fd, p: Place, q: Place)
    requires OnlyAt(s, fd, p) && IsAt(s, fd, q)
    ensures p == q
  {
  }

  /** A connection is closed by a hang-up, a failed read or a failed write, when it is handled, or by the worker
      that has it; and only while its object holds its number. */
  predicate Closes(s: Server, e: Event, fd: Fd) {
    && fd in s.named
    && (((e.Hangup? || e == Input(false) || e == Output(false)) && Handled(s, fd)) || (e.Close? && Has(s.jobs, e.t, fd)))
  }

  /** An open number leaves by such a step and no other. */
  lemma ClosesExactly(s: Server, e: Event, fd: Fd)
    requires Owned(s) && fd in s.open
    ensures fd !in Step(s, e).open <==> Closes(s, e, fd)
  {
    if s.batch != [] { HandledIsHeldOnce(s, s.batch[0]); }
    if e.Close? && e.t in s.jobs && s.jobs[e.t].Working? { WorkedIsInHand(s, e.t); }
  }

  lemma OpensExactly(s: Server, e: Event, fd: Fd)
    requires fd !in s.open
    ensures fd in Step(s, e).open <==> e == Accept(fd)
  {
  }

  /** The state in which the i-th event of the run finds the server. */
  ghost function Before(s: Server, run: seq<Event>, i: nat): Server
    requires i <= |run|
  {
    Exec(s, run[..i])
  }

  /** The i-th event accepts the number, and no later one closes it. */
  ghost predicate OpenedLast(s: Server, run: seq<Event>, fd: Fd, i: nat) {
    && i < |run| && run[i] == Accept(fd)
    && forall j :: i < j < |run| ==> !Closes(Before(s, run, j), run[j], fd)
  }

  lemma BeforeFront(s: Server, run: seq<Event>, i: nat)
    requires run != [] && i < |run|
    ensures Before(s, run[..|run| - 1], i) == Before(s, run, i)
    ensures Exec(s, run) == Step(Before(s, run, |run| - 1), run[|run| - 1])
  {
    var n := |run| - 1;
    assert run[..n][..i] == run[..i] && run == run[..n] + [run[n]];
    ExecSnoc(s, run[..n], run[n]);
  }

  lemma {:induction false} FrontIsClean(s: Server, run: seq<Event>)
    requires Owned(s) && NeverInHands(s, run)
    ensures forall i :: 0 <= i <= |run| ==> Owned(Before(s, run, i))
    decreases |run|
  {
    forall i | 0 <= i <= |run| ensures Owned(Before(s, run, i)) {
      NeverInHandsFront(s, run, i);
      RunKeepsOwnership(s, run[..i]);
    }
  }

  lemma {:induction false} NeverInHandsFront(s: Server, run: seq<Event>, i: nat)
    requires NeverInHands(s, run) && i <= |run|
    ensures NeverInHands(s, run[..i])
    decreases |run|
  {
    if i > 0 {
      assert run[..i][0] == run[0] && run[..i][1..] == run[1..][..i - 1];
      hide Step, NotInHands;
      NeverInHandsFront(Step(s, run[0]), run[1..], i - 1);
    }
  }

  lemma LastStays(s: Server, run: seq<Event>, fd: Fd, i: nat)
    requires run != [] && i < |run| - 1
    ensures OpenedLast(s, run, fd, i) <==>
            OpenedLast(s, run[..|run| - 1], fd, i) && !Closes(Before(s, run, |run| - 1), run[|run| - 1], fd)
  {
    hide Exec, Closes;
    var n := |run| - 1;
    forall j | 0 <= j < n ensures Before(s, run[..n], j) == Before(s, run, j) && run[..n][j] == run[j] {
      BeforeFront(s, run, j);
    }
    hide Before;
  }

  /** At the end of a run exactly those numbers are open that were accepted and not closed since. */
  lemma {:induction false} OpenExactly(s: Server, run: seq<Event>, fd: Fd)
    requires Owned(s) && s.open == {} && NeverInHands(s, run)
    ensures fd in Exec(s, run).open <==> exists i: nat :: OpenedLast(s, run, fd, i)
    decreases |run|
  {
    if run != [] {
      hide Owned, Closes, OpenedLast, Exec, NeverInHands, Step, Before;
      var n := |run| - 1;
      var front, u := run[..n], Before(s, run, n);
      NeverInHandsFront(s, run, n);
      OpenExactly(s, front, fd);
      BeforeFront(s, run, n);
      BeforeIs(s, run, n);
      RunKeepsOwnership(s, front);
      OpenAtLast(s, run, fd);
    }
  }

  lemma BeforeIs(s: Server, run: seq<Event>, i: nat)
    requires i <= |run|
    ensures Before(s, run, i) == Exec(s, run[..i])
  {
  }

  lemma OpenAtLast(s: Server, run: seq<Event>, fd: Fd)
    requires run != [] && Owned(Before(s, run, |run| - 1))
    requires var front := run[..|run| - 1];
             fd in Before(s, run, |run| - 1).open <==> exists i: nat :: OpenedLast(s, front, fd, i)
    ensures fd in Exec(s, run).open <==> exists i: nat :: OpenedLast(s, run, fd, i)
  {
    hide Owned, Closes, Exec, Step, Before;
    var n := |run| - 1;
    var front, u, e := run[..n], Before(s, run, n), run[n];
    BeforeFront(s, run, n);
    if fd in u.open { ClosesExactly(u, e, fd); } else { OpensExactly(u, e, fd); }
    if fd in Exec(s, run).open {
      if fd in u.open {
        var i: nat :| OpenedLast(s, front, fd, i);
        LastStays(s, run, fd, i);
        assert OpenedLast(s, run, fd, i);
      } else {
        assert OpenedLast(s, run, fd, n);
      }
    }
    if i: nat :| OpenedLast(s, run, fd, i) {
      if i < n {
        LastStays(s, run, fd, i);
        assert OpenedLast(s, front, fd, i);
      } else {
        AcceptedIsOpen(u, fd);
      }
    }
  }

  lemma AcceptedIsOpen(s: Server, fd: Fd)
    ensures fd in Step(s, Accept(fd)).open
  {
  }

  /** And in every such run a number that is not open is armed nowhere. */
  lemma ClosedIsUnarmed(limit: nat, run: seq<Event>, fd: Fd)
    requires NeverInHands(Start(limit), run)
    ensures var s := Exec(Start(limit), run);
            && (fd in s.open <==> exists i: nat :: OpenedLast(Start(limit), run, fd, i))
            && (fd !in s.open ==> fd !in s.armed && fd !in s.batch && fd !in s.queue && forall t :: !Has(s.jobs, t, fd))
  {
    assert Start(limit).open == {};
    hide *;
    StartIsComplete(limit);
    OpenExactly(Start(limit), run, fd);
    RunKeepsOwnership(Start(limit), run);
    var p := EachInOnePlace(Exec(Start(limit), run), fd);
  }

  // ---------- Numbers reused before they are forgotten ----------

  /** A worker that sets the number in an object to -1 finds the connection of that number closed. */
  ghost predicate ForgetsClosed(s: Server, e: Event) {
    e.Forget? && e.t in s.jobs && s.jobs[e.t].Closing? ==> s.jobs[e.t].fd !in s.open
  }

  ghost predicate NeverForgetsOpen(s: Server, run: seq<Event>)
    decreases |run|
  {
    run != [] ==> ForgetsClosed(s, run[0]) && NeverForgetsOpen(Step(s, run[0]), run[1..])
  }

  /** An open connection whose number is gone from its object keeps neither being closed nor being named. */
  lemma UnnamedStays(s: Server, e: Event, fd: Fd)
    requires fd in s.open && fd !in s.named
    ensures fd in Step(s, e).open && fd !in Step(s, e).named
  {
  }

  lemma {:induction false} UnnamedStaysForGood(s: Server, run: seq<Event>, fd: Fd)
    requires fd in s.open && fd !in s.named
    ensures fd in Exec(s, run).open && fd !in Exec(s, run).named
    decreases |run|
  {
    if run != [] {
      UnnamedStays(s, run[0], fd);
      hide Step;
      UnnamedStaysForGood(Step(s, run[0]), run[1..], fd);
    }
  }

  lemma StepKeepsNames(s: Server, e: Event)
    requires s.open <= s.named
    ensures Step(s, e).open <= Step(s, e).named <==> ForgetsClosed(s, e)
  {
  }

  /** Every open connection has its number in its object at the end of a run exactly when no step of the
      run writes -1 over the number of an open connection. */
  lemma {:induction false} NamesAreKeptExactly(s: Server, run: seq<Event>)
    requires s.open <= s.named
    ensures Exec(s, run).open <= Exec(s, run).named <==> NeverForgetsOpen(s, run)
    decreases |run|
  {
    if run != [] {
      StepKeepsNames(s, run[0]);
      hide Step, ForgetsClosed;
      var u := Step(s, run[0]);
      if u.open <= u.named {
        NamesAreKeptExactly(u, run[1..]);
      } else {
        var fd :| fd in u.open && fd !in u.named;
        UnnamedStaysForGood(u, run[1..], fd);
      }
    }
  }

  /** The step handles the connection, in the main loop or at the end of a worker's job. */
  predicate Handles(s: Server, e: Event, fd: Fd) {
    if e.Hangup? || e.Input? || e.Output? then s.batch != [] && s.batch[0] == fd
    else (e.Rearm? || e.Close?) && Has(s.jobs, e.t, fd)
  }

  /** A connection gets lost exactly when it is handled while its number is gone from its object, or when its
      input was read and the queue is beyond its limit. */
  lemma LosesExactly(s: Server, e: Event, fd: Fd)
    requires fd !in s.lost
    ensures fd in Step(s, e).lost <==> Handles(s, e, fd) && (fd in s.named ==> e == Input(true) && |s.queue| > s.limit)
  {
  }

  lemma UnnamedStaysLost(s: Server, e: Event, fd: Fd)
    requires fd in s.lost && fd !in s.named
    ensures fd in Step(s, e).lost
  {
  }

  /** Once it is lost, it stays so, and nobody holds it. */
  lemma {:induction false} UnnamedIsForgotten(s: Server, run: seq<Event>, fd: Fd)
    requires Owned(s) && NeverInHands(s, run) && fd in s.lost && fd !in s.named
    ensures var u := Exec(s, run); fd in u.open && fd in u.lost && Holders(u, fd) == 0
    decreases |run|
  {
    if run == [] {
      assert Holders(s, fd) == 0;
    } else {
      LostIsOpen(s, fd);
      hide Step, Owned, Holders, NotInHands;
      StepKeepsOwnership(s, run[0]);
      UnnamedStays(s, run[0], fd);
      UnnamedStaysLost(s, run[0], fd);
      UnnamedIsForgotten(Step(s, run[0]), run[1..], fd);
    }
  }

  lemma LostIsOpen(s: Server, fd: Fd)
    requires Owned(s) && fd in s.lost
    ensures fd in s.open
  {
  }

  // ---------- Runs that lose nothing ----------

  ghost predicate AtMost(s: Server, run: seq<Event>, n: nat)
    decreases |run|
  {
    |s.open| <= n && (run != [] ==> AtMost(Step(s, run[0]), run[1..], n))
  }

  lemma ExecStep(s: Server, run: seq<Event>)
    ensures Exec(s, run) == if run == [] then s else Exec(Step(s, run[0]), run[1..])
  {
  }

  lemma RunGoesOn(s: Server, run: seq<Event>, n: nat)
    requires NeverInHands(s, run) && NeverForgetsOpen(s, run) && AtMost(s, run, n) && run != []
    ensures var u := Step(s, run[0]);
            NeverInHands(u, run[1..]) && NeverForgetsOpen(u, run[1..]) && AtMost(u, run[1..], n)
    ensures NotInHands(s, run[0]) && ForgetsClosed(s, run[0]) && |s.open| <= n
  {
  }

  lemma {:induction false} OnceEachCounts(s: seq<Fd>)
    requires forall fd :: fd in s ==> multiset(s)[fd] == 1
    ensures |Elements(s)| == |s|
  {
    if s != [] {
      assert s == [s[0]] + s[1..];
      forall fd | fd in s[1..] ensures multiset(s[1..])[fd] == 1 && fd != s[0] {
        CountFront(s, fd);
        CountFront(s, s[0]);
        assert fd in s && multiset(s[1..])[fd] > 0;
      }
      OnceEachCounts(s[1..]);
      assert s[0] !in Elements(s[1..]) && Elements(s) == Elements(s[1..]) + {s[0]};
    }
  }

  lemma QueuedIsHeldOnce(s: Server, fd: Fd)
    requires Owned(s) && s.batch != [] && fd in s.queue
    ensures fd in s.open && fd != s.batch[0] && multiset(s.queue)[fd] == 1
  {
    assert multiset(s.queue)[fd] > 0 && multiset(s.batch)[s.batch[0]] > 0;
    assert Holders(s, fd) <= 1;
  }

  /** The queue has no connection twice, and never the one being handled. */
  lemma QueueIsSmaller(s: Server)
    requires Owned(s) && s.batch != []
    ensures |s.queue| < |s.open|
  {
    var others := s.open - {s.batch[0]};
    HandledIsHeldOnce(s, s.batch[0]);
    assert s.open == others + {s.batch[0]};
    forall fd | fd in s.queue ensures fd in others && multiset(s.queue)[fd] == 1 {
      QueuedIsHeldOnce(s, fd);
    }
    hide Owned;
    OnceEachCounts(s.queue);
    assert Elements(s.queue) <= others;
    SubsetIsNoLarger(Elements(s.queue), others);
  }

  /** The limit stays; every open connection has its number in its object and nobody lost one. */
  ghost predicate Complete(s: Server, limit: nat) {
    s.limit == limit && s.open <= s.named && s.lost == {}
  }

  lemma StepLosesNone(s: Server, e: Event)
    requires Owned(s) && Complete(s, s.limit) && |s.open| <= s.limit + 1 && ForgetsClosed(s, e)
    ensures Complete(Step(s, e), s.limit)
  {
    StepKeepsNames(s, e);
    if s.batch != [] {
      HandledIsHeldOnce(s, s.batch[0]);
      QueueIsSmaller(s);
    }
    if (e.Rearm? || e.Close?) && e.t in s.jobs && s.jobs[e.t].Working? {
      WorkedIsInHand(s, e.t);
    }
  }

  lemma {:induction false} RunLosesNone(s: Server, run: seq<Event>)
    requires Owned(s) && Complete(s, s.limit)
    requires NeverInHands(s, run) && NeverForgetsOpen(s, run) && AtMost(s, run, s.limit + 1)
    ensures Owned(Exec(s, run)) && Complete(Exec(s, run), s.limit)
    decreases |run|
  {
    hide *;
    ExecStep(s, run);
    if run != [] {
      RunGoesOn(s, run, s.limit + 1);
      StepLosesNone(s, run[0]);
      StepKeepsOwnership(s, run[0]);
      LimitIs(Step(s, run[0]), s.limit);
      RunLosesNone(Step(s, run[0]), run[1..]);
    }
  }

  lemma LimitIs(s: Server, limit: nat)
    requires Complete(s, limit)
    ensures s.limit == limit
  {
  }

  lemma StartIsComplete(limit: nat)
    ensures Owned(Start(limit)) && Complete(Start(limit), limit) && Start(limit).limit == limit
  {
  }

  lemma NoneLost(s: Server, limit: nat, fd: Fd)
    requires Owned(s) && Complete(s, limit)
    ensures Holders(s, fd) == if fd in s.open then 1 else 0
  {
  }

  /** Workers may close connections and numbers may be reused: as long as there are never more
      connections than the queue can take, one more than its limit, no worker writes -1 over the number
      of an open connection, and no late modfd meets one that somebody has in hand, every open connection
      has exactly one holder in every run. */
  lemma EveryRunIsOwned(limit: nat, run: seq<Event>, fd: Fd)
    requires NeverInHands(Start(limit), run) && NeverForgetsOpen(Start(limit), run) && AtMost(Start(limit), run, limit + 1)
    ensures var s := Exec(Start(limit), run); Holders(s, fd) == if fd in s.open then 1 else 0
  {
    hide *;
    StartIsComplete(limit);
    RunLosesNone(Start(limit), run);
    NoneLost(Exec(Start(limit), run), limit, fd);
  }

  // ---------- Runs that give out numbers late ----------

  /** No number is given to a connection while a worker that has closed it is not done. */
  ghost predicate GivenLate(s: Server, e: Event) {
    e.Accept? ==> forall t :: t in s.jobs && !s.jobs[t].Working? ==> s.jobs[t].fd != e.fd
  }

  ghost predicate AllGivenLate(s: Server, run: seq<Event>)
    decreases |run|
  {
    run != [] ==> GivenLate(s, run[0]) && AllGivenLate(Step(s, run[0]), run[1..])
  }

  /** The numbers that workers are still closing are those of no open connection. */
  ghost predicate ClosingAreClosed(s: Server) {
    forall t :: t in s.jobs && !s.jobs[t].Working? ==> s.jobs[t].fd !in s.open
  }

  lemma StepKeepsClosed(s: Server, e: Event)
    requires ClosingAreClosed(s) && GivenLate(s, e)
    ensures ClosingAreClosed(Step(s, e)) && NotInHands(s, e) && ForgetsClosed(s, e)
  {
  }

  lemma {:induction false} LateNumbersAreSafe(s: Server, run: seq<Event>)
    requires ClosingAreClosed(s) && AllGivenLate(s, run)
    ensures NeverInHands(s, run) && NeverForgetsOpen(s, run)
    decreases |run|
  {
    if run != [] {
      StepKeepsClosed(s, run[0]);
      hide Step, NotInHands, ForgetsClosed, ClosingAreClosed;
      LateNumbersAreSafe(Step(s, run[0]), run[1..]);
    }
  }

  /** So it is if numbers are only reused once the worker that closed them is done. */
  lemma LateNumbersAreOwned(limit: nat, run: seq<Event>, fd: Fd)
    requires AllGivenLate(Start(limit), run) && AtMost(Start(limit), run, limit + 1)
    ensures var s := Exec(Start(limit), run); Holders(s, fd) == if fd in s.open then 1 else 0
  {
    assert ClosingAreClosed(Start(limit));
    hide *;
    LateNumbersAreSafe(Start(limit), run);
    EveryRunIsOwned(limit, run, fd);
  }

  // ---------- Lost connections ----------

  /** A late modfd registers the connection in epoll after all. */
  predicate RearmsLate(s: Server, e: Event, fd: Fd) {
    e.LateModfd? && e.t in s.jobs && s.jobs[e.t] == Closed(fd) && fd in s.named
  }

  ghost predicate NeverRearmsLate(s: Server, run: seq<Event>, fd: Fd)
    decreases |run|
  {
    run != [] ==> !RearmsLate(s, run[0], fd) && NeverRearmsLate(Step(s, run[0]), run[1..], fd)
  }

  /** A lost connection stays lost exactly as long as no late modfd for a reused number finds it. */
  lemma LostUnlessRearmed(s: Server, e: Event, fd: Fd)
    requires Owned(s) && fd in s.lost
    ensures fd in Step(s, e).lost <==> !RearmsLate(s, e, fd)
  {
    assert fd in s.open && Holders(s, fd) == 0;
    if s.batch != [] { HandledIsHeldOnce(s, s.batch[0]); }
    if (e.Rearm? || e.Close?) && e.t in s.jobs && s.jobs[e.t].Working? {
      WorkedIsInHand(s, e.t);
    }
  }

  /** A connection whose request the full queue refused stays open and unheard for good, unless a late
      modfd for a reused number finds it. */
  lemma {:induction false} RefusedIsForgotten(s: Server, run: seq<Event>, fd: Fd)
    requires Owned(s) && fd in s.lost && NeverInHands(s, run) && NeverRearmsLate(s, run, fd)
    ensures var u := Exec(s, run); fd in u.lost && fd in u.open && Holders(u, fd) == 0
    decreases |run|
  {
    if run == [] {
      assert Holders(s, fd) == 0;
    } else {
      hide Step, Owned, Holders, NotInHands, RearmsLate;
      StepKeepsOwnership(s, run[0]);
      LostUnlessRearmed(s, run[0], fd);
      RefusedIsForgotten(Step(s, run[0]), run[1..], fd);
    }
  }

  // ---------- Runs that lose a connection or share one ----------

  lemma {:induction false} ExecSnoc(s: Server, run: seq<Event>, e: Event)
    ensures Exec(s, run + [e]) == Step(Exec(s, run), e)
    decreases |run|
  {
    if run == [] {
      assert [] + [e] == [e] && [e][1..] == [];
      assert Exec(s, [e]) == Exec(Step(s, e), []);
    } else {
      assert (run + [e])[1..] == run[1..] + [e];
      ExecSnoc(Step(s, run[0]), run[1..], e);
    }
  }

  /** Goes on with a run that has at most `n` connections. */
  lemma {:induction false} AtMostSnoc(s: Server, run: seq<Event>, e: Event, n: nat)
    requires AtMost(s, run, n) && |Exec(s, run + [e]).open| <= n
    ensures AtMost(s, run + [e], n)
    decreases |run|
  {
    if run == [] {
      assert [] + [e] == [e] && [e][1..] == [];
      assert Exec(s, [e]) == Exec(Step(s, e), []);
    } else {
      assert (run + [e])[1..] == run[1..] + [e];
      AtMostSnoc(Step(s, run[0]), run[1..], e, n);
    }
  }

  ghost predicate NeverCloses(run: seq<Event>) {
    forall i :: 0 <= i < |run| ==> !run[i].Close?
  }

  /** No worker is closing a connection. */
  ghost predicate NoneClosing(s: Server) {
    forall t :: t in s.jobs ==> s.jobs[t].Working?
  }

  lemma StepClosesNone(s: Server, e: Event)
    requires NoneClosing(s) && !e.Close?
    ensures NoneClosing(Step(s, e)) && GivenLate(s, e)
  {
  }

  /** A run in which every response fits reuses no number too early. */
  lemma {:induction false} NeverClosingIsLate(s: Server, run: seq<Event>)
    requires NoneClosing(s) && NeverCloses(run)
    ensures AllGivenLate(s, run)
    decreases |run|
  {
    if run != [] {
      StepClosesNone(s, run[0]);
      hide Step, GivenLate, NoneClosing;
      NeverClosingIsLate(Step(s, run[0]), run[1..]);
    }
  }

  /** A run that closes nothing, never has more than `n` connections, and ends in `t`. */
  ghost predicate Reaches(s: Server, run: seq<Event>, n: nat, t: Server) {
    Exec(s, run) == t && NeverCloses(run) && AtMost(s, run, n)
  }

  lemma ReachesNext(s: Server, run: seq<Event>, n: nat, t: Server, e: Event)
    requires Reaches(s, run, n, t) && !e.Close? && |Step(t, e).open| <= n
    ensures Reaches(s, run + [e], n, Step(t, e))
  {
    ExecSnoc(s, run, e);
    AtMostSnoc(s, run, e, n);
  }

  function Below(n: nat): (r: set<Fd>)
    ensures |r| == n && forall i :: i in r <==> 0 <= i < n
  {
    if n == 0 then {} else Below(n - 1) + {n - 1}
  }

  function Numbers(n: nat): (s: seq<Fd>)
    ensures |s| == n && forall i :: 0 <= i < n ==> s[i] == i
  {
    seq(n, i => i)
  }

  function ManyArmed(limit: nat, n: nat): Server {
    Server(limit, Below(n), Below(n), Below(n), [], [], map[], {})
  }

  /** Of `n` connections that were reported together the first `k` are queued. */
  function ManyQueued(limit: nat, n: nat, k: nat): Server
    requires k <= n
  {
    Server(limit, Below(n), Below(n), {}, Numbers(n)[k..], Numbers(n)[..k], map[], {})
  }

  lemma OneMoreArmed(limit: nat, k: nat)
    ensures Step(ManyArmed(limit, k), Accept(k)) == ManyArmed(limit, k + 1)
  {
  }

  lemma AllReported(limit: nat, n: nat)
    ensures Step(ManyArmed(limit, n), Wait(Numbers(n))) == ManyQueued(limit, n, 0)
  {
    forall fd ensures fd in Elements(Numbers(n)) <==> fd in Below(n) {
      if fd in Below(n) { assert Numbers(n)[fd] == fd; }
    }
    assert Numbers(n)[0..] == Numbers(n) && Numbers(n)[..0] == [];
  }

  lemma OneMoreQueued(limit: nat, n: nat, k: nat)
    requires k < n && k <= limit + 1
    ensures Step(ManyQueued(limit, n, k), Input(true)) ==
            if k <= limit then ManyQueued(limit, n, k + 1)
            else ManyQueued(limit, n, k).(batch := Numbers(n)[k + 1..], lost := {k})
  {
    var all := Numbers(n);
    assert all[k..][1..] == all[k + 1..] && all[k..][0] == k && all[..k] + [k] == all[..k + 1];
  }

  /** With one connection more than that, the queue can be full for the last: the bound of EveryRunIsOwned
      is exact for every limit. */
  lemma FullQueueRefuses(limit: nat) returns (run: seq<Event>)
    ensures NeverCloses(run) && AllGivenLate(Start(limit), run) && AtMost(Start(limit), run, limit + 2)
    ensures limit + 1 in Exec(Start(limit), run).lost
  {
    var s, n := Start(limit), limit + 2;
    run := [];
    assert Reaches(s, run, n, ManyArmed(limit, 0));
    hide Step, Numbers;
    for k := 0 to n
      invariant Reaches(s, run, n, ManyArmed(limit, k))
    {
      OneMoreArmed(limit, k);
      ReachesNext(s, run, n, ManyArmed(limit, k), Accept(k));
      run := run + [Accept(k)];
    }
    AllReported(limit, n);
    ReachesNext(s, run, n, ManyArmed(limit, n), Wait(Numbers(n)));
    run := run + [Wait(Numbers(n))];
    for k := 0 to limit + 1
      invariant Reaches(s, run, n, ManyQueued(limit, n, k))
    {
      OneMoreQueued(limit, n, k);
      ReachesNext(s, run, n, ManyQueued(limit, n, k), Input(true));
      run := run + [Input(true)];
    }
    OneMoreQueued(limit, n, limit + 1);
    ReachesNext(s, run, n, ManyQueued(limit, n, limit + 1), Input(true));
    run := run + [Input(true)];
    NeverClosingIsLate(s, run);
  }

  /** A worker between closing its socket and noting that in the object. */
  lemma ClosingIsReached(limit: nat, fd: Fd, t: Tid) returns (run: seq<Event>)
    ensures Exec(Start(limit), run) == Server(limit, {}, {fd}, {}, [], [], map[t := Closing(fd)], {})
  {
    var s := Start(limit);
    run := [Accept(fd)];
    ExecSnoc(s, [], Accept(fd));
    assert [] + [Accept(fd)] == run;
    ExecSnoc(s, run, Wait([fd]));
    run := run + [Wait([fd])];
    assert Exec(s, run) == Server(limit, {fd}, {fd}, {}, [fd], [], map[], {});
    ExecSnoc(s, run, Input(true));
    run := run + [Input(true)];
    assert Exec(s, run) == Server(limit, {fd}, {fd}, {}, [], [fd], map[], {});
    ExecSnoc(s, run, Take(t));
    run := run + [Take(t)];
    assert Exec(s, run) == Server(limit, {fd}, {fd}, {}, [], [], map[t := Working(fd)], {});
    ExecSnoc(s, run, Close(t));
    run := run + [Close(t)];
  }

  /** When the number is given to a new connection before modfd is called, that connection can come to
      wait in the work queue and in epoll at once. */
  lemma ReusedNumberHasTwoHolders(limit: nat, fd: Fd, t: Tid) returns (run: seq<Event>)
    ensures var s := Exec(Start(limit), run); fd in s.armed && fd in s.queue
  {
    var s := Start(limit);
    run := ClosingIsReached(limit, fd, t);
    ExecSnoc(s, run, Forget(t));
    run := run + [Forget(t)];
    assert Exec(s, run) == Server(limit, {}, {}, {}, [], [], map[t := Closed(fd)], {});
    ExecSnoc(s, run, Accept(fd));
    run := run + [Accept(fd)];
    ExecSnoc(s, run, Wait([fd]));
    run := run + [Wait([fd])];
    assert Exec(s, run) == Server(limit, {fd}, {fd}, {}, [fd], [], map[t := Closed(fd)], {});
    ExecSnoc(s, run, Input(true));
    run := run + [Input(true)];
    assert Exec(s, run) == Server(limit, {fd}, {fd}, {}, [], [fd], map[t := Closed(fd)], {});
    ExecSnoc(s, run, LateModfd(t));
    run := run + [LateModfd(t)];
  }

  /** When it is given to a new connection even before the worker notes -1 in the object, that connection
      is never heard. */
  lemma ForgottenNumberIsLost(limit: nat, fd: Fd, t: Tid) returns (run: seq<Event>)
    ensures var s := Exec(Start(limit), run); fd in s.open && Holders(s, fd) == 0
  {
    var s := Start(limit);
    run := ClosingIsReached(limit, fd, t);
    ExecSnoc(s, run, Accept(fd));
    run := run + [Accept(fd)];
    assert Exec(s, run) == Server(limit, {fd}, {fd}, {fd}, [], [], map[t := Closing(fd)], {});
    ExecSnoc(s, run, Forget(t));
    run := run + [Forget(t)];
    ExecSnoc(s, run, Wait([fd]));
    run := run + [Wait([fd])];
    assert Exec(s, run) == Server(limit, {fd}, {}, {}, [fd], [], map[t := Closed(fd)], {});
    ExecSnoc(s, run, Input(true));
    run := run + [Input(true)];
    assert Exec(s, run) == Server(limit, {fd}, {}, {}, [], [], map[t := Closed(fd)], {fd});
    assert Workers(Exec(s, run).jobs, fd) == {};
  }
}
