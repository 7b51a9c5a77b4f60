/** The thread pool as a step machine: any number of threads that append requests and any number
    of workers, each with its own program counter, over one queue, one mutex and one semaphore.
    A schedule says which thread moves next; a thread that has to wait does not move. */
module ThreadPools {
  import opened Sequences

  type Tid = nat
  type Request = nat

  /** `unlocks` tells whether locker::unlock releases the mutex, as its comment has it, or locks it
      once more, as its body does. */
  datatype Config = Config(maxRequests: nat, unlocks: bool)

  datatype Pc =
    // append
    | Idle | ALock(request: Request) | ATest(request: Request) | AReject | APush(request: Request) | AUnlock | APost
    // run
    | WWait | WLock | WTest | WSkip | WPop | WUnlock(request: Request) | WRun(request: Request)

  datatype Lock = Free | Held(holder: Tid)

  datatype Pool = Pool(queue: seq<Request>, sem: nat, lock: Lock, pc: map<Tid, Pc>)

  function Go(s: Pool, i: Tid, p: Pc): Pool {
    s.(pc := s.pc[i := p])
  }

  /** A thread that locks the mutex it holds waits for ever. */
  function Unlock(c: Config, s: Pool, i: Tid, p: Pc): Pool {
    if c.unlocks then Go(s.(lock := Free), i, p) else s
  }

  /** Thread `i` moves on by one statement; `request` is what an idle thread appends next. */
  function Step(c: Config, s: Pool, i: Tid, request: Request): Pool {
    if i !in s.pc then s
    else match s.pc[i]
      case Idle => Go(s, i, ALock(request))
      case ALock(r) => if s.lock.Free? then Go(s.(lock := Held(i)), i, ATest(r)) else s
      case ATest(r) => Go(s, i, if |s.queue| > c.maxRequests then AReject else APush(r))
      case AReject => Unlock(c, s, i, Idle)
      case APush(r) => Go(s.(queue := s.queue + [r]), i, AUnlock)
      case AUnlock => Unlock(c, s, i, APost)
      case APost => Go(s.(sem := s.sem + 1), i, Idle)
      case WWait => if s.sem > 0 then Go(s.(sem := s.sem - 1), i, WLock) else s
      case WLock => if s.lock.Free? then Go(s.(lock := Held(i)), i, WTest) else s
      case WTest => Go(s, i, if s.queue == [] then WSkip else WPop)
      case WSkip => Unlock(c, s, i, WWait)
      case WPop => if s.queue == [] then s else Go(s.(queue := s.queue[1..]), i, WUnlock(s.queue[0]))
      case WUnlock(r) => Unlock(c, s, i, WRun(r))
      case WRun(_) => Go(s, i, WWait)
  }

  type Schedule = seq<(Tid, Request)>

  function Exec(c: Config, s: Pool, schedule: Schedule): Pool
    decreases |schedule|
  {
    if schedule == [] then s
    else Exec(c, Step(c, s, schedule[0].0, schedule[0].1), schedule[1..])
  }

  ghost predicate Initial(s: Pool) {
    s.queue == [] && s.sem == 0 && s.lock.Free? && forall i :: i in s.pc ==> s.pc[i].Idle? || s.pc[i].WWait?
  }

  // ---------- What becomes of the requests, read from the program counters ----------

  /** A thread offers a request, is refused, has put it into the queue, has taken one out, has run it. */
  datatype Deed = Offer | Refuse | Accept | Take | Finish

  /** The request with which a thread does that when it goes from one program counter to another;
      `request` is what the schedule hands to an idle thread. */
  function Noted(deed: Deed, was: Pc, now: Pc, request: Request): seq<Request> {
    match deed
    case Offer => if was.Idle? && now.ALock? then [request] else []
    case Refuse => if was.ATest? && now.AReject? then [was.request] else []
    case Accept => if was.APush? && now.AUnlock? then [was.request] else []
    case Take => if was.WPop? && now.WUnlock? then [now.request] else []
    case Finish => if was.WRun? && now.WWait? then [was.request] else []
  }

  function Turn(c: Config, s: Pool, deed: Deed, i: Tid, request: Request): seq<Request> {
    if i in s.pc && i in Step(c, s, i, request).pc then Noted(deed, s.pc[i], Step(c, s, i, request).pc[i], request) else []
  }

  function Log(c: Config, s: Pool, deed: Deed, schedule: Schedule): seq<Request>
    decreases |schedule|
  {
    if schedule == [] then []
    else
      var (i, r) := schedule[0];
      Turn(c, s, deed, i, r) + Log(c, Step(c, s, i, r), deed, schedule[1..])
  }

  // ---------- Invariant ----------

  predicate HasLock(p: Pc) {
    p.ATest? || p.AReject? || p.APush? || p.AUnlock? || p.WTest? || p.WSkip? || p.WPop? || p.WUnlock?
  }

  predicate Owes(p: Pc) {
    p.AUnlock? || p.APost?
  }

  predicate Claims(p: Pc) {
    p.WLock? || p.WTest? || p.WPop?
  }

  /** Appenders between push and post. */
  function Owing(pc: map<Tid, Pc>): set<Tid> {
    set i | i in pc && Owes(pc[i])
  }

  /** Workers between wait and pop. */
  function Claiming(pc: map<Tid, Pc>): set<Tid> {
    set i | i in pc && Claims(pc[i])
  }

  ghost predicate Exclusive(s: Pool) {
    && (forall i :: i in s.pc && HasLock(s.pc[i]) ==> s.lock == Held(i))
    && (s.lock.Held? ==> s.lock.holder in s.pc && HasLock(s.pc[s.lock.holder]))
  }

  ghost predicate Balanced(s: Pool) {
    |s.queue| == s.sem + |Owing(s.pc)| + |Claiming(s.pc)|
  }

  ghost predicate Bounded(c: Config, s: Pool) {
    && |s.queue| <= c.maxRequests + 1
    && (forall i :: i in s.pc && s.pc[i].APush? ==> |s.queue| <= c.maxRequests)
    && (forall i :: i in s.pc ==> !s.pc[i].WSkip?)
  }

  /** What holds in every state of every run. */
  ghost predicate Inv(c: Config, s: Pool) {
    Exclusive(s) && Balanced(s) && Bounded(c, s)
  }

  lemma MoveOwing(pc: map<Tid, Pc>, i: Tid, p: Pc)
    requires i in pc
    ensures |Owing(pc[i := p])| == |Owing(pc)| + (if Owes(p) then 1 else 0) - (if Owes(pc[i]) then 1 else 0)
  {
    hide Owes;
    var others := Owing(pc) - {i};
    assert Owing(pc[i := p]) == if Owes(p) then others + {i} else others;
    assert Owing(pc) == if Owes(pc[i]) then others + {i} else others;
  }

  lemma MoveClaiming(pc: map<Tid, Pc>, i: Tid, p: Pc)
    requires i in pc
    ensures |Claiming(pc[i := p])| == |Claiming(pc)| + (if Claims(p) then 1 else 0) - (if Claims(pc[i]) then 1 else 0)
  {
    hide Claims;
    var others := Claiming(pc) - {i};
    assert Claiming(pc[i := p]) == if Claims(p) then others + {i} else others;
    assert Claiming(pc) == if Claims(pc[i]) then others + {i} else others;
  }

  predicate Appends(p: Pc) {
    p.Idle? || p.ALock? || p.ATest? || p.AReject? || p.APush? || p.AUnlock? || p.APost?
  }

  lemma AppenderKeepsBalance(c: Config, s: Pool, i: Tid, request: Request)
    requires Balanced(s) && i in s.pc && Appends(s.pc[i])
    ensures Balanced(Step(c, s, i, request))
  {
    var t := Step(c, s, i, request);
    MoveOwing(s.pc, i, t.pc[i]);
    MoveClaiming(s.pc, i, t.pc[i]);
    hide Owing, Claiming;
    assert t.pc == s.pc[i := t.pc[i]];
  }

  lemma WorkerKeepsBalance(c: Config, s: Pool, i: Tid, request: Request)
    requires Balanced(s) && i in s.pc && !Appends(s.pc[i]) && (s.pc[i].WTest? ==> s.queue != [])
    ensures Balanced(Step(c, s, i, request))
  {
    var t := Step(c, s, i, request);
    MoveOwing(s.pc, i, t.pc[i]);
    MoveClaiming(s.pc, i, t.pc[i]);
    hide Owing, Claiming;
    assert t.pc == s.pc[i := t.pc[i]];
  }

  lemma StepKeepsBalance(c: Config, s: Pool, i: Tid, request: Request)
    requires Inv(c, s)
    ensures Balanced(Step(c, s, i, request))
  {
    if i in s.pc {
      TesterHasWork(c, s, i);
      hide Balanced, Exclusive, Bounded, Appends;
      if Appends(s.pc[i]) {
        AppenderKeepsBalance(c, s, i, request);
      } else {
        WorkerKeepsBalance(c, s, i, request);
      }
    }
  }

  /** A worker that tests the queue finds a request: the empty branch is never taken. */
  lemma TesterHasWork(c: Config, s: Pool, i: Tid)
    requires Inv(c, s) && i in s.pc
    ensures s.pc[i].WTest? || s.pc[i].WPop? ==> s.queue != []
  {
    if s.pc[i].WTest? || s.pc[i].WPop? {
      assert i in Claiming(s.pc);
    }
  }

  lemma StepKeepsExclusion(c: Config, s: Pool, i: Tid, request: Request)
    requires c.unlocks && Exclusive(s)
    ensures Exclusive(Step(c, s, i, request))
  {
  }

  lemma StepKeepsBound(c: Config, s: Pool, i: Tid, request: Request)
    requires c.unlocks && Inv(c, s)
    ensures Bounded(c, Step(c, s, i, request))
  {
    if i in s.pc {
      TesterHasWork(c, s, i);
    }
    hide Balanced;
  }

  lemma StepKeepsInv(c: Config, s: Pool, i: Tid, request: Request)
    requires c.unlocks && Inv(c, s)
    ensures Inv(c, Step(c, s, i, request))
  {
    StepKeepsBalance(c, s, i, request);
    StepKeepsExclusion(c, s, i, request);
    StepKeepsBound(c, s, i, request);
    hide Exclusive, Balanced, Bounded;
  }

  lemma {:induction false} RunKeepsInv(c: Config, s: Pool, schedule: Schedule)
    requires c.unlocks && Inv(c, s)
    ensures Inv(c, Exec(c, s, schedule))
    decreases |schedule|
  {
    if schedule != [] {
      StepKeepsInv(c, s, schedule[0].0, schedule[0].1);
      RunKeepsInv(c, Step(c, s, schedule[0].0, schedule[0].1), schedule[1..]);
    }
  }

  lemma InitialIsSafe(c: Config, s: Pool)
    requires Initial(s)
    ensures Inv(c, s)
  {
    assert Owing(s.pc) == {} && Claiming(s.pc) == {};
  }

  /** In every interleaving: the queue holds at most one request more than the limit; its length is the
      semaphore value plus the appenders between push and post plus the workers between wait and pop; at
      most one thread holds the mutex; no worker finds the queue empty. */
  lemma EveryRunIsSafe(c: Config, s: Pool, schedule: Schedule)
    requires c.unlocks && Initial(s)
    ensures var t := Exec(c, s, schedule);
            && Log(c, s, Accept, schedule) == Log(c, s, Take, schedule) + t.queue && |t.queue| <= c.maxRequests + 1
            && |t.queue| == t.sem + |Owing(t.pc)| + |Claiming(t.pc)|
            && (forall i, j :: i in t.pc && j in t.pc && HasLock(t.pc[i]) && HasLock(t.pc[j]) ==> i == j)
            && (forall i :: i in t.pc ==> !t.pc[i].WSkip?)
  {
    InitialIsSafe(c, s);
    RunKeepsInv(c, s, schedule);
    QueueIsInOrder(c, s, schedule);
    hide Log;
    assert [] + Log(c, s, Accept, schedule) == Log(c, s, Accept, schedule);
  }

  // ---------- Every request is run once ----------

  lemma TurnKeepsOrder(c: Config, s: Pool, i: Tid, request: Request)
    ensures s.queue + Turn(c, s, Accept, i, request) == Turn(c, s, Take, i, request) + Step(c, s, i, request).queue
  {
    if i in s.pc && s.pc[i].WPop? && s.queue != [] {
      assert s.queue == [s.queue[0]] + s.queue[1..];
    }
  }

  /** The requests that workers have taken out are those put in, in the same order, without those still
      in the queue. */
  lemma {:induction false} QueueIsInOrder(c: Config, s: Pool, schedule: Schedule)
    ensures s.queue + Log(c, s, Accept, schedule) == Log(c, s, Take, schedule) + Exec(c, s, schedule).queue
    decreases |schedule|
  {
    if schedule != [] {
      hide *;
      var i, r, rest := schedule[0].0, schedule[0].1, schedule[1..];
      var t := Step(c, s, i, r);
      OneMore(c, s, Accept, schedule);
      OneMore(c, s, Take, schedule);
      TurnKeepsOrder(c, s, i, r);
      QueueIsInOrder(c, t, rest);
      OrderJoins(s.queue, Turn(c, s, Accept, i, r), Log(c, t, Accept, rest), Turn(c, s, Take, i, r), t.queue,
                 Log(c, t, Take, rest), Exec(c, t, rest).queue);
    } else {
      assert s.queue + [] == [] + s.queue;
    }
  }

  lemma OneMore(c: Config, s: Pool, deed: Deed, schedule: Schedule)
    requires schedule != []
    ensures var t := Step(c, s, schedule[0].0, schedule[0].1);
            && Exec(c, s, schedule) == Exec(c, t, schedule[1..])
            && Log(c, s, deed, schedule) == Turn(c, s, deed, schedule[0].0, schedule[0].1) + Log(c, t, deed, schedule[1..])
  {
  }

  lemma OrderJoins(q: seq<Request>, a: seq<Request>, more: seq<Request>, b: seq<Request>, r: seq<Request>, bs: seq<Request>, z: seq<Request>)
    requires q + a == b + r && r + more == bs + z
    ensures q + (a + more) == (b + bs) + z
  {
    assert q + (a + more) == (q + a) + more;
    assert (b + r) + more == b + (r + more);
    assert b + (bs + z) == (b + bs) + z;
  }

  /** Workers that have the request in hand: taken out and not yet done with. */
  function Busy(pc: map<Tid, Pc>, r: Request): set<Tid> {
    set i | i in pc && Serves(pc[i], r)
  }

  predicate Serves(p: Pc, r: Request) {
    p == WUnlock(r) || p == WRun(r)
  }

  /** Threads that want to append the request, and are neither refused nor done. */
  function Adding(pc: map<Tid, Pc>, r: Request): set<Tid> {
    set i | i in pc && Adds(pc[i], r)
  }

  predicate Adds(p: Pc, r: Request) {
    p == ALock(r) || p == ATest(r) || p == APush(r)
  }

  lemma MoveBusy(pc: map<Tid, Pc>, i: Tid, p: Pc, r: Request)
    requires i in pc
    ensures |Busy(pc[i := p], r)| == |Busy(pc, r)| + (if Serves(p, r) then 1 else 0) - (if Serves(pc[i], r) then 1 else 0)
  {
    hide Serves;
    var others := Busy(pc, r) - {i};
    assert Busy(pc[i := p], r) == if Serves(p, r) then others + {i} else others;
    assert Busy(pc, r) == if Serves(pc[i], r) then others + {i} else others;
  }

  lemma MoveAdding(pc: map<Tid, Pc>, i: Tid, p: Pc, r: Request)
    requires i in pc
    ensures |Adding(pc[i := p], r)| == |Adding(pc, r)| + (if Adds(p, r) then 1 else 0) - (if Adds(pc[i], r) then 1 else 0)
  {
    hide Adds;
    var others := Adding(pc, r) - {i};
    assert Adding(pc[i := p], r) == if Adds(p, r) then others + {i} else others;
    assert Adding(pc, r) == if Adds(pc[i], r) then others + {i} else others;
  }

  function Count(s: seq<Request>, r: Request): nat {
    multiset(s)[r]
  }

  lemma CountJoin(s: seq<Request>, t: seq<Request>, r: Request)
    ensures Count(s + t, r) == Count(s, r) + Count(t, r)
  {
  }

  lemma StepMoves(c: Config, s: Pool, i: Tid, request: Request)
    requires i in s.pc
    ensures var t := Step(c, s, i, request); i in t.pc && t.pc == s.pc[i := t.pc[i]]
  {
  }

  lemma CountNoted(deed: Deed, was: Pc, now: Pc, request: Request, r: Request)
    ensures Count(Noted(deed, was, now, request), r) ==
            match deed
            case Offer => if was.Idle? && now.ALock? && request == r then 1 else 0
            case Refuse => if was == ATest(r) && now.AReject? then 1 else 0
            case Accept => if was == APush(r) && now.AUnlock? then 1 else 0
            case Take => if was.WPop? && now == WUnlock(r) then 1 else 0
            case Finish => if was == WRun(r) && now.WWait? then 1 else 0
  {
  }

  /** Where a thread can go from one program counter. */
  lemma NextPc(c: Config, s: Pool, i: Tid, request: Request)
    requires i in s.pc
    ensures var t := Step(c, s, i, request);
            i in t.pc && t.pc == s.pc[i := t.pc[i]] &&
            (t.pc[i] == s.pc[i] ||
             match s.pc[i]
             case Idle => t.pc[i] == ALock(request) case ALock(r) => t.pc[i] == ATest(r)
             case ATest(r) => t.pc[i].AReject? || t.pc[i] == APush(r) case AReject => t.pc[i].Idle?
             case APush(_) => t.pc[i].AUnlock? case AUnlock => t.pc[i].APost? case APost => t.pc[i].Idle?
             case WWait => t.pc[i].WLock? case WLock => t.pc[i].WTest? case WTest => t.pc[i].WSkip? || t.pc[i].WPop?
             case WSkip => t.pc[i].WWait? case WPop => t.pc[i].WUnlock?
             case WUnlock(r) => t.pc[i] == WRun(r) case WRun(_) => t.pc[i].WWait?)
  {
  }

  lemma TurnKeepsBusy(c: Config, s: Pool, i: Tid, request: Request, r: Request)
    requires i in s.pc
    ensures var t := Step(c, s, i, request);
            |Busy(s.pc, r)| + Count(Turn(c, s, Take, i, request), r) == |Busy(t.pc, r)| + Count(Turn(c, s, Finish, i, request), r)
  {
    hide Step, Busy, Count, Noted;
    var t := Step(c, s, i, request);
    NextPc(c, s, i, request);
    MoveBusy(s.pc, i, t.pc[i], r);
    CountNoted(Take, s.pc[i], t.pc[i], request, r);
    CountNoted(Finish, s.pc[i], t.pc[i], request, r);
  }

  lemma TurnKeepsAdding(c: Config, s: Pool, i: Tid, request: Request, r: Request)
    requires i in s.pc
    ensures var t := Step(c, s, i, request);
            |Adding(s.pc, r)| + Count(Turn(c, s, Offer, i, request), r) ==
            |Adding(t.pc, r)| + Count(Turn(c, s, Refuse, i, request), r) + Count(Turn(c, s, Accept, i, request), r)
  {
    hide Step, Adding, Count, Noted;
    var t := Step(c, s, i, request);
    NextPc(c, s, i, request);
    MoveAdding(s.pc, i, t.pc[i], r);
    CountNoted(Offer, s.pc[i], t.pc[i], request, r);
    CountNoted(Refuse, s.pc[i], t.pc[i], request, r);
    CountNoted(Accept, s.pc[i], t.pc[i], request, r);
  }

  lemma TurnKeepsRequests(c: Config, s: Pool, i: Tid, request: Request, r: Request)
    ensures var t := Step(c, s, i, request);
            && |Busy(s.pc, r)| + Count(Turn(c, s, Take, i, request), r) == |Busy(t.pc, r)| + Count(Turn(c, s, Finish, i, request), r)
            && |Adding(s.pc, r)| + Count(Turn(c, s, Offer, i, request), r) ==
               |Adding(t.pc, r)| + Count(Turn(c, s, Refuse, i, request), r) + Count(Turn(c, s, Accept, i, request), r)
  {
    if i in s.pc {
      hide *;
      TurnKeepsBusy(c, s, i, request, r);
      TurnKeepsAdding(c, s, i, request, r);
    }
  }

  /** Every request that was offered is being added, was refused or was put in; every one taken out is in
      the hands of a worker or was run. */
  lemma {:induction false} RequestsAreKept(c: Config, s: Pool, schedule: Schedule, r: Request)
    ensures var t := Exec(c, s, schedule);
            && |Busy(s.pc, r)| + Count(Log(c, s, Take, schedule), r) == |Busy(t.pc, r)| + Count(Log(c, s, Finish, schedule), r)
            && |Adding(s.pc, r)| + Count(Log(c, s, Offer, schedule), r) ==
               |Adding(t.pc, r)| + Count(Log(c, s, Refuse, schedule), r) + Count(Log(c, s, Accept, schedule), r)
    decreases |schedule|
  {
    if schedule != [] {
      var (i, request) := schedule[0];
      var t, rest := Step(c, s, i, request), schedule[1..];
      TurnKeepsRequests(c, s, i, request, r);
      hide Step, Turn, Busy, Adding, Count;
      RequestsAreKept(c, t, rest, r);
      CountJoin(Turn(c, s, Take, i, request), Log(c, t, Take, rest), r);
      CountJoin(Turn(c, s, Finish, i, request), Log(c, t, Finish, rest), r);
      CountJoin(Turn(c, s, Offer, i, request), Log(c, t, Offer, rest), r);
      CountJoin(Turn(c, s, Refuse, i, request), Log(c, t, Refuse, rest), r);
      CountJoin(Turn(c, s, Accept, i, request), Log(c, t, Accept, rest), r);
    }
  }

  lemma NothingInHand(s: Pool, r: Request)
    requires Initial(s)
    ensures |Busy(s.pc, r)| == 0 == |Adding(s.pc, r)| && s.queue == []
  {
    assert Busy(s.pc, r) == {} && Adding(s.pc, r) == {};
  }

  /** In every schedule the requests handed to workers are the accepted ones, once each, in the order of
      acceptance; they are those that were run and those that workers have in hand; and the accepted ones
      are those offered, without the refused ones and those still being added. */
  lemma EveryRequestIsRunOnce(c: Config, s: Pool, schedule: Schedule, r: Request)
    requires Initial(s)
    ensures var t := Exec(c, s, schedule);
            && Log(c, s, Accept, schedule) == Log(c, s, Take, schedule) + t.queue
            && Count(Log(c, s, Take, schedule), r) == |Busy(t.pc, r)| + Count(Log(c, s, Finish, schedule), r)
            && Count(Log(c, s, Offer, schedule), r) ==
               |Adding(t.pc, r)| + Count(Log(c, s, Refuse, schedule), r) + Count(Log(c, s, Accept, schedule), r)
  {
    hide *;
    NothingInHand(s, r);
    QueueIsInOrder(c, s, schedule);
    RequestsAreKept(c, s, schedule, r);
    assert [] + Log(c, s, Accept, schedule) == Log(c, s, Accept, schedule);
  }

  // ---------- Nobody waits in vain ----------

  /** No wake-up is lost: while requests are queued, waiting workers are kept waiting only by an
      appender that has yet to post or by workers already on their way to the queue. */
  lemma NoLostWakeUp(c: Config, s: Pool, schedule: Schedule)
    requires c.unlocks && Initial(s)
    ensures var t := Exec(c, s, schedule);
            t.queue != [] && t.sem == 0 ==>
              exists i :: i in t.pc && (Owes(t.pc[i]) || Claims(t.pc[i]))
  {
    var t := Exec(c, s, schedule);
    InitialIsSafe(c, s);
    RunKeepsInv(c, s, schedule);
    if t.queue != [] && t.sem == 0 {
      var i := OnTheWay(t);
    }
  }

  /** A worker that is not busy with a request. */
  predicate Awaits(p: Pc) {
    p.WWait? || p.WLock? || p.WTest? || p.WPop?
  }

  /** A thread on its way to or from the queue. */
  predicate Near(p: Pc) {
    !p.Idle? && !p.WRun?
  }

  ghost predicate Moves(c: Config, s: Pool, i: Tid) {
    i in s.pc && Near(s.pc[i]) && Step(c, s, i, 0) != s
  }

  /** A queued request never waits in vain: as long as some worker is not busy with a request, one of
      the threads on their way to or from the queue can move. */
  lemma {:induction false} QueueIsServed(c: Config, s: Pool, w: Tid)
    requires c.unlocks && Inv(c, s) && s.queue != []
    requires w in s.pc && Awaits(s.pc[w])
    ensures exists i: Tid :: Moves(c, s, i)
  {
    if s.lock.Held? {
      HolderMoves(c, s);
    } else if s.pc[w].WWait? && s.sem == 0 {
      var i := OnTheWay(s);
      TesterHasWork(c, s, i);
      assert Step(c, s, i, 0).pc[i] != s.pc[i];
      assert Moves(c, s, i);
    } else {
      TesterHasWork(c, s, w);
      assert Step(c, s, w, 0).pc[w] != s.pc[w];
      assert Moves(c, s, w);
    }
  }

  lemma HolderMoves(c: Config, s: Pool)
    requires c.unlocks && Inv(c, s) && s.lock.Held?
    ensures Moves(c, s, s.lock.holder)
  {
    var i := s.lock.holder;
    TesterHasWork(c, s, i);
    hide Balanced, Bounded;
    assert Step(c, s, i, 0).pc[i] != s.pc[i];
  }

  lemma OnTheWay(s: Pool) returns (i: Tid)
    requires Balanced(s) && s.queue != [] && s.sem == 0
    ensures i in s.pc && (Owes(s.pc[i]) || Claims(s.pc[i]))
  {
    assert Owing(s.pc) != {} || Claiming(s.pc) != {};
    i :| i in Owing(s.pc) + Claiming(s.pc);
  }

  // ---------- How much there is to do ----------

  /** Statements between a thread and the end of its way, with those that a request it pushes will cost. */
  function Weight(p: Pc): nat {
    match p
    case ALock(_) => 11 case ATest(_) => 10 case APush(_) => 9 case AUnlock => 2 case APost => 1 case AReject => 1
    case WUnlock(_) => 6 case WRun(_) => 5 case WSkip => 5 case WWait => 4 case WLock => 3 case WTest => 2 case WPop => 1
    case Idle => 0
  }

  const LONGEST := 11
  const PER_REQUEST := 6

  /** A statement that a thread has ahead of it, counted from the end of its way. */
  type Statement = (Tid, nat)

  /** The statements that all threads have ahead of them. */
  function Ahead(pc: map<Tid, Pc>): set<Statement> {
    set i, k | i in pc && 0 < k <= Weight(pc[i]) :: (i, k)
  }

  function Statements(i: Tid, n: nat): set<Statement> {
    set k: nat | 0 < k <= n :: (i, k)
  }

  lemma {:induction false} CountStatements(i: Tid, n: nat)
    ensures |Statements(i, n)| == n
  {
    if n > 0 {
      CountStatements(i, n - 1);
      assert Statements(i, n) == Statements(i, n - 1) + {(i, n)};
    }
  }

  lemma AheadOfOne(pc: map<Tid, Pc>, i: Tid, p: Pc)
    requires i !in pc
    ensures |Ahead(pc[i := p])| == |Ahead(pc)| + Weight(p)
  {
    hide Weight;
    CountStatements(i, Weight(p));
    assert Ahead(pc[i := p]) == Ahead(pc) + Statements(i, Weight(p));
    assert Ahead(pc) !! Statements(i, Weight(p));
  }

  lemma MoveAhead(pc: map<Tid, Pc>, i: Tid, p: Pc)
    requires i in pc
    ensures |Ahead(pc[i := p])| == |Ahead(pc)| + Weight(p) - Weight(pc[i])
  {
    var others := pc - {i};
    assert others[i := p] == pc[i := p] && others[i := pc[i]] == pc;
    hide Ahead, Weight;
    AheadOfOne(others, i, p);
    AheadOfOne(others, i, pc[i]);
  }

  /** A thread with something to do moves. */
  function BusyMove(c: Config, s: Pool, i: Tid, request: Request): nat {
    if i in s.pc && !s.pc[i].Idle? && Step(c, s, i, request) != s then 1 else 0
  }

  function BusyMoves(c: Config, s: Pool, schedule: Schedule): nat
    decreases |schedule|
  {
    if schedule == [] then 0
    else
      var (i, r) := schedule[0];
      BusyMove(c, s, i, r) + BusyMoves(c, Step(c, s, i, r), schedule[1..])
  }

  lemma MoveCounts(c: Config, s: Pool, i: Tid, request: Request)
    requires c.unlocks && Inv(c, s)
    ensures |Ahead(Step(c, s, i, request).pc)| + BusyMove(c, s, i, request) + PER_REQUEST * |Turn(c, s, Accept, i, request)|
         <= |Ahead(s.pc)| + LONGEST * |Turn(c, s, Offer, i, request)| + PER_REQUEST * |Turn(c, s, Take, i, request)|
  {
    if i in s.pc {
      var t := Step(c, s, i, request);
      TesterHasWork(c, s, i);
      StepMoves(c, s, i, request);
      MoveAhead(s.pc, i, t.pc[i]);
      hide Ahead, Exclusive, Balanced;
    }
  }

  /** However the threads take their turns, they make no more moves than they had statements ahead of them,
      eleven for each request that is offered meanwhile, and six for each that is taken out rather than
      put in. */
  lemma {:induction false} MovesAreBounded(c: Config, s: Pool, schedule: Schedule)
    requires c.unlocks && Inv(c, s)
    ensures |Ahead(Exec(c, s, schedule).pc)| + BusyMoves(c, s, schedule) + PER_REQUEST * |Log(c, s, Accept, schedule)|
         <= |Ahead(s.pc)| + LONGEST * |Log(c, s, Offer, schedule)| + PER_REQUEST * |Log(c, s, Take, schedule)|
    decreases |schedule|
  {
    if schedule != [] {
      var (i, r) := schedule[0];
      StepKeepsInv(c, s, i, r);
      MoveCounts(c, s, i, r);
      hide Step, Inv, Ahead, Turn, BusyMove;
      MovesAreBounded(c, Step(c, s, i, r), schedule[1..]);
    }
  }

  /** Without a pop there are no more moves than statements ahead, and eleven for each request offered. */
  lemma PopWithin(c: Config, s: Pool, schedule: Schedule)
    requires c.unlocks && Inv(c, s) && Log(c, s, Take, schedule) == []
    ensures BusyMoves(c, s, schedule) <= |Ahead(s.pc)| + LONGEST * |Log(c, s, Offer, schedule)|
  {
    MovesAreBounded(c, s, schedule);
  }

  /** All there is to do, when nothing more is offered. */
  function Work(s: Pool): nat {
    |Ahead(s.pc)| + PER_REQUEST * |s.queue|
  }

  /** In any schedule at all the moves are no more than what there was to do, and eleven for each request
      offered. */
  lemma WorkIsBounded(c: Config, s: Pool, schedule: Schedule)
    requires c.unlocks && Inv(c, s)
    ensures Work(Exec(c, s, schedule)) + BusyMoves(c, s, schedule) <= Work(s) + LONGEST * |Log(c, s, Offer, schedule)|
  {
    MovesAreBounded(c, s, schedule);
    QueueIsInOrder(c, s, schedule);
    hide Exec, Log, Ahead, BusyMoves, Inv;
    assert |s.queue| + |Log(c, s, Accept, schedule)| == |Log(c, s, Take, schedule)| + |Exec(c, s, schedule).queue|;
  }

  /** That is at most eleven for each thread and six for each queued request. */
  lemma {:induction false} AheadIsBounded(pc: map<Tid, Pc>)
    ensures |Ahead(pc)| <= LONGEST * |pc|
    decreases |pc|
  {
    if pc == map[] {
      assert Ahead(pc) == {};
    } else {
      var i :| i in pc;
      var rest := pc - {i};
      assert pc.Keys == rest.Keys + {i} && |pc| == |pc.Keys| && |rest| == |rest.Keys|;
      assert rest[i := pc[i]] == pc && Weight(pc[i]) <= LONGEST;
      hide Ahead, Weight;
      AheadIsBounded(rest);
      AheadOfOne(rest, i, pc[i]);
    }
  }

  // ---------- At rest everything is done ----------

  /** No thread but the idle ones can move. */
  ghost predicate AtRest(c: Config, s: Pool) {
    forall i :: i in s.pc && !s.pc[i].Idle? ==> Step(c, s, i, 0) == s
  }

  /** With at least one worker, the queue is then empty, every appender is idle and every worker waits. */
  lemma {:induction false} RestIsDone(c: Config, s: Pool, w: Tid)
    requires c.unlocks && Inv(c, s) && AtRest(c, s) && w in s.pc && !Appends(s.pc[w])
    ensures s.queue == [] && forall i :: i in s.pc ==> s.pc[i].Idle? || s.pc[i].WWait?
  {
    if s.lock.Held? { HolderMoves(c, s); }
    forall i | i in s.pc ensures s.pc[i].Idle? || (s.pc[i].WWait? && s.sem == 0) {
      TesterHasWork(c, s, i);
      hide Balanced;
      assert s.pc[i].Idle? || Step(c, s, i, 0).pc[i] == s.pc[i];
    }
    assert Owing(s.pc) == {} && Claiming(s.pc) == {};
  }

  lemma {:induction false} WorkersStay(c: Config, s: Pool, schedule: Schedule, w: Tid)
    requires w in s.pc && !Appends(s.pc[w])
    ensures var t := Exec(c, s, schedule); w in t.pc && !Appends(t.pc[w])
    decreases |schedule|
  {
    if schedule != [] {
      var (i, r) := schedule[0];
      assert w in Step(c, s, i, r).pc && !Appends(Step(c, s, i, r).pc[w]);
      hide Step, Appends;
      WorkersStay(c, Step(c, s, i, r), schedule[1..], w);
    }
  }

  /** A schedule from the start that ends at rest has run every accepted request, each as often as it was
      accepted, and has accepted or refused every one offered. */
  lemma EverythingIsRun(c: Config, s: Pool, schedule: Schedule, w: Tid, r: Request)
    requires c.unlocks && Initial(s) && w in s.pc && s.pc[w].WWait? && AtRest(c, Exec(c, s, schedule))
    ensures Log(c, s, Take, schedule) == Log(c, s, Accept, schedule)
    ensures Count(Log(c, s, Finish, schedule), r) == Count(Log(c, s, Accept, schedule), r)
    ensures Count(Log(c, s, Offer, schedule), r) == Count(Log(c, s, Refuse, schedule), r) + Count(Log(c, s, Accept, schedule), r)
  {
    var t := Exec(c, s, schedule);
    InitialIsSafe(c, s);
    hide Exec, Log, Inv, Count, AtRest, Initial;
    RunKeepsInv(c, s, schedule);
    WorkersStay(c, s, schedule, w);
    RestIsDone(c, t, w);
    EveryRequestIsRunOnce(c, s, schedule, r);
    assert Busy(t.pc, r) == {} && Adding(t.pc, r) == {};
    assert Log(c, s, Take, schedule) + [] == Log(c, s, Take, schedule);
  }

  lemma OneTurnMoves(c: Config, s: Pool, i: Tid, rest: Schedule)
    requires i in s.pc && !s.pc[i].Idle? && Step(c, s, i, 0) != s
    ensures var t := Step(c, s, i, 0);
            && Exec(c, s, [(i, 0)] + rest) == Exec(c, t, rest)
            && BusyMoves(c, s, [(i, 0)] + rest) == 1 + BusyMoves(c, t, rest)
            && Log(c, s, Offer, [(i, 0)] + rest) == Log(c, t, Offer, rest)
  {
    var all := [(i, 0)] + rest;
    assert all[0] == (i, 0) && all[1..] == rest;
    assert [] + Log(c, Step(c, s, i, 0), Offer, rest) == Log(c, Step(c, s, i, 0), Offer, rest);
  }

  /** From any state that can come about, the threads can go on until they are at rest, and will after as many
      moves as there is to do. */
  lemma {:induction false} RestIsReached(c: Config, s: Pool) returns (schedule: Schedule)
    requires c.unlocks && Inv(c, s)
    ensures AtRest(c, Exec(c, s, schedule)) && |schedule| == BusyMoves(c, s, schedule) <= Work(s)
    ensures Log(c, s, Offer, schedule) == []
    decreases Work(s)
  {
    schedule := [];
    if i :| i in s.pc && !s.pc[i].Idle? && Step(c, s, i, 0) != s {
      var t := Step(c, s, i, 0);
      StepKeepsInv(c, s, i, 0);
      OneTurnMoves(c, s, i, []);
      WorkIsBounded(c, s, [(i, 0)]);
      assert [(i, 0)] + [] == [(i, 0)] && Exec(c, t, []) == t && BusyMoves(c, t, []) == 0 && Log(c, t, Offer, []) == [];
      hide Step, Inv, Work, Exec, BusyMoves, Log, AtRest;
      var rest := RestIsReached(c, t);
      OneTurnMoves(c, s, i, rest);
      schedule := [(i, 0)] + rest;
    }
  }

  // ---------- The mutex as written ----------

  /** With an unlock that locks, the first thread to take the mutex keeps it. */
  ghost predicate Stuck(s: Pool) {
    && s.sem == 0
    && (forall i :: i in s.pc ==>
          match s.pc[i]
          case Idle => true case ALock(_) => true case WWait => true
          case ATest(_) => s.lock == Held(i) && s.queue == []
          case APush(_) => s.lock == Held(i) && s.queue == []
          case AReject => s.lock == Held(i)
          case AUnlock => s.lock == Held(i)
          case _ => false)
    && |s.queue| <= 1 && (s.lock.Free? ==> s.queue == [])
  }

  lemma {:induction false} AsWrittenNothingIsServed(c: Config, s: Pool, schedule: Schedule)
    requires !c.unlocks && Stuck(s)
    ensures Stuck(Exec(c, s, schedule)) && Log(c, s, Take, schedule) == []
    decreases |schedule|
  {
    if schedule != [] {
      var (i, r) := schedule[0];
      assert Stuck(Step(c, s, i, r)) && Turn(c, s, Take, i, r) == [];
      AsWrittenNothingIsServed(c, Step(c, s, i, r), schedule[1..]);
    }
  }

  /** The pool ever takes out a request only if unlock releases the mutex; then it does for one
      appender and one worker already. */
  lemma ServesExactlyIfUnlockReleases(c: Config, s: Pool, a: Tid, w: Tid)
    requires Initial(s) && a in s.pc && s.pc[a].Idle? && w in s.pc && s.pc[w].WWait?
    ensures (exists schedule: Schedule :: Log(c, s, Take, schedule) != []) <==> c.unlocks
  {
    if c.unlocks {
      var schedule := OneIsRun(c, s, a, w);
      assert Log(c, s, Take, schedule) != [];
    } else {
      forall schedule: Schedule ensures Log(c, s, Take, schedule) == [] {
        AsWrittenNothingIsServed(c, s, schedule);
      }
    }
  }

  /** `n` turns of one thread, which appends `r` when it is idle. */
  function Turns(i: Tid, r: Request, n: nat): Schedule {
    if n == 0 then [] else [(i, r)] + Turns(i, r, n - 1)
  }

  lemma OneTurn(c: Config, s: Pool, i: Tid, r: Request, n: nat, deed: Deed)
    requires n > 0
    ensures Exec(c, s, Turns(i, r, n)) == Exec(c, Step(c, s, i, r), Turns(i, r, n - 1))
    ensures Log(c, s, deed, Turns(i, r, n)) == Turn(c, s, deed, i, r) + Log(c, Step(c, s, i, r), deed, Turns(i, r, n - 1))
  {
    assert Turns(i, r, n)[0] == (i, r) && Turns(i, r, n)[1..] == Turns(i, r, n - 1);
  }

  /** What six turns of an idle thread note, when nobody is in its way and there is room. */
  function NotedByAppend(deed: Deed, r: Request): seq<Request> {
    if deed.Offer? || deed.Accept? then [r] else []
  }

  /** An idle thread that is left alone appends its request, if the queue is within its limit. */
  lemma OneAppended(c: Config, s: Pool, a: Tid, r: Request, deed: Deed)
    requires c.unlocks && a in s.pc && s.pc[a].Idle? && s.lock.Free? && |s.queue| <= c.maxRequests
    ensures Exec(c, s, Turns(a, r, 6)) == s.(queue := s.queue + [r], sem := s.sem + 1)
    ensures Log(c, s, deed, Turns(a, r, 6)) == NotedByAppend(deed, r)
  {
    var s3 := Asking(s, a, r, APush(r));
    var s4 := Go(s3.(queue := s.queue + [r]), a, AUnlock);
    var s5 := Go(s4.(lock := Free), a, APost);
    var s6 := Go(s5.(sem := s.sem + 1), a, Idle);
    assert s6.pc == s.pc;
    assert Step(c, s3, a, r) == s4 && Step(c, s4, a, r) == s5 && Step(c, s5, a, r) == s6;
    assert s3.pc[a] == APush(r) && s4.pc[a] == AUnlock && s5.pc[a] == APost && s6.pc[a] == Idle;
    assert Noted(deed, AUnlock, APost, r) == [] && Noted(deed, APost, Idle, r) == [];
    var first, pushed := if deed.Offer? then [r] else [], Noted(deed, APush(r), AUnlock, r);
    assert (first + pushed) == NotedByAppend(deed, r);
    hide *;
    OneAsked(c, s, a, r, 6, deed);
    OneMove(c, s3, a, r, 3, deed, s4);
    OneMove(c, s4, a, r, 2, deed, s5);
    OneMove(c, s5, a, r, 1, deed, s6);
    NoTurns(c, s6, a, r, deed);
    assert first + (pushed + ([] + ([] + []))) == first + pushed;
  }

  lemma OneMove(c: Config, s: Pool, i: Tid, r: Request, n: nat, deed: Deed, t: Pool)
    requires n > 0 && i in s.pc && i in t.pc && Step(c, s, i, r) == t
    ensures Exec(c, s, Turns(i, r, n)) == Exec(c, t, Turns(i, r, n - 1))
    ensures Log(c, s, deed, Turns(i, r, n)) == Noted(deed, s.pc[i], t.pc[i], r) + Log(c, t, deed, Turns(i, r, n - 1))
  {
    hide Step, Noted;
    OneTurn(c, s, i, r, n, deed);
  }

  /** The pool when a thread has asked for room and has got its answer. */
  function Asking(s: Pool, a: Tid, r: Request, answer: Pc): Pool {
    Go(s.(lock := Held(a)), a, answer)
  }

  lemma AnswerIs(c: Config, s: Pool, a: Tid, r: Request)
    requires a in s.pc
    ensures Step(c, Go(Go(s, a, ALock(r)).(lock := Held(a)), a, ATest(r)), a, r) ==
            Asking(s, a, r, if |s.queue| > c.maxRequests then AReject else APush(r))
  {
  }

  lemma NotedAsking(deed: Deed, r: Request, answer: Pc)
    requires answer.AReject? || answer.APush?
    ensures Noted(deed, ALock(r), ATest(r), r) == []
    ensures Noted(deed, Idle, ALock(r), r) + Noted(deed, ATest(r), answer, r) ==
            if deed.Offer? || (deed.Refuse? && answer.AReject?) then [r] else []
  {
  }

  lemma OneAsked(c: Config, s: Pool, a: Tid, r: Request, n: nat, deed: Deed)
    requires a in s.pc && s.pc[a].Idle? && s.lock.Free? && n >= 3
    ensures var answer := if |s.queue| > c.maxRequests then AReject else APush(r);
            && Exec(c, s, Turns(a, r, n)) == Exec(c, Asking(s, a, r, answer), Turns(a, r, n - 3))
            && Log(c, s, deed, Turns(a, r, n)) ==
               (if deed.Offer? || (deed.Refuse? && answer.AReject?) then [r] else []) +
               Log(c, Asking(s, a, r, answer), deed, Turns(a, r, n - 3))
  {
    var s1 := Go(s, a, ALock(r));
    var s2 := Go(s1.(lock := Held(a)), a, ATest(r));
    var answer := if |s.queue| > c.maxRequests then AReject else APush(r);
    var s3 := Asking(s, a, r, answer);
    assert Step(c, s, a, r) == s1;
    assert Step(c, s1, a, r) == s2;
    AnswerIs(c, s, a, r);
    assert s1.pc[a] == ALock(r) && s2.pc[a] == ATest(r) && s3.pc[a] == answer;
    var first, refused := Noted(deed, Idle, ALock(r), r), Noted(deed, ATest(r), answer, r);
    NotedAsking(deed, r, answer);
    hide *;
    OneMove(c, s, a, r, n, deed, s1);
    OneMove(c, s1, a, r, n - 1, deed, s2);
    OneMove(c, s2, a, r, n - 2, deed, s3);
    var rest := Log(c, s3, deed, Turns(a, r, n - 3));
    assert first + ([] + (refused + rest)) == (first + refused) + rest;
  }

  lemma NoTurns(c: Config, s: Pool, i: Tid, r: Request, deed: Deed)
    ensures Exec(c, s, Turns(i, r, 0)) == s && Log(c, s, deed, Turns(i, r, 0)) == []
  {
  }

  /** Beyond the limit it is refused, after four turns, and nothing else has changed. */
  lemma OneRefused(c: Config, s: Pool, a: Tid, r: Request)
    requires c.unlocks && a in s.pc && s.pc[a].Idle? && s.lock.Free? && |s.queue| > c.maxRequests
    ensures Exec(c, s, Turns(a, r, 4)) == s && Log(c, s, Refuse, Turns(a, r, 4)) == [r]
  {
    var s3 := Asking(s, a, r, AReject);
    var s4 := Go(s3.(lock := Free), a, Idle);
    assert s4.pc == s.pc;
    OneAsked(c, s, a, r, 4, Refuse);
    OneTurn(c, s3, a, r, 1, Refuse);
    hide Exec, Log, Turns;
    NoTurns(c, s4, a, r, Refuse);
  }

  lemma {:induction false} RunsJoin(c: Config, s: Pool, deed: Deed, front: Schedule, back: Schedule)
    ensures Exec(c, s, front + back) == Exec(c, Exec(c, s, front), back)
    ensures Log(c, s, deed, front + back) == Log(c, s, deed, front) + Log(c, Exec(c, s, front), deed, back)
    decreases |front|
  {
    if front == [] {
      assert front + back == back && [] + Log(c, s, deed, back) == Log(c, s, deed, back);
    } else {
      hide *;
      var i, r := front[0].0, front[0].1;
      assert (front + back)[0] == front[0] && (front + back)[1..] == front[1..] + back;
      OneMore(c, s, deed, front);
      OneMore(c, s, deed, front + back);
      RunsJoin(c, Step(c, s, i, r), deed, front[1..], back);
      JoinAssociates(Turn(c, s, deed, i, r), Log(c, Step(c, s, i, r), deed, front[1..]),
                     Log(c, Exec(c, s, front), deed, back));
    }
  }

  lemma OneIsRun(c: Config, s: Pool, a: Tid, w: Tid) returns (schedule: Schedule)
    requires c.unlocks && Initial(s) && a in s.pc && s.pc[a].Idle? && w in s.pc && s.pc[w].WWait?
    ensures Log(c, s, Take, schedule) != []
  {
    OneAppended(c, s, a, 0, Accept);
    InitialIsSafe(c, s);
    hide Exec, Log, Inv, Step, AtRest;
    var first := Turns(a, 0, 6);
    RunKeepsInv(c, s, first);
    var rest := RestIsReached(c, Exec(c, s, first));
    schedule := first + rest;
    RunsJoin(c, s, Accept, first, rest);
    EverythingIsRun(c, s, schedule, w, 0);
  }

  /** What one thread leaves that appends the same request `n` times. */
  function Filled(s: Pool, r: Request, n: nat): Pool {
    s.(queue := s.queue + seq(n, _ => r), sem := s.sem + n)
  }

  /** For every limit the queue takes exactly one request more than that: a lone thread fills it so far, each
      of its requests being accepted, and is refused then. */
  lemma FullPoolRefuses(c: Config, s: Pool, a: Tid, r: Request) returns (schedule: Schedule)
    requires c.unlocks && Initial(s) && a in s.pc && s.pc[a].Idle?
    ensures |Exec(c, s, schedule).queue| == c.maxRequests + 1 == |Log(c, s, Accept, schedule)|
    ensures Log(c, s, Refuse, schedule) == [r]
  {
    schedule := [];
    hide Exec, Log, Turns, Step;
    NoTurns(c, s, a, r, Accept);
    NoTurns(c, s, a, r, Refuse);
    assert Turns(a, r, 0) == [] by { NothingTurns(a, r); }
    assert Filled(s, r, 0) == s by { assert s.queue + seq(0, _ => r) == s.queue; }
    for n := 0 to c.maxRequests + 1
      invariant Exec(c, s, schedule) == Filled(s, r, n)
      invariant |Log(c, s, Accept, schedule)| == n && Log(c, s, Refuse, schedule) == []
    {
      var t := Filled(s, r, n);
      OneAppended(c, t, a, r, Accept);
      OneAppended(c, t, a, r, Refuse);
      RunsJoin(c, s, Accept, schedule, Turns(a, r, 6));
      RunsJoin(c, s, Refuse, schedule, Turns(a, r, 6));
      assert t.queue + [r] == s.queue + seq(n + 1, _ => r);
      schedule := schedule + Turns(a, r, 6);
    }
    var full := Filled(s, r, c.maxRequests + 1);
    OneRefused(c, full, a, r);
    RunsJoin(c, s, Accept, schedule, Turns(a, r, 4));
    RunsJoin(c, s, Refuse, schedule, Turns(a, r, 4));
    RefusedAcceptsNone(c, full, a, r);
    schedule := schedule + Turns(a, r, 4);
  }

  lemma NothingTurns(i: Tid, r: Request)
    ensures Turns(i, r, 0) == []
  {
  }

  lemma RefusedAcceptsNone(c: Config, s: Pool, a: Tid, r: Request)
    requires c.unlocks && a in s.pc && s.pc[a].Idle? && s.lock.Free? && |s.queue| > c.maxRequests
    ensures Log(c, s, Accept, Turns(a, r, 4)) == []
  {
    OneRefused(c, s, a, r);
    QueueIsInOrder(c, s, Turns(a, r, 4));
    AppenderTakesNone(c, s, a, r, 4);
  }

  lemma {:induction false} AppenderTakesNone(c: Config, s: Pool, a: Tid, r: Request, n: nat)
    requires a in s.pc && Appends(s.pc[a])
    ensures Log(c, s, Take, Turns(a, r, n)) == []
    decreases n
  {
    if n == 0 {
      NoTurns(c, s, a, r, Take);
    } else {
      OneTurn(c, s, a, r, n, Take);
      assert Turn(c, s, Take, a, r) == [] && a in Step(c, s, a, r).pc && Appends(Step(c, s, a, r).pc[a]);
      hide Step, Turn, Log, Turns, Appends;
      AppenderTakesNone(c, Step(c, s, a, r), a, r, n - 1);
    }
  }
}
