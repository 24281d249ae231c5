/** The job dispatcher: a bounded job queue, one dispatcher routine, a pool of idle worker channels and
    worker routines that put a job back on the queue when its retries run out. A run is any interleaving
    of the routines' steps. */
module Dispatch {
  /** A job's identity. */
  type Job = nat

  /** Where a worker's loop stands: about to register, waiting on its own channel, busy, or waiting for
      room on the queue to put a failed job back. */
  datatype Worker = Registering | Idle | Working(job: Job) | Requeuing(job: Job) | Stopped

  /** Where the dispatcher's loop stands: at its select, holding a job with no worker yet, holding a job
      and a worker's channel, or stopping the workers one by one. */
  datatype Dispatcher = Waiting | Holding(job: Job) | Sending(job: Job, to: nat) | Stopping(next: nat)

  /** The channels and routines, with what has been added and completed, and the order of sends and
      deliveries on the queue. */
  datatype State = State(cap: nat, queue: seq<Job>, disp: Dispatcher, pool: seq<nat>, workers: seq<Worker>,
                         added: multiset<Job>, done: multiset<Job>, sent: seq<Job>, given: seq<Job>)

  datatype Event = Add(job: Job) | Register(w: nat) | Take | Pick | Deliver
                 | Succeed(w: nat) | Fail(w: nat) | Requeue(w: nat) | Shutdown | StopNext

  function Start(n: nat, cap: nat): (s: State)
  {
    State(cap, [], Waiting, [], seq(n, _ => Registering), multiset{}, multiset{}, [], [])
  }

  /** A send on the queue goes ahead when the buffer has room or, unbuffered, when the dispatcher waits. */
  predicate CanPut(s: State)
  {
    |s.queue| < s.cap || (s.cap == 0 && s.disp.Waiting?)
  }

  function Put(s: State, j: Job): (t: State)
    requires CanPut(s)
  {
    if |s.queue| < s.cap then s.(queue := s.queue + [j], sent := s.sent + [j])
    else s.(disp := Holding(j), sent := s.sent + [j])
  }

  predicate Enabled(s: State, e: Event)
  {
    match e
    case Add(_) => CanPut(s)
    case Register(w) => w < |s.workers| && s.workers[w].Registering? && |s.pool| < |s.workers|
    case Take => s.disp.Waiting? && |s.queue| > 0
    case Pick => s.disp.Holding? && |s.pool| > 0
    case Deliver => s.disp.Sending? && s.disp.to < |s.workers| && s.workers[s.disp.to].Idle?
    case Succeed(w) => w < |s.workers| && s.workers[w].Working?
    case Fail(w) => w < |s.workers| && s.workers[w].Working?
    case Requeue(w) => w < |s.workers| && s.workers[w].Requeuing? && CanPut(s)
    case Shutdown => s.disp.Waiting?
    case StopNext => s.disp.Stopping? && s.disp.next < |s.workers| && s.workers[s.disp.next].Idle?
  }

  function Next(s: State, e: Event): (t: State)
    requires Enabled(s, e)
    ensures |t.workers| == |s.workers| && t.cap == s.cap
  {
    match e
    case Add(j) => Put(s, j).(added := s.added + multiset{j})
    case Register(w) => s.(workers := s.workers[w := Idle], pool := s.pool + [w])
    case Take => s.(disp := Holding(s.queue[0]), queue := s.queue[1..])
    case Pick => s.(disp := Sending(s.disp.job, s.pool[0]), pool := s.pool[1..])
    case Deliver =>
      s.(disp := Waiting, workers := s.workers[s.disp.to := Working(s.disp.job)], given := s.given + [s.disp.job])
    case Succeed(w) => s.(workers := s.workers[w := Registering], done := s.done + multiset{s.workers[w].job})
    case Fail(w) => s.(workers := s.workers[w := Requeuing(s.workers[w].job)])
    case Requeue(w) => Put(s, s.workers[w].job).(workers := s.workers[w := Registering])
    case Shutdown => s.(disp := Stopping(0))
    case StopNext => s.(disp := Stopping(s.disp.next + 1), workers := s.workers[s.disp.next := Stopped])
  }

  /** The events can happen one after the other. */
  predicate Legal(s: State, es: seq<Event>)
    decreases |es|
  {
    |es| == 0 || (Enabled(s, es[0]) && Legal(Next(s, es[0]), es[1..]))
  }

  function After(s: State, es: seq<Event>): (t: State)
    requires Legal(s, es)
    decreases |es|
  {
    if |es| == 0 then s else After(Next(s, es[0]), es[1..])
  }

  // Jobs: each is in exactly one place

  function JobOf(w: Worker): (m: multiset<Job>)
  {
    if w.Working? || w.Requeuing? then multiset{w.job} else multiset{}
  }

  function Carried(ws: seq<Worker>): (m: multiset<Job>)
    decreases |ws|
  {
    if |ws| == 0 then multiset{} else JobOf(ws[0]) + Carried(ws[1..])
  }

  function InHand(d: Dispatcher): (js: seq<Job>)
  {
    if d.Holding? || d.Sending? then [d.job] else []
  }

  /** The jobs that are neither completed nor lost. */
  function Outstanding(s: State): (m: multiset<Job>)
  {
    multiset(s.queue) + multiset(InHand(s.disp)) + Carried(s.workers)
  }

  predicate Conserved(s: State)
  {
    s.added == s.done + Outstanding(s)
  }

  /** What was delivered, then what the dispatcher holds, then the queue, is what was sent, in order. */
  predicate InOrder(s: State)
  {
    s.given + InHand(s.disp) + s.queue == s.sent
  }

  lemma SwapUnder(a: multiset<Job>, before: multiset<Job>, gone: multiset<Job>, after: multiset<Job>,
                  come: multiset<Job>)
    requires after + gone == before + come
    ensures (a + after) + gone == (a + before) + come
  {
    assert (a + after) + gone == a + (after + gone);
    assert (a + before) + come == a + (before + come);
  }

  lemma {:induction false} CarriedUpdate(ws: seq<Worker>, w: nat, x: Worker)
    requires w < |ws|
    ensures Carried(ws[w := x]) + JobOf(ws[w]) == Carried(ws) + JobOf(x)
    decreases |ws|
  {
    if w == 0 {
      assert ws[w := x][1..] == ws[1..];
    } else {
      CarriedUpdate(ws[1..], w - 1, x);
      assert ws[w := x][1..] == ws[1..][w - 1 := x];
      SwapUnder(JobOf(ws[0]), Carried(ws[1..]), JobOf(ws[w]), Carried(ws[w := x][1..]), JobOf(x));
    }
  }

  /** When the workers give up `gone` and take on `come`, and the rest of the state does the opposite,
      the total stays. */
  lemma Rebalance(rest: multiset<Job>, rest': multiset<Job>, c: multiset<Job>, c': multiset<Job>,
                  gone: multiset<Job>, come: multiset<Job>)
    requires c' + gone == c + come && rest' + come == rest + gone
    ensures rest' + c' == rest + c
  {
    forall j: Job ensures (rest' + c')[j] == (rest + c)[j] {
      assert (c' + gone)[j] == (c + come)[j];
      assert (rest' + come)[j] == (rest + gone)[j];
    }
  }

  /** All jobs but those with the workers. */
  function Elsewhere(s: State): (m: multiset<Job>)
  {
    s.done + multiset(s.queue) + multiset(InHand(s.disp))
  }

  lemma ConservedSum(s: State)
    ensures Conserved(s) <==> s.added == Elsewhere(s) + Carried(s.workers)
  {
    assert s.done + Outstanding(s) == Elsewhere(s) + Carried(s.workers);
  }

  lemma PutKeeps(s: State, j: Job)
    requires CanPut(s)
    ensures var t := Put(s, j);
            multiset(t.queue) + multiset(InHand(t.disp)) == multiset(s.queue) + multiset(InHand(s.disp)) + multiset{j}
    ensures InOrder(s) && |s.queue| <= s.cap ==> InOrder(Put(s, j))
  {
    if |s.queue| >= s.cap {
      assert multiset([j]) == multiset{j};
    }
  }

  lemma SplitFirst(q: seq<Job>)
    requires |q| > 0
    ensures multiset(q) == multiset{q[0]} + multiset(q[1..])
  {
    assert q == [q[0]] + q[1..];
  }

  /** A step in which worker `w` becomes `x`. */
  lemma WorkerStep(s: State, t: State, w: nat, x: Worker)
    requires w < |s.workers| && t.workers == s.workers[w := x] && t.added == s.added
    requires Elsewhere(t) + JobOf(x) == Elsewhere(s) + JobOf(s.workers[w])
    requires Conserved(s)
    ensures Conserved(t)
  {
    hide Carried, Elsewhere, JobOf;
    ConservedSum(s);
    ConservedSum(t);
    CarriedUpdate(s.workers, w, x);
    Rebalance(Elsewhere(s), Elsewhere(t), Carried(s.workers), Carried(t.workers), JobOf(s.workers[w]), JobOf(x));
  }

  lemma PutElsewhere(s: State, j: Job)
    requires CanPut(s)
    ensures Elsewhere(Put(s, j)) == Elsewhere(s) + multiset{j}
  {
    PutKeeps(s, j);
    var t := Put(s, j);
    assert Elsewhere(t) == s.done + (multiset(t.queue) + multiset(InHand(t.disp)));
    assert Elsewhere(s) + multiset{j} == s.done + (multiset(s.queue) + multiset(InHand(s.disp)) + multiset{j});
  }

  lemma AddConserves(s: State, j: Job)
    requires CanPut(s) && Conserved(s)
    ensures Conserved(Next(s, Add(j)))
  {
    hide Carried;
    var t := Next(s, Add(j));
    PutElsewhere(s, j);
    ConservedSum(s);
    ConservedSum(t);
    assert Elsewhere(t) == Elsewhere(Put(s, j));
    assert Elsewhere(s) + multiset{j} + Carried(s.workers) == Elsewhere(s) + Carried(s.workers) + multiset{j};
  }

  lemma SameElsewhere(s: State, t: State)
    requires t.workers == s.workers && t.added == s.added && Elsewhere(t) == Elsewhere(s)
    requires Conserved(s)
    ensures Conserved(t)
  {
    hide Elsewhere, Carried;
    ConservedSum(s);
    ConservedSum(t);
  }

  /** The dispatcher's own steps move a job between the queue and its hand. */
  lemma TakeConserves(s: State)
    requires Enabled(s, Take) && Conserved(s)
    ensures Conserved(Next(s, Take))
  {
    hide Carried, Conserved;
    SplitFirst(s.queue);
    var t := Next(s, Take);
    assert multiset(InHand(t.disp)) == multiset{s.queue[0]};
    SameElsewhere(s, t);
  }

  lemma DeliverConserves(s: State)
    requires Enabled(s, Deliver) && Conserved(s)
    ensures Conserved(Next(s, Deliver))
  {
    hide Carried, Conserved;
    assert multiset(InHand(s.disp)) == multiset{s.disp.job};
    WorkerStep(s, Next(s, Deliver), s.disp.to, Working(s.disp.job));
  }

  lemma SucceedConserves(s: State, w: nat)
    requires Enabled(s, Succeed(w)) && Conserved(s)
    ensures Conserved(Next(s, Succeed(w)))
  {
    hide Carried, Conserved;
    WorkerStep(s, Next(s, Succeed(w)), w, Registering);
  }

  lemma QuietWorker(s: State, t: State, w: nat, x: Worker)
    requires w < |s.workers| && t.workers == s.workers[w := x] && t.added == s.added
    requires Elsewhere(t) == Elsewhere(s) && JobOf(x) == JobOf(s.workers[w])
    requires Conserved(s)
    ensures Conserved(t)
  {
    hide Carried, Conserved, Elsewhere, JobOf;
    WorkerStep(s, t, w, x);
  }

  lemma RequeueConserves(s: State, w: nat)
    requires Enabled(s, Requeue(w)) && Conserved(s)
    ensures Conserved(Next(s, Requeue(w)))
  {
    hide Carried, Conserved;
    var t := Next(s, Requeue(w));
    PutElsewhere(s, s.workers[w].job);
    assert Elsewhere(t) == Elsewhere(Put(s, s.workers[w].job));
    hide Elsewhere;
    WorkerStep(s, t, w, Registering);
  }

  lemma RegisterConserves(s: State, w: nat)
    requires Enabled(s, Register(w)) && Conserved(s)
    ensures Conserved(Next(s, Register(w)))
  {
    hide Carried, Conserved;
    QuietWorker(s, Next(s, Register(w)), w, Idle);
  }

  lemma FailConserves(s: State, w: nat)
    requires Enabled(s, Fail(w)) && Conserved(s)
    ensures Conserved(Next(s, Fail(w)))
  {
    hide Carried, Conserved;
    QuietWorker(s, Next(s, Fail(w)), w, Requeuing(s.workers[w].job));
  }

  lemma StopConserves(s: State)
    requires Enabled(s, StopNext) && Conserved(s)
    ensures Conserved(Next(s, StopNext))
  {
    hide Carried, Conserved;
    QuietWorker(s, Next(s, StopNext), s.disp.next, Stopped);
  }

  lemma PickConserves(s: State)
    requires Enabled(s, Pick) && Conserved(s)
    ensures Conserved(Next(s, Pick))
  {
    hide Carried, Conserved;
    SameElsewhere(s, Next(s, Pick));
  }

  lemma ShutdownConserves(s: State)
    requires Enabled(s, Shutdown) && Conserved(s)
    ensures Conserved(Next(s, Shutdown))
  {
    hide Carried, Conserved;
    SameElsewhere(s, Next(s, Shutdown));
  }

  lemma StepConserves(s: State, e: Event)
    requires Enabled(s, e) && Conserved(s)
    ensures Conserved(Next(s, e))
  {
    hide Conserved, Next;
    match e {
      case Add(j) => AddConserves(s, j);
      case Take => TakeConserves(s);
      case Deliver => DeliverConserves(s);
      case Succeed(w) => SucceedConserves(s, w);
      case Requeue(w) => RequeueConserves(s, w);
      case Register(w) => RegisterConserves(s, w);
      case Fail(w) => FailConserves(s, w);
      case Pick => PickConserves(s);
      case Shutdown => ShutdownConserves(s);
      case StopNext => StopConserves(s);
    }
  }

  lemma StepInOrder(s: State, e: Event)
    requires Enabled(s, e) && InOrder(s) && |s.queue| <= s.cap
    ensures InOrder(Next(s, e)) && |Next(s, e).queue| <= s.cap
  {
    match e {
      case Add(j) => PutKeeps(s, j);
      case Requeue(w) => PutKeeps(s, s.workers[w].job);
      case Take => assert s.queue == [s.queue[0]] + s.queue[1..];
      case _ =>
    }
  }

  // Channels: one per idle worker

  ghost predicate Distinct(p: seq<nat>)
  {
    forall i, j :: 0 <= i < j < |p| ==> p[i] != p[j]
  }

  /** A worker's channel is in the pool at most once, only while the worker listens on it (or has been
      stopped), and an idle worker's channel is in the pool or in the dispatcher's hand. */
  ghost predicate PoolOk(s: State)
  {
    && Distinct(s.pool)
    && (forall w :: w in s.pool ==> w < |s.workers| && (s.workers[w].Idle? || s.workers[w].Stopped?))
    && (s.disp.Sending? ==>
          s.disp.to < |s.workers| && s.workers[s.disp.to].Idle? && s.disp.to !in s.pool)
    && (forall w :: 0 <= w < |s.workers| && s.workers[w].Idle? ==>
          w in s.pool || (s.disp.Sending? && s.disp.to == w))
  }

  /** The workers are stopped in order, and only by a stopping dispatcher. */
  ghost predicate StopOk(s: State)
  {
    && (s.disp.Stopping? ==> s.disp.next <= |s.workers|)
    && (forall w :: 0 <= w < |s.workers| ==>
          (s.workers[w].Stopped? <==> s.disp.Stopping? && w < s.disp.next))
  }

  ghost predicate Inv(s: State)
  {
    PoolOk(s) && StopOk(s) && Conserved(s) && InOrder(s) && |s.queue| <= s.cap
  }

  lemma PickPoolOk(s: State)
    requires Enabled(s, Pick) && PoolOk(s) && StopOk(s)
    ensures PoolOk(Next(s, Pick))
  {
    var t := Next(s, Pick);
    assert s.pool == [s.pool[0]] + s.pool[1..];
    assert s.pool[0] in s.pool && !s.workers[s.pool[0]].Stopped?;
    forall w | w in t.pool ensures w in s.pool && w != s.pool[0] {
      var i :| 0 <= i < |t.pool| && t.pool[i] == w;
      assert s.pool[i + 1] == w;
    }
  }

  lemma RegisterPoolOk(s: State, w: nat)
    requires Enabled(s, Register(w)) && PoolOk(s)
    ensures PoolOk(Next(s, Register(w)))
  {
    var t := Next(s, Register(w));
    assert w in t.pool by { assert t.pool[|s.pool|] == w; }
    assert w !in s.pool;
  }

  lemma StepPoolOk(s: State, e: Event)
    requires Enabled(s, e) && PoolOk(s) && StopOk(s)
    ensures PoolOk(Next(s, e))
  {
    match e {
      case Pick => PickPoolOk(s);
      case Register(w) => RegisterPoolOk(s, w);
      case _ =>
    }
  }

  lemma StepInv(s: State, e: Event)
    requires Enabled(s, e) && Inv(s)
    ensures Inv(Next(s, e))
  {
    hide Carried;
    StepConserves(s, e);
    StepInOrder(s, e);
    StepPoolOk(s, e);
    StepStopOk(s, e);
  }

  lemma StepStopOk(s: State, e: Event)
    requires Enabled(s, e) && StopOk(s)
    ensures StopOk(Next(s, e))
  {
  }

  lemma StartInv(n: nat, cap: nat)
    ensures Inv(Start(n, cap))
  {
    StartEmpty(seq(n, _ => Registering));
  }

  lemma {:induction false} StartEmpty(ws: seq<Worker>)
    requires forall w :: 0 <= w < |ws| ==> ws[w].Registering?
    ensures Carried(ws) == multiset{}
    decreases |ws|
  {
    if |ws| > 0 {
      StartEmpty(ws[1..]);
    }
  }

  lemma {:induction false} RunInv(s: State, es: seq<Event>)
    requires Inv(s) && Legal(s, es)
    ensures Inv(After(s, es)) && |After(s, es).workers| == |s.workers| && After(s, es).cap == s.cap
    decreases |es|
  {
    hide Inv, Next, Enabled;
    if |es| > 0 {
      StepInv(s, es[0]);
      RunInv(Next(s, es[0]), es[1..]);
    }
  }

  // Safety over every run

  lemma {:induction false} CarriesOnce(ws: seq<Worker>, w: nat)
    requires w < |ws| && (ws[w].Working? || ws[w].Requeuing?)
    ensures ws[w].job in Carried(ws)
    decreases |ws|
  {
    if w > 0 {
      CarriesOnce(ws[1..], w - 1);
    }
  }

  lemma {:induction false} CarriesTwice(ws: seq<Worker>, v: nat, w: nat)
    requires v < w < |ws| && JobOf(ws[v]) == JobOf(ws[w]) != multiset{}
    ensures Carried(ws)[ws[w].job] >= 2
    decreases |ws|
  {
    if v > 0 {
      CarriesTwice(ws[1..], v - 1, w - 1);
    } else {
      CarriesOnce(ws[1..], w - 1);
      assert ws[w].job in JobOf(ws[v]);
    }
  }

  /** After any run, every job ever added is completed or in exactly one place, counted with
      multiplicity; and deliveries happen in the order of the sends on the queue. */
  lemma NothingLost(n: nat, cap: nat, es: seq<Event>)
    requires Legal(Start(n, cap), es)
    ensures var t := After(Start(n, cap), es);
            && t.added == t.done + Outstanding(t)
            && t.given + InHand(t.disp) + t.queue == t.sent
            && |t.queue| <= cap
  {
    StartInv(n, cap);
    RunInv(Start(n, cap), es);
  }

  /** If each job is added once, then after any run no two workers have the same job, and a job that a
      worker has is neither completed, queued nor in the dispatcher's hand. */
  lemma OneHolder(n: nat, cap: nat, es: seq<Event>, v: nat, w: nat)
    requires Legal(Start(n, cap), es)
    requires var t := After(Start(n, cap), es);
             && (forall j :: t.added[j] <= 1)
             && v < |t.workers| && w < |t.workers| && v != w
             && JobOf(t.workers[v]) != multiset{}
    ensures var t := After(Start(n, cap), es);
            var j := t.workers[v].job;
            JobOf(t.workers[w]) != JobOf(t.workers[v]) && j !in t.done && j !in t.queue && j !in InHand(t.disp)
  {
    hide Legal, After;
    NothingLost(n, cap, es);
    HeldOnce(After(Start(n, cap), es), v, w);
  }

  lemma HeldOnce(t: State, v: nat, w: nat)
    requires Conserved(t) && t.added[if JobOf(t.workers[v]) == multiset{} then 0 else t.workers[v].job] <= 1
    requires v < |t.workers| && w < |t.workers| && v != w && JobOf(t.workers[v]) != multiset{}
    ensures var j := t.workers[v].job;
            JobOf(t.workers[w]) != JobOf(t.workers[v]) && j !in t.done && j !in t.queue && j !in InHand(t.disp)
  {
    hide Carried;
    var j := t.workers[v].job;
    CarriesOnce(t.workers, v);
    if JobOf(t.workers[w]) == JobOf(t.workers[v]) {
      CarriesTwice(t.workers, if v < w then v else w, if v < w then w else v);
    }
    assert t.added[j] == t.done[j] + multiset(t.queue)[j] + multiset(InHand(t.disp))[j] + Carried(t.workers)[j];
  }

  function Below(n: nat): (r: set<nat>)
    ensures |r| == n && forall i :: i in r <==> 0 <= i < n
  {
    if n == 0 then {} else Below(n - 1) + {n - 1}
  }

  /** Distinct numbers below `n`, one of them missing, are fewer than `n`. */
  lemma Pigeonhole(p: seq<nat>, n: nat, missing: nat)
    requires Distinct(p) && missing < n && missing !in p
    requires forall i :: 0 <= i < |p| ==> p[i] < n
    ensures |p| < n
  {
    var seen := set i | 0 <= i < |p| :: p[i];
    Distincts(p);
    assert seen <= Below(n) - {missing};
    Subset(seen, Below(n) - {missing});
  }

  lemma {:induction false} Distincts(p: seq<nat>)
    requires Distinct(p)
    ensures |set i | 0 <= i < |p| :: p[i]| == |p|
    decreases |p|
  {
    if |p| > 0 {
      var q := p[..|p| - 1];
      Distincts(q);
      assert (set i | 0 <= i < |p| :: p[i]) == (set i | 0 <= i < |q| :: q[i]) + {p[|p| - 1]};
    }
  }

  lemma {:induction false} Subset(a: set<nat>, b: set<nat>)
    requires a <= b
    ensures |a| <= |b|
    decreases |a|
  {
    if a != {} {
      var x :| x in a;
      Subset(a - {x}, b - {x});
    }
  }

  /** The pool channel always has room for a worker that wants to register, so that send never blocks. */
  lemma RegisterNeverBlocks(s: State, w: nat)
    requires Inv(s) && w < |s.workers| && s.workers[w].Registering?
    ensures Enabled(s, Register(w))
  {
    forall i | 0 <= i < |s.pool| ensures s.pool[i] < |s.workers| {
      assert s.pool[i] in s.pool;
    }
    Pigeonhole(s.pool, |s.workers|, w);
  }

  // Progress: failures aside, every run comes to rest

  predicate Internal(e: Event)
  {
    !e.Add? && !e.Shutdown?
  }

  /** The most steps a worker's state can still lead to without a failure. */
  function Weight(w: Worker): (n: nat)
  {
    match w
    case Registering => 1
    case Idle => 0
    case Working(_) => 2
    case Requeuing(_) => 7
    case Stopped => 0
  }

  function Load(ws: seq<Worker>): (n: nat)
    decreases |ws|
  {
    if |ws| == 0 then 0 else Weight(ws[0]) + Load(ws[1..])
  }

  function HandWeight(s: State): (n: nat)
  {
    match s.disp
    case Waiting => 0
    case Holding(_) => 4
    case Sending(_, _) => 3
    case Stopping(k) => if k <= |s.workers| then |s.workers| - k else 0
  }

  function Potential(s: State): (n: nat)
  {
    5 * |s.queue| + HandWeight(s) + Load(s.workers)
  }

  lemma {:induction false} LoadUpdate(ws: seq<Worker>, w: nat, x: Worker)
    requires w < |ws|
    ensures Load(ws[w := x]) + Weight(ws[w]) == Load(ws) + Weight(x)
    decreases |ws|
  {
    if w == 0 {
      assert ws[w := x][1..] == ws[1..];
    } else {
      LoadUpdate(ws[1..], w - 1, x);
      assert ws[w := x][1..] == ws[1..][w - 1 := x];
    }
  }

  /** Every step but a failure uses up potential; a failure adds at most five. */
  lemma StepCost(s: State, e: Event)
    requires Enabled(s, e) && Internal(e)
    ensures Potential(Next(s, e)) <= Potential(s) - 1 + (if e.Fail? then 6 else 0)
  {
    hide Load;
    match e {
      case Register(w) => LoadUpdate(s.workers, w, Idle);
      case Deliver => LoadUpdate(s.workers, s.disp.to, Working(s.disp.job));
      case Succeed(w) => LoadUpdate(s.workers, w, Registering);
      case Fail(w) => LoadUpdate(s.workers, w, Requeuing(s.workers[w].job));
      case Requeue(w) => LoadUpdate(s.workers, w, Registering);
      case StopNext => LoadUpdate(s.workers, s.disp.next, Stopped);
      case _ =>
    }
  }

  function Failures(es: seq<Event>): (n: nat)
    decreases |es|
  {
    if |es| == 0 then 0 else (if es[0].Fail? then 1 else 0) + Failures(es[1..])
  }

  /** From any state, a run without new jobs has at most `Potential + 6 * failures` steps: with finitely
      many failures no run goes on for ever. */
  lemma {:induction false} RunsEnd(s: State, es: seq<Event>)
    requires Legal(s, es) && forall i :: 0 <= i < |es| ==> Internal(es[i])
    ensures |es| + Potential(After(s, es)) <= Potential(s) + 6 * Failures(es)
    decreases |es|
  {
    hide Potential, Next, Enabled, Internal;
    if |es| > 0 {
      assert Internal(es[0]);
      StepCost(s, es[0]);
      forall i | 0 <= i < |es[1..]| ensures Internal(es[1..][i]) {
        assert es[1..][i] == es[i + 1];
      }
      RunsEnd(Next(s, es[0]), es[1..]);
    }
  }

  /** No routine can take a step until a job is added or a shutdown asked for. */
  ghost predicate Stuck(s: State)
  {
    forall e: Event :: Internal(e) ==> !Enabled(s, e)
  }

  ghost predicate AllIdle(s: State)
  {
    forall w :: 0 <= w < |s.workers| ==> s.workers[w].Idle?
  }

  ghost predicate AllRequeuing(s: State)
  {
    forall w :: 0 <= w < |s.workers| ==> s.workers[w].Requeuing?
  }

  ghost predicate Finished(s: State)
  {
    s.disp.Waiting? && s.queue == [] && AllIdle(s)
  }

  /** The dispatcher holds a job and waits for a worker; every worker holds a failed job and waits for
      room on the queue, which only the dispatcher could make. */
  ghost predicate Deadlocked(s: State)
  {
    s.disp.Holding? && AllRequeuing(s) && (|s.workers| == 0 || |s.queue| == s.cap)
  }

  /** Stopped for good: all workers gone, or the next one to stop waits for room on a full queue. */
  ghost predicate Halted(s: State)
  {
    && s.disp.Stopping?
    && (s.disp.next == |s.workers| || (s.disp.next < |s.workers| && s.workers[s.disp.next].Requeuing?))
    && (forall w :: s.disp.next <= w < |s.workers| ==>
          s.workers[w].Idle? || (s.workers[w].Requeuing? && |s.queue| == s.cap))
  }

  lemma NotEnabled(s: State, e: Event)
    requires Stuck(s) && Internal(e)
    ensures !Enabled(s, e)
  {
  }

  lemma StuckWorker(s: State, w: nat)
    requires Inv(s) && Stuck(s) && w < |s.workers|
    ensures s.workers[w].Idle? || s.workers[w].Stopped? || (s.workers[w].Requeuing? && !CanPut(s))
  {
    hide Inv, Stuck;
    NotEnabled(s, Register(w));
    NotEnabled(s, Succeed(w));
    NotEnabled(s, Requeue(w));
    if s.workers[w].Registering? {
      RegisterNeverBlocks(s, w);
    }
  }

  lemma StuckOneWay(s: State)
    requires Inv(s) && Stuck(s)
    ensures Finished(s) || Deadlocked(s) || Halted(s)
  {
    hide Conserved, InOrder, Stuck;
    forall w: nat | w < |s.workers|
      ensures s.workers[w].Idle? || s.workers[w].Stopped? || (s.workers[w].Requeuing? && !CanPut(s))
    {
      StuckWorker(s, w);
    }
    NotEnabled(s, Take);
    NotEnabled(s, Pick);
    NotEnabled(s, Deliver);
    NotEnabled(s, StopNext);
    if s.disp.Holding? {
      assert AllRequeuing(s);
      if |s.workers| > 0 {
        assert s.workers[0].Requeuing?;
      }
    }
  }

  lemma PoolFront(s: State)
    requires PoolOk(s) && |s.pool| > 0
    ensures !AllRequeuing(s)
  {
    assert s.pool[0] in s.pool;
  }

  lemma StuckOtherWay(s: State, e: Event)
    requires Inv(s) && (Finished(s) || Deadlocked(s) || Halted(s)) && Internal(e)
    ensures !Enabled(s, e)
  {
    hide Conserved, InOrder;
    if |s.pool| > 0 {
      PoolFront(s);
    }
  }

  /** Exactly when a reachable state is stuck: everything is finished, or the dispatcher and all workers
      wait for each other, or the dispatcher has been shut down. */
  lemma StuckExactly(s: State)
    requires Inv(s)
    ensures Stuck(s) <==> Finished(s) || Deadlocked(s) || Halted(s)
  {
    hide Inv, Finished, Deadlocked, Halted, Enabled, Internal;
    if Stuck(s) {
      StuckOneWay(s);
    }
    if Finished(s) || Deadlocked(s) || Halted(s) {
      forall e: Event | Internal(e) ensures !Enabled(s, e) {
        StuckOtherWay(s, e);
      }
    }
  }

  // When all jobs complete

  lemma {:induction false} FullHands(ws: seq<Worker>)
    requires forall w :: 0 <= w < |ws| ==> ws[w].Requeuing?
    ensures |Carried(ws)| == |ws|
    decreases |ws|
  {
    if |ws| > 0 {
      FullHands(ws[1..]);
    }
  }

  lemma {:induction false} EmptyHands(ws: seq<Worker>)
    requires forall w :: 0 <= w < |ws| ==> ws[w].Idle?
    ensures Carried(ws) == multiset{}
    decreases |ws|
  {
    if |ws| > 0 {
      EmptyHands(ws[1..]);
    }
  }

  /** A deadlock needs one more job than the queue and the workers have room for. */
  lemma DeadlockIsFull(s: State)
    requires Inv(s) && Deadlocked(s) && |s.workers| > 0
    ensures |Outstanding(s)| == s.cap + |s.workers| + 1
  {
    FullHands(s.workers);
  }

  lemma FinishedIsDone(s: State)
    requires Inv(s) && Finished(s)
    ensures s.done == s.added
  {
    EmptyHands(s.workers);
  }

  /** Steps of the routines add no job, lose no completion and ask for no shutdown. */
  lemma {:induction false} InternalRun(s: State, es: seq<Event>)
    requires Legal(s, es) && forall i :: 0 <= i < |es| ==> Internal(es[i])
    ensures var t := After(s, es); t.added == s.added && s.done <= t.done && (t.disp.Stopping? ==> s.disp.Stopping?)
    decreases |es|
  {
    if |es| > 0 {
      assert Internal(es[0]);
      forall i | 0 <= i < |es[1..]| ensures Internal(es[1..][i]) {
        assert es[1..][i] == es[i + 1];
      }
      InternalRun(Next(s, es[0]), es[1..]);
    }
  }

  /** With at least one worker and at most `cap + workers` jobs outstanding, once the routines come to
      rest every job has been completed. */
  lemma AllComplete(n: nat, cap: nat, es: seq<Event>, fs: seq<Event>)
    requires n > 0 && Legal(Start(n, cap), es)
    requires var s := After(Start(n, cap), es);
             && !s.disp.Stopping?
             && |Outstanding(s)| <= cap + n
             && Legal(s, fs) && (forall i :: 0 <= i < |fs| ==> Internal(fs[i]))
             && Stuck(After(s, fs))
    ensures var t := After(After(Start(n, cap), es), fs); t.done == t.added
  {
    hide Legal, After, Conserved, Deadlocked, Finished, Stuck, Outstanding, PoolOk, StopOk, InOrder;
    var s := After(Start(n, cap), es);
    StartInv(n, cap);
    RunInv(Start(n, cap), es);
    RunInv(s, fs);
    InternalRun(s, fs);
    var t := After(s, fs);
    StuckExactly(t);
    FewerOutstanding(s, t);
    if Deadlocked(t) {
      DeadlockIsFull(t);
    } else {
      FinishedIsDone(t);
    }
  }

  lemma FewerOutstanding(s: State, t: State)
    requires Conserved(s) && Conserved(t) && t.added == s.added && s.done <= t.done
    ensures |Outstanding(t)| <= |Outstanding(s)|
  {
    hide Outstanding;
    assert |s.added| == |s.done| + |Outstanding(s)|;
    assert |t.added| == |t.done| + |Outstanding(t)|;
    assert t.done == s.done + (t.done - s.done);
  }

  // The bound is tight

  lemma {:induction false} Extend(s: State, es: seq<Event>, e: Event)
    requires Legal(s, es) && Enabled(After(s, es), e)
    ensures Legal(s, es + [e]) && After(s, es + [e]) == Next(After(s, es), e)
    decreases |es|
  {
    hide Enabled, Next;
    if |es| == 0 {
      assert es + [e] == [e];
      assert [e][1..] == [];
    } else {
      assert (es + [e])[1..] == es[1..] + [e];
      Extend(Next(s, es[0]), es[1..], e);
    }
  }

  /** The dispatcher is free and exactly the first `k` workers are busy. */
  ghost predicate Busy(s: State, n: nat, cap: nat, k: nat)
  {
    && s.cap == cap && |s.workers| == n && k <= n && s.done == multiset{}
    && s.queue == [] && s.disp.Waiting? && s.pool == []
    && (forall w :: 0 <= w < n ==> if w < k then s.workers[w].Working? else s.workers[w].Registering?)
  }

  /** One more worker registers and is given a job. */
  lemma OneMoreBusy(n: nat, cap: nat, k: nat, es: seq<Event>) returns (fs: seq<Event>)
    requires Legal(Start(n, cap), es) && Busy(After(Start(n, cap), es), n, cap, k) && k < n
    ensures Legal(Start(n, cap), fs) && Busy(After(Start(n, cap), fs), n, cap, k + 1)
  {
    hide Legal, After, Start;
    var s := Start(n, cap);
    Extend(s, es, Register(k));
    fs := es + [Register(k)];
    Extend(s, fs, Add(0));
    fs := fs + [Add(0)];
    if cap > 0 {
      Extend(s, fs, Take);
      fs := fs + [Take];
    }
    Extend(s, fs, Pick);
    fs := fs + [Pick];
    Extend(s, fs, Deliver);
    fs := fs + [Deliver];
  }

  lemma {:induction false} AllBusy(n: nat, cap: nat, k: nat) returns (es: seq<Event>)
    requires k <= n
    ensures Legal(Start(n, cap), es) && Busy(After(Start(n, cap), es), n, cap, k)
    decreases k
  {
    hide Enabled, Next, Busy;
    if k == 0 {
      es := [];
      NoneBusy(n, cap);
    } else {
      var ds := AllBusy(n, cap, k - 1);
      es := OneMoreBusy(n, cap, k - 1, ds);
    }
  }

  lemma NoneBusy(n: nat, cap: nat)
    ensures Busy(Start(n, cap), n, cap, 0)
  {
  }

  /** The dispatcher holds a job, the queue holds `q`, the first `k` workers have failed and the others
      are busy. */
  ghost predicate Crowded(s: State, n: nat, cap: nat, q: nat, k: nat)
  {
    && s.cap == cap && |s.workers| == n && k <= n && s.done == multiset{}
    && |s.queue| == q <= cap && s.disp.Holding?
    && (forall w :: 0 <= w < n ==> if w < k then s.workers[w].Requeuing? else s.workers[w].Working?)
  }

  lemma FirstHeld(n: nat, cap: nat) returns (es: seq<Event>)
    ensures Legal(Start(n, cap), es) && Crowded(After(Start(n, cap), es), n, cap, 0, 0)
  {
    hide Legal, After, Start;
    var s := Start(n, cap);
    es := AllBusy(n, cap, n);
    Extend(s, es, Add(0));
    es := es + [Add(0)];
    if cap > 0 {
      Extend(s, es, Take);
      es := es + [Take];
    }
  }

  lemma {:induction false} QueueFills(n: nat, cap: nat, q: nat) returns (es: seq<Event>)
    requires q <= cap
    ensures Legal(Start(n, cap), es) && Crowded(After(Start(n, cap), es), n, cap, q, 0)
    decreases q
  {
    hide Legal, After, Start;
    if q == 0 {
      es := FirstHeld(n, cap);
    } else {
      es := QueueFills(n, cap, q - 1);
      Extend(Start(n, cap), es, Add(0));
      es := es + [Add(0)];
    }
  }

  lemma {:induction false} WorkersFail(n: nat, cap: nat, k: nat) returns (es: seq<Event>)
    requires k <= n
    ensures Legal(Start(n, cap), es) && Crowded(After(Start(n, cap), es), n, cap, cap, k)
    decreases k
  {
    hide Legal, After, Start;
    if k == 0 {
      es := QueueFills(n, cap, cap);
    } else {
      es := WorkersFail(n, cap, k - 1);
      Extend(Start(n, cap), es, Fail(k - 1));
      es := es + [Fail(k - 1)];
    }
  }

  /** For every number of workers and every queue length, one job more than `AllComplete` allows can lead
      to a state where nothing is complete and nothing can move. */
  lemma BoundIsTight(n: nat, cap: nat) returns (es: seq<Event>)
    ensures Legal(Start(n, cap), es)
    ensures var t := After(Start(n, cap), es);
            Stuck(t) && Deadlocked(t) && t.done == multiset{} && |Outstanding(t)| == cap + n + 1
  {
    hide Legal, After, Start;
    es := WorkersFail(n, cap, n);
    var t := After(Start(n, cap), es);
    StartInv(n, cap);
    RunInv(Start(n, cap), es);
    assert AllRequeuing(t);
    StuckExactly(t);
    FullHands(t.workers);
  }

  // The order of the workers

  /** The workers that registered, in order. */
  function Registered(es: seq<Event>): (ws: seq<nat>)
    decreases |es|
  {
    if |es| == 0 then [] else (if es[0].Register? then [es[0].w] else []) + Registered(es[1..])
  }

  /** The workers to whom the dispatcher sent a job or was about to, in order. */
  function Picked(s: State, es: seq<Event>): (ws: seq<nat>)
    requires Legal(s, es)
    decreases |es|
  {
    if |es| == 0 then []
    else
      var t := Next(s, es[0]);
      (if es[0].Pick? then [t.disp.to] else []) + Picked(t, es[1..])
  }

  /** Over every run the workers are picked in the order in which they registered, and those not yet picked are
      waiting in that order. */
  lemma {:induction false} PickedInOrder(s: State, es: seq<Event>)
    requires Legal(s, es)
    ensures s.pool + Registered(es) == Picked(s, es) + After(s, es).pool
    decreases |es|
  {
    if |es| > 0 {
      var e, t := es[0], Next(s, es[0]);
      PickedInOrder(t, es[1..]);
      assert s.pool + (if e.Register? then [e.w] else []) == (if e.Pick? then [t.disp.to] else []) + t.pool;
      Regroup(s.pool, if e.Register? then [e.w] else [], if e.Pick? then [t.disp.to] else [], t.pool,
              Registered(es[1..]), Picked(t, es[1..]), After(t, es[1..]).pool);
    }
  }

  lemma Regroup(a: seq<nat>, b: seq<nat>, c: seq<nat>, d: seq<nat>, x: seq<nat>, y: seq<nat>, z: seq<nat>)
    requires a + b == c + d && d + x == y + z
    ensures a + (b + x) == (c + y) + z
  {
    assert a + (b + x) == (a + b) + x;
    assert (c + d) + x == c + (d + x);
    assert c + (y + z) == (c + y) + z;
  }

  // Shutdown

  /** Once the dispatcher is stopping it stays so, gives out no job and leaves those in the queue where they are,
      over every run. */
  lemma {:induction false} StoppedForever(s: State, es: seq<Event>)
    requires s.disp.Stopping? && Legal(s, es)
    ensures var t := After(s, es); t.disp.Stopping? && t.given == s.given && s.queue <= t.queue
    decreases |es|
  {
    if |es| > 0 {
      StoppedForever(Next(s, es[0]), es[1..]);
    }
  }

  lemma {:induction false} QueueOnly(n: nat, cap: nat, q: nat) returns (es: seq<Event>)
    requires q <= cap
    ensures Legal(Start(n, cap), es)
    ensures var t := After(Start(n, cap), es);
            t.cap == cap && t.disp.Waiting? && |t.queue| == q && t.given == [] && |t.added| == q
    decreases q
  {
    hide Legal, After;
    if q == 0 {
      es := [];
      NoSteps(Start(n, cap));
    } else {
      es := QueueOnly(n, cap, q - 1);
      Extend(Start(n, cap), es, Add(0));
      es := es + [Add(0)];
    }
  }

  lemma NoSteps(s: State)
    ensures Legal(s, []) && After(s, []) == s
  {
  }

  /** A shutdown does not wait for the queue: for every number of workers and every number of jobs that fit the
      queue there is a run that shuts down with all of them waiting, and however it goes on none is given out. */
  lemma ShutdownLeavesJobs(n: nat, cap: nat, q: nat) returns (es: seq<Event>)
    requires q <= cap
    ensures Legal(Start(n, cap), es)
    ensures var t := After(Start(n, cap), es);
            && t.disp.Stopping? && |t.queue| == q && |t.added| == q
            && (forall more :: Legal(t, more) ==> t.queue <= After(t, more).queue && After(t, more).given == [])
  {
    hide Legal, After;
    es := QueueOnly(n, cap, q);
    Extend(Start(n, cap), es, Shutdown);
    es := es + [Shutdown];
    var t := After(Start(n, cap), es);
    forall more | Legal(t, more) ensures t.queue <= After(t, more).queue && After(t, more).given == [] {
      StoppedForever(t, more);
    }
  }
}
