/** The parallel check queue (src/checkqueue.h): a master and its workers as a system of atomic steps,
    one per critical section and one per batch of work done outside the lock. */
module CheckQueues {
  import Integers
  import opened Options

  /** A verification job, with what calling it returns. */
  datatype Check = Check(id: nat, outcome: Option<int>)

  /** Where a thread is. Thread 0 is the master; the others are the workers. */
  datatype Thread =
    // master: not inside Add, Complete or the destructor
    | Outside
    // master: released the lock, about to wake workers
    | Notifying(all: bool)
    // master: in the destructor, waiting for the workers to end
    | Joining
    // about to take the lock; batch is empty on the first iteration
    | Entering(batch: seq<Check>, local: Option<int>, ran: bool)
    // holding the lock, at the head of the inner while loop
    | Locked(local: Option<int>)
    // blocked on its condition variable
    | Waiting(local: Option<int>, notified: bool)
    // working outside the lock
    | Busy(batch: seq<Check>, local: Option<int>, doWork: bool)
    // returned because of a requested stop
    | Gone
  {
    function Batch(): seq<Check> {
      if Entering? || Busy? then batch else []
    }

    function Notified(): Thread {
      if Waiting? then Waiting(local, true) else this
    }

    predicate InLoop() {
      Entering? || Waiting? || Busy?
    }

    /** The thread has been counted in nTotal. */
    predicate Counted() {
      Locked? || Waiting? || Busy? || Gone? || (Entering? && batch != [])
    }
  }

  /** The members of the queue, the threads, and the history that the properties speak about: the checks added
      since the last Complete, those of them whose batch is cleaned up, and what each Complete returned. */
  datatype State = State(queue: seq<Check>, nIdle: int, nTotal: int, result: Option<int>, nTodo: int, stop: bool,
                         threads: seq<Thread>, session: multiset<Check>, finished: multiset<Check>,
                         returned: seq<(multiset<Check>, Option<int>)>)

  datatype Action =
    | Add(checks: seq<Check>)
    | Notify(worker: nat)
    | CallComplete
    | RequestStop
    | Section(thread: nat)
    | Wake(thread: nat)
    | Execute(thread: nat)

  function Initial(workers: nat): State {
    State([], 0, 0, None, 0, false, [Outside] + seq(workers, _ => Entering([], None, false)), multiset{}, multiset{},
      [])
  }

  // ---------------------------------------------------------------------------------------------
  // The steps
  // ---------------------------------------------------------------------------------------------

  /** What local_result is after running the batch: the loop stops at the first failure. */
  function Run(batch: seq<Check>, local: Option<int>): Option<int> {
    if batch == [] then local
    else if batch[0].outcome.Some? then batch[0].outcome
    else Run(batch[1..], None)
  }

  /** r is the first failure of the batch, or there is none. */
  ghost predicate IsFirst(batch: seq<Check>, r: Option<int>) {
    if r.None? then forall i | 0 <= i < |batch| :: batch[i].outcome.None?
    else exists i | 0 <= i < |batch| :: FailsAt(batch, i, r)
  }

  ghost predicate FailsAt(batch: seq<Check>, i: nat, r: Option<int>)
    requires i < |batch|
  {
    batch[i].outcome == r && forall j | 0 <= j < i :: batch[j].outcome.None?
  }

  lemma {:induction false} RunIsFirst(batch: seq<Check>, local: Option<int>)
    ensures if batch == [] then Run(batch, local) == local else IsFirst(batch, Run(batch, local))
  {
    if batch != [] {
      if batch[0].outcome.Some? {
        assert FailsAt(batch, 0, Run(batch, local));
      } else {
        var rest, r := batch[1..], Run(batch[1..], None);
        RunIsFirst(rest, None);
        if r.Some? {
          var i: nat :| i < |rest| && FailsAt(rest, i, r);
          assert FailsAt(batch, i + 1, r);
        } else {
          forall i | 0 <= i < |batch| ensures batch[i].outcome.None? {
            if i > 0 { assert batch[i] == rest[i-1]; }
          }
        }
      }
    }
  }

  method RunChecks(batch: seq<Check>, localResult: Option<int>) returns (r: Option<int>)
    ensures r == Run(batch, localResult)
    ensures if batch == [] then r == localResult else IsFirst(batch, r)
  {
    hide IsFirst;
    RunIsFirst(batch, localResult);
    r := localResult;
    for i := 0 to |batch|
      invariant Run(batch, localResult) == Run(batch[i..], r)
      invariant i > 0 ==> r.None?
    {
      assert batch[i..][1..] == batch[i+1..];
      r := batch[i].outcome;
      if r.Some? {
        break;
      }
    }
  }

  function NotifyMaster(threads: seq<Thread>): seq<Thread>
    requires |threads| > 0
  {
    threads[0 := threads[0].Notified()]
  }

  function NotifyWorkers(threads: seq<Thread>): seq<Thread> {
    seq(|threads|, i requires 0 <= i < |threads| => if i == 0 then threads[0] else threads[i].Notified())
  }

  /** The clean-up of the previous iteration, or the counting of the thread on its first one. */
  function CleanUp(s: State, t: nat): State
    requires t < |s.threads| && s.threads[t].Entering?
  {
    var th := s.threads[t];
    if th.batch != [] then
      var publish := th.local.Some? && s.result.None?;
      var nTodo := s.nTodo - |th.batch|;
      var threads := s.threads[t := Locked(if publish then None else th.local)];
      s.(result := if publish then th.local else s.result,
         nTodo := nTodo,
         threads := if nTodo == 0 && t != 0 then NotifyMaster(threads) else threads,
         finished := s.finished + multiset(th.batch))
    else
      s.(nTotal := s.nTotal + 1, threads := s.threads[t := Locked(th.local)])
  }

  function BatchSize(s: State, nBatchSize: nat): (n: nat)
    requires s.queue != []
    ensures 1 <= n <= |s.queue| && (n <= nBatchSize || n == 1)
  {
    Share(|s.queue|, s.nTotal + s.nIdle + 1, nBatchSize)
  }

  /** The greatest share that lets so many threads take as much, within the limit, but at least one. */
  function Share(length: nat, threads: int, limit: nat): (n: nat)
    requires length > 0
    ensures 1 <= n <= length && (n <= limit || n == 1)
  {
    var share := if threads > 0 then Fraction(length, threads); length / threads else 0;
    var n := if limit < share then limit else share;
    if n < 1 then 1 else n
  }

  lemma ShareIs(length: nat, threads: nat, limit: nat)
    requires length > 0 && threads > 0
    ensures var n := Share(length, threads, limit);
      && (n > 1 ==> n * threads <= length) && (n < limit ==> (n + 1) * threads > length)
  {
    Fraction(length, threads);
    var q, n := length / threads, Share(length, threads, limit);
    assert q * threads <= length < (q + 1) * threads by { Divided(length, threads); }
    if n > 1 { Integers.MulMono(n, q, threads); }
    if n < limit { Integers.MulMono(q + 1, n + 1, threads); }
  }

  lemma Fraction(x: nat, m: nat)
    requires m > 0
    ensures 0 <= x / m <= x
  {
    Divided(x, m);
    Quotient(x, m, x / m);
  }

  lemma Quotient(x: nat, m: nat, q: int)
    requires m > 0 && q * m <= x < (q + 1) * m
    ensures 0 <= q <= x
  {
    if q < 0 {
      Integers.MulMono(1, -q, m);
    } else {
      Integers.MulMono(1, m, q);
    }
  }

  lemma Divided(x: nat, m: nat)
    requires m > 0
    ensures (x / m) * m <= x < (x / m + 1) * m
  {
    assert x == (x / m) * m + x % m;
    assert (x / m + 1) * m == (x / m) * m + m;
  }

  /** The inner loop, with the lock held: return, wait, stop, or take a batch from the end of the queue. */
  function AtQueue(s: State, t: nat, nBatchSize: nat): State
    requires t < |s.threads| && s.threads[t].Locked?
  {
    var local := s.threads[t].local;
    if s.stop then
      s.(threads := s.threads[t := Gone])
    else if s.queue == [] && t == 0 && s.nTodo == 0 then
      s.(nTotal := s.nTotal - 1, result := None, threads := s.threads[0 := Outside],
         session := multiset{}, finished := multiset{}, returned := s.returned + [(s.session, s.result)])
    else if s.queue == [] then
      s.(nIdle := s.nIdle + 1, threads := s.threads[t := Waiting(local, false)])
    else
      var rest := |s.queue| - BatchSize(s, nBatchSize);
      s.(queue := s.queue[..rest], threads := s.threads[t := Busy(s.queue[rest..], local, s.result.None?)])
  }

  predicate Enabled(s: State, a: Action) {
    match a
    case Add(checks) => |s.threads| > 0 && s.threads[0].Outside? && checks != []
    case Notify(w) =>
      && |s.threads| > 0 && s.threads[0].Notifying?
      && (s.threads[0].all || (w < |s.threads| && Sleeping(s.threads, w)) || NoneSleeping(s.threads))
    case CallComplete => |s.threads| > 0 && s.threads[0].Outside?
    case RequestStop => |s.threads| > 0 && s.threads[0].Outside?
    case Section(t) => t < |s.threads| && s.threads[t].Entering?
    case Wake(t) => t < |s.threads| && s.threads[t].Waiting?
    case Execute(t) => t < |s.threads| && s.threads[t].Busy?
  }

  predicate Sleeping(threads: seq<Thread>, w: nat)
    requires w < |threads|
  {
    w > 0 && threads[w].Waiting? && !threads[w].notified
  }

  predicate NoneSleeping(threads: seq<Thread>) {
    forall w | 0 < w < |threads| :: !Sleeping(threads, w)
  }

  /** A wake-up is possible at any time, as spurious ones are. */
  function Apply(s: State, a: Action, nBatchSize: nat): State
    requires Enabled(s, a)
  {
    match a
    case Add(checks) =>
      s.(queue := s.queue + checks, nTodo := s.nTodo + |checks|, session := s.session + multiset(checks),
         threads := s.threads[0 := Notifying(|checks| != 1)])
    case Notify(w) =>
      var threads := if s.threads[0].all then NotifyWorkers(s.threads)
                     else if w < |s.threads| && Sleeping(s.threads, w) then s.threads[w := s.threads[w].Notified()]
                     else s.threads;
      s.(threads := threads[0 := if s.stop then Joining else Outside])
    case CallComplete => s.(threads := s.threads[0 := Entering([], None, false)])
    case RequestStop => s.(stop := true, threads := s.threads[0 := Notifying(true)])
    case Section(t) =>
      AtQueue(CleanUp(s, t), t, nBatchSize)
    case Wake(t) =>
      AtQueue(s.(nIdle := s.nIdle - 1, threads := s.threads[t := Locked(s.threads[t].local)]), t, nBatchSize)
    case Execute(t) =>
      var th := s.threads[t];
      s.(threads := s.threads[t := Entering(th.batch, if th.doWork then Run(th.batch, th.local) else th.local,
        th.doWork)])
  }

  /** s is what the actions lead to from s0. */
  ghost predicate Leads(s0: State, actions: seq<Action>, s: State, nBatchSize: nat)
    decreases |actions|
  {
    if actions == [] then s == s0
    else Enabled(s0, actions[0]) && Leads(Apply(s0, actions[0], nBatchSize), actions[1..], s, nBatchSize)
  }

  // ---------------------------------------------------------------------------------------------
  // Sums over the threads
  // ---------------------------------------------------------------------------------------------

  /** The checks in batches that are not cleaned up yet. */
  ghost function Held(threads: seq<Thread>): multiset<Check> {
    if threads == [] then multiset{} else multiset(threads[0].Batch()) + Held(threads[1..])
  }

  ghost function Sum(threads: seq<Thread>, w: Thread -> int): int {
    if threads == [] then 0 else w(threads[0]) + Sum(threads[1..], w)
  }

  lemma AddBoth(h: multiset<Check>, x: multiset<Check>, p: multiset<Check>, y: multiset<Check>, q: multiset<Check>)
    requires x + p == y + q
    ensures (h + x) + p == (h + y) + q
  {
    assert (h + x) + p == h + (x + p) && (h + y) + q == h + (y + q);
  }

  lemma HeldSplit(threads: seq<Thread>)
    requires threads != []
    ensures Held(threads) == multiset(threads[0].Batch()) + Held(threads[1..])
  {
  }

  lemma {:induction false} HeldUpdate(threads: seq<Thread>, t: nat, th: Thread)
    requires t < |threads|
    ensures Held(threads[t := th]) + multiset(threads[t].Batch()) == Held(threads) + multiset(th.Batch())
  {
    hide Held, Thread.Batch;
    var after := threads[t := th];
    HeldSplit(threads);
    HeldSplit(after);
    if t == 0 {
      assert after[1..] == threads[1..];
    } else {
      assert after[1..] == threads[1..][t-1 := th];
      HeldUpdate(threads[1..], t - 1, th);
      AddBoth(multiset(threads[0].Batch()), Held(after[1..]), multiset(threads[t].Batch()), Held(threads[1..]),
        multiset(th.Batch()));
    }
  }

  lemma {:induction false} SumUpdate(threads: seq<Thread>, w: Thread -> int, t: nat, th: Thread)
    requires t < |threads|
    ensures Sum(threads[t := th], w) == Sum(threads, w) + w(th) - w(threads[t])
  {
    if t == 0 {
      assert threads[t := th][1..] == threads[1..];
    } else {
      assert threads[t := th][1..] == threads[1..][t-1 := th];
      SumUpdate(threads[1..], w, t - 1, th);
    }
  }

  lemma {:induction false} HeldSame(a: seq<Thread>, b: seq<Thread>)
    requires |a| == |b| && forall i | 0 <= i < |a| :: a[i].Batch() == b[i].Batch()
    ensures Held(a) == Held(b)
  {
    if a != [] {
      HeldSame(a[1..], b[1..]);
    }
  }

  lemma {:induction false} SumSame(a: seq<Thread>, b: seq<Thread>, w: Thread -> int)
    requires |a| == |b| && forall i | 0 <= i < |a| :: w(a[i]) == w(b[i])
    ensures Sum(a, w) == Sum(b, w)
  {
    if a != [] {
      SumSame(a[1..], b[1..], w);
    }
  }

  lemma {:induction false} Holder(threads: seq<Thread>) returns (t: nat)
    requires |Held(threads)| > 0
    ensures t < |threads| && threads[t].Batch() != []
  {
    if threads[0].Batch() != [] {
      t := 0;
    } else {
      t := Holder(threads[1..]);
      t := t + 1;
    }
  }

  lemma {:induction false} HeldContains(threads: seq<Thread>, t: nat)
    requires t < |threads|
    ensures multiset(threads[t].Batch()) <= Held(threads)
  {
    if t > 0 {
      HeldContains(threads[1..], t - 1);
    }
  }

  // ---------------------------------------------------------------------------------------------
  // The invariant
  // ---------------------------------------------------------------------------------------------

  ghost predicate AllPassed(checks: multiset<Check>) {
    forall c | c in checks :: c.outcome.None?
  }

  ghost predicate SomeFailed(checks: multiset<Check>, r: Option<int>) {
    r.Some? && exists c :: c in checks && c.outcome == r
  }

  /** r is nothing exactly when all checks passed, and otherwise what one of them returned. */
  ghost predicate Sums(checks: multiset<Check>, r: Option<int>) {
    if r.None? then AllPassed(checks) else SomeFailed(checks, r)
  }

  /** nTodo is the number of checks queued or in unfinished batches, and no check is lost or duplicated. */
  ghost predicate Accounts(s: State) {
    && s.nTodo == |s.queue| + |Held(s.threads)|
    && s.session == multiset(s.queue) + Held(s.threads) + s.finished
    && s.nIdle == Sum(s.threads, IdleWeight) && s.nTotal == Sum(s.threads, TotalWeight)
  }

  ghost function IdleWeight(th: Thread): int { if th.Waiting? then 1 else 0 }

  ghost function TotalWeight(th: Thread): int { if th.Counted() then 1 else 0 }

  ghost predicate Results(s: State) {
    if s.result.None? then AllPassed(s.finished) else SomeFailed(s.session, s.result)
  }

  /** A local result is only meaningful if the batch was run; a batch is skipped only once there is a result. */
  ghost predicate Fine(th: Thread, result: Option<int>) {
    && (th.Busy? ==> th.batch != [] && (th.doWork || result.Some?))
    && (th.Entering? && th.batch != [] ==> if th.ran then Sums(multiset(th.batch), th.local) else result.Some?)
  }

  ghost predicate Roles(threads: seq<Thread>) {
    && |threads| > 0 && !threads[0].Gone?
    && forall t | 0 < t < |threads| :: threads[t].InLoop() || threads[t].Locked? || threads[t].Gone?
  }

  /** The master sleeps without a pending notification only while some batch is unfinished. */
  ghost predicate Wakeups(s: State)
    requires |s.threads| > 0
  {
    && (s.threads[0].Waiting? ==> s.queue == [])
    && (s.threads[0].Waiting? && !s.threads[0].notified ==> s.nTodo > 0)
    && (s.stop <==> s.threads[0].Joining? || (s.threads[0].Notifying? && s.stop))
    && (s.stop && s.threads[0].Notifying? ==> s.threads[0].all)
    && (s.threads[0].Joining? ==> NoneSleeping(s.threads))
  }

  ghost predicate History(returned: seq<(multiset<Check>, Option<int>)>) {
    forall i | 0 <= i < |returned| :: Sums(returned[i].0, returned[i].1)
  }

  ghost predicate Inv(s: State) {
    && Roles(s.threads) && Accounts(s) && Results(s) && Wakeups(s) && History(s.returned)
    && forall t | 0 <= t < |s.threads| :: Fine(s.threads[t], s.result)
  }

  lemma {:induction false} RunSums(batch: seq<Check>, local: Option<int>)
    requires batch != []
    ensures Sums(multiset(batch), Run(batch, local))
  {
    assert batch == [batch[0]] + batch[1..];
    if batch[0].outcome.None? && |batch| > 1 {
      RunSums(batch[1..], None);
    }
  }

  lemma InitialInv(workers: nat)
    ensures Inv(Initial(workers))
  {
    var threads := Initial(workers).threads;
    var none := seq(|threads|, i => Outside);
    Zeros(none);
    HeldSame(threads, none);
    SumSame(threads, none, IdleWeight);
    SumSame(threads, none, TotalWeight);
  }

  lemma {:induction false} Zeros(threads: seq<Thread>)
    requires forall t | 0 <= t < |threads| :: threads[t].Outside?
    ensures Held(threads) == multiset{} && Sum(threads, IdleWeight) == 0 && Sum(threads, TotalWeight) == 0
  {
    if threads != [] {
      Zeros(threads[1..]);
    }
  }

  // ---------------------------------------------------------------------------------------------
  // Every step keeps the invariant
  // ---------------------------------------------------------------------------------------------

  /** Replacing one thread changes the sums by that thread's share. */
  lemma Replace(threads: seq<Thread>, t: nat, th: Thread)
    requires t < |threads|
    ensures Held(threads[t := th]) + multiset(threads[t].Batch()) == Held(threads) + multiset(th.Batch())
    ensures Sum(threads[t := th], IdleWeight) == Sum(threads, IdleWeight) + IdleWeight(th) - IdleWeight(threads[t])
    ensures Sum(threads[t := th], TotalWeight) == Sum(threads, TotalWeight) + TotalWeight(th) - TotalWeight(threads[t])
  {
    HeldUpdate(threads, t, th);
    SumUpdate(threads, IdleWeight, t, th);
    SumUpdate(threads, TotalWeight, t, th);
  }

  /** A step of thread t balances the accounts if its own changes do. */
  lemma Balance(s: State, after: State, t: nat, th: Thread)
    requires Accounts(s) && t < |s.threads| && after.threads == s.threads[t := th]
    requires after.nTodo - |after.queue| - |th.Batch()| == s.nTodo - |s.queue| - |s.threads[t].Batch()|
    requires after.session + (multiset(s.queue) + multiset(s.threads[t].Batch()) + s.finished)
          == s.session + (multiset(after.queue) + multiset(th.Batch()) + after.finished)
    requires after.nIdle - IdleWeight(th) == s.nIdle - IdleWeight(s.threads[t])
    requires after.nTotal - TotalWeight(th) == s.nTotal - TotalWeight(s.threads[t])
    ensures Accounts(after)
  {
    hide Held, Sum, Thread.Batch, IdleWeight, TotalWeight;
    Replace(s.threads, t, th);
    var taken, put := multiset(s.threads[t].Batch()), multiset(th.Batch());
    assert |Held(after.threads)| + |taken| == |Held(after.threads) + taken|;
    assert |Held(s.threads) + put| == |Held(s.threads)| + |put|;
    forall c ensures after.session[c] == (multiset(after.queue) + Held(after.threads) + after.finished)[c] {
      assert (Held(after.threads) + taken)[c] == (Held(s.threads) + put)[c];
      assert (after.session + (multiset(s.queue) + taken + s.finished))[c]
          == (s.session + (multiset(after.queue) + put + after.finished))[c];
    }
  }

  lemma CleanUpAccounts(s: State, t: nat)
    requires Inv(s) && t < |s.threads| && s.threads[t].Entering?
    ensures Accounts(CleanUp(s, t))
  {
    hide Inv, Accounts;
    InvParts(s);
    var th := s.threads[t];
    var after := CleanUp(s, t);
    var local := if th.batch != [] && th.local.Some? && s.result.None? then None else th.local;
    var between := after.(threads := s.threads[t := Locked(local)]);
    Balance(s, between, t, Locked(local));
    if th.batch != [] && after.nTodo == 0 && t != 0 {
      Balance(between, after, 0, between.threads[0].Notified());
    } else {
      assert after == between;
    }
  }

  lemma InvParts(s: State)
    requires Inv(s)
    ensures Roles(s.threads) && |s.threads| > 0 && Accounts(s) && Results(s) && Wakeups(s) && History(s.returned)
    ensures forall t | 0 <= t < |s.threads| :: Fine(s.threads[t], s.result)
  {
  }

  lemma CleanUpResults(s: State, t: nat)
    requires Inv(s) && t < |s.threads| && s.threads[t].Entering?
    ensures Results(CleanUp(s, t))
  {
    hide Inv, Held, Sum;
    InvParts(s);
    HeldContains(s.threads, t);
    var batch := multiset(s.threads[t].batch);
    assert batch <= s.session;
    assert s.threads[t].batch != [] ==> Fine(s.threads[t], s.result);
  }

  lemma CleanUpShape(s: State, t: nat)
    requires t < |s.threads| && s.threads[t].Entering?
    ensures var after := CleanUp(s, t);
      && after == s.(threads := after.threads, nTodo := after.nTodo, nTotal := after.nTotal, result := after.result,
        finished := after.finished)
      && |after.threads| == |s.threads| && after.threads[t].Locked? && (s.result.Some? ==> after.result == s.result)
      && forall u | 0 <= u < |s.threads| && u != t ::
        after.threads[u] == s.threads[u] || after.threads[u] == s.threads[u].Notified()
  {
  }

  /** nTodo covers the batch that is about to be subtracted from it: it never underflows. */
  lemma NeverNegative(s: State, t: nat)
    requires Accounts(s) && t < |s.threads|
    ensures |s.threads[t].Batch()| <= s.nTodo
  {
    HeldContains(s.threads, t);
    var batch := multiset(s.threads[t].Batch());
    assert Held(s.threads) == batch + (Held(s.threads) - batch);
  }

  lemma CleanUpWakeups(s: State, t: nat)
    requires Roles(s.threads) && Wakeups(s) && Accounts(s) && t < |s.threads| && s.threads[t].Entering?
    ensures Wakeups(CleanUp(s, t))
  {
    CleanUpShape(s, t);
    assert |s.threads[t].batch| <= s.nTodo by {
      NeverNegative(s, t);
    }
    hide Held, Sum, Accounts;
    var after := CleanUp(s, t);
    if after.threads[0].Joining? {
      forall w | 0 < w < |s.threads| ensures !Sleeping(after.threads, w) {
        assert !Sleeping(s.threads, w);
      }
    }
    assert after.threads[0].Waiting? && !after.threads[0].notified ==> after.nTodo > 0;
    assert after.threads[0].Waiting? ==> after.queue == [];
  }

  lemma CleanUpInv(s: State, t: nat)
    requires Inv(s) && t < |s.threads| && s.threads[t].Entering?
    ensures Inv(CleanUp(s, t)) && |CleanUp(s, t).threads| == |s.threads| && CleanUp(s, t).threads[t].Locked?
  {
    hide Inv, Held, Sum, Accounts, Results, Sums, CleanUp, Wakeups, History;
    CleanUpAccounts(s, t);
    CleanUpResults(s, t);
    InvParts(s);
    CleanUpWakeups(s, t);
    CleanUpShape(s, t);
    var after := CleanUp(s, t);
    forall u | 0 <= u < |after.threads| ensures Fine(after.threads[u], after.result) {
      assert Fine(s.threads[u], s.result);
    }
    Assemble(after);
  }

  lemma Assemble(s: State)
    requires Roles(s.threads) && Accounts(s) && Results(s) && Wakeups(s) && History(s.returned)
    requires forall t | 0 <= t < |s.threads| :: Fine(s.threads[t], s.result)
    ensures Inv(s)
  {
  }

  /** Only thread t changed, and what the others rely on still holds. */
  lemma OneThread(s: State, after: State, t: nat, th: Thread)
    requires Inv(s) && t < |s.threads| && after.threads == s.threads[t := th]
    requires Accounts(after) && Results(after) && Wakeups(after) && History(after.returned)
    requires Fine(th, after.result) && (s.result.Some? ==> after.result.Some?)
    requires if t == 0 then !th.Gone? else th.InLoop() || th.Locked? || th.Gone?
    ensures Inv(after)
  {
    hide Inv, Accounts, Results, Sums, Wakeups, History;
    InvParts(s);
    forall u | 0 <= u < |after.threads| ensures Fine(after.threads[u], after.result) {
      assert Fine(s.threads[u], s.result);
    }
    Assemble(after);
  }

  lemma StillAwake(s: State, after: State, t: nat, th: Thread)
    requires |s.threads| > 0 && Wakeups(s) && t < |s.threads| && after.threads == s.threads[t := th]
      && after.stop == s.stop
    requires t > 0 && !(th.Waiting? && !th.notified && s.stop)
    requires s.threads[0].Waiting? ==> after.queue == s.queue && after.nTodo == s.nTodo
    ensures Wakeups(after)
  {
    if s.threads[0].Joining? {
      forall w | 0 < w < |s.threads| ensures !Sleeping(after.threads, w) {
        assert !Sleeping(s.threads, w);
      }
    }
  }

  lemma StopInv(s: State, t: nat, nBatchSize: nat)
    requires Inv(s) && t < |s.threads| && s.threads[t].Locked? && s.stop
    ensures Inv(AtQueue(s, t, nBatchSize))
  {
    hide Inv, Accounts, Sums;
    InvParts(s);
    var after := AtQueue(s, t, nBatchSize);
    Balance(s, after, t, Gone);
    StillAwake(s, after, t, Gone);
    OneThread(s, after, t, Gone);
  }

  lemma WaitInv(s: State, t: nat, nBatchSize: nat)
    requires Inv(s) && t < |s.threads| && s.threads[t].Locked? && !s.stop && s.queue == [] && !(t == 0 && s.nTodo == 0)
    ensures Inv(AtQueue(s, t, nBatchSize))
  {
    hide Inv, Accounts, Sums;
    InvParts(s);
    NeverNegative(s, t);
    var after := AtQueue(s, t, nBatchSize);
    var th := Waiting(s.threads[t].local, false);
    Balance(s, after, t, th);
    if t > 0 {
      StillAwake(s, after, t, th);
    }
    OneThread(s, after, t, th);
  }

  lemma TakeInv(s: State, t: nat, nBatchSize: nat)
    requires Inv(s) && t < |s.threads| && s.threads[t].Locked? && !s.stop && s.queue != []
    ensures Inv(AtQueue(s, t, nBatchSize))
  {
    hide Inv, Accounts, Sums, BatchSize;
    InvParts(s);
    var after := AtQueue(s, t, nBatchSize);
    var th := after.threads[t];
    assert s.queue == after.queue + th.batch;
    assert multiset(s.queue) == multiset(after.queue) + multiset(th.batch);
    Balance(s, after, t, th);
    if t > 0 {
      StillAwake(s, after, t, th);
    }
    OneThread(s, after, t, th);
  }

  /** When the master returns, every check of the session is finished. */
  lemma SessionDone(s: State)
    requires Inv(s) && s.queue == [] && s.nTodo == 0
    ensures s.session == s.finished && Held(s.threads) == multiset{} && Sums(s.session, s.result)
  {
    hide Inv, Held, Sum;
    InvParts(s);
    assert |Held(s.threads)| == 0;
  }

  lemma ReturnInv(s: State, nBatchSize: nat)
    requires Inv(s) && |s.threads| > 0 && s.threads[0].Locked? && !s.stop && s.queue == [] && s.nTodo == 0
    ensures Inv(AtQueue(s, 0, nBatchSize))
  {
    hide Inv, Sums, Held, Sum;
    InvParts(s);
    SessionDone(s);
    var after := AtQueue(s, 0, nBatchSize);
    Replace(s.threads, 0, Outside);
    assert Held(after.threads) == multiset{};
    assert Roles(after.threads) && Accounts(after) && Results(after) && Wakeups(after) && History(after.returned);
    forall u | 0 <= u < |after.threads| ensures Fine(after.threads[u], after.result) {
      assert Fine(s.threads[u], s.result);
      NothingHeld(after.threads, u);
    }
    Assemble(after);
  }

  lemma NothingHeld(threads: seq<Thread>, t: nat)
    requires t < |threads| && Held(threads) == multiset{}
    ensures threads[t].Batch() == []
  {
    HeldContains(threads, t);
    assert multiset(threads[t].Batch()) == multiset{};
    assert |threads[t].Batch()| == |multiset(threads[t].Batch())|;
  }

  lemma AtQueueInv(s: State, t: nat, nBatchSize: nat)
    requires Inv(s) && t < |s.threads| && s.threads[t].Locked?
    ensures Inv(AtQueue(s, t, nBatchSize))
  {
    hide Inv, AtQueue;
    if s.stop {
      StopInv(s, t, nBatchSize);
    } else if s.queue != [] {
      TakeInv(s, t, nBatchSize);
    } else if t == 0 && s.nTodo == 0 {
      ReturnInv(s, nBatchSize);
    } else {
      WaitInv(s, t, nBatchSize);
    }
  }

  lemma AddInv(s: State, checks: seq<Check>, nBatchSize: nat)
    requires Inv(s) && Enabled(s, Add(checks))
    ensures Inv(Apply(s, Add(checks), nBatchSize))
  {
    hide Inv, Accounts, Sums;
    InvParts(s);
    var after := Apply(s, Add(checks), nBatchSize);
    assert multiset(after.queue) == multiset(s.queue) + multiset(checks);
    Balance(s, after, 0, after.threads[0]);
    OneThread(s, after, 0, after.threads[0]);
  }

  lemma NotifyInv(s: State, w: nat, nBatchSize: nat)
    requires Inv(s) && Enabled(s, Notify(w))
    ensures Inv(Apply(s, Notify(w), nBatchSize))
  {
    hide Inv, Accounts, Sums, History, Results, Held, Sum;
    InvParts(s);
    var after := Apply(s, Notify(w), nBatchSize);
    forall t | 0 < t < |s.threads|
      ensures after.threads[t] == s.threads[t] || after.threads[t] == s.threads[t].Notified() {
    }
    HeldSame(s.threads, after.threads);
    SumSame(s.threads, after.threads, IdleWeight);
    SumSame(s.threads, after.threads, TotalWeight);
    assert Accounts(after) && Results(after) by { SameAccounts(s, after); }
    forall t | 0 <= t < |after.threads| ensures Fine(after.threads[t], after.result) {
      assert Fine(s.threads[t], s.result);
    }
    Assemble(after);
  }

  lemma SameAccounts(s: State, after: State)
    requires Accounts(s) && Results(s) && after == s.(threads := after.threads)
      && Held(after.threads) == Held(s.threads)
    requires Sum(after.threads, IdleWeight) == Sum(s.threads, IdleWeight)
      && Sum(after.threads, TotalWeight) == Sum(s.threads, TotalWeight)
    ensures Accounts(after) && Results(after)
  {
  }

  lemma MasterInv(s: State, a: Action, nBatchSize: nat)
    requires Inv(s) && (a.CallComplete? || a.RequestStop?) && Enabled(s, a)
    ensures Inv(Apply(s, a, nBatchSize))
  {
    hide Inv, Accounts, Sums;
    InvParts(s);
    var after := Apply(s, a, nBatchSize);
    Balance(s, after, 0, after.threads[0]);
    OneThread(s, after, 0, after.threads[0]);
  }

  lemma WakeInv(s: State, t: nat, nBatchSize: nat)
    requires Inv(s) && Enabled(s, Wake(t))
    ensures Inv(Apply(s, Wake(t), nBatchSize))
  {
    hide Inv, Accounts, Sums, AtQueue;
    InvParts(s);
    var th := Locked(s.threads[t].local);
    var locked := s.(nIdle := s.nIdle - 1, threads := s.threads[t := th]);
    Balance(s, locked, t, th);
    if t > 0 {
      StillAwake(s, locked, t, th);
    }
    OneThread(s, locked, t, th);
    AtQueueInv(locked, t, nBatchSize);
  }

  lemma ExecuteInv(s: State, t: nat, nBatchSize: nat)
    requires Inv(s) && Enabled(s, Execute(t))
    ensures Inv(Apply(s, Execute(t), nBatchSize))
  {
    hide Inv, Accounts, Sums, Run;
    InvParts(s);
    var after := Apply(s, Execute(t), nBatchSize);
    var th := after.threads[t];
    assert Fine(s.threads[t], s.result);
    RunSums(th.batch, s.threads[t].local);
    Balance(s, after, t, th);
    if t > 0 {
      StillAwake(s, after, t, th);
    }
    OneThread(s, after, t, th);
  }

  lemma StepInv(s: State, a: Action, nBatchSize: nat)
    requires Inv(s) && Enabled(s, a)
    ensures Inv(Apply(s, a, nBatchSize))
  {
    hide Inv, AtQueue, CleanUp;
    match a
    case Add(checks) => AddInv(s, checks, nBatchSize);
    case Notify(w) => NotifyInv(s, w, nBatchSize);
    case CallComplete => MasterInv(s, a, nBatchSize);
    case RequestStop => MasterInv(s, a, nBatchSize);
    case Section(t) =>
      CleanUpInv(s, t);
      AtQueueInv(CleanUp(s, t), t, nBatchSize);
    case Wake(t) => WakeInv(s, t, nBatchSize);
    case Execute(t) => ExecuteInv(s, t, nBatchSize);
  }

  ghost predicate NoneLocked(threads: seq<Thread>) {
    forall t | 0 <= t < |threads| :: !threads[t].Locked?
  }

  /** Between steps no thread holds the lock. */
  lemma StepUnlocks(s: State, a: Action, nBatchSize: nat)
    requires NoneLocked(s.threads) && Enabled(s, a)
    ensures NoneLocked(Apply(s, a, nBatchSize).threads)
  {
    hide BatchSize, Run;
    if a.Section? {
      CleanUpShape(s, a.thread);
    }
  }

  lemma {:induction false} RunInv(s0: State, actions: seq<Action>, s: State, nBatchSize: nat)
    requires Inv(s0) && NoneLocked(s0.threads) && Leads(s0, actions, s, nBatchSize)
    ensures Inv(s) && NoneLocked(s.threads)
    decreases |actions|
  {
    hide Inv, Apply, NoneLocked;
    if actions != [] {
      StepInv(s0, actions[0], nBatchSize);
      StepUnlocks(s0, actions[0], nBatchSize);
      RunInv(Apply(s0, actions[0], nBatchSize), actions[1..], s, nBatchSize);
    }
  }

  /** The states of the system: what any actions lead to, with any number of workers and batch size. */
  ghost predicate Reachable(s: State) {
    exists workers, actions, nBatchSize: nat :: Leads(Initial(workers), actions, s, nBatchSize)
  }

  lemma ReachableInv(s: State)
    requires Reachable(s)
    ensures Inv(s) && NoneLocked(s.threads)
  {
    hide Inv;
    var workers, actions, nBatchSize: nat :| Leads(Initial(workers), actions, s, nBatchSize);
    InitialInv(workers);
    RunInv(Initial(workers), actions, s, nBatchSize);
  }

  // ---------------------------------------------------------------------------------------------
  // Safety over whole runs
  // ---------------------------------------------------------------------------------------------

  /** Every Complete of every run returns nothing exactly when all checks of its session passed,
      and otherwise what one of that session's checks returned. */
  lemma CompleteSound(s: State, i: nat)
    requires Reachable(s) && i < |s.returned|
    ensures var (session, r) := s.returned[i];
      && (r.None? <==> forall c | c in session :: c.outcome.None?)
      && (r.Some? ==> exists c :: c in session && c.outcome == r)
  {
    ReachableInv(s);
    assert Sums(s.returned[i].0, s.returned[i].1);
  }

  lemma {:induction false} SumCounts(threads: seq<Thread>, w: Thread -> int)
    requires forall th :: w(th) >= 0
    ensures Sum(threads, w) >= 0
  {
    if threads != [] {
      SumCounts(threads[1..], w);
    }
  }

  /** A batch is the greatest that all threads in the loop, those of them that wait once more, and one more thread
      could take from the queue, within the limit; but it is not empty. */
  lemma BatchSizeIs(s: State, nBatchSize: nat)
    requires Inv(s) && s.queue != []
    ensures var n := BatchSize(s, nBatchSize);
      var sharing := Sum(s.threads, TotalWeight) + Sum(s.threads, IdleWeight) + 1;
      && (n > 1 ==> n * sharing <= |s.queue|) && (n < nBatchSize ==> (n + 1) * sharing > |s.queue|)
  {
    hide Inv, Share;
    InvParts(s);
    SumCounts(s.threads, TotalWeight);
    SumCounts(s.threads, IdleWeight);
    ShareIs(|s.queue|, s.nTotal + s.nIdle + 1, nBatchSize);
  }

  // ---- The master alone

  /** What Complete returns without workers: the first failure of the first batch, from the end of the queue, that has
      one. */
  ghost function Alone(queue: seq<Check>, nBatchSize: nat): Option<int> {
    if queue == [] then None
    else
      var rest := |queue| - Share(|queue|, 2, nBatchSize);
      var r := Run(queue[rest..], None);
      if r.Some? then r else Alone(queue[..rest], nBatchSize)
  }

  /** What the Complete that is under way is going to return. */
  ghost function Expected(s: State, nBatchSize: nat): Option<int>
    requires |s.threads| > 0
  {
    var th := s.threads[0];
    if s.result.Some? then s.result
    else if th.Busy? && Run(th.batch, th.local).Some? then Run(th.batch, th.local)
    else if th.Entering? && th.batch != [] && th.local.Some? then th.local
    else Alone(s.queue, nBatchSize)
  }

  /** The Complete under way in s is still under way, and will return r. */
  ghost predicate GoesOn(s: State, after: State, r: Option<int>, nBatchSize: nat) {
    && |after.threads| == 1 && after.threads[0].InLoop() && after.returned == s.returned
    && after.session == s.session && Expected(after, nBatchSize) == r
  }

  lemma AloneCounts(s: State)
    requires Inv(s) && |s.threads| == 1
    ensures s.nTotal == TotalWeight(s.threads[0]) && s.nIdle == IdleWeight(s.threads[0])
    ensures s.nTodo == |s.queue| + |s.threads[0].Batch()|
  {
    hide Inv;
    InvParts(s);
    Only(s.threads, IdleWeight);
    Only(s.threads, TotalWeight);
  }

  lemma Only(threads: seq<Thread>, w: Thread -> int)
    requires |threads| == 1
    ensures Sum(threads, w) == w(threads[0]) && Held(threads) == multiset(threads[0].Batch())
  {
    assert Sum(threads[1..], w) == 0;
    assert Held(threads[1..]) == multiset{};
  }

  lemma RunAny(batch: seq<Check>, local: Option<int>)
    requires batch != []
    ensures Run(batch, local) == Run(batch, None)
  {
  }

  /** Once it has the lock, a master without workers returns what is expected, or goes on towards it. */
  lemma AloneAtQueue(s: State, nBatchSize: nat)
    requires |s.threads| == 1 && s.threads[0].Locked? && !s.stop && s.nTotal == 1 && s.nIdle == 0
    requires s.nTodo == |s.queue|
    ensures var after, r := AtQueue(s, 0, nBatchSize), if s.result.Some? then s.result else Alone(s.queue, nBatchSize);
      if s.queue == [] then after.returned == s.returned + [(s.session, r)] else GoesOn(s, after, r, nBatchSize)
  {
    hide Share, Run;
    if s.queue != [] {
      var rest := |s.queue| - Share(|s.queue|, 2, nBatchSize);
      RunAny(s.queue[rest..], s.threads[0].local);
    }
  }

  lemma AloneSection(s: State, nBatchSize: nat)
    requires Inv(s) && |s.threads| == 1 && s.threads[0].Entering?
    ensures var after := AtQueue(CleanUp(s, 0), 0, nBatchSize);
      || after.returned == s.returned + [(s.session, Expected(s, nBatchSize))]
      || GoesOn(s, after, Expected(s, nBatchSize), nBatchSize)
  {
    hide Inv, Share, Run, Alone, AtQueue, Accounts, Results, History;
    InvParts(s);
    AloneCounts(s);
    AloneAtQueue(CleanUp(s, 0), nBatchSize);
  }

  lemma AloneStep(s: State, a: Action, nBatchSize: nat)
    requires Inv(s) && |s.threads| == 1 && s.threads[0].InLoop() && ThreadAction(a) && Enabled(s, a)
    ensures var after := Apply(s, a, nBatchSize);
      || after.returned == s.returned + [(s.session, Expected(s, nBatchSize))]
      || GoesOn(s, after, Expected(s, nBatchSize), nBatchSize)
  {
    hide Inv, Share, Run, Alone, AtQueue, CleanUp, Accounts, Results, History;
    InvParts(s);
    AloneCounts(s);
    match a
    case Section(_) =>
      AloneSection(s, nBatchSize);
    case Wake(_) =>
      var locked := s.(nIdle := s.nIdle - 1, threads := s.threads[0 := Locked(s.threads[0].local)]);
      AloneAtQueue(locked, nBatchSize);
    case Execute(_) =>
      assert Fine(s.threads[0], s.result);
  }

  lemma {:induction false} AloneRun(s0: State, actions: seq<Action>, s: State, nBatchSize: nat)
    requires Inv(s0) && |s0.threads| == 1 && s0.threads[0].InLoop()
    requires Leads(s0, actions, s, nBatchSize) && forall a | a in actions :: ThreadAction(a)
    requires |s.returned| > |s0.returned|
    ensures s0.returned <= s.returned
    ensures s.returned[|s0.returned|] == (s0.session, Expected(s0, nBatchSize))
    decreases |actions|
  {
    hide Inv, Share, Run, Alone, Apply, Expected;
    var a, s1 := actions[0], Apply(s0, actions[0], nBatchSize);
    assert a in actions;
    AloneStep(s0, a, nBatchSize);
    StepInv(s0, a, nBatchSize);
    forall b | b in actions[1..] ensures ThreadAction(b) { assert b in actions; }
    if s1.returned == s0.returned {
      AloneRun(s1, actions[1..], s, nBatchSize);
    } else {
      ReturnedGrows(s1, actions[1..], s, nBatchSize);
    }
  }

  /** The queue has no workers, and a result only while Complete is under way. */
  ghost predicate Quiet(s: State) {
    |s.threads| == 1 && (s.threads[0].InLoop() || s.result.None?)
  }

  lemma QuietStep(s: State, a: Action, nBatchSize: nat)
    requires Inv(s) && NoneLocked(s.threads) && Quiet(s) && Enabled(s, a)
    ensures Quiet(Apply(s, a, nBatchSize))
  {
    hide Inv, Run, BatchSize, Accounts, Results, History, AtQueue;
    InvParts(s);
    match a
    case Section(_) =>
      QuietAtQueue(CleanUp(s, 0), nBatchSize);
    case Wake(_) =>
      QuietAtQueue(s.(nIdle := s.nIdle - 1, threads := s.threads[0 := Locked(s.threads[0].local)]), nBatchSize);
    case _ =>
  }

  lemma QuietAtQueue(s: State, nBatchSize: nat)
    requires |s.threads| == 1 && s.threads[0].Locked? && !s.stop
    ensures Quiet(AtQueue(s, 0, nBatchSize))
  {
    hide BatchSize;
  }

  lemma {:induction false} QuietRun(s0: State, actions: seq<Action>, s: State, nBatchSize: nat)
    requires Inv(s0) && NoneLocked(s0.threads) && Quiet(s0) && Leads(s0, actions, s, nBatchSize)
    ensures Inv(s) && Quiet(s)
    decreases |actions|
  {
    hide Inv, Apply, NoneLocked, Quiet;
    if actions != [] {
      StepInv(s0, actions[0], nBatchSize);
      StepUnlocks(s0, actions[0], nBatchSize);
      QuietStep(s0, actions[0], nBatchSize);
      QuietRun(Apply(s0, actions[0], nBatchSize), actions[1..], s, nBatchSize);
    }
  }

  /** Without workers, what a Complete returns is determined by the queue: whatever went before, its batches are
      taken from the end, and the first failure of the first batch that has one is returned. */
  lemma AloneComplete(before: seq<Action>, s0: State, actions: seq<Action>, s: State, nBatchSize: nat)
    requires Leads(Initial(0), before, s0, nBatchSize) && Enabled(s0, CallComplete)
    requires Leads(Apply(s0, CallComplete, nBatchSize), actions, s, nBatchSize)
    requires forall a | a in actions :: ThreadAction(a)
    requires |s.returned| > |s0.returned|
    ensures s0.returned <= s.returned && s.returned[|s0.returned|] == (s0.session, Alone(s0.queue, nBatchSize))
  {
    hide Inv, Alone, Leads;
    InitialInv(0);
    QuietRun(Initial(0), before, s0, nBatchSize);
    StepInv(s0, CallComplete, nBatchSize);
    AloneRun(Apply(s0, CallComplete, nBatchSize), actions, s, nBatchSize);
  }

  /** Of four failing checks it is the third that is reported: half of the queue is the first batch. */
  lemma AloneFour(a: Check, b: Check, c: Check, d: Check, nBatchSize: nat)
    requires nBatchSize >= 2 && c.outcome.Some?
    ensures Alone([a, b, c, d], nBatchSize) == c.outcome
  {
    assert [a, b, c, d][2..] == [c, d];
    assert Share(4, 2, nBatchSize) == 2;
  }

  lemma ReturnedStep(s: State, a: Action, nBatchSize: nat)
    requires Enabled(s, a)
    ensures s.returned <= Apply(s, a, nBatchSize).returned
  {
    hide Run, BatchSize, NotifyMaster, NotifyWorkers;
  }

  lemma {:induction false} ReturnedGrows(s0: State, actions: seq<Action>, s: State, nBatchSize: nat)
    requires Leads(s0, actions, s, nBatchSize)
    ensures s0.returned <= s.returned
    decreases |actions|
  {
    hide Apply;
    if actions != [] {
      ReturnedStep(s0, actions[0], nBatchSize);
      ReturnedGrows(Apply(s0, actions[0], nBatchSize), actions[1..], s, nBatchSize);
    }
  }

  /** The checks handed to Add during the run. */
  ghost function Added(actions: seq<Action>): multiset<Check> {
    if actions == [] then multiset{}
    else (if actions[0].Add? then multiset(actions[0].checks) else multiset{}) + Added(actions[1..])
  }

  ghost function Answered(returned: seq<(multiset<Check>, Option<int>)>): multiset<Check> {
    if returned == [] then multiset{} else Answered(returned[..|returned|-1]) + returned[|returned|-1].0
  }

  /** The sessions answered and the current one divide the checks added among them. */
  lemma {:induction false} SessionsPartition(s0: State, actions: seq<Action>, s: State, nBatchSize: nat)
    requires Leads(s0, actions, s, nBatchSize)
    ensures Answered(s.returned) + s.session == Answered(s0.returned) + s0.session + Added(actions)
    decreases |actions|
  {
    if actions != [] {
      var s1 := Apply(s0, actions[0], nBatchSize);
      SessionsPartition(s1, actions[1..], s, nBatchSize);
      SessionStep(s0, actions[0], nBatchSize);
    }
  }

  lemma SessionStep(s: State, a: Action, nBatchSize: nat)
    requires Enabled(s, a)
    ensures var after := Apply(s, a, nBatchSize);
      Answered(after.returned) + after.session == Answered(s.returned) + s.session + (if a.Add? then multiset(a.checks)
        else multiset{})
  {
    hide Apply, Answered, Enabled;
    var after := Apply(s, a, nBatchSize);
    SessionChange(s, a, nBatchSize);
    if after.returned != s.returned {
      var r :| after.returned == s.returned + [(s.session, r)];
      AnsweredAppend(s.returned, s.session, r);
    }
  }

  lemma AnsweredAppend(returned: seq<(multiset<Check>, Option<int>)>, session: multiset<Check>, r: Option<int>)
    ensures Answered(returned + [(session, r)]) == Answered(returned) + session
  {
    var more := returned + [(session, r)];
    assert more[..|more|-1] == returned;
  }

  lemma SessionChange(s: State, a: Action, nBatchSize: nat)
    requires Enabled(s, a)
    ensures var after := Apply(s, a, nBatchSize);
      || (after.returned == s.returned
        && after.session == s.session + if a.Add? then multiset(a.checks) else multiset{})
      || (!a.Add? && after.session == multiset{} && exists r :: after.returned == s.returned + [(s.session, r)])
  {
    hide BatchSize, Run;
    if a.Section? {
      CleanUpShape(s, a.thread);
    }
  }

  /** In every reachable state nTodo counts the queued checks and those in unfinished batches, nIdle the sleeping
      threads; the next subtraction never underflows. */
  lemma TodoExact(s: State)
    requires Reachable(s)
    ensures s.nTodo == |s.queue| + |Held(s.threads)| && s.nIdle == Sum(s.threads, IdleWeight)
      && s.nTotal == Sum(s.threads, TotalWeight)
    ensures s.session == multiset(s.queue) + Held(s.threads) + s.finished
    ensures forall t | 0 <= t < |s.threads| && s.threads[t].Entering? :: |s.threads[t].batch| <= s.nTodo
  {
    ReachableInv(s);
    forall t | 0 <= t < |s.threads| && s.threads[t].Entering? ensures |s.threads[t].batch| <= s.nTodo {
      NeverNegative(s, t);
    }
  }

  /** What a critical section makes the session's result is what a check of this session returned, in the batch the
      thread has just run: a local result left over from an earlier session is never published. */
  lemma PublishedIsCurrent(s: State, t: nat)
    requires Reachable(s) && Enabled(s, Section(t))
    requires s.result.None? && CleanUp(s, t).result.Some?
    ensures s.threads[t].ran
      && exists c :: c in s.threads[t].batch && c in s.session && c.outcome == CleanUp(s, t).result
  {
    ReachableInv(s);
    hide Held, Sum;
    var batch := multiset(s.threads[t].batch);
    HeldContains(s.threads, t);
    assert batch <= s.session;
    assert Fine(s.threads[t], s.result);
    var c :| c in batch && c.outcome == s.threads[t].local;
    assert c in s.threads[t].batch;
  }

  // ---------------------------------------------------------------------------------------------
  // Complete returns
  // ---------------------------------------------------------------------------------------------

  /** A master asleep with no notification pending: some worker holds an unfinished batch and can go on with it. */
  lemma MasterNotStranded(s: State) returns (t: nat)
    requires Reachable(s)
    requires |s.threads| > 0 && s.threads[0].Waiting? && !s.threads[0].notified
    ensures 0 < t < |s.threads| && s.threads[t].Batch() != [] && (Enabled(s, Execute(t)) || Enabled(s, Section(t)))
  {
    ReachableInv(s);
    t := Holder(s.threads);
  }

  predicate ThreadAction(a: Action) {
    a.Section? || a.Wake? || a.Execute?
  }

  /** Enabled, and not a spurious wake-up. */
  predicate Due(s: State, a: Action) {
    ThreadAction(a) && Enabled(s, a) && (a.Wake? ==> s.threads[a.thread].notified)
  }

  /** While Complete is running, some thread has something to do. */
  lemma SomethingDue(s: State) returns (a: Action)
    requires Inv(s) && s.threads[0].InLoop()
    ensures Due(s, a)
  {
    var t := 0;
    if s.threads[0].Waiting? && !s.threads[0].notified {
      t := Holder(s.threads);
    }
    a := if s.threads[t].Entering? then Section(t) else if s.threads[t].Busy? then Execute(t) else Wake(t);
  }

  ghost function Weight(th: Thread): int {
    match th
    case Entering(_, _, _) => 3
    case Busy(_, _, _) => 4
    case Waiting(_, notified) => if notified then 2 else 1
    case Locked(_) => 1
    case _ => 0
  }

  ghost function Measure(s: State): int {
    4 * |s.queue| + Sum(s.threads, Weight)
  }

  lemma {:induction false} SumNonnegative(threads: seq<Thread>)
    ensures Sum(threads, Weight) >= 0
  {
    if threads != [] {
      SumNonnegative(threads[1..]);
    }
  }

  lemma AtQueueMeasure(s: State, t: nat, nBatchSize: nat)
    requires t < |s.threads| && s.threads[t].Locked?
    ensures var after := AtQueue(s, t, nBatchSize);
      || |after.returned| == |s.returned| + 1
      || Measure(after) < Measure(s)
      || after == s.(nIdle := s.nIdle + 1, threads := s.threads[t := Waiting(s.threads[t].local, false)])
    ensures var after := AtQueue(s, t, nBatchSize); |after.returned| == |s.returned| + 1 || Measure(after) <= Measure(s)
  {
    var after := AtQueue(s, t, nBatchSize);
    SumUpdate(s.threads, Weight, t, after.threads[t]);
  }

  lemma CleanUpMeasure(s: State, t: nat)
    requires t < |s.threads| && s.threads[t].Entering?
    ensures Measure(CleanUp(s, t)) < Measure(s) && CleanUp(s, t).returned == s.returned
  {
    var local := CleanUp(s, t).threads[t].local;
    var threads := s.threads[t := Locked(local)];
    SumUpdate(s.threads, Weight, t, Locked(local));
    SumUpdate(threads, Weight, 0, threads[0].Notified());
  }

  /** A step of a thread ends the session, brings its end closer, or was a spurious wake-up that changed nothing. */
  lemma StepMeasure(s: State, a: Action, nBatchSize: nat)
    requires ThreadAction(a) && Enabled(s, a)
    ensures var after := Apply(s, a, nBatchSize);
      || |after.returned| == |s.returned| + 1
      || Measure(after) < Measure(s)
      || (after == s && !Due(s, a))
    ensures |Apply(s, a, nBatchSize).returned| >= |s.returned|
  {
    hide Sum, BatchSize;
    var t := a.thread;
    match a
    case Section(_) =>
      CleanUpMeasure(s, t);
      AtQueueMeasure(CleanUp(s, t), t, nBatchSize);
    case Wake(_) =>
      var locked := s.(nIdle := s.nIdle - 1, threads := s.threads[t := Locked(s.threads[t].local)]);
      SumUpdate(s.threads, Weight, t, Locked(s.threads[t].local));
      AtQueueMeasure(locked, t, nBatchSize);
      assert locked.threads[t := Waiting(locked.threads[t].local, false)] == s.threads[t := Waiting(s.threads[t].local,
        false)];
    case Execute(_) =>
      SumUpdate(s.threads, Weight, t, Apply(s, a, nBatchSize).threads[t]);
  }

  /** The actions are steps of threads, none of them a spurious wake-up. */
  ghost predicate AllDue(s0: State, actions: seq<Action>, nBatchSize: nat)
    decreases |actions|
  {
    actions != [] ==> Due(s0, actions[0]) && AllDue(Apply(s0, actions[0], nBatchSize), actions[1..], nBatchSize)
  }

  /** Complete leaves the loop only by returning. */
  lemma StillInLoop(s: State, a: Action, nBatchSize: nat)
    requires Inv(s) && s.threads[0].InLoop() && ThreadAction(a) && Enabled(s, a)
    ensures var after := Apply(s, a, nBatchSize);
      after.threads != [] && (after.threads[0].InLoop() || |after.returned| > |s.returned|)
  {
    hide BatchSize, Run, Accounts, Results, Fine, History, AtQueue, CleanUp;
    var t := a.thread;
    match a
    case Section(_) =>
      CleanUpShape(s, t);
      AtQueueShape(CleanUp(s, t), t, nBatchSize);
    case Wake(_) =>
      AtQueueShape(s.(nIdle := s.nIdle - 1, threads := s.threads[t := Locked(s.threads[t].local)]), t, nBatchSize);
    case Execute(_) =>
  }

  lemma AtQueueShape(s: State, t: nat, nBatchSize: nat)
    requires t < |s.threads| && s.threads[t].Locked?
    ensures var after := AtQueue(s, t, nBatchSize);
      && |after.threads| == |s.threads| && |after.returned| >= |s.returned|
      && (t != 0 ==> after.threads[0] == s.threads[0])
      && (t == 0 && !s.stop ==> after.threads[0].InLoop() || |after.returned| > |s.returned|)
  {
    hide BatchSize;
  }

  lemma {:induction false} RunReturns(s0: State, actions: seq<Action>, s: State, nBatchSize: nat)
    requires Inv(s0) && s0.threads[0].InLoop() && Leads(s0, actions, s, nBatchSize) && AllDue(s0, actions, nBatchSize)
    requires forall a :: !Due(s, a)
    ensures |s.returned| > |s0.returned|
    decreases |actions|
  {
    hide Apply, Sum, Due, Enabled, Inv, Measure;
    if actions == [] {
      var a := SomethingDue(s);
      assert false;
    } else {
      var a, s1 := actions[0], Apply(s0, actions[0], nBatchSize);
      DueIsEnabled(s0, a);
      StepInv(s0, a, nBatchSize);
      StillInLoop(s0, a, nBatchSize);
      StepMeasure(s0, a, nBatchSize);
      DueWithin(s1, actions[1..], s, nBatchSize);
      if s1.threads[0].InLoop() {
        RunReturns(s1, actions[1..], s, nBatchSize);
      }
    }
  }

  /** However the threads are scheduled, once nobody has anything to do but sleep, Complete has returned; and
      there is no run without end, as none is longer than Measure(s0). */
  lemma CompleteReturns(s0: State, actions: seq<Action>, s: State, nBatchSize: nat)
    requires Reachable(s0) && s0.threads != [] && s0.threads[0].InLoop()
    requires Leads(s0, actions, s, nBatchSize) && AllDue(s0, actions, nBatchSize)
    ensures (forall a :: !Due(s, a)) ==> |s.returned| > |s0.returned|
    ensures |actions| > Measure(s0) ==> |s.returned| > |s0.returned|
  {
    hide Inv, Due, Measure, Leads, AllDue;
    ReachableInv(s0);
    DueWithin(s0, actions, s, nBatchSize);
    if forall a :: !Due(s, a) {
      RunReturns(s0, actions, s, nBatchSize);
    }
  }

  /** However the threads are scheduled, Complete returns within Measure(s0) + 1 steps. */
  lemma {:induction false} DueWithin(s0: State, actions: seq<Action>, s: State, nBatchSize: nat)
    requires Leads(s0, actions, s, nBatchSize) && AllDue(s0, actions, nBatchSize)
    ensures |actions| > Measure(s0) ==> |s.returned| > |s0.returned|
    ensures |s.returned| >= |s0.returned| && Measure(s0) >= 0
    decreases |actions|
  {
    hide Apply, Sum, Due, Enabled;
    assert Measure(s0) >= 0 by { SumNonnegative(s0.threads); }
    if actions != [] {
      var s1 := Apply(s0, actions[0], nBatchSize);
      assert ThreadAction(actions[0]) && Enabled(s0, actions[0]) by { DueIsEnabled(s0, actions[0]); }
      StepMeasure(s0, actions[0], nBatchSize);
      DueWithin(s1, actions[1..], s, nBatchSize);
    }
  }

  lemma DueIsEnabled(s: State, a: Action)
    requires Due(s, a)
    ensures ThreadAction(a) && Enabled(s, a)
  {
  }

  /** After the destructor's notification no worker sleeps on: each has ended or has a step to take. */
  lemma WorkerDue(s: State, t: nat)
    requires Inv(s) && NoneLocked(s.threads) && 0 < t < |s.threads| && s.threads[0].Joining?
    ensures s.threads[t].Gone? || Due(s, Section(t)) || Due(s, Wake(t)) || Due(s, Execute(t))
  {
    assert !Sleeping(s.threads, t);
  }

  /** The destructor only waits: no step of a worker changes that, or makes a Complete return. */
  lemma StillJoining(s: State, a: Action, nBatchSize: nat)
    requires Inv(s) && s.threads[0].Joining? && ThreadAction(a) && Enabled(s, a)
    ensures var after := Apply(s, a, nBatchSize);
      after.threads != [] && after.threads[0].Joining? && after.returned == s.returned
  {
    hide BatchSize, Run, Accounts, Results, Fine, History;
    if a.Section? {
      CleanUpShape(s, a.thread);
    }
  }

  lemma {:induction false} JoinRun(s0: State, actions: seq<Action>, s: State, nBatchSize: nat)
    requires Inv(s0) && NoneLocked(s0.threads) && s0.threads[0].Joining?
    requires Leads(s0, actions, s, nBatchSize) && AllDue(s0, actions, nBatchSize)
    ensures Inv(s) && NoneLocked(s.threads) && s.threads[0].Joining? && |actions| + Measure(s) <= Measure(s0)
    decreases |actions|
  {
    hide Apply, Sum, Due, Enabled, Measure, Accounts, Results, Wakeups, History, Fine;
    if actions != [] {
      var a, s1 := actions[0], Apply(s0, actions[0], nBatchSize);
      DueIsEnabled(s0, a);
      StepInv(s0, a, nBatchSize);
      StepUnlocks(s0, a, nBatchSize);
      StillJoining(s0, a, nBatchSize);
      StepMeasure(s0, a, nBatchSize);
      JoinRun(s1, actions[1..], s, nBatchSize);
    }
  }

  /** However the workers are scheduled, joining them ends: no run is longer than Measure(s0), and once nobody has
      anything to do every worker has returned. */
  lemma JoinEnds(s0: State, actions: seq<Action>, s: State, nBatchSize: nat)
    requires Reachable(s0) && s0.threads != [] && s0.threads[0].Joining?
    requires Leads(s0, actions, s, nBatchSize) && AllDue(s0, actions, nBatchSize)
    ensures |actions| <= Measure(s0)
    ensures (forall a :: !Due(s, a)) ==> forall t | 0 < t < |s.threads| :: s.threads[t].Gone?
  {
    hide Inv, Due, Measure, Leads, AllDue, Sum;
    ReachableInv(s0);
    JoinRun(s0, actions, s, nBatchSize);
    assert Measure(s) >= 0 by { MeasureNonnegative(s); }
    if forall a :: !Due(s, a) {
      forall t | 0 < t < |s.threads| ensures s.threads[t].Gone? { WorkerDue(s, t); }
    }
  }

  lemma MeasureNonnegative(s: State)
    ensures Measure(s) >= 0
  {
    SumNonnegative(s.threads);
  }
}
