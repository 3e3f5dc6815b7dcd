/** What runs of the region client get done: why calls are dropped, and what becomes of responses and errors. */
module DeliveryRuns {
  import opened Delivery

  /** The step is one of goroutine `t`. */
  predicate Involves(a: Step, t: Tid) {
    match a
    case Expire(_) => false
    case FailStart => false
    case FailCut => false
    case FailSwap => false
    case FailOne(_) => false
    case FailEnd => false
    case Handover(x, u) => t == x || t == u
    case _ => a.t == t
  }

  /** A goroutine is where it was until it moves itself. */
  lemma OthersMove(s: State, a: Step, t: Tid)
    requires Enabled(s, a) && At(s, t)
    ensures At(Next(s, a), t) && (!Involves(a, t) ==> Next(s, a).threads[t] == s.threads[t])
  {
    if MovesCalls(a) { MovesCallsApart(s, a, t); } else { MovesApart(s, a, t); }
    hide Next, Enabled, Involves;
  }

  /** Steps by which calls pass from one holder to another. */
  predicate MovesCalls(a: Step) {
    a.Handover? || a.Register? || a.Take? || a.AnswerOne? || a.Response? || a.InFlightDown? || a.FailSwap?
  }

  lemma MovesCallsApart(s: State, a: Step, t: Tid)
    requires Enabled(s, a) && At(s, t) && MovesCalls(a)
    ensures At(Next(s, a), t) && (!Involves(a, t) ==> Next(s, a).threads[t] == s.threads[t])
  {
    hide Custody, AllSent, Rehold;
  }

  lemma MovesApart(s: State, a: Step, t: Tid)
    requires Enabled(s, a) && At(s, t) && !MovesCalls(a)
    ensures At(Next(s, a), t) && (!Involves(a, t) ==> Next(s, a).threads[t] == s.threads[t])
  {
    hide Custody, AllSent, Rehold;
    hide AfterHandover, AfterRegister, AfterTake, AfterAnswer, AfterResponse, AfterInFlightDown, AfterSwap;
  }

  // ----- Why a call is dropped

  /**
   The step throws `c` away for one of the five reasons there are: the call's context or its batch's ended while it was
   queued, its context had expired when its multi was sent or its own response came, or inFlightDown failed.
   */
  predicate Reason(s: State, a: Step, c: Call) {
    match a
    case GiveUp(t) => At(s, t) && s.threads[t] == QueueOne(c) && c in s.expired
    case GiveUpBatch(t) => At(s, t) && s.threads[t].QueueMany? && c in s.threads[t].cs
    case Register(t, _) =>
      At(s, t) && s.threads[t].Marshal? && s.threads[t].job.multi && c in s.threads[t].job.calls && c in s.expired
    case InFlightDown(t, ok) =>
      && At(s, t) && s.threads[t].Got? && c in s.threads[t].job.calls
      && (!ok || (!s.threads[t].job.multi && c in s.expired))
    case _ => false
  }

  lemma DropStep(s: State, a: Step, c: Call)
    requires Enabled(s, a) && c !in s.dropped && c in Next(s, a).dropped
    ensures Reason(s, a, c)
  {
  }

  /** In every run, a call that was dropped was dropped by a step that had a reason. */
  lemma {:induction false} DroppedForAReason(states: seq<State>, steps: seq<Step>, c: Call) returns (i: nat)
    requires IsRun(states, steps) && c in states[|steps|].dropped
    ensures i < |steps| && c !in states[i].dropped && Reason(states[i], steps[i], c)
    decreases |steps|
  {
    hide Next, Enabled, Reason;
    assert states[0].dropped == {};
    var n := |steps| - 1;
    assert Enabled(states[n], steps[n]) && states[n + 1] == Next(states[n], steps[n]);
    if c in states[n].dropped {
      assert IsRun(states[..n + 1], steps[..n]);
      i := DroppedForAReason(states[..n + 1], steps[..n], c);
    } else {
      DropStep(states[n], steps[n], c);
      i := n;
    }
  }

  lemma ExpireStep(s: State, a: Step, c: Call)
    requires Enabled(s, a) && c !in s.expired && c in Next(s, a).expired
    ensures a == Expire(c)
  {
    hide Custody, AllSent, Rehold;
  }

  /** A context expires by itself only. */
  lemma {:induction false} ExpiredByItself(states: seq<State>, steps: seq<Step>, c: Call) returns (i: nat)
    requires IsRun(states, steps) && c in states[|steps|].expired
    ensures i < |steps| && steps[i] == Expire(c)
    decreases |steps|
  {
    hide Next, Enabled;
    assert states[0].expired == {};
    var n := |steps| - 1;
    assert Enabled(states[n], steps[n]) && states[n + 1] == Next(states[n], steps[n]);
    if c in states[n].expired {
      assert IsRun(states[..n + 1], steps[..n]);
      i := ExpiredByItself(states[..n + 1], steps[..n], c);
    } else {
      ExpireStep(states[n], steps[n], c);
      i := n;
    }
  }

  // ----- A good response is handed out

  /** After inFlightDown went well, every call of a multi and every call that is still wanted is with the receiver. */
  lemma GoodResponseKept(s: State, t: Tid, c: Call)
    requires At(s, t) && s.threads[t].Got? && c in s.threads[t].job.calls && Enabled(s, InFlightDown(t, true))
    requires s.threads[t].job.multi || c !in s.expired
    ensures var p := Next(s, InFlightDown(t, true)).threads[t]; p.Dispatch? && c in p.todo
  {
  }

  /** A goroutine answers a call that it has to answer, before it does anything else. */
  predicate HasToAnswer(p: Pc, c: Call) {
    (p.Dispatch? || p.Answer? || p.Refuse?) && c in p.todo
  }

  lemma AnswerStep(s: State, a: Step, t: Tid, c: Call)
    requires Enabled(s, a) && At(s, t) && HasToAnswer(s.threads[t], c)
    ensures At(Next(s, a), t) && (HasToAnswer(Next(s, a).threads[t], c) || a == AnswerOne(t, c))
  {
    OthersMove(s, a, t);
    if Involves(a, t) {
      assert a.AnswerOne? by { hide Next; }
    } else {
      hide Next, Enabled;
    }
  }

  lemma ResultGiven(s: State, t: Tid, c: Call)
    requires Enabled(s, AnswerOne(t, c))
    ensures c in Next(s, AnswerOne(t, c)).results
  {
  }

  lemma ResultsStay(s: State, a: Step, c: Call)
    requires Enabled(s, a) && c in s.results
    ensures c in Next(s, a).results
  {
    if MovesCalls(a) { MovesCallsKeep(s, a); } else { MovesKeep(s, a); }
    hide Next, Enabled;
  }

  lemma MovesCallsKeep(s: State, a: Step)
    requires Enabled(s, a) && MovesCalls(a)
    ensures s.results.Keys <= Next(s, a).results.Keys
  {
    hide Custody, AllSent, Rehold, HasId;
  }

  lemma MovesKeep(s: State, a: Step)
    requires Enabled(s, a) && !MovesCalls(a)
    ensures s.results.Keys <= Next(s, a).results.Keys
  {
    hide Custody, AllSent, Rehold;
    hide AfterHandover, AfterRegister, AfterTake, AfterAnswer, AfterResponse, AfterInFlightDown, AfterSwap;
  }

  lemma {:induction false} StillAnswered(states: seq<State>, steps: seq<Step>, i: nat, k: nat, c: Call)
    requires IsRun(states, steps) && i <= k <= |steps| && c in states[i].results
    ensures c in states[k].results
    decreases k - i
  {
    hide Next, Enabled;
    if i < k {
      assert Enabled(states[i], steps[i]) && states[i + 1] == Next(states[i], steps[i]);
      ResultsStay(states[i], steps[i], c);
      StillAnswered(states, steps, i + 1, k, c);
    }
  }

  /** Whoever has to answer a call has answered it once it is elsewhere. */
  lemma {:induction false} AnsweredInTheEnd(states: seq<State>, steps: seq<Step>, t: Tid, i: nat, k: nat, c: Call)
    requires IsRun(states, steps) && i <= k <= |steps| && At(states[i], t) && HasToAnswer(states[i].threads[t], c)
    requires At(states[k], t) && !HasToAnswer(states[k].threads[t], c)
    ensures c in states[k].results
    decreases k - i
  {
    hide Next, Enabled, HasToAnswer;
    assert i < k;
    assert Enabled(states[i], steps[i]) && states[i + 1] == Next(states[i], steps[i]);
    AnswerStep(states[i], steps[i], t, c);
    if HasToAnswer(states[i + 1].threads[t], c) {
      AnsweredInTheEnd(states, steps, t, i + 1, k, c);
    } else {
      ResultGiven(states[i], t, c);
      StillAnswered(states, steps, i + 1, k, c);
    }
  }

  /**
   A response that was received, and for which inFlightDown went well, is delivered: once the receiver is done with it,
   every call of a multi, and a single call whose context had not expired, has its result.
   */
  lemma ResponsesAreDelivered(states: seq<State>, steps: seq<Step>, t: Tid, i: nat, k: nat, c: Call)
    requires IsRun(states, steps) && i < k <= |steps| && steps[i] == InFlightDown(t, true)
    requires At(states[i], t) && states[i].threads[t].Got? && c in states[i].threads[t].job.calls
    requires states[i].threads[t].job.multi || c !in states[i].expired
    requires At(states[k], t) && states[k].threads[t].Receive?
    ensures c in states[k].results && states[k].results[c] == 1
  {
    assert Enabled(states[i], steps[i]) && states[i + 1] == Next(states[i], steps[i]);
    GoodResponseKept(states[i], t, c);
    hide Next, Enabled;
    AnsweredInTheEnd(states, steps, t, i + 1, k, c);
    assert IsRun(states[..k + 1], steps[..k]);
    AtMostOneResult(states[..k + 1], steps[..k], c);
  }

  // ----- An error of the connection fails the client

  /** The goroutine found the connection broken: it calls fail. */
  predicate IsFailing(p: Pc) {
    p.Errored? || p.Broken?
  }

  lemma FailingStep(s: State, a: Step, t: Tid)
    requires Enabled(s, a) && At(s, t) && IsFailing(s.threads[t])
    ensures At(Next(s, a), t)
    ensures Next(s, a).threads[t] == s.threads[t] || s.fail.Failed?
  {
    hide Next;
    OthersMove(s, a, t);
  }

  lemma FailedStays(s: State, a: Step)
    requires Enabled(s, a) && s.fail.Failed?
    ensures Next(s, a).fail.Failed?
  {
    hide Custody, AllSent, Rehold;
  }

  lemma {:induction false} StillFailed(states: seq<State>, steps: seq<Step>, i: nat, k: nat)
    requires IsRun(states, steps) && i <= k <= |steps| && states[i].fail.Failed?
    ensures states[k].fail.Failed?
    decreases k - i
  {
    hide Next, Enabled;
    if i < k {
      assert Enabled(states[i], steps[i]) && states[i + 1] == Next(states[i], steps[i]);
      FailedStays(states[i], steps[i]);
      StillFailed(states, steps, i + 1, k);
    }
  }

  lemma {:induction false} FailsBeforeGoingOn(states: seq<State>, steps: seq<Step>, t: Tid, i: nat, k: nat)
    requires IsRun(states, steps) && i <= k <= |steps| && At(states[i], t) && IsFailing(states[i].threads[t])
    requires At(states[k], t) && states[k].threads[t] != states[i].threads[t]
    ensures states[k].fail.Failed?
    decreases k - i
  {
    hide Next, Enabled, IsFailing;
    assert Enabled(states[i], steps[i]) && states[i + 1] == Next(states[i], steps[i]);
    FailingStep(states[i], steps[i], t);
    if states[i + 1].threads[t] == states[i].threads[t] {
      FailsBeforeGoingOn(states, steps, t, i + 1, k);
    } else {
      StillFailed(states, steps, i, k);
    }
  }

  /** What a broken connection looks like: to a sender, and to the receiver. */
  predicate ConnectionBroke(s: State, a: Step, t: Tid) {
    || a == WriteError(t, true) || a == InFlightUp(t, false) || a == BadRead(t) || a == InFlightDown(t, false)
    || (a.Response? && a.t == t && a.id !in s.sent)
  }

  lemma BrokeStep(s: State, a: Step, t: Tid)
    requires Enabled(s, a) && ConnectionBroke(s, a, t)
    ensures At(Next(s, a), t) && IsFailing(Next(s, a).threads[t])
  {
  }

  /**
   After a ServerError of a send, or any error of the receiver, the client has failed, and with it all that was sent,
   before the goroutine goes on: a sender answers its own rpc only then.
   */
  lemma BrokenConnectionFailsTheClient(states: seq<State>, steps: seq<Step>, t: Tid, i: nat, k: nat)
    requires IsRun(states, steps) && i < k <= |steps| && ConnectionBroke(states[i], steps[i], t)
    requires At(states[k], t) && !IsFailing(states[k].threads[t])
    ensures states[k].fail.Failed?
  {
    assert Enabled(states[i], steps[i]) && states[i + 1] == Next(states[i], steps[i]);
    BrokeStep(states[i], steps[i], t);
    hide Next, Enabled;
    FailsBeforeGoingOn(states, steps, t, i + 1, k);
  }

  // ----- A closed client sends nothing more for QueueRPC

  lemma ClosedStep(s: State, a: Step, t: Tid)
    requires Enabled(s, a) && At(s, t) && IsClosed(s.fail)
    requires s.threads[t].QueueOne? || s.threads[t].Refuse? || s.threads[t].Exited?
    ensures var s' := Next(s, a);
      && At(s', t) && IsClosed(s'.fail)
      && (s'.threads[t].QueueOne? || s'.threads[t].Refuse? || s'.threads[t].Exited?)
  {
    hide Custody, AllSent, Rehold, AfterHandover, AfterRegister, AfterTake, AfterAnswer, AfterResponse, AfterSwap;
    OthersMove(s, a, t);
    StaysClosed(s, a);
    if Involves(a, t) {
      assert a.RefuseAll? || a.GiveUp? || a.AnswerOne? || a.AnswerEnd?;
      if a.AnswerOne? { AnswerKeepsKind(s, t, a.c); }
    }
  }

  lemma StaysClosed(s: State, a: Step)
    requires Enabled(s, a) && IsClosed(s.fail)
    ensures IsClosed(Next(s, a).fail)
  {
    hide Custody, AllSent, Rehold;
  }

  lemma AnswerKeepsKind(s: State, t: Tid, c: Call)
    requires Enabled(s, AnswerOne(t, c)) && s.threads[t].Refuse?
    ensures Next(s, AnswerOne(t, c)).threads[t].Refuse?
  {
  }

  /** Once the done channel is closed, a call that QueueRPC has not sent yet is answered or given up, and never sent. */
  lemma {:induction false} NotSentAfterClose(states: seq<State>, steps: seq<Step>, t: Tid, i: nat, k: nat)
    requires IsRun(states, steps) && i <= k <= |steps| && At(states[i], t) && IsClosed(states[i].fail)
    requires states[i].threads[t].QueueOne? || states[i].threads[t].Refuse? || states[i].threads[t].Exited?
    ensures At(states[k], t)
    ensures states[k].threads[t].QueueOne? || states[k].threads[t].Refuse? || states[k].threads[t].Exited?
    decreases k - i
  {
    hide Next, Enabled;
    if i < k {
      assert Enabled(states[i], steps[i]) && states[i + 1] == Next(states[i], steps[i]);
      ClosedStep(states[i], steps[i], t);
      NotSentAfterClose(states, steps, t, i + 1, k);
    }
  }

  /** What is sent of a multi are its calls whose contexts have not expired, and of a single call the call. */
  lemma ExpiredCallsAreNotSent(s: State, t: Tid, stale: set<Call>)
    requires Enabled(s, Register(t, stale)) && s.nextId !in s.sent
    ensures var job := s.threads[t].job;
      Content(Next(s, Register(t, stale)), InSent(s.nextId)) == if job.multi then job.calls - s.expired else job.calls
  {
    hide Rehold;
    var job := s.threads[t].job;
    assert job.calls - job.calls * s.expired == job.calls - s.expired;
  }

  // ----- Batches are sent as multis, and single calls alone

  function JobOf(p: Pc): Job {
    match p
    case Marshal(job, _) => job
    case Registered(job, _, _) => job
    case Written(job, _, _) => job
    case Errored(job, _, _) => job
    case Unregister(job, _, _) => job
    case Got(job) => job
    case _ => Job({}, true)
  }

  predicate IsAlone(job: Job) {
    !job.multi ==> |job.calls| == 1
  }

  ghost predicate JobsRight(s: State) {
    && (forall t :: t in s.threads ==> IsAlone(JobOf(s.threads[t])))
    && (forall id :: id in s.sent ==> IsAlone(s.sent[id]))
  }

  lemma JobsStep(s: State, a: Step)
    requires Enabled(s, a) && JobsRight(s)
    ensures JobsRight(Next(s, a))
  {
    if MovesCalls(a) { JobsMove(s, a); } else { JobsStay(s, a); }
    hide Next, Enabled, JobsRight;
  }

  lemma JobsAfter(s: State, s': State, t: Tid, p: Pc)
    requires JobsRight(s) && s'.threads == s.threads[t := p] && IsAlone(JobOf(p))
    requires forall id :: id in s'.sent ==> (id in s.sent && s'.sent[id] == s.sent[id]) || IsAlone(s'.sent[id])
    ensures JobsRight(s')
  {
    hide IsAlone, JobOf;
  }

  lemma JobsMove(s: State, a: Step)
    requires Enabled(s, a) && JobsRight(s) && MovesCalls(a)
    ensures JobsRight(Next(s, a))
  {
    var s' := Next(s, a);
    if a.FailSwap? {
      hide AllSent, Rehold, IsAlone;
    } else if a.Handover? {
      var mid := Goto(s, a.t, Exited);
      JobsAfter(s, mid, a.t, Exited);
      hide JobsRight, Rehold;
      JobsAfter(mid, s', a.u, s'.threads[a.u]);
    } else {
      JobKept(s, a);
      hide JobsRight, Next, Enabled, JobOf, IsAlone;
      assert KeepsJobs(s, s', a.t);
      JobsAfter(s, s', a.t, s'.threads[a.t]);
    }
  }

  ghost predicate KeepsJobs(s: State, s': State, t: Tid) {
    && t in s'.threads && s'.threads == s.threads[t := s'.threads[t]] && IsAlone(JobOf(s'.threads[t]))
    && forall id :: id in s'.sent ==> (id in s.sent && s'.sent[id] == s.sent[id]) || IsAlone(s'.sent[id])
  }

  /** The goroutine that moves calls keeps jobs as they are, but for the calls that a multi drops. */
  lemma JobKept(s: State, a: Step)
    requires Enabled(s, a) && JobsRight(s) && MovesCalls(a) && !a.FailSwap? && !a.Handover?
    ensures KeepsJobs(s, Next(s, a), a.t)
  {
    hide KeepsJobs, JobsRight, AfterRegister, AfterTake, AfterAnswer, AfterResponse, AfterInFlightDown;
    match a
    case Register(t, stale) => RegisterKeepsJob(s, t, stale);
    case Take(t) => TakeKeepsJob(s, t);
    case AnswerOne(t, c) => AnswerKeepsJob(s, t, c);
    case Response(t, id) => ResponseKeepsJob(s, t, id);
    case InFlightDown(t, ok) => InFlightDownKeepsJob(s, t, ok);
  }

  lemma TakeKeepsJob(s: State, t: Tid)
    requires At(s, t) && s.threads[t].Unregister? && JobsRight(s)
    ensures KeepsJobs(s, AfterTake(s, t), t)
  {
    hide Rehold;
  }

  lemma AnswerKeepsJob(s: State, t: Tid, c: Call)
    requires At(s, t) && JobsRight(s) && (s.threads[t].Refuse? || s.threads[t].Answer? || s.threads[t].Dispatch?)
    ensures KeepsJobs(s, AfterAnswer(s, t, c), t)
  {
  }

  lemma ResponseKeepsJob(s: State, t: Tid, id: Id)
    requires At(s, t) && JobsRight(s)
    ensures KeepsJobs(s, AfterResponse(s, t, id), t)
  {
    hide Rehold;
  }

  lemma InFlightDownKeepsJob(s: State, t: Tid, ok: bool)
    requires At(s, t) && JobsRight(s) && s.threads[t].Got?
    ensures KeepsJobs(s, AfterInFlightDown(s, t, ok), t)
  {
  }

  lemma RegisterKeepsJob(s: State, t: Tid, stale: set<Call>)
    requires At(s, t) && s.threads[t].Marshal? && JobsRight(s) && (!s.threads[t].job.multi ==> stale == {})
    ensures KeepsJobs(s, AfterRegister(s, t, stale), t)
  {
    hide Rehold;
    assert IsAlone(JobOf(s.threads[t]));
    assert s.threads[t].job.calls - {} == s.threads[t].job.calls;
  }

  lemma JobsStay(s: State, a: Step)
    requires Enabled(s, a) && JobsRight(s) && !MovesCalls(a)
    ensures JobsRight(Next(s, a))
  {
    var s' := Next(s, a);
    if a.Expire? || a.FailStart? || a.FailCut? || a.FailOne? || a.FailEnd? {
      NoneMoves(s, a);
      hide Next, Enabled, IsAlone, JobOf;
    } else {
      OneMoves(s, a);
      hide Next, Enabled, JobsRight, IsAlone, JobOf;
      assert KeepsJobs(s, s', a.t);
      JobsAfter(s, s', a.t, s'.threads[a.t]);
    }
  }

  lemma NoneMoves(s: State, a: Step)
    requires Enabled(s, a) && (a.Expire? || a.FailStart? || a.FailCut? || a.FailOne? || a.FailEnd?)
    ensures Next(s, a).threads == s.threads && Next(s, a).sent == s.sent
  {
    hide Custody;
  }

  lemma OneMoves(s: State, a: Step)
    requires Enabled(s, a) && JobsRight(s) && !MovesCalls(a)
    requires !(a.Expire? || a.FailStart? || a.FailCut? || a.FailOne? || a.FailEnd?)
    ensures KeepsJobs(s, Next(s, a), a.t)
  {
    hide Custody, AllSent, Rehold, JobsRight;
    hide AfterHandover, AfterRegister, AfterTake, AfterAnswer, AfterResponse, AfterInFlightDown, AfterSwap;
    var s' := Next(s, a);
    assert s'.sent == s.sent && a.t in s'.threads && s'.threads == s.threads[a.t := s'.threads[a.t]];
    if At(s, a.t) { JobAlone(s, a.t); }
  }

  lemma JobAlone(s: State, t: Tid)
    requires JobsRight(s) && At(s, t)
    ensures IsAlone(JobOf(s.threads[t]))
  {
  }

  /** In every run, what is sent and is not a multi is one call, so only its own context decides about its response. */
  lemma {:induction false} SinglesAreAlone(states: seq<State>, steps: seq<Step>)
    requires IsRun(states, steps)
    ensures JobsRight(states[|steps|])
    decreases |steps|
  {
    if steps != [] {
      hide Next, Enabled, JobsRight;
      var n := |steps| - 1;
      assert IsRun(states[..n + 1], steps[..n]);
      SinglesAreAlone(states[..n + 1], steps[..n]);
      assert Enabled(states[n], steps[n]) && states[n + 1] == Next(states[n], steps[n]);
      JobsStep(states[n], steps[n]);
    }
  }
}
