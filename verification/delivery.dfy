/**
 Delivery of results by a region client (region/client.go): callers that queue and send, the batching
 goroutine, the receiving goroutine and `fail`, interleaved. A call is known by a number; a job is what
 `send` puts on the wire, one call or a multi. `holder` is bookkeeping: who has to answer a call next.
 */
module Delivery {

  type Call = nat
  type Tid = nat
  type Id = nat

  datatype Job = Job(calls: set<Call>, multi: bool)

  /** Who runs a send: a caller of QueueRPC, or processRPCs, which then opens a new multi. */
  datatype Sender = ByCaller | ByBatcher

  datatype Pc =
    | QueueOne(c: Call)                               // QueueRPC of a call that is not batched
    | QueueMany(cs: set<Call>)                        // QueueBatch
    | Refuse(todo: set<Call>)                         // answering ErrClientClosed, then done
    | Marshal(job: Job, who: Sender)                   // send, before registerRPC
    | Registered(job: Job, id: Id, who: Sender)        // send, before the write
    | Written(job: Job, id: Id, who: Sender)           // send, before inFlightUp
    | Errored(job: Job, id: Id, who: Sender)           // trySend got a ServerError: c.fail(err)
    | Unregister(job: Job, id: Id, who: Sender)        // trySend, before unregisterRPC
    | Answer(todo: set<Call>, who: Sender)             // returnResult with the error of the send
    | Batch(open: set<Call>)                          // processRPCs with its open multi
    | Receive                                         // receiveRPCs between responses
    | Got(job: Job)                                   // receive, before inFlightDown
    | Dispatch(todo: set<Call>)                       // receive, handing out the response
    | Broken                                          // receive returned a ServerError: c.fail(err)
    | Exited

  /** How far `fail` has come; failOnce makes it run once and makes other callers wait for Failed. */
  datatype Fail = Alive | DoneClosed | ConnClosed | Draining(todo: set<Call>) | Failed

  datatype Holder = ByThread(t: Tid) | InSent(id: Id) | ByFail

  datatype State = State(
    threads: map<Tid, Pc>,
    sent: map<Id, Job>,
    nextId: Id,
    fail: Fail,
    results: map<Call, nat>,        // how many results were put on the call's channel
    dropped: set<Call>,
    expired: set<Call>,             // calls whose context has expired
    submitted: set<Call>,
    holder: map<Call, Holder>)

  /** The calls a goroutine has to answer. Between register and unregister a sender has none. */
  function Custody(p: Pc): set<Call> {
    match p
    case QueueOne(c) => {c}
    case QueueMany(cs) => cs
    case Refuse(todo) => todo
    case Marshal(job, _) => job.calls
    case Answer(todo, _) => todo
    case Batch(open) => open
    case Got(job) => job.calls
    case Dispatch(todo) => todo
    case _ => {}
  }

  function Content(s: State, h: Holder): set<Call> {
    match h
    case ByThread(t) => if t in s.threads then Custody(s.threads[t]) else {}
    case InSent(id) => if id in s.sent then s.sent[id].calls else {}
    case ByFail => if s.fail.Draining? then s.fail.todo else {}
  }

  function Resume(who: Sender): Pc {
    if who.ByCaller? then Exited else Batch({})
  }

  predicate IsClosed(f: Fail) {
    !f.Alive?
  }

  predicate IsCut(f: Fail) {
    f.ConnClosed? || IsSwapped(f)
  }

  predicate IsSwapped(f: Fail) {
    f.Draining? || f.Failed?
  }

  datatype Step =
    | SubmitOne(t: Tid, c: Call)
    | SubmitMany(t: Tid, cs: set<Call>)
    | StartBatcher(t: Tid)
    | StartReceiver(t: Tid)
    | Expire(c: Call)
    | RefuseAll(t: Tid)             // the done channel was closed
    | GiveUp(t: Tid)                // the context of the call expired while queueing
    | GiveUpBatch(t: Tid)           // the context of the batch ended while queueing
    | Accept(t: Tid)                // QueueRPC goes on to send
    | Handover(t: Tid, u: Tid)      // c.rpcs <- rpcs
    | Flush(t: Tid)
    | Register(t: Tid, stale: set<Call>)
    | Write(t: Tid)
    | WriteError(t: Tid, server: bool)
    | InFlightUp(t: Tid, ok: bool)
    | AfterFail(t: Tid)
    | Take(t: Tid)                  // unregisterRPC by the sender
    | AnswerOne(t: Tid, c: Call)
    | AnswerEnd(t: Tid)
    | Response(t: Tid, id: Id)      // unregisterRPC by the receiver
    | BadRead(t: Tid)
    | ReceiveStop(t: Tid)           // the done channel was closed
    | InFlightDown(t: Tid, ok: bool)
    | FailStart
    | FailCut
    | FailSwap
    | FailOne(c: Call)
    | FailEnd

  predicate At(s: State, t: Tid) {
    t in s.threads
  }

  predicate Enabled(s: State, a: Step) {
    match a
    case SubmitOne(t, c) => !At(s, t) && c !in s.submitted
    case SubmitMany(t, cs) => !At(s, t) && cs !! s.submitted
    case StartBatcher(t) => !At(s, t)
    case StartReceiver(t) => !At(s, t)
    case Expire(_) => true
    case RefuseAll(t) =>
      IsClosed(s.fail) && At(s, t) && (s.threads[t].QueueOne? || s.threads[t].QueueMany? || s.threads[t].Batch?)
    case GiveUp(t) => At(s, t) && s.threads[t].QueueOne? && Custody(s.threads[t]) <= s.expired
    case GiveUpBatch(t) => At(s, t) && s.threads[t].QueueMany?
    case Accept(t) => At(s, t) && s.threads[t].QueueOne? && !IsClosed(s.fail) && s.threads[t].c !in s.expired
    case Handover(t, u) => At(s, t) && At(s, u) && s.threads[t].QueueMany? && s.threads[u].Batch?
    case Flush(t) => At(s, t) && s.threads[t].Batch? && s.threads[t].open != {}
    case Register(t, stale) =>
      && At(s, t) && s.threads[t].Marshal?
      && stale == if s.threads[t].job.multi then s.threads[t].job.calls * s.expired else {}
    case Write(t) => At(s, t) && s.threads[t].Registered? && !IsCut(s.fail)
    case WriteError(t, _) => At(s, t) && s.threads[t].Registered?
    case InFlightUp(t, _) => At(s, t) && s.threads[t].Written?
    case AfterFail(t) => At(s, t) && (s.threads[t].Errored? || s.threads[t].Broken?) && s.fail.Failed?
    case Take(t) => At(s, t) && s.threads[t].Unregister?
    case AnswerOne(t, c) =>
      At(s, t) && (s.threads[t].Refuse? || s.threads[t].Answer? || s.threads[t].Dispatch?) && c in s.threads[t].todo
    case AnswerEnd(t) =>
      At(s, t) && (s.threads[t].Refuse? || s.threads[t].Answer? || s.threads[t].Dispatch?) && s.threads[t].todo == {}
    case Response(t, _) => At(s, t) && s.threads[t].Receive?
    case BadRead(t) => At(s, t) && s.threads[t].Receive?
    case ReceiveStop(t) => At(s, t) && s.threads[t].Receive? && IsClosed(s.fail)
    case InFlightDown(t, _) => At(s, t) && s.threads[t].Got?
    case FailStart => s.fail.Alive?
    case FailCut => s.fail.DoneClosed?
    case FailSwap => s.fail.ConnClosed?
    case FailOne(c) => s.fail.Draining? && c in s.fail.todo
    case FailEnd => s.fail.Draining? && s.fail.todo == {}
  }

  function Goto(s: State, t: Tid, p: Pc): State {
    s.(threads := s.threads[t := p])
  }

  /** The calls of every registered rpc. */
  function AllSent(sent: map<Id, Job>): set<Call> {
    set id, c | id in sent && c in sent[id].calls :: c
  }

  function Rehold(holder: map<Call, Holder>, cs: set<Call>, h: Holder): map<Call, Holder> {
    map c | c in holder.Keys + cs :: if c in cs then h else holder[c]
  }

  /** One more result on the channel of `c`, whatever is there already. */
  function Send(s: State, c: Call): State {
    s.(results := s.results[c := (if c in s.results then s.results[c] else 0) + 1], holder := s.holder - {c})
  }

  function Drop(s: State, cs: set<Call>): State {
    s.(dropped := s.dropped + cs, holder := s.holder - cs)
  }

  function AfterHandover(s: State, t: Tid, u: Tid): State
    requires At(s, t) && At(s, u) && s.threads[t].QueueMany? && s.threads[u].Batch?
  {
    Goto(Goto(s, t, Exited), u, Batch(s.threads[u].open + s.threads[t].cs))
      .(holder := Rehold(s.holder, s.threads[t].cs, ByThread(u)))
  }

  function AfterRegister(s: State, t: Tid, stale: set<Call>): State
    requires At(s, t) && s.threads[t].Marshal?
  {
    var p := s.threads[t];
    var job := p.job.(calls := p.job.calls - stale);
    Goto(Drop(s, stale), t, Registered(job, s.nextId, p.who))
      .(sent := s.sent[s.nextId := job], nextId := s.nextId + 1,
        holder := Rehold(s.holder - stale, job.calls, InSent(s.nextId)))
  }

  function AfterTake(s: State, t: Tid): State
    requires At(s, t) && s.threads[t].Unregister?
  {
    var p := s.threads[t];
    if p.id in s.sent then
      Goto(s, t, Answer(p.job.calls, p.who))
        .(sent := s.sent - {p.id}, holder := Rehold(s.holder, p.job.calls, ByThread(t)))
    else Goto(s, t, Resume(p.who))
  }

  function AfterAnswer(s: State, t: Tid, c: Call): State
    requires At(s, t) && (s.threads[t].Refuse? || s.threads[t].Answer? || s.threads[t].Dispatch?)
  {
    Goto(Send(s, c), t, s.threads[t].(todo := s.threads[t].todo - {c}))
  }

  function AfterResponse(s: State, t: Tid, id: Id): State {
    if id in s.sent then
      Goto(s, t, Got(s.sent[id])).(sent := s.sent - {id}, holder := Rehold(s.holder, s.sent[id].calls, ByThread(t)))
    else Goto(s, t, Broken)
  }

  function AfterInFlightDown(s: State, t: Tid, ok: bool): State
    requires At(s, t) && s.threads[t].Got?
  {
    var job := s.threads[t].job;
    if !ok then Goto(Drop(s, job.calls), t, Broken)
    else if !job.multi && job.calls <= s.expired then Goto(Drop(s, job.calls), t, Receive)
    else Goto(s, t, Dispatch(job.calls))
  }

  function AfterSwap(s: State): State {
    s.(fail := Draining(AllSent(s.sent)), sent := map[], holder := Rehold(s.holder, AllSent(s.sent), ByFail))
  }

  function Next(s: State, a: Step): State
    requires Enabled(s, a)
  {
    match a
    case SubmitOne(t, c) =>
      Goto(s, t, QueueOne(c)).(submitted := s.submitted + {c}, holder := Rehold(s.holder, {c}, ByThread(t)))
    case SubmitMany(t, cs) =>
      Goto(s, t, QueueMany(cs)).(submitted := s.submitted + cs, holder := Rehold(s.holder, cs, ByThread(t)))
    case StartBatcher(t) => Goto(s, t, Batch({}))
    case StartReceiver(t) => Goto(s, t, Receive)
    case Expire(c) => s.(expired := s.expired + {c})
    case RefuseAll(t) => Goto(s, t, Refuse(Custody(s.threads[t])))
    case GiveUp(t) => Goto(Drop(s, Custody(s.threads[t])), t, Exited)
    case GiveUpBatch(t) => Goto(Drop(s, Custody(s.threads[t])), t, Exited)
    case Accept(t) => Goto(s, t, Marshal(Job({s.threads[t].c}, false), ByCaller))
    case Handover(t, u) => AfterHandover(s, t, u)
    case Flush(t) => Goto(s, t, Marshal(Job(s.threads[t].open, true), ByBatcher))
    case Register(t, stale) => AfterRegister(s, t, stale)
    case Write(t) => Goto(s, t, Written(s.threads[t].job, s.threads[t].id, s.threads[t].who))
    case WriteError(t, server) =>
      var p := s.threads[t];
      Goto(s, t, if server then Errored(p.job, p.id, p.who) else Unregister(p.job, p.id, p.who))
    case InFlightUp(t, ok) =>
      var p := s.threads[t];
      Goto(s, t, if ok then Resume(p.who) else Errored(p.job, p.id, p.who))
    case AfterFail(t) =>
      var p := s.threads[t];
      Goto(s, t, if p.Errored? then Unregister(p.job, p.id, p.who) else Exited)
    case Take(t) => AfterTake(s, t)
    case AnswerOne(t, c) => AfterAnswer(s, t, c)
    case AnswerEnd(t) =>
      var p := s.threads[t];
      Goto(s, t, if p.Answer? then Resume(p.who) else if p.Dispatch? then Receive else Exited)
    case Response(t, id) => AfterResponse(s, t, id)
    case BadRead(t) => Goto(s, t, Broken)
    case ReceiveStop(t) => Goto(s, t, Exited)
    case InFlightDown(t, ok) => AfterInFlightDown(s, t, ok)
    case FailStart => s.(fail := DoneClosed)
    case FailCut => s.(fail := ConnClosed)
    case FailSwap => AfterSwap(s)
    case FailOne(c) => Send(s, c).(fail := Draining(s.fail.todo - {c}))
    case FailEnd => s.(fail := Failed)
  }

  // ----- The invariant

  /** Every unanswered call has exactly one holder, and that is who really has it. */
  ghost predicate Held(s: State) {
    forall h, c :: c in Content(s, h) <==> c in s.holder && s.holder[c] == h
  }

  /** A call is waiting, answered once, or dropped. */
  ghost predicate Accounted(s: State) {
    && s.submitted == s.holder.Keys + s.results.Keys + s.dropped
    && s.holder.Keys !! s.results.Keys && s.holder.Keys !! s.dropped && s.results.Keys !! s.dropped
    && (forall c :: c in s.results ==> s.results[c] == 1)
  }

  predicate HasId(p: Pc) {
    p.Registered? || p.Written? || p.Errored? || p.Unregister?
  }

  /** What a sender remembers of its rpc is what is registered under its id; ids are not shared. */
  ghost predicate Ids(s: State) {
    && (forall id :: id in s.sent ==> id < s.nextId)
    && (forall t :: t in s.threads && HasId(s.threads[t]) ==>
          var p := s.threads[t]; p.id < s.nextId && (p.id in s.sent ==> s.sent[p.id] == p.job))
    && (forall t, u :: t in s.threads && u in s.threads && t != u && HasId(s.threads[t]) && HasId(s.threads[u]) ==>
          s.threads[t].id != s.threads[u].id)
  }

  /** Once fail has emptied `sent`, only senders whose write has yet to fail have anything registered. */
  ghost predicate Swept(s: State) {
    IsSwapped(s.fail) ==> forall id :: id in s.sent ==>
      exists t :: t in s.threads && HasId(s.threads[t]) && !s.threads[t].Written? && s.threads[t].id == id
  }

  ghost predicate Inv(s: State) {
    Held(s) && Accounted(s) && Ids(s) && Swept(s)
  }

  ghost predicate Init(s: State) {
    s == State(map[], map[], 1, Alive, map[], {}, {}, {}, map[])
  }

  // ----- Custody moves, enters and leaves

  lemma HeldSame(s: State, s': State)
    requires Held(s) && s'.holder == s.holder && forall h :: Content(s', h) == Content(s, h)
    ensures Held(s')
  {
  }

  lemma HeldEnter(s: State, s': State, cs: set<Call>, to: Holder)
    requires Held(s) && cs !! s.holder.Keys && s'.holder == Rehold(s.holder, cs, to)
    requires Content(s', to) == Content(s, to) + cs
    requires forall h :: h != to ==> Content(s', h) == Content(s, h)
    ensures Held(s')
  {
    hide Content;
    forall h, c
      ensures c in Content(s', h) <==> c in s'.holder && s'.holder[c] == h
    {
      assert c in Content(s, h) <==> c in s.holder && s.holder[c] == h;
    }
  }

  lemma HeldLeave(s: State, s': State, cs: set<Call>, from: Holder)
    requires Held(s) && cs <= Content(s, from) && s'.holder == s.holder - cs
    requires Content(s', from) == Content(s, from) - cs
    requires forall h :: h != from ==> Content(s', h) == Content(s, h)
    ensures Held(s')
    ensures cs <= s.holder.Keys
  {
    hide Content;
    forall h, c
      ensures c in Content(s', h) <==> c in s'.holder && s'.holder[c] == h
    {
      assert c in Content(s, h) <==> c in s.holder && s.holder[c] == h;
      assert c in cs ==> s.holder[c] == from;
    }
  }

  lemma HeldMove(s: State, s': State, cs: set<Call>, from: Holder, to: Holder)
    requires Held(s) && cs <= Content(s, from) && from != to && s'.holder == Rehold(s.holder, cs, to)
    requires Content(s', from) == Content(s, from) - cs && Content(s', to) == Content(s, to) + cs
    requires forall h :: h != from && h != to ==> Content(s', h) == Content(s, h)
    ensures Held(s') && s'.holder.Keys == s.holder.Keys
  {
    hide Content;
    assert forall c :: c in cs ==> c in s.holder && s.holder[c] == from;
    forall h, c
      ensures c in Content(s', h) <==> c in s'.holder && s'.holder[c] == h
    {
      assert c in Content(s, h) <==> c in s.holder && s.holder[c] == h;
    }
  }

  // ----- Every step keeps the invariant

  /**
   A goroutine that moves to `p` keeps the id it has or gives it up; once `sent` has been swept, it gives
   up an id, or gets past the write, only when nothing is registered under the id.
   */
  ghost predicate KeepsId(s: State, sent: map<Id, Job>, t: Tid, p: Pc) {
    && (HasId(p) ==> t in s.threads && HasId(s.threads[t]) && s.threads[t].id == p.id && s.threads[t].job == p.job)
    && (p.Written? && IsSwapped(s.fail) ==> s.threads[t].Written?)
    && (IsSwapped(s.fail) && t in s.threads && HasId(s.threads[t]) && !s.threads[t].Written? ==>
          (s.threads[t].id in sent ==> HasId(p) && !p.Written?))
  }

  lemma MoveIds(s: State, s': State, t: Tid, p: Pc)
    requires Ids(s) && Swept(s) && KeepsId(s, s'.sent, t, p)
    requires s'.threads == s.threads[t := p] && s'.nextId == s.nextId && s'.fail == s.fail
    requires forall id :: id in s'.sent ==> id in s.sent && s'.sent[id] == s.sent[id]
    ensures Ids(s') && Swept(s')
  {
    MoveKeepsIds(s, s', t, p);
    MoveKeepsSwept(s, s', t, p);
    hide Ids, Swept, KeepsId;
  }

  lemma MoveKeepsIds(s: State, s': State, t: Tid, p: Pc)
    requires Ids(s) && KeepsId(s, s'.sent, t, p)
    requires s'.threads == s.threads[t := p] && s'.nextId == s.nextId
    requires forall id :: id in s'.sent ==> id in s.sent && s'.sent[id] == s.sent[id]
    ensures Ids(s')
  {
  }

  lemma MoveKeepsSwept(s: State, s': State, t: Tid, p: Pc)
    requires Swept(s) && KeepsId(s, s'.sent, t, p)
    requires s'.threads == s.threads[t := p] && s'.fail == s.fail && s'.sent.Keys <= s.sent.Keys
    ensures Swept(s')
  {
    if IsSwapped(s'.fail) {
      forall id | id in s'.sent
        ensures exists u :: u in s'.threads && HasId(s'.threads[u]) && !s'.threads[u].Written? && s'.threads[u].id == id
      {
        var u :| u in s.threads && HasId(s.threads[u]) && !s.threads[u].Written? && s.threads[u].id == id;
        assert s'.threads[u] == if u == t then p else s.threads[u];
      }
    }
  }

  /** A step that only moves a goroutine, without any change of custody. */
  lemma MoveKeeps(s: State, t: Tid, p: Pc)
    requires Inv(s) && Content(s, ByThread(t)) == Custody(p) && KeepsId(s, s.sent, t, p)
    ensures Inv(Goto(s, t, p))
  {
    var s' := Goto(s, t, p);
    hide Custody, Ids, Swept, KeepsId, Accounted;
    MoveIds(s, s', t, p);
    HeldSame(s, s');
    assert Accounted(s') by { AccountsSame(s, s'); }
  }

  lemma AccountsSame(s: State, s': State)
    requires Accounted(s) && s'.holder.Keys == s.holder.Keys && s'.results == s.results && s'.submitted == s.submitted
    requires s'.dropped == s.dropped
    ensures Accounted(s')
  {
  }

  lemma SubmitKeeps(s: State, t: Tid, p: Pc, cs: set<Call>)
    requires Inv(s) && t !in s.threads && Custody(p) == cs && !HasId(p) && cs !! s.submitted
    ensures Inv(Goto(s, t, p).(submitted := s.submitted + cs, holder := Rehold(s.holder, cs, ByThread(t))))
  {
    var s' := Goto(s, t, p).(submitted := s.submitted + cs, holder := Rehold(s.holder, cs, ByThread(t)));
    hide Custody, Ids, Swept;
    MoveIds(s, s', t, p);
    HeldEnter(s, s', cs, ByThread(t));
  }

  /** A goroutine throws away the calls it has. */
  lemma DropKeeps(s: State, t: Tid, p: Pc)
    requires Inv(s) && t in s.threads && !HasId(s.threads[t]) && Custody(p) == {} && !HasId(p)
    ensures Inv(Goto(Drop(s, Custody(s.threads[t])), t, p))
  {
    var cs := Custody(s.threads[t]);
    var s' := Goto(Drop(s, cs), t, p);
    hide Custody, Ids, Swept;
    MoveIds(s, s', t, p);
    HeldLeave(s, s', cs, ByThread(t));
  }

  lemma HandoverHeld(s: State, t: Tid, u: Tid)
    requires Held(s) && At(s, t) && At(s, u) && s.threads[t].QueueMany? && s.threads[u].Batch?
    ensures Held(AfterHandover(s, t, u)) && AfterHandover(s, t, u).holder.Keys == s.holder.Keys
  {
    HeldMove(s, AfterHandover(s, t, u), s.threads[t].cs, ByThread(t), ByThread(u));
  }

  lemma HandoverIds(s: State, t: Tid, u: Tid)
    requires Ids(s) && Swept(s) && At(s, t) && At(s, u) && s.threads[t].QueueMany? && s.threads[u].Batch?
    ensures Ids(AfterHandover(s, t, u)) && Swept(AfterHandover(s, t, u))
  {
    var s', mid := AfterHandover(s, t, u), Goto(s, t, Exited);
    hide Ids, Swept;
    MoveIds(s, mid, t, Exited);
    MoveIds(mid, s', u, s'.threads[u]);
  }

  lemma HandoverKeeps(s: State, t: Tid, u: Tid)
    requires Inv(s) && At(s, t) && At(s, u) && s.threads[t].QueueMany? && s.threads[u].Batch?
    ensures Inv(AfterHandover(s, t, u))
  {
    hide Held, Ids, Swept, Accounted;
    HandoverHeld(s, t, u);
    HandoverIds(s, t, u);
    AccountsSame(s, AfterHandover(s, t, u));
  }

  lemma RegisterHeld(s: State, t: Tid, stale: set<Call>)
    requires Held(s) && s.nextId !in s.sent && At(s, t) && s.threads[t].Marshal? && stale <= s.threads[t].job.calls
    ensures Held(AfterRegister(s, t, stale)) && AfterRegister(s, t, stale).holder.Keys == s.holder.Keys - stale
    ensures stale <= s.holder.Keys
  {
    var s', p := AfterRegister(s, t, stale), s.threads[t];
    var job := p.job.(calls := p.job.calls - stale);
    var mid := Goto(Drop(s, stale), t, Marshal(job, p.who));
    HeldLeave(s, mid, stale, ByThread(t));
    hide Held;
    HeldMove(mid, s', job.calls, ByThread(t), InSent(s.nextId));
  }

  /** registerRPC: the calls still worth sending pass from the sender to `sent`. */
  lemma RegisterKeeps(s: State, t: Tid, stale: set<Call>)
    requires Inv(s) && At(s, t) && s.threads[t].Marshal? && stale <= s.threads[t].job.calls * s.expired
    ensures Inv(AfterRegister(s, t, stale))
  {
    assert s.nextId !in s.sent;
    hide Held, Ids, Swept;
    RegisterIds(s, t, stale);
    RegisterHeld(s, t, stale);
  }

  lemma RegisterIds(s: State, t: Tid, stale: set<Call>)
    requires Ids(s) && Swept(s) && At(s, t) && s.threads[t].Marshal?
    ensures var s' := AfterRegister(s, t, stale); Ids(s') && Swept(s')
  {
    var s' := AfterRegister(s, t, stale);
    if IsSwapped(s'.fail) {
      forall id | id in s'.sent
        ensures exists u :: u in s'.threads && HasId(s'.threads[u]) && !s'.threads[u].Written? && s'.threads[u].id == id
      {
        if id == s.nextId {
          assert s'.threads[t].id == id;
        } else {
          var u :| u in s.threads && HasId(s.threads[u]) && !s.threads[u].Written? && s.threads[u].id == id;
          assert u != t && s'.threads[u] == s.threads[u];
        }
      }
    }
  }

  /** unregisterRPC by the sender: it answers exactly if it is the one who takes the rpc out. */
  lemma TakeKeeps(s: State, t: Tid)
    requires Inv(s) && At(s, t) && s.threads[t].Unregister?
    ensures Inv(AfterTake(s, t))
    ensures Custody(AfterTake(s, t).threads[t]) == Content(s, InSent(s.threads[t].id))
    ensures s.threads[t].id !in AfterTake(s, t).sent
  {
    var s', p := AfterTake(s, t), s.threads[t];
    if p.id in s.sent {
      assert s.sent[p.id] == p.job;
      assert Custody(p) == {} && Custody(s'.threads[t]) == p.job.calls;
      hide Custody, Ids, Swept, Accounted;
      MoveIds(s, s', t, s'.threads[t]);
      HeldMove(s, s', p.job.calls, InSent(p.id), ByThread(t));
      assert Accounted(s') by { AccountsSame(s, s'); }
    } else {
      MoveKeeps(s, t, Resume(p.who));
    }
  }

  lemma ResponseKeeps(s: State, t: Tid, id: Id)
    requires Inv(s) && At(s, t) && s.threads[t].Receive?
    ensures Inv(AfterResponse(s, t, id))
  {
    var s' := AfterResponse(s, t, id);
    if id in s.sent {
      assert Custody(s.threads[t]) == {} && Custody(s'.threads[t]) == s.sent[id].calls;
      hide Custody, Ids, Swept, Accounted;
      MoveIds(s, s', t, s'.threads[t]);
      HeldMove(s, s', s.sent[id].calls, InSent(id), ByThread(t));
      assert Accounted(s') by { AccountsSame(s, s'); }
    } else {
      MoveKeeps(s, t, Broken);
    }
  }

  /** A result goes only to a call in custody, so it is the first one. */
  lemma AnswerKeeps(s: State, t: Tid, c: Call)
    requires Inv(s) && At(s, t) && (s.threads[t].Refuse? || s.threads[t].Answer? || s.threads[t].Dispatch?)
    requires c in s.threads[t].todo
    ensures Inv(AfterAnswer(s, t, c))
  {
    var s', p := AfterAnswer(s, t, c), s.threads[t];
    hide Ids, Swept;
    MoveIds(s, s', t, s'.threads[t]);
    AnswerHeld(s, t, c);
    hide Held;
  }

  lemma AnswerHeld(s: State, t: Tid, c: Call)
    requires Held(s) && At(s, t) && (s.threads[t].Refuse? || s.threads[t].Answer? || s.threads[t].Dispatch?)
    requires c in s.threads[t].todo
    ensures Held(AfterAnswer(s, t, c)) && c in s.holder
  {
    HeldLeave(s, AfterAnswer(s, t, c), {c}, ByThread(t));
  }

  lemma SwapKeeps(s: State)
    requires Inv(s) && s.fail.ConnClosed?
    ensures Inv(AfterSwap(s))
    ensures forall c :: c in Content(AfterSwap(s), ByFail) <==> exists id :: c in Content(s, InSent(id))
    ensures forall t :: Content(AfterSwap(s), ByThread(t)) == Content(s, ByThread(t))
  {
    var s' := AfterSwap(s);
    assert Content(s, ByFail) == {};
    forall c | c in AllSent(s.sent)
      ensures c in s.holder && s.holder[c].InSent?
    {
      var id :| id in s.sent && c in s.sent[id].calls;
      assert c in Content(s, InSent(id));
    }
    forall h, c
      ensures c in Content(s', h) <==> c in s'.holder && s'.holder[c] == h
    {
      assert c in Content(s, h) <==> c in s.holder && s.holder[c] == h;
      if c in s.holder && s.holder[c].InSent? { assert c in Content(s, s.holder[c]); }
    }
    AccountsSame(s, s');
  }

  lemma FailOneKeeps(s: State, c: Call)
    requires Inv(s) && s.fail.Draining? && c in s.fail.todo
    ensures Inv(Send(s, c).(fail := Draining(s.fail.todo - {c})))
  {
    var s' := Send(s, c).(fail := Draining(s.fail.todo - {c}));
    hide Custody;
    HeldLeave(s, s', {c}, ByFail);
  }

  lemma FailPhaseKeeps(s: State, a: Step)
    requires Inv(s) && Enabled(s, a) && (a.FailStart? || a.FailCut? || a.FailEnd? || a.Expire?)
    ensures Inv(Next(s, a))
  {
    hide Custody;
    HeldSame(s, Next(s, a));
  }

  /** The invariant is inductive. */
  lemma NextKeepsInv(s: State, a: Step)
    requires Inv(s) && Enabled(s, a)
    ensures Inv(Next(s, a))
  {
    hide Inv, AfterHandover, AfterRegister, AfterTake, AfterAnswer, AfterResponse, AfterInFlightDown, AfterSwap;
    match a
    case SubmitOne(t, c) => SubmitKeeps(s, t, QueueOne(c), {c});
    case SubmitMany(t, cs) => SubmitKeeps(s, t, QueueMany(cs), cs);
    case GiveUp(t) => DropKeeps(s, t, Exited);
    case GiveUpBatch(t) => DropKeeps(s, t, Exited);
    case Handover(t, u) => HandoverKeeps(s, t, u);
    case Register(t, stale) => RegisterKeeps(s, t, stale);
    case Take(t) => TakeKeeps(s, t);
    case AnswerOne(t, c) => AnswerKeeps(s, t, c);
    case Response(t, id) => ResponseKeeps(s, t, id);
    case InFlightDown(t, ok) => InFlightDownKeeps(s, t, ok);
    case FailSwap => SwapKeeps(s);
    case FailOne(c) => FailOneKeeps(s, c);
    case FailStart => FailPhaseKeeps(s, a);
    case FailCut => FailPhaseKeeps(s, a);
    case FailEnd => FailPhaseKeeps(s, a);
    case Expire(_) => FailPhaseKeeps(s, a);
    case _ => if IsQueueMove(a) { QueueMoveKeeps(s, a); } else { SenderMoveKeeps(s, a); }
  }

  predicate IsQueueMove(a: Step) {
    a.StartBatcher? || a.StartReceiver? || a.RefuseAll? || a.Accept? || a.Flush? || a.BadRead? || a.ReceiveStop?
  }

  lemma QueueMoveKeeps(s: State, a: Step)
    requires Inv(s) && Enabled(s, a) && IsQueueMove(a)
    ensures Inv(Next(s, a))
  {
    hide Inv, AfterHandover, AfterRegister, AfterTake, AfterAnswer, AfterResponse, AfterInFlightDown, AfterSwap;
    var p := Next(s, a).threads[a.t];
    assert Next(s, a) == Goto(s, a.t, p);
    MoveKeeps(s, a.t, p);
  }

  lemma InFlightDownKeeps(s: State, t: Tid, ok: bool)
    requires Inv(s) && At(s, t) && s.threads[t].Got?
    ensures Inv(AfterInFlightDown(s, t, ok))
  {
    var job := s.threads[t].job;
    hide Inv;
    if !ok {
      DropKeeps(s, t, Broken);
    } else if !job.multi && job.calls <= s.expired {
      DropKeeps(s, t, Receive);
    } else {
      MoveKeeps(s, t, Dispatch(job.calls));
    }
  }

  lemma SenderMoveKeeps(s: State, a: Step)
    requires Inv(s) && Enabled(s, a)
    requires a.Write? || a.WriteError? || a.InFlightUp? || a.AfterFail? || a.AnswerEnd?
    ensures Inv(Next(s, a))
  {
    hide Inv, AfterHandover, AfterRegister, AfterTake, AfterAnswer, AfterResponse, AfterInFlightDown, AfterSwap;
    var p := Next(s, a).threads[a.t];
    assert Next(s, a) == Goto(s, a.t, p);
    MoveKeeps(s, a.t, p);
  }

  // ----- Whole runs

  ghost predicate IsRun(states: seq<State>, steps: seq<Step>) {
    && |states| == |steps| + 1 && Init(states[0])
    && forall i :: 0 <= i < |steps| ==> Enabled(states[i], steps[i]) && states[i + 1] == Next(states[i], steps[i])
  }

  lemma {:induction false} RunInv(states: seq<State>, steps: seq<Step>)
    requires IsRun(states, steps)
    ensures Inv(states[|steps|])
  {
    if steps == [] {
      assert forall h :: Content(states[0], h) == {};
    } else {
      hide Next, Enabled, Inv;
      var n := |steps| - 1;
      assert IsRun(states[..n + 1], steps[..n]);
      RunInv(states[..n + 1], steps[..n]);
      NextKeepsInv(states[n], steps[n]);
    }
  }

  /** The places a call can be in: with one holder, answered, or dropped. */
  datatype Place = With(h: Holder) | Answered | Dropped

  predicate IsIn(s: State, c: Call, p: Place) {
    match p
    case With(h) => c in Content(s, h)
    case Answered => c in s.results
    case Dropped => c in s.dropped
  }

  /** In every run, every call that was submitted is in exactly one place. */
  lemma ExactlyOnePlace(states: seq<State>, steps: seq<Step>, c: Call) returns (p: Place)
    requires IsRun(states, steps) && c in states[|steps|].submitted
    ensures IsIn(states[|steps|], c, p)
    ensures forall q :: IsIn(states[|steps|], c, q) ==> q == p
  {
    var s := states[|steps|];
    RunInv(states, steps);
    hide IsRun, Content;
    p := if c in s.results then Answered else if c in s.dropped then Dropped else With(s.holder[c]);
    assert forall h :: c in Content(s, h) <==> c in s.holder && s.holder[c] == h;
  }

  /** No call gets two results, so no send on a result channel, whose capacity is one, blocks. */
  lemma AtMostOneResult(states: seq<State>, steps: seq<Step>, c: Call)
    requires IsRun(states, steps) && c in states[|steps|].results
    ensures states[|steps|].results[c] == 1
  {
    RunInv(states, steps);
  }

  /** When the client has failed and its goroutines are done, nobody waits: every call was answered or dropped. */
  lemma NothingStranded(states: seq<State>, steps: seq<Step>, c: Call)
    requires IsRun(states, steps) && c in states[|steps|].submitted && states[|steps|].fail.Failed?
    requires var threads := states[|steps|].threads;
      forall t :: t in threads ==> threads[t].Exited? || threads[t].Broken?
    ensures c in states[|steps|].results || c in states[|steps|].dropped
  {
    var s := states[|steps|];
    RunInv(states, steps);
    hide IsRun;
    var last := if c in s.holder then Content(s, s.holder[c]) else {};
    assert forall t :: t in s.threads ==> !HasId(s.threads[t]);
    assert s.sent == map[];
    assert forall h :: Content(s, h) == {};
  }
}
