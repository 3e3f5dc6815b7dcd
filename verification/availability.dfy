/**
 Region availability and re-establishment (rpc.go, with the primitives of region/info.go) as an
 interleaving of goroutines. `Local` is the program of one goroutine, one shared access at a time;
 `Effect` says what the access does to the shared state. `owner` is bookkeeping: it names the
 goroutine that has taken on to make an unavailable region available again. The establisher of an ordinary
 region looks it up by an rpc to the meta region, and so runs the program of an rpc within its own.
 */
module Availability {
  import opened Bytes
  import opened RegionInfo

  type Ref = nat
  type Tid = nat

  /** Who runs an rpc: its caller, or the establisher of `r`, which looks `r` up in the meta region. */
  datatype Back = Top | ForLookup(r: Ref)

  /** Where clientDown returns to: an rpc, or the establisher of a region. */
  datatype Cont = ToRpc(back: Back) | ToEstablish(r: Ref)

  /** getRegionAndClientForRPC and handleResultError. */
  datatype RpcPc =
    | Idle
    | Looked(r: Ref)
    | WaitFirst(r: Ref, ch: Channel)
    | ReadFirst(r: Ref)
    | NoClient(r: Ref)
    | SpawnRpc(r: Ref)
    | Recheck(r: Ref)
    | WaitSecond(r: Ref, ch: Channel)
    | CheckDead(r: Ref)
    | ReadSecond(r: Ref)
    | Sent(r: Ref, c: ClientId)
    | NotServing(r: Ref)
    | SpawnNotServing(r: Ref)

  /** findRegion. */
  datatype FindPc =
    | Find
    | FindPut(r: Ref)
    | FindDelete(r: Ref, todo: set<Ref>)
    | FindSpawn(r: Ref)

  /** clientDown. */
  datatype DownPc =
    | Down(c: ClientId, r: Ref)
    | DownMark(todo: set<Ref>)
    | DownClear(r: Ref, todo: set<Ref>)
    | DownSpawn(r: Ref, todo: set<Ref>)

  /** reestablishRegion and establishRegion. */
  datatype EstPc =
    | Reestablish(r: Ref)
    | Establish(r: Ref, addr: bool)
    | Lookup(r: Ref)
    | LookedUp(r: Ref)
    | Gone(r: Ref)
    | GoneClients(r: Ref)
    | PutNew(r: Ref, n: Ref)
    | RejectNew(r: Ref, n: Ref)
    | DeleteOld(r: Ref, n: Ref, todo: set<Ref>)
    | Swap(r: Ref, n: Ref)
    | GetClient(r: Ref)
    | Dial(r: Ref, c: ClientId)
    | Probe(r: Ref, c: ClientId)
    | SetIt(r: Ref, c: ClientId)
    | Wake(r: Ref)

  datatype Pc =
    | Rpc(rpc: RpcPc, back: Back)
    | Finding(find: FindPc)
    | Downing(down: DownPc, cont: Cont)
    | Est(est: EstPc)
    | Exited

  /** What comes of an rpc that was given to a region client. */
  datatype Answer = Success | Retryable | NotServingError | ServerError | ContextEnded

  datatype Effect =
    | Nothing
    | Answered(r: Ref, answer: Answer, admin: bool)
    | Dialed(r: Ref, ok: bool, admin: bool)
    | Mark(r: Ref, created: bool)               // MarkUnavailable
    | Release(r: Ref)                           // MarkAvailable
    | Go(r: Ref, start: EstPc)                  // the go statement
    | New(r: Ref)                               // an info from meta, at once marked unavailable
    | Put(r: Ref, evicted: set<Ref>)            // regions.put that replaced
    | Discard(r: Ref)                           // the garbage left by a put that did not replace
    | CacheDelete(r: Ref, out: set<Ref>)        // regions.del: what is cached under r's name leaves the cache
    | ClientsDelete(r: Ref)
    | ClientsPut(r: Ref, c: ClientId)
    | ClientsDown(c: ClientId, rs: set<Ref>)
    | SetClient(r: Ref, client: Option<ClientId>)
    | SeeChannel(r: Ref, channel: Option<Channel>)
    | SeeClient(r: Ref, client: Option<ClientId>)
    | SeeDead(r: Ref, dead: bool)
    | SeeCached(r: Ref)
    | SeeMeta(r: Ref)
    | SeeKind(r: Ref, special: bool)
    | SeeAdmin(r: Ref)
    | SeeClosed(ch: Channel)
    | SeeDone(r: Ref)                           // gives up on r because the gohbase client was closed

  /** The regions a goroutine is responsible for. */
  function Owned(p: Pc): set<Ref> {
    match p
    case Rpc(x, back) => (if Spawns(x) then {x.r} else {}) + OwnedBack(back)
    case Finding(x) => if x.Find? then {} else {x.r}
    case Downing(x, cont) => (if x.DownClear? || x.DownSpawn? then {x.r} else {}) + OwnedAfter(cont)
    case Est(x) => {x.r} + (if HasNew(x) then {x.n} else {})
    case Exited => {}
  }

  function OwnedBack(b: Back): set<Ref> {
    if b.Top? then {} else {b.r}
  }

  function OwnedAfter(k: Cont): set<Ref> {
    if k.ToRpc? then OwnedBack(k.back) else {k.r}
  }

  predicate Spawns(x: RpcPc) {
    x.SpawnRpc? || x.SpawnNotServing?
  }

  predicate HasNew(x: EstPc) {
    x.PutNew? || x.RejectNew? || x.DeleteOld? || x.Swap?
  }

  function Return(k: Cont): Pc {
    if k.ToRpc? then Rpc(Idle, k.back) else Est(Establish(k.r, false))
  }

  /** When the context of an rpc ends: a lookup is tried again, until the region is dead or the client closed. */
  function Leave(b: Back): Pc {
    if b.Top? then Exited else Est(Lookup(b.r))
  }

  /** When an rpc has its answer. */
  function Finish(b: Back): Pc {
    if b.Top? then Exited else Est(LookedUp(b.r))
  }

  /** Infos that only this goroutine has seen so far. */
  function Private(p: Pc): set<Ref> {
    match p
    case Finding(x) => if x.FindPut? then {x.r} else {}
    case Est(x) => if x.PutNew? || x.RejectNew? then {x.n} else {}
    case _ => {}
  }

  /** The infos that a goroutine holds a pointer to and shares with others. */
  function Pointers(p: Pc): set<Ref> {
    match p
    case Rpc(x, back) => (if x.Idle? then {} else {x.r}) + OwnedBack(back)
    case Finding(x) => if x.FindDelete? then {x.r} + x.todo else if x.FindSpawn? then {x.r} else {}
    case Downing(x, cont) =>
      (if x.DownMark? then {} else {x.r}) + (if x.Down? then {} else x.todo) + OwnedAfter(cont)
    case Est(x) =>
      {x.r} + (if x.DeleteOld? || x.Swap? then {x.n} else {}) + (if x.DeleteOld? then x.todo else {})
    case Exited => {}
  }

  /** A goroutine that owns two infos owns two different ones. */
  predicate Distinct(p: Pc) {
    match p
    case Rpc(x, back) => Spawns(x) ==> x.r !in OwnedBack(back)
    case Downing(x, cont) => x.DownClear? || x.DownSpawn? ==> x.r !in OwnedAfter(cont)
    case Est(x) => HasNew(x) ==> x.r != x.n
    case _ => true
  }

  /** handleResultError, and the retries of SendRPC. */
  function AfterAnswer(r: Ref, c: ClientId, back: Back, answer: Answer, admin: bool): Pc {
    match answer
    case Success => Finish(back)
    case Retryable => Rpc(Idle, back)
    case NotServingError => Rpc(NotServing(r), back)
    case ServerError => if admin then Rpc(NotServing(r), back) else Downing(Down(c, r), ToRpc(back))
    case ContextEnded => Leave(back)
  }

  predicate RpcStep(p: RpcPc, back: Back, e: Effect, q: Pc) {
    match p
    case Idle =>
      if back.Top? then
        || (e.SeeCached? && q == Rpc(Looked(e.r), Top))
        || (e.Nothing? && (q == Finding(Find) || q.Exited?))
      else
        || (e.SeeMeta? && q == Rpc(Looked(e.r), back))
        || (e.Nothing? && q == Leave(back))
    case Looked(r) =>
      && e.SeeChannel? && e.r == r
      && q == Rpc(if e.channel.Some? then WaitFirst(r, e.channel.value) else ReadFirst(r), back)
    case WaitFirst(r, ch) =>
      || (e == SeeClosed(ch) && q == Rpc(ReadFirst(r), back))
      || (e.Nothing? && q == Leave(back))
    case ReadFirst(r) =>
      && e.SeeClient? && e.r == r
      && q == Rpc(if e.client.Some? then Sent(r, e.client.value) else NoClient(r), back)
    case NoClient(r) =>
      e.Mark? && e.r == r && q == Rpc(if e.created then SpawnRpc(r) else Recheck(r), back)
    case SpawnRpc(r) => e == Go(r, Reestablish(r)) && q == Rpc(Recheck(r), back)
    case Recheck(r) =>
      && e.SeeChannel? && e.r == r
      && q == Rpc(if e.channel.Some? then WaitSecond(r, e.channel.value) else CheckDead(r), back)
    case WaitSecond(r, ch) =>
      || (e == SeeClosed(ch) && q == Rpc(CheckDead(r), back))
      || (e.Nothing? && q == Leave(back))
    case CheckDead(r) =>
      e.SeeDead? && e.r == r && q == Rpc(if e.dead then Idle else ReadSecond(r), back)
    case ReadSecond(r) =>
      && e.SeeClient? && e.r == r
      && q == Rpc(if e.client.Some? then Sent(r, e.client.value) else Idle, back)
    case Sent(r, c) => e.Answered? && e.r == r && q == AfterAnswer(r, c, back, e.answer, e.admin)
    case NotServing(r) =>
      e.Mark? && e.r == r && q == Rpc(if e.created then SpawnNotServing(r) else Idle, back)
    case SpawnNotServing(r) => e == Go(r, Reestablish(r)) && q == Rpc(Idle, back)
  }

  predicate FindStep(p: FindPc, e: Effect, q: Pc) {
    match p
    case Find =>
      || (e.Nothing? && q.Exited?)
      || (e.New? && q == Finding(FindPut(e.r)))
    case FindPut(r) =>
      || (e == Discard(r) && q == Rpc(Idle, Top))
      || (e.Put? && e.r == r && q == Finding(FindDelete(r, e.evicted)))
    case FindDelete(r, todo) =>
      || (todo == {} && e.Nothing? && q == Finding(FindSpawn(r)))
      || (e.ClientsDelete? && e.r in todo && q == Finding(FindDelete(r, todo - {e.r})))
    case FindSpawn(r) => e == Go(r, Establish(r, true)) && q == Rpc(Looked(r), Top)
  }

  predicate DownStep(p: DownPc, cont: Cont, e: Effect, q: Pc) {
    match p
    case Down(c, r) =>
      e.ClientsDown? && e.c == c && q == Downing(DownMark(e.rs + {r}), cont)
    case DownMark(todo) =>
      || (todo == {} && e.Nothing? && q == Return(cont))
      || (e.Mark? && e.r in todo &&
          q == Downing(if e.created then DownClear(e.r, todo - {e.r}) else DownMark(todo - {e.r}), cont))
    case DownClear(r, todo) => e == SetClient(r, None) && q == Downing(DownSpawn(r, todo), cont)
    case DownSpawn(r, todo) => e == Go(r, Reestablish(r)) && q == Downing(DownMark(todo), cont)
  }

  function AfterDial(r: Ref, c: ClientId, ok: bool, admin: bool): Pc {
    if !ok then Downing(Down(c, r), ToEstablish(r)) else Est(if admin then SetIt(r, c) else Probe(r, c))
  }

  /** isRegionEstablished: only three errors mean that the region is not there. */
  function AfterProbe(r: Ref, c: ClientId, answer: Answer): Pc {
    match answer
    case ServerError => Downing(Down(c, r), ToEstablish(r))
    case NotServingError => Est(Establish(r, false))
    case Retryable => Est(Establish(r, false))
    case _ => Est(SetIt(r, c))
  }

  predicate EstStep(p: EstPc, e: Effect, q: Pc) {
    match p
    case Reestablish(r) =>
      || (e == SeeDone(r) && q.Exited?)
      || (e.Nothing? && q == Est(Establish(r, false)))
    case Establish(r, addr) =>
      || (e == SeeDead(r, true) && q == Est(Wake(r)))
      || (e.Nothing? && q == Est(if addr then GetClient(r) else Lookup(r)))
    case Lookup(r) =>     // the meta and the admin region in ZooKeeper, any other by an rpc to the meta region
      || (e.SeeKind? && e.r == r && q == if e.special then Est(GetClient(r)) else Rpc(Idle, ForLookup(r)))
      || (e == SeeDead(r, true) && q == Est(Wake(r)))
      || (e == SeeDone(r) && q.Exited?)
    case LookedUp(r) =>
      || (e.Nothing? && (q == Est(Gone(r)) || q == Est(GetClient(r))))
      || (e == SeeDead(r, true) && q == Est(Wake(r)))
      || (e.New? && q == Est(PutNew(r, e.r)))
    case Gone(r) => e.CacheDelete? && e.r == r && q == Est(GoneClients(r))
    case GoneClients(r) => e == ClientsDelete(r) && q == Est(Wake(r))
    case PutNew(r, n) =>
      || (e.Nothing? && q == Est(RejectNew(r, n)))
      || (e.Put? && e.r == n && q == Est(DeleteOld(r, n, e.evicted)))
    case RejectNew(r, n) => e == Release(n) && q == Est(Wake(r))
    case DeleteOld(r, n, todo) =>
      || (todo == {} && e.Nothing? && q == Est(Swap(r, n)))
      || (e.ClientsDelete? && e.r in todo && q == Est(DeleteOld(r, n, todo - {e.r})))
    case Swap(r, n) => e == Release(r) && q == Est(GetClient(n))
    case GetClient(r) =>
      || (e.ClientsPut? && e.r == r && q == Est(Dial(r, e.c)))
      || (e == SeeAdmin(r) && q.Est? && q.est.Dial? && q.est.r == r)     // the admin region's own connection
    case Dial(r, c) =>
      || (e.Dialed? && e.r == r && q == AfterDial(r, c, e.ok, e.admin))
      || (e == SeeDead(r, true) && q == Est(Wake(r)))
    case Probe(r, c) => e.Answered? && e.r == r && q == AfterProbe(r, c, e.answer)
    case SetIt(r, c) => e == SetClient(r, Some(c)) && q == Est(Wake(r))
    case Wake(r) => e == Release(r) && q.Exited?
  }

  /** One step of a goroutine: from `p`, with shared access `e`, to `q`. */
  predicate Local(p: Pc, e: Effect, q: Pc) {
    match p
    case Rpc(x, back) => RpcStep(x, back, e, q)
    case Finding(x) => FindStep(x, e, q)
    case Downing(x, cont) => DownStep(x, cont, e, q)
    case Est(x) => EstStep(x, e, q)
    case Exited => false
  }

  datatype Shared = Shared(
    infos: map<Ref, Status>,
    special: set<Ref>,              // the meta and the admin region, which no cache holds
    meta: Ref,
    cache: set<Ref>,
    clients: map<ClientId, set<Ref>>,
    published: set<Ref>,            // every info that was ever reachable from the client's caches
    closed: set<Channel>,
    nextChannel: Channel,
    done: bool,
    threads: map<Tid, Pc>,
    owner: map<Ref, Tid>,
    panicked: bool)                 // a nil channel was closed

  predicate Waiting(p: Pc) {
    p.Rpc? && (p.rpc.WaitFirst? || p.rpc.WaitSecond?)
  }

  predicate IsAdmin(s: Shared, r: Ref) {
    r in s.special && r != s.meta
  }

  /** The shared access is possible and sees what the effect says it sees. */
  predicate CanApply(s: Shared, e: Effect) {
    match e
    case Nothing => true
    case Mark(r, created) => r in s.infos && created == s.infos[r].available.None?
    case Release(r) => r in s.infos
    case Go(r, start) => true
    case New(r) => r !in s.infos && r !in s.published
    case Put(r, evicted) => evicted <= s.cache
    case Discard(r) => true
    case CacheDelete(r, out) => r in s.infos && out <= s.cache
    case ClientsDelete(r) => r in s.infos
    case ClientsPut(r, c) => true
    case ClientsDown(c, rs) => rs == if c in s.clients then s.clients[c] else {}
    case SetClient(r, c) => r in s.infos
    case SeeChannel(r, ch) => r in s.infos && ch == s.infos[r].available
    case SeeClient(r, c) => r in s.infos && c == s.infos[r].client
    case SeeDead(r, dead) => r in s.infos && dead == s.infos[r].dead
    case SeeCached(r) => r in s.cache || r in s.special
    case SeeMeta(r) => r == s.meta
    case SeeKind(r, special) => special == (r in s.special)
    case SeeAdmin(r) => IsAdmin(s, r)
    case Answered(r, _, admin) => admin == IsAdmin(s, r)
    case Dialed(r, _, admin) => admin == IsAdmin(s, r)
    case SeeClosed(ch) => ch in s.closed
    case SeeDone(_) => s.done
  }

  // What each access does to each part of the shared state.

  function InfosAfter(s: Shared, e: Effect): map<Ref, Status>
    requires CanApply(s, e)
  {
    match e
    case Mark(r, true) => s.infos[r := Unavailable(s.infos[r], s.nextChannel)]
    case New(r) => s.infos[r := Status(None, Some(s.nextChannel), false)]
    case Release(r) => s.infos[r := s.infos[r].(available := None)]
    case Put(_, evicted) => map r | r in s.infos :: if r in evicted then s.infos[r].(dead := true) else s.infos[r]
    case CacheDelete(r, _) => s.infos[r := s.infos[r].(dead := true)]
    case ClientsDelete(r) => s.infos[r := s.infos[r].(client := None)]
    case SetClient(r, c) => s.infos[r := s.infos[r].(client := c)]
    case _ => s.infos
  }

  function ClientsAfter(s: Shared, e: Effect): map<ClientId, set<Ref>>
    requires CanApply(s, e)
  {
    match e
    case ClientsPut(r, c) => s.clients[c := (if c in s.clients then s.clients[c] else {}) + {r}]
    case ClientsDown(c, _) => s.clients - {c}
    case ClientsDelete(r) =>
      (match s.infos[r].client
       case Some(c) => if c in s.clients then s.clients[c := s.clients[c] - {r}] else s.clients
       case None => s.clients)
    case _ => s.clients
  }

  function CacheAfter(cache: set<Ref>, e: Effect): set<Ref> {
    match e
    case Put(r, evicted) => cache - evicted + {r}
    case CacheDelete(_, out) => cache - out
    case _ => cache
  }

  function ClosedAfter(s: Shared, e: Effect): set<Channel>
    requires CanApply(s, e)
  {
    if e.Release? && s.infos[e.r].available.Some? then s.closed + {s.infos[e.r].available.value} else s.closed
  }

  /** Whether the access creates a channel. */
  predicate Creates(e: Effect) {
    e.New? || (e.Mark? && e.created)
  }

  function OwnerAfter(owner: map<Ref, Tid>, t: Tid, e: Effect, u: Tid): map<Ref, Tid> {
    match e
    case Mark(r, true) => owner[r := t]
    case New(r) => owner[r := t]
    case Release(r) => owner - {r}
    case Discard(r) => owner - {r}
    case SeeDone(r) => owner - {r}
    case Go(r, _) => owner[r := u]
    case _ => owner
  }

  function ThreadsAfter(threads: map<Tid, Pc>, t: Tid, e: Effect, q: Pc, u: Tid): map<Tid, Pc> {
    (if e.Go? then threads[u := Est(e.start)] else threads)[t := q]
  }

  /** The state after `t` moves to `q` with access `e`; `u` is the goroutine a go statement starts. */
  function Apply(s: Shared, t: Tid, e: Effect, q: Pc, u: Tid): Shared
    requires CanApply(s, e)
  {
    Shared(
      InfosAfter(s, e), s.special, s.meta, CacheAfter(s.cache, e), ClientsAfter(s, e),
      if e.Put? then s.published + {e.r} else s.published,
      ClosedAfter(s, e), if Creates(e) then s.nextChannel + 1 else s.nextChannel, s.done,
      ThreadsAfter(s.threads, t, e, q, u), OwnerAfter(s.owner, t, e, u),
      s.panicked || (e.Release? && s.infos[e.r].available.None?))
  }

  /** Steps of the system: a goroutine moves, a caller starts an rpc, or someone closes the client. */
  datatype Step =
    | Run(t: Tid, e: Effect, q: Pc, u: Tid)
    | Start(t: Tid)
    | CloseDone
    | CloseMark(r: Ref)

  predicate Enabled(s: Shared, a: Step) {
    match a
    case Run(t, e, q, u) =>
      && t in s.threads && Local(s.threads[t], e, q) && CanApply(s, e)
      && (e.Go? ==> u !in s.threads)
    case Start(t) => t !in s.threads
    case CloseDone => true
    case CloseMark(r) => s.done && r in s.infos && r in s.published
  }

  function Next(s: Shared, a: Step): Shared
    requires Enabled(s, a)
  {
    match a
    case Run(t, e, q, u) => Apply(s, t, e, q, u)
    case Start(t) => s.(threads := s.threads[t := Rpc(Idle, Top)])
    case CloseDone => s.(done := true)
    case CloseMark(r) =>
      var st := s.infos[r];
      s.(infos := s.infos[r := Unavailable(st, s.nextChannel).(client := None)], nextChannel := s.nextChannel + 1)
  }

  // ----- The invariant

  /** The owner map and the goroutines agree on who is responsible for what. */
  ghost predicate Matched(threads: map<Tid, Pc>, owner: map<Ref, Tid>) {
    && (forall t, r :: t in threads && r in Owned(threads[t]) ==> r in owner && owner[r] == t)
    && (forall r :: r in owner ==> owner[r] in threads && r in Owned(threads[owner[r]]))
    && (forall t :: t in threads ==> Distinct(threads[t]))
  }

  ghost predicate OwnInv(s: Shared) {
    && Matched(s.threads, s.owner)
    && (forall r :: r in s.owner ==> r in s.infos && s.infos[r].available.Some?)
  }

  /** Until the client is closed, a published region that is unavailable has an owner. */
  ghost predicate Covered(s: Shared) {
    !s.done ==> forall r :: r in s.published && r in s.infos && s.infos[r].available.Some? ==> r in s.owner
  }

  ghost predicate PointerInv(s: Shared) {
    && s.cache <= s.published && s.special <= s.published && s.published <= s.infos.Keys && s.meta in s.special
    && (forall c :: c in s.clients ==> s.clients[c] <= s.published)
    && (forall t :: t in s.threads ==> Pointers(s.threads[t]) <= s.published)
    && (forall t :: t in s.threads ==> Private(s.threads[t]) !! s.published)
  }

  ghost predicate ChannelInv(s: Shared) {
    && (forall r :: r in s.infos && s.infos[r].available.Some? ==>
          s.infos[r].available.value < s.nextChannel && s.infos[r].available.value !in s.closed)
    && (forall ch :: ch in s.closed ==> ch < s.nextChannel)
    && (forall r, q :: r in s.infos && q in s.infos && r != q && s.infos[r].available.Some? ==>
          s.infos[r].available != s.infos[q].available)
    && (forall t :: t in s.threads && Waiting(s.threads[t]) ==>
          var w := s.threads[t].rpc;
          w.r in s.infos && (w.ch in s.closed || s.infos[w.r].available == Some(w.ch)))
  }

  /** Only ordinary regions are looked up in the meta region, replaced, or deleted. */
  predicate KnowsSpecial(p: Pc, special: set<Ref>, meta: Ref) {
    match p
    case Rpc(x, back) => OwnedBack(back) !! special && (back.ForLookup? && !x.Idle? ==> x.r == meta)
    case Finding(x) => !x.Find? ==> x.r !in special && (x.FindDelete? ==> x.todo !! special)
    case Downing(x, cont) => cont.ToRpc? ==> OwnedBack(cont.back) !! special
    case Est(x) =>
      && (x.LookedUp? || x.Gone? || x.GoneClients? || HasNew(x) ==> x.r !in special)
      && (HasNew(x) ==> x.n !in special) && (x.DeleteOld? ==> x.todo !! special)
    case Exited => true
  }

  /** The meta and the admin region do not die, and until the client is closed they are released with a client. */
  ghost predicate SpecialInv(s: Shared) {
    && s.special !! s.cache && s.special <= s.infos.Keys
    && (forall r :: r in s.special ==> !s.infos[r].dead)
    && (forall t :: t in s.threads ==> KnowsSpecial(s.threads[t], s.special, s.meta))
    && (!s.done ==> forall t :: t in s.threads ==> WakesWithClient(s, s.threads[t]))
  }

  predicate WakesWithClient(s: Shared, p: Pc) {
    p.Est? && p.est.Wake? && p.est.r in s.special && p.est.r in s.infos ==> s.infos[p.est.r].client.Some?
  }

  ghost predicate Inv(s: Shared) {
    OwnInv(s) && Covered(s) && PointerInv(s) && ChannelInv(s) && SpecialInv(s) && !s.panicked
  }

  /** The client right after NewClient: two infos, for meta and for the master, and no goroutine. */
  ghost predicate Init(s: Shared) {
    && s.infos.Keys == s.published == s.special && s.meta in s.special && s.cache == {}
    && (forall r :: r in s.infos ==> s.infos[r] == Status(None, None, false))
    && s.clients == map[] && s.closed == {} && s.nextChannel == 0 && !s.done
    && s.threads == map[] && s.owner == map[] && !s.panicked
  }

  // ----- What one step of a goroutine does to its responsibilities and pointers

  /** How an effect changes what its goroutine is responsible for. */
  function Charge(own: set<Ref>, e: Effect): set<Ref> {
    match e
    case Mark(r, true) => own + {r}
    case New(r) => own + {r}
    case Release(r) => own - {r}
    case Discard(r) => own - {r}
    case SeeDone(r) => own - {r}
    case Go(r, _) => own - {r}
    case _ => own
  }

  predicate NeedsCharge(e: Effect) {
    e.Release? || e.Discard? || e.SeeDone? || e.Go? || e.Put?
  }

  ghost predicate OwnsRight(p: Pc, e: Effect, q: Pc) {
    && Distinct(q) && Owned(q) == Charge(Owned(p), e)
    && (NeedsCharge(e) ==> e.r in Owned(p))
    && (e.Go? ==> Owned(Est(e.start)) == {e.r} && Distinct(Est(e.start)))
    && (e.Discard? || e.Put? ==> e.r in Private(p))
  }

  /** The shared infos a goroutine learns of through an effect. */
  function Gains(e: Effect): set<Ref> {
    match e
    case SeeCached(r) => {r}
    case SeeMeta(r) => {r}
    case ClientsDown(_, rs) => rs
    case Put(r, evicted) => {r} + evicted
    case _ => {}
  }

  ghost predicate PointsRight(p: Pc, e: Effect, q: Pc) {
    && Pointers(q) <= Pointers(p) + Gains(e)
    && (if e.New? then Private(q) == {e.r} else if e.Put? then Private(q) == {} else Private(q) <= Private(p))
    && (e.Go? ==> Private(Est(e.start)) == {} && Pointers(Est(e.start)) == {e.r})
    && (e.Go? || e.ClientsPut? || e.Mark? ==> e.r in Pointers(p))
  }

  lemma RpcOwns(x: RpcPc, back: Back, e: Effect, q: Pc)
    requires RpcStep(x, back, e, q) && Distinct(Rpc(x, back))
    requires e.New? || (e.Mark? && e.created) ==> e.r !in Owned(Rpc(x, back))
    ensures OwnsRight(Rpc(x, back), e, q)
  {
    hide Private;
  }

  lemma RpcPoints(x: RpcPc, back: Back, e: Effect, q: Pc)
    requires RpcStep(x, back, e, q)
    ensures PointsRight(Rpc(x, back), e, q)
  {
  }

  lemma FindOwns(x: FindPc, e: Effect, q: Pc)
    requires FindStep(x, e, q) && Distinct(Finding(x))
    requires e.New? || (e.Mark? && e.created) ==> e.r !in Owned(Finding(x))
    ensures OwnsRight(Finding(x), e, q)
  {
  }

  lemma FindPoints(x: FindPc, e: Effect, q: Pc)
    requires FindStep(x, e, q)
    ensures PointsRight(Finding(x), e, q)
  {
  }

  lemma DownOwns(x: DownPc, cont: Cont, e: Effect, q: Pc)
    requires DownStep(x, cont, e, q) && Distinct(Downing(x, cont))
    requires e.New? || (e.Mark? && e.created) ==> e.r !in Owned(Downing(x, cont))
    ensures OwnsRight(Downing(x, cont), e, q)
  {
  }

  lemma DownPoints(x: DownPc, cont: Cont, e: Effect, q: Pc)
    requires DownStep(x, cont, e, q)
    ensures PointsRight(Downing(x, cont), e, q)
  {
  }

  lemma EstOwns(x: EstPc, e: Effect, q: Pc)
    requires EstStep(x, e, q) && Distinct(Est(x))
    requires e.New? || (e.Mark? && e.created) ==> e.r !in Owned(Est(x))
    ensures OwnsRight(Est(x), e, q)
  {
  }

  lemma EstPoints(x: EstPc, e: Effect, q: Pc)
    requires EstStep(x, e, q)
    ensures PointsRight(Est(x), e, q)
  {
  }

  lemma LocalRight(p: Pc, e: Effect, q: Pc)
    requires Local(p, e, q) && Distinct(p)
    requires e.New? || (e.Mark? && e.created) ==> e.r !in Owned(p)
    ensures OwnsRight(p, e, q) && PointsRight(p, e, q)
  {
    hide OwnsRight, PointsRight, RpcStep, FindStep, DownStep, EstStep, Distinct, Owned;
    match p
    case Rpc(x, back) => RpcOwns(x, back, e, q); RpcPoints(x, back, e, q);
    case Finding(x) => FindOwns(x, e, q); FindPoints(x, e, q);
    case Downing(x, cont) => DownOwns(x, cont, e, q); DownPoints(x, cont, e, q);
    case Est(x) => EstOwns(x, e, q); EstPoints(x, e, q);
  }

  lemma LocalWaits(p: Pc, e: Effect, q: Pc)
    requires Local(p, e, q) && Waiting(q)
    ensures e == SeeChannel(q.rpc.r, Some(q.rpc.ch))
  {
  }

  // ----- Every step keeps the invariant

  /** A step that respects ownership: what it gives up is its own, what it takes on has no owner. */
  ghost predicate Lawful(s: Shared, t: Tid, e: Effect, q: Pc, u: Tid) {
    && t in s.threads && CanApply(s, e) && (e.Go? ==> u !in s.threads)
    && OwnsRight(s.threads[t], e, q) && PointsRight(s.threads[t], e, q)
    && (NeedsCharge(e) ==> e.r in s.owner && s.owner[e.r] == t && e.r in s.infos && s.infos[e.r].available.Some?)
    && (Creates(e) ==> e.r !in s.owner)
    && (Waiting(q) ==> e == SeeChannel(q.rpc.r, Some(q.rpc.ch)))
  }

  lemma CreatedHasNoOwner(s: Shared, t: Tid, e: Effect)
    requires OwnInv(s) && CanApply(s, e) && Creates(e) && t in s.threads
    ensures e.r !in s.owner && e.r !in Owned(s.threads[t])
  {
    hide Owned, Distinct;
  }

  lemma RunLawful(s: Shared, t: Tid, e: Effect, q: Pc, u: Tid)
    requires OwnInv(s) && Enabled(s, Run(t, e, q, u))
    ensures Lawful(s, t, e, q, u)
  {
    hide OwnInv, Local, Owned, Distinct, PointsRight, Private, Pointers, Charge, CanApply;
    var p := s.threads[t];
    if Creates(e) { CreatedHasNoOwner(s, t, e); }
    IsDistinct(s, t);
    LocalRight(p, e, q);
    if Waiting(q) { LocalWaits(p, e, q); }
    if NeedsCharge(e) { SoleOwner(s, t, e.r); }
  }

  lemma IsDistinct(s: Shared, t: Tid)
    requires OwnInv(s) && t in s.threads
    ensures Distinct(s.threads[t])
  {
    hide Owned, Distinct;
  }

  lemma MatchedAfter(threads: map<Tid, Pc>, owner: map<Ref, Tid>, t: Tid, e: Effect, q: Pc, u: Tid)
    requires Matched(threads, owner) && t in threads && OwnsRight(threads[t], e, q)
    requires Creates(e) ==> e.r !in owner
    requires e.Go? ==> u !in threads
    ensures Matched(ThreadsAfter(threads, t, e, q, u), OwnerAfter(owner, t, e, u))
  {
    hide Owned, Distinct, Private;
    var threads', owner' := ThreadsAfter(threads, t, e, q, u), OwnerAfter(owner, t, e, u);
    assert NeedsCharge(e) ==> e.r in owner && owner[e.r] == t;
    forall x, r | x in threads' && r in Owned(threads'[x])
      ensures r in owner' && owner'[r] == x
    {
      if x == t {
        assert r in Charge(Owned(threads[t]), e);
      } else if e.Go? && x == u {
        assert r == e.r;
      } else {
        assert r in owner && owner[r] == x;
      }
    }
    forall r | r in owner'
      ensures owner'[r] in threads' && r in Owned(threads'[owner'[r]])
    {
    }
  }

  lemma InfosKept(s: Shared, e: Effect)
    requires CanApply(s, e)
    ensures s.infos.Keys <= InfosAfter(s, e).Keys
    ensures forall r :: r in InfosAfter(s, e) ==> r in s.infos || (e.New? && e.r == r)
    ensures forall r :: r in s.infos && !((Creates(e) || e.Release?) && e.r == r) ==>
      InfosAfter(s, e)[r].available == s.infos[r].available
    ensures Creates(e) ==> e.r in InfosAfter(s, e) && InfosAfter(s, e)[e.r].available == Some(s.nextChannel)
    ensures e.Release? ==> InfosAfter(s, e)[e.r].available.None?
  {
  }

  lemma OwnedStayUnavailable(s: Shared, t: Tid, e: Effect, u: Tid)
    requires CanApply(s, e) && (e.Go? ==> e.r in s.owner)
    requires forall r :: r in s.owner ==> r in s.infos && s.infos[r].available.Some?
    ensures forall r :: r in OwnerAfter(s.owner, t, e, u) ==>
      r in InfosAfter(s, e) && InfosAfter(s, e)[r].available.Some?
  {
    InfosKept(s, e);
    hide InfosAfter, CanApply;
    assert forall r :: r in OwnerAfter(s.owner, t, e, u) ==> r in s.owner || (Creates(e) && e.r == r);
    assert e.Release? ==> e.r !in OwnerAfter(s.owner, t, e, u);
  }

  lemma RunKeepsOwn(s: Shared, t: Tid, e: Effect, q: Pc, u: Tid)
    requires OwnInv(s) && Lawful(s, t, e, q, u)
    ensures OwnInv(Apply(s, t, e, q, u))
  {
    hide Matched, ThreadsAfter, OwnerAfter, PointsRight, OwnsRight, InfosAfter, CanApply;
    MatchedAfter(s.threads, s.owner, t, e, q, u);
    OwnedStayUnavailable(s, t, e, u);
  }

  lemma CoveredAfter(s: Shared, t: Tid, e: Effect, q: Pc, u: Tid)
    requires Covered(s) && CanApply(s, e)
    requires (e.Put? ==> e.r in s.owner) && (e.Discard? ==> e.r !in s.published)
    ensures Covered(Apply(s, t, e, q, u))
  {
    InfosKept(s, e);
    hide InfosAfter, CacheAfter, ClientsAfter, ThreadsAfter, ClosedAfter;
  }

  lemma RunKeepsCovered(s: Shared, t: Tid, e: Effect, q: Pc, u: Tid)
    requires OwnInv(s) && Covered(s) && PointerInv(s) && Lawful(s, t, e, q, u)
    ensures Covered(Apply(s, t, e, q, u))
  {
    assert (e.Put? ==> e.r in s.owner) && (e.Discard? ==> e.r !in s.published) by {
      hide Matched, Covered, Owned, Distinct, Pointers, PointsRight, CanApply, Private, Charge;
    }
    hide OwnInv, Covered, PointerInv, OwnsRight, PointsRight, CanApply, Apply;
    CoveredAfter(s, t, e, q, u);
  }

  lemma CachesPointRight(s: Shared, e: Effect)
    requires CanApply(s, e) && PointerInv(s) && (e.ClientsPut? ==> e.r in s.published) && (e.Put? ==> e.r in s.infos)
    ensures var published := if e.Put? then s.published + {e.r} else s.published;
      && CacheAfter(s.cache, e) <= published && published <= InfosAfter(s, e).Keys
      && (forall c :: c in ClientsAfter(s, e) ==> ClientsAfter(s, e)[c] <= published)
      && Gains(e) <= published
  {
    InfosKept(s, e);
    hide InfosAfter, Private, Pointers;
  }

  lemma ThreadsPointRight(s: Shared, t: Tid, e: Effect, q: Pc, u: Tid)
    requires PointerInv(s) && OwnInv(s) && Lawful(s, t, e, q, u)
    requires Gains(e) <= s.published + (if e.Put? then {e.r} else {})
    ensures
      var published := if e.Put? then s.published + {e.r} else s.published;
      var threads := ThreadsAfter(s.threads, t, e, q, u);
      && (forall x :: x in threads ==> Pointers(threads[x]) <= published)
      && (forall x :: x in threads ==> Private(threads[x]) !! published)
  {
    var published, threads := if e.Put? then s.published + {e.r} else s.published, ThreadsAfter(s.threads, t, e, q, u);
    hide Pointers, Private, OwnsRight, CanApply, Owned, Distinct;
    forall x | x in threads
      ensures Pointers(threads[x]) <= published && Private(threads[x]) !! published
    {
      if x != t && x in s.threads && e.Put? {
        PrivateOwned(s.threads[x]);
        assert e.r in Owned(s.threads[t]);
      }
    }
  }

  lemma PrivateOwned(p: Pc)
    ensures Private(p) <= Owned(p)
  {
  }

  lemma LawfulPoints(s: Shared, t: Tid, e: Effect, q: Pc, u: Tid)
    requires PointerInv(s) && Lawful(s, t, e, q, u)
    ensures CanApply(s, e) && (e.ClientsPut? ==> e.r in s.published) && (e.Put? ==> e.r in s.infos)
  {
    hide OwnsRight, Pointers, Private, CanApply, Gains, Waiting, Creates;
    assert Pointers(s.threads[t]) <= s.published;
  }

  lemma RunKeepsPointers(s: Shared, t: Tid, e: Effect, q: Pc, u: Tid)
    requires PointerInv(s) && OwnInv(s) && Lawful(s, t, e, q, u)
    ensures PointerInv(Apply(s, t, e, q, u))
  {
    hide OwnInv, Lawful, InfosAfter, Private, Pointers, ThreadsAfter, ClientsAfter, CacheAfter, Gains, CanApply;
    LawfulPoints(s, t, e, q, u);
    CachesPointRight(s, e);
    ThreadsPointRight(s, t, e, q, u);
  }

  lemma RunKeepsChannels(s: Shared, t: Tid, e: Effect, q: Pc, u: Tid)
    requires ChannelInv(s) && CanApply(s, e) && t in s.threads
    requires Waiting(q) ==> e == SeeChannel(q.rpc.r, Some(q.rpc.ch))
    ensures ChannelInv(Apply(s, t, e, q, u))
  {
    hide InfosAfter, CacheAfter, ClientsAfter, OwnerAfter;
    InfosKept(s, e);
    var s' := Apply(s, t, e, q, u);
    assert s'.closed == ClosedAfter(s, e) && s'.infos == InfosAfter(s, e);
  }

  lemma RpcKnows(s: Shared, x: RpcPc, back: Back, e: Effect, q: Pc)
    requires RpcStep(x, back, e, q) && CanApply(s, e) && KnowsSpecial(Rpc(x, back), s.special, s.meta)
    ensures KnowsSpecial(q, s.special, s.meta)
  {
  }

  lemma FindKnows(s: Shared, x: FindPc, e: Effect, q: Pc)
    requires FindStep(x, e, q) && CanApply(s, e) && KnowsSpecial(Finding(x), s.special, s.meta)
    requires s.special !! s.cache && s.special <= s.infos.Keys
    ensures KnowsSpecial(q, s.special, s.meta)
  {
  }

  lemma EstKnows(s: Shared, x: EstPc, e: Effect, q: Pc)
    requires EstStep(x, e, q) && CanApply(s, e) && KnowsSpecial(Est(x), s.special, s.meta)
    requires s.special !! s.cache && s.special <= s.infos.Keys
    ensures KnowsSpecial(q, s.special, s.meta)
  {
  }

  lemma LocalKnows(s: Shared, p: Pc, e: Effect, q: Pc)
    requires Local(p, e, q) && CanApply(s, e) && KnowsSpecial(p, s.special, s.meta)
    requires s.special !! s.cache && s.special <= s.infos.Keys
    ensures KnowsSpecial(q, s.special, s.meta)
  {
    hide RpcStep, FindStep, EstStep, CanApply;
    match p
    case Rpc(x, back) => RpcKnows(s, x, back, e, q);
    case Finding(x) => FindKnows(s, x, e, q);
    case Downing(x, cont) =>
    case Est(x) => EstKnows(s, x, e, q);
  }

  /** What an access may do to the meta and the admin region: never kill them, nor take their client unless owned. */
  lemma SparesSpecial(s: Shared, p: Pc, e: Effect, q: Pc)
    requires Local(p, e, q) && CanApply(s, e) && KnowsSpecial(p, s.special, s.meta) && s.special !! s.cache
    ensures Spares(s.special, e)
    ensures e.SetClient? && e.client.None? ==> e.r in Owned(p)
    ensures q.Est? && q.est.Wake? ==> e == SeeDead(q.est.r, true) || q.est.r !in s.special ||
                                      (e.SetClient? && e.r == q.est.r && e.client.Some?)
  {
  }

  /** An access that spares the special regions. */
  predicate Spares(special: set<Ref>, e: Effect) {
    (e.ClientsDelete? || e.CacheDelete? || e.Put? ==> e.r !in special) && (e.Put? ==> e.evicted !! special)
  }

  lemma SpecialInfos(s: Shared, e: Effect)
    requires CanApply(s, e) && Spares(s.special, e) && s.special !! s.cache && s.special <= s.infos.Keys
    requires forall r :: r in s.special ==> !s.infos[r].dead
    ensures s.special !! CacheAfter(s.cache, e) && s.special <= InfosAfter(s, e).Keys
    ensures forall r :: r in s.special ==> !InfosAfter(s, e)[r].dead
    ensures forall r :: r in s.special && !(e.SetClient? && e.r == r) ==>
      InfosAfter(s, e)[r].client == s.infos[r].client
    ensures e.SetClient? ==> InfosAfter(s, e)[e.r].client == e.client
  {
  }

  lemma RunKeepsSpecial(s: Shared, t: Tid, e: Effect, q: Pc, u: Tid)
    requires OwnInv(s) && SpecialInv(s) && Enabled(s, Run(t, e, q, u))
    ensures SpecialInv(Apply(s, t, e, q, u))
  {
    hide Local, CanApply, WakesWithClient, InfosAfter, OwnInv, CacheAfter, ClientsAfter, OwnerAfter, ClosedAfter;
    var s' := Apply(s, t, e, q, u);
    LocalKnows(s, s.threads[t], e, q);
    SparesSpecial(s, s.threads[t], e, q);
    GoStarts(s.threads[t], e, q);
    SpecialInfos(s, e);
    if !s.done { RunWakes(s, t, e, q, u); }
    forall x | x in s'.threads
      ensures KnowsSpecial(s'.threads[x], s.special, s.meta)
    {
    }
  }

  lemma RunWakes(s: Shared, t: Tid, e: Effect, q: Pc, u: Tid)
    requires OwnInv(s) && SpecialInv(s) && Enabled(s, Run(t, e, q, u)) && !s.done
    ensures var s' := Apply(s, t, e, q, u); forall x :: x in s'.threads ==> WakesWithClient(s', s'.threads[x])
  {
    var s' := Apply(s, t, e, q, u);
    SparesSpecial(s, s.threads[t], e, q);
    GoStarts(s.threads[t], e, q);
    SpecialInfos(s, e);
    MoverWakes(s, t, e, q, u);
    hide Local, CanApply, InfosAfter, KnowsSpecial, CacheAfter, Distinct, Matched;
    forall x | x in s'.threads && x != t
      ensures WakesWithClient(s', s'.threads[x])
    {
      if x in s.threads {
        OtherWakes(s, t, x, e);
      }
    }
  }

  lemma MoverWakes(s: Shared, t: Tid, e: Effect, q: Pc, u: Tid)
    requires SpecialInv(s) && Enabled(s, Run(t, e, q, u))
    ensures WakesWithClient(Apply(s, t, e, q, u), q)
  {
    SparesSpecial(s, s.threads[t], e, q);
    SpecialInfos(s, e);
    hide Local, InfosAfter, KnowsSpecial, CacheAfter;
    if q.Est? && q.est.Wake? && q.est.r in s.special {
      assert e != SeeDead(q.est.r, true);
    }
  }

  /** A goroutine about to release a special region keeps finding its client set, whoever else moves. */
  lemma OtherWakes(s: Shared, t: Tid, x: Tid, e: Effect)
    requires Matched(s.threads, s.owner) && t in s.threads && x in s.threads && x != t
    requires CanApply(s, e) && Spares(s.special, e) && SpecialInv(s) && !s.done
    requires e.SetClient? && e.client.None? ==> e.r in Owned(s.threads[t])
    ensures var p, infos := s.threads[x], InfosAfter(s, e);
      p.Est? && p.est.Wake? && p.est.r in s.special ==> p.est.r in infos && infos[p.est.r].client.Some?
  {
    SpecialInfos(s, e);
    var p := s.threads[x];
    assert WakesWithClient(s, p);
    if p.Est? && p.est.Wake? && p.est.r in s.special {
      assert p.est.r in Owned(p) && s.owner[p.est.r] == x;
      assert e.SetClient? && e.client.None? ==> s.owner[e.r] == t;
      assert s.infos[p.est.r].client.Some?;
    }
  }

  lemma GoStarts(p: Pc, e: Effect, q: Pc)
    requires Local(p, e, q)
    ensures e.Go? ==> e.start.Reestablish? || e.start.Establish?
  {
  }

  lemma RunKeepsInv(s: Shared, t: Tid, e: Effect, q: Pc, u: Tid)
    requires Inv(s) && Enabled(s, Run(t, e, q, u))
    ensures Inv(Next(s, Run(t, e, q, u)))
  {
    hide Local, CanApply, OwnInv, Covered, PointerInv, ChannelInv, SpecialInv, InfosAfter, OwnsRight, PointsRight;
    RunLawful(s, t, e, q, u);
    RunKeepsSpecial(s, t, e, q, u);
    RunKeepsOwn(s, t, e, q, u);
    RunKeepsCovered(s, t, e, q, u);
    RunKeepsPointers(s, t, e, q, u);
    RunKeepsChannels(s, t, e, q, u);
    ReleaseIsSafe(s, t, e, q, u);
  }

  lemma StartMatched(threads: map<Tid, Pc>, owner: map<Ref, Tid>, t: Tid)
    requires Matched(threads, owner) && t !in threads
    ensures Matched(threads[t := Rpc(Idle, Top)], owner)
  {
    assert Owned(Rpc(Idle, Top)) == {} && Distinct(Rpc(Idle, Top));
    hide Owned, Distinct;
    var threads' := threads[t := Rpc(Idle, Top)];
    forall x, r | x in threads' && r in Owned(threads'[x])
      ensures r in owner && owner[r] == x
    {
      assert x != t;
    }
  }

  lemma StartPoints(s: Shared, t: Tid)
    requires PointerInv(s) && ChannelInv(s)
    ensures var s' := s.(threads := s.threads[t := Rpc(Idle, Top)]); PointerInv(s') && ChannelInv(s')
  {
    assert Pointers(Rpc(Idle, Top)) == {} && Private(Rpc(Idle, Top)) == {} && !Waiting(Rpc(Idle, Top));
    hide Pointers, Private;
  }

  lemma StartKeepsInv(s: Shared, t: Tid)
    requires Inv(s) && t !in s.threads
    ensures Inv(Next(s, Start(t)))
  {
    hide PointerInv, ChannelInv, Matched;
    StartMatched(s.threads, s.owner, t);
    StartPoints(s, t);
  }

  lemma CloseMarkChannels(s: Shared, r: Ref)
    requires ChannelInv(s) && Enabled(s, CloseMark(r))
    ensures ChannelInv(Next(s, CloseMark(r)))
  {
  }

  /** Close marks regions unavailable that nobody will re-establish, but only once `done` is closed. */
  lemma CloseKeepsInv(s: Shared, r: Ref)
    requires Inv(s)
    ensures Inv(Next(s, CloseDone))
    ensures Enabled(s, CloseMark(r)) ==> Inv(Next(s, CloseMark(r)))
  {
    hide Owned, Pointers, Private, Distinct, ChannelInv, Matched;
    if Enabled(s, CloseMark(r)) { CloseMarkChannels(s, r); }
    assert ChannelInv(Next(s, CloseDone)) by { ChannelsIgnoreDone(s); }
  }

  lemma ChannelsIgnoreDone(s: Shared)
    requires ChannelInv(s)
    ensures ChannelInv(s.(done := true))
  {
  }

  /** The invariant is inductive. */
  lemma NextKeepsInv(s: Shared, a: Step)
    requires Inv(s) && Enabled(s, a)
    ensures Inv(Next(s, a))
  {
    hide Inv, Next;
    match a
    case Run(t, e, q, u) => RunKeepsInv(s, t, e, q, u);
    case Start(t) => StartKeepsInv(s, t);
    case CloseDone => CloseKeepsInv(s, 0);
    case CloseMark(r) => CloseKeepsInv(s, r);
  }

  lemma ReleaseIsSafe(s: Shared, t: Tid, e: Effect, q: Pc, u: Tid)
    requires Lawful(s, t, e, q, u)
    ensures e.Release? ==> s.infos[e.r].available.Some?
  {
  }

  /** `states` is a run that takes `steps` from a fresh client. */
  ghost predicate IsRun(states: seq<Shared>, steps: seq<Step>) {
    && |states| == |steps| + 1 && Init(states[0])
    && forall i :: 0 <= i < |steps| ==> Enabled(states[i], steps[i]) && states[i + 1] == Next(states[i], steps[i])
  }

  lemma {:induction false} RunInv(states: seq<Shared>, steps: seq<Step>)
    requires IsRun(states, steps)
    ensures Inv(states[|steps|])
  {
    hide Next, Enabled, Inv;
    if steps == [] {
      InitInv(states[0]);
    } else {
      var n := |steps| - 1;
      assert IsRun(states[..n + 1], steps[..n]);
      RunInv(states[..n + 1], steps[..n]);
      NextKeepsInv(states[n], steps[n]);
    }
  }

  lemma InvParts(s: Shared)
    requires Inv(s)
    ensures OwnInv(s) && ChannelInv(s) && SpecialInv(s)
  {
    hide OwnInv, Covered, PointerInv, ChannelInv, SpecialInv;
  }

  lemma InitInv(s: Shared)
    requires Init(s)
    ensures Inv(s)
  {
  }

  /** A goroutine that is inside establishRegion, or about to be, for `r`. */
  predicate Establishes(p: Pc, r: Ref) {
    r in Owned(p)
  }

  /** In every interleaving, a region has at most one establisher, and it is unavailable while it has one. */
  lemma OneEstablisher(states: seq<Shared>, steps: seq<Step>, t: Tid, u: Tid, r: Ref)
    requires IsRun(states, steps)
    requires t in states[|steps|].threads && Establishes(states[|steps|].threads[t], r)
    requires u in states[|steps|].threads && Establishes(states[|steps|].threads[u], r)
    ensures t == u && r in states[|steps|].infos && states[|steps|].infos[r].available.Some?
  {
    hide Inv, Owned, Init, Enabled, Next;
    var s := states[|steps|];
    RunInv(states, steps);
    InvParts(s);
    SoleOwner(s, t, r);
    SoleOwner(s, u, r);
  }

  lemma SoleOwner(s: Shared, t: Tid, r: Ref)
    requires OwnInv(s) && t in s.threads && r in Owned(s.threads[t])
    ensures r in s.owner && s.owner[r] == t && r in s.infos && s.infos[r].available.Some?
  {
    hide Owned, Distinct;
  }

  /** No run closes a nil channel. */
  lemma NeverPanics(states: seq<Shared>, steps: seq<Step>)
    requires IsRun(states, steps)
    ensures !states[|steps|].panicked
  {
    hide IsRun;
    RunInv(states, steps);
  }

  /** Until the client is closed, whoever waits on an open channel waits on a region that has an establisher. */
  lemma NoLostWakeup(states: seq<Shared>, steps: seq<Step>, t: Tid)
    requires IsRun(states, steps)
    requires var s := states[|steps|];
      !s.done && t in s.threads && Waiting(s.threads[t]) && s.threads[t].rpc.ch !in s.closed
    ensures var s := states[|steps|]; var w := s.threads[t].rpc;
      && w.r in s.infos && s.infos[w.r].available == Some(w.ch)
      && exists u :: u in s.threads && Establishes(s.threads[u], w.r)
  {
    var s := states[|steps|];
    hide IsRun, Owned;
    RunInv(states, steps);
    var w := s.threads[t].rpc;
    assert w.r in Pointers(s.threads[t]);
    assert w.r in s.owner;
    assert Establishes(s.threads[s.owner[w.r]], w.r);
  }

  // ----- Owners can always finish, until the client is closed

  /** `s'` is reached from `s` by `steps`, each a step of the goroutine that at that point owns a region in `rs`. */
  ghost predicate LeadsBy(s: Shared, steps: seq<Step>, s': Shared, rs: set<Ref>)
    decreases |steps|
  {
    if steps == [] then s' == s
    else
      && steps[0].Run? && Enabled(s, steps[0])
      && (exists r :: r in rs && r in s.owner && s.owner[r] == steps[0].t)
      && LeadsBy(Next(s, steps[0]), steps[1..], s', rs)
  }

  predicate MetaUnavailable(s: Shared) {
    s.meta in s.infos && s.infos[s.meta].available.Some?
  }

  predicate MetaHasClient(s: Shared) {
    s.meta in s.infos && s.infos[s.meta].client.Some?
  }

  /** A lookup that cannot go on until the meta region is available. */
  predicate Blocked(s: Shared, p: Pc) {
    Waiting(p) && p.back.ForLookup? && p.rpc.ch !in s.closed
  }

  ghost function FindMove(x: FindPc, r: Ref): (Effect, Pc) {
    match x
    case FindPut(_) => (Put(r, {}), Finding(FindDelete(r, {})))
    case FindDelete(_, todo) =>
      if todo == {} then (Nothing, Finding(FindSpawn(r)))
      else var d := Pick(todo); (ClientsDelete(d), Finding(FindDelete(r, todo - {d})))
    case _ => (Go(r, Establish(r, true)), Rpc(Looked(r), Top))
  }

  ghost function DownMove(s: Shared, x: DownPc, cont: Cont): (Effect, Pc) {
    match x
    case Down(c, d) =>
      var rs := if c in s.clients then s.clients[c] else {};
      (ClientsDown(c, rs), Downing(DownMark(rs + {d}), cont))
    case DownMark(todo) =>
      if todo == {} then (Nothing, Return(cont))
      else
        var d := Pick(todo);
        if d in s.infos && s.infos[d].available.None? then (Mark(d, true), Downing(DownClear(d, todo - {d}), cont))
        else (Mark(d, false), Downing(DownMark(todo - {d}), cont))
    case DownClear(d, todo) => (SetClient(d, None), Downing(DownSpawn(d, todo), cont))
    case DownSpawn(d, todo) => (Go(d, Reestablish(d)), Downing(DownMark(todo), cont))
  }

  ghost function EstMove(s: Shared, x: EstPc): (Effect, Pc) {
    match x
    case Reestablish(r) => (Nothing, Est(Establish(r, false)))
    case Establish(r, addr) => (Nothing, Est(if addr then GetClient(r) else Lookup(r)))
    case Lookup(r) =>
      if r in s.special then (SeeKind(r, true), Est(GetClient(r))) else (SeeKind(r, false), Rpc(Idle, ForLookup(r)))
    case LookedUp(r) => (Nothing, Est(GetClient(r)))
    case Gone(r) => (CacheDelete(r, {}), Est(GoneClients(r)))
    case GoneClients(r) => (ClientsDelete(r), Est(Wake(r)))
    case PutNew(r, n) => (Nothing, Est(RejectNew(r, n)))
    case RejectNew(r, n) => (Release(n), Est(Wake(r)))
    case DeleteOld(r, n, todo) =>
      if todo == {} then (Nothing, Est(Swap(r, n)))
      else var d := Pick(todo); (ClientsDelete(d), Est(DeleteOld(r, n, todo - {d})))
    case Swap(r, n) => (Release(r), Est(GetClient(n)))
    case GetClient(r) => (ClientsPut(r, 0), Est(Dial(r, 0)))
    case Dial(r, c) => (Dialed(r, true, IsAdmin(s, r)), AfterDial(r, c, true, IsAdmin(s, r)))
    case Probe(r, c) => (Answered(r, Success, IsAdmin(s, r)), Est(SetIt(r, c)))
    case SetIt(r, c) => (SetClient(r, Some(c)), Est(Wake(r)))
    case Wake(r) => (Release(r), Exited)
  }

  /** The rpc to the meta region that a lookup sends. */
  ghost function LookupMove(s: Shared, x: RpcPc, back: Back): (Effect, Pc)
    requires s.meta in s.infos
  {
    var meta := s.infos[s.meta];
    match x
    case Idle => (SeeMeta(s.meta), Rpc(Looked(s.meta), back))
    case Looked(r) =>
      var next := if meta.available.Some? then WaitFirst(r, meta.available.value) else ReadFirst(r);
      (SeeChannel(r, meta.available), Rpc(next, back))
    case WaitFirst(r, ch) => (SeeClosed(ch), Rpc(ReadFirst(r), back))
    case ReadFirst(r) =>
      var next := if meta.client.Some? then Sent(r, meta.client.value) else NoClient(r);
      (SeeClient(r, meta.client), Rpc(next, back))
    case NoClient(r) =>
      (Mark(r, meta.available.None?), Rpc(if meta.available.None? then SpawnRpc(r) else Recheck(r), back))
    case SpawnRpc(r) => (Go(r, Reestablish(r)), Rpc(Recheck(r), back))
    case Recheck(r) =>
      var next := if meta.available.Some? then WaitSecond(r, meta.available.value) else CheckDead(r);
      (SeeChannel(r, meta.available), Rpc(next, back))
    case WaitSecond(r, ch) => (SeeClosed(ch), Rpc(CheckDead(r), back))
    case CheckDead(r) => (SeeDead(r, meta.dead), Rpc(if meta.dead then Idle else ReadSecond(r), back))
    case ReadSecond(r) =>
      var next := if meta.client.Some? then Sent(r, meta.client.value) else Idle;
      (SeeClient(r, meta.client), Rpc(next, back))
    case Sent(r, _) => (Answered(r, Success, IsAdmin(s, r)), Finish(back))
    case NotServing(r) =>
      (Mark(r, meta.available.None?), Rpc(if meta.available.None? then SpawnNotServing(r) else Idle, back))
    case SpawnNotServing(r) => (Go(r, Reestablish(r)), Rpc(Idle, back))
  }

  /** What the owner `p` of `r` does next on its way to make `r` available. */
  ghost function Plan(s: Shared, p: Pc, r: Ref): (Effect, Pc)
    requires r in Owned(p) && s.meta in s.infos
  {
    match p
    case Rpc(x, back) => if Spawns(x) then SpawnMove(x, back) else LookupMove(s, x, back)
    case Finding(x) => FindMove(x, r)
    case Downing(x, cont) => DownMove(s, x, cont)
    case Est(x) => EstMove(s, x)
  }

  ghost function SpawnMove(x: RpcPc, back: Back): (Effect, Pc)
    requires Spawns(x)
  {
    (Go(x.r, Reestablish(x.r)), Rpc(if x.SpawnRpc? then Recheck(x.r) else Idle, back))
  }

  ghost function Pick(todo: set<Ref>): (d: Ref)
    requires todo != {}
    ensures d in todo
  {
    var d :| d in todo; d
  }

  /** How far an owner is from releasing `r`: a phase, a rank while it looks `r` up, and a count. */
  function Phase(p: Pc, r: Ref): nat {
    match p
    case Rpc(x, _) => if Spawns(x) && x.r == r then 11 else 8
    case Finding(x) => if x.FindPut? then 12 else 11
    case Downing(x, _) => if x.Down? then 13 else 12
    case Est(x) =>
      (match x
       case Reestablish(_) => 10
       case Establish(_, _) => 9
       case Lookup(_) => 8
       case DeleteOld(_, _, _) => 7
       case LookedUp(_) => 6
       case Swap(_, _) => 6
       case GetClient(_) => 5
       case PutNew(_, _) => 4
       case RejectNew(_, _) => 3
       case Dial(_, _) => 4
       case Probe(_, _) => 3
       case Gone(_) => 3
       case GoneClients(_) => 2
       case SetIt(_, _) => 2
       case Wake(_) => 1)
    case Exited => 0
  }

  /**
   The rank of an rpc to the meta region. Below 10 it only has to be sent; at 20 it waits for the meta region;
   above, it comes to wait, or finds out that the meta region has no client and starts its establisher.
   */
  function RpcRank(x: RpcPc, unavailable: bool, client: bool, closed: set<Channel>): (n: nat)
    ensures n <= 40
  {
    match x
    case Idle => if unavailable then 24 else if client then 4 else 26
    case Looked(_) => if unavailable then 21 else if client then 3 else 25
    case WaitFirst(_, ch) => if ch !in closed then 20 else if client then 3 else 25
    case ReadFirst(_) => if client then 2 else 24
    case NoClient(_) => 23
    case SpawnRpc(_) => 22
    case Recheck(_) => if unavailable then 21 else if client then 5 else 29
    case WaitSecond(_, ch) => if ch !in closed then 20 else if client then 4 else 29
    case CheckDead(_) => if client then 3 else 28
    case ReadSecond(_) => if client then 2 else 27
    case Sent(_, _) => 1
    case NotServing(_) => 40
    case SpawnNotServing(_) => 39
  }

  function Rank(p: Pc, unavailable: bool, client: bool, closed: set<Channel>): nat {
    if p.Rpc? then RpcRank(p.rpc, unavailable, client, closed) else if p.Est? && p.est.Lookup? then 41 else 0
  }

  function RankIn(s: Shared, p: Pc): nat {
    Rank(p, MetaUnavailable(s), MetaHasClient(s), s.closed)
  }

  function Count(p: Pc): nat {
    match p
    case Finding(x) => if x.FindDelete? then |x.todo| + 1 else 0
    case Downing(x, _) =>
      (match x
       case Down(_, _) => 0
       case DownMark(todo) => 3 * |todo|
       case DownClear(_, todo) => 3 * |todo| + 2
       case DownSpawn(_, todo) => 3 * |todo| + 1)
    case Est(x) => if x.DeleteOld? then |x.todo| else 0
    case _ => 0
  }

  /** An access that leaves the client of the meta region and the closed channels alone. */
  predicate Quiet(e: Effect, meta: Ref) {
    || e.Nothing? || e.SeeChannel? || e.SeeClient? || e.SeeDead? || e.SeeMeta? || e.SeeClosed? || e.SeeKind? || e.Go?
    || e.Answered? || (e.Mark? && e.r == meta)
  }

  /** Closer to releasing `r`, whatever the meta region does. */
  predicate Nearer(p: Pc, r: Ref, q: Pc) {
    || Phase(q, r) < Phase(p, r)
    || (Phase(q, r) == Phase(p, r) && !Ranked(p) && !Ranked(q) && Count(q) < Count(p))
  }

  predicate Ranked(p: Pc) {
    p.Rpc? || (p.Est? && p.est.Lookup?)
  }

  /** Closer to the end of a lookup. */
  predicate NearerInLookup(s: Shared, p: Pc, r: Ref, e: Effect, q: Pc) {
    && Phase(q, r) <= Phase(p, r) && Quiet(e, s.meta)
    && Rank(q, MetaUnavailable(s) || (e.Mark? && e.created), MetaHasClient(s), s.closed) < RankIn(s, p)
  }

  /** The plan is a step of the program, and it releases the region, hands it on, or comes closer. */
  ghost predicate Planned(s: Shared, p: Pc, r: Ref, e: Effect, q: Pc) {
    && Local(p, e, q) && CanApply(s, e)
    && (|| e == Release(r)
        || (e.Go? && e.r == r && Phase(Est(e.start), r) < Phase(p, r))
        || (r in Owned(q) && (Nearer(p, r, q) || NearerInLookup(s, p, r, e, q))))
  }

  lemma FindMoveSteps(x: FindPc, r: Ref)
    requires r in Owned(Finding(x))
    ensures FindStep(x, FindMove(x, r).0, FindMove(x, r).1)
  {
  }

  lemma FindMoveApplies(s: Shared, x: FindPc, r: Ref)
    requires r in Owned(Finding(x)) && Pointers(Finding(x)) <= s.infos.Keys
    ensures CanApply(s, FindMove(x, r).0)
  {
  }

  lemma FindMoveNearer(x: FindPc, r: Ref)
    requires r in Owned(Finding(x))
    ensures Advances(Finding(x), r, FindMove(x, r).0, FindMove(x, r).1)
  {
    if x.FindDelete? && x.todo != {} {
      var d := Pick(x.todo);
      assert |x.todo - {d}| == |x.todo| - 1;
    }
  }

  lemma PlanFind(s: Shared, x: FindPc, r: Ref)
    requires r in Owned(Finding(x)) && Pointers(Finding(x)) <= s.infos.Keys
    ensures var (e, q) := FindMove(x, r); Planned(s, Finding(x), r, e, q)
  {
    hide FindMove, FindStep, Nearer, NearerInLookup, Owned, Pointers, RpcStep, EstStep, DownStep, CanApply, Phase;
    FindMoveSteps(x, r);
    FindMoveApplies(s, x, r);
    FindMoveNearer(x, r);
  }

  lemma DownMoveSteps(s: Shared, x: DownPc, cont: Cont)
    ensures DownStep(x, cont, DownMove(s, x, cont).0, DownMove(s, x, cont).1)
  {
  }

  lemma DownMoveApplies(s: Shared, x: DownPc, cont: Cont)
    requires Pointers(Downing(x, cont)) <= s.infos.Keys
    ensures CanApply(s, DownMove(s, x, cont).0)
  {
  }

  /** The move hands `r` to a goroutine that is closer to releasing it, or comes closer itself. */
  ghost predicate Advances(p: Pc, r: Ref, e: Effect, q: Pc) {
    (e.Go? && e.r == r && Phase(Est(e.start), r) < Phase(p, r)) || (r in Owned(q) && Nearer(p, r, q))
  }

  lemma DownStartNearer(s: Shared, c: ClientId, d: Ref, cont: Cont, r: Ref)
    requires r in OwnedAfter(cont)
    ensures var (e, q) := DownMove(s, Down(c, d), cont); Advances(Downing(Down(c, d), cont), r, e, q)
  {
  }

  lemma ReturnNearer(cont: Cont, r: Ref)
    requires r in OwnedAfter(cont)
    ensures r in Owned(Return(cont)) && Phase(Return(cont), r) < 12
  {
  }

  lemma MarkNearer(todo: set<Ref>, d: Ref, cont: Cont, r: Ref)
    requires r in OwnedAfter(cont) && d in todo
    ensures var p := Downing(DownMark(todo), cont);
      && r in Owned(Downing(DownClear(d, todo - {d}), cont)) && Nearer(p, r, Downing(DownClear(d, todo - {d}), cont))
      && r in Owned(Downing(DownMark(todo - {d}), cont)) && Nearer(p, r, Downing(DownMark(todo - {d}), cont))
  {
    assert |todo - {d}| == |todo| - 1;
  }

  lemma DownMarkNearer(s: Shared, todo: set<Ref>, cont: Cont, r: Ref)
    requires r in OwnedAfter(cont)
    ensures var (e, q) := DownMove(s, DownMark(todo), cont); Advances(Downing(DownMark(todo), cont), r, e, q)
  {
    if todo == {} {
      ReturnNearer(cont, r);
      hide Owned, OwnedAfter, Return;
    } else {
      var d := Pick(todo);
      MarkNearer(todo, d, cont, r);
      hide Owned, OwnedAfter, Nearer, Phase;
    }
  }

  lemma DownClearNearer(s: Shared, d: Ref, todo: set<Ref>, cont: Cont, r: Ref)
    requires r in {d} + OwnedAfter(cont)
    ensures var (e, q) := DownMove(s, DownClear(d, todo), cont); Advances(Downing(DownClear(d, todo), cont), r, e, q)
  {
  }

  lemma DownSpawnNearer(s: Shared, d: Ref, todo: set<Ref>, cont: Cont, r: Ref)
    requires r in {d} + OwnedAfter(cont)
    ensures var (e, q) := DownMove(s, DownSpawn(d, todo), cont); Advances(Downing(DownSpawn(d, todo), cont), r, e, q)
  {
  }

  lemma DownMoveNearer(s: Shared, x: DownPc, cont: Cont, r: Ref)
    requires r in Owned(Downing(x, cont))
    ensures var (e, q) := DownMove(s, x, cont); Advances(Downing(x, cont), r, e, q)
  {
    hide Advances, DownMove, OwnedAfter;
    match x
    case Down(c, d) => DownStartNearer(s, c, d, cont, r);
    case DownMark(todo) => DownMarkNearer(s, todo, cont, r);
    case DownClear(d, todo) => DownClearNearer(s, d, todo, cont, r);
    case DownSpawn(d, todo) => DownSpawnNearer(s, d, todo, cont, r);
  }

  lemma PlanDown(s: Shared, x: DownPc, cont: Cont, r: Ref)
    requires r in Owned(Downing(x, cont)) && Pointers(Downing(x, cont)) <= s.infos.Keys
    ensures var (e, q) := DownMove(s, x, cont); Planned(s, Downing(x, cont), r, e, q)
  {
    hide DownMove, DownStep, Nearer, NearerInLookup, Owned, Pointers, RpcStep, FindStep, EstStep, CanApply, Phase;
    DownMoveSteps(s, x, cont);
    DownMoveApplies(s, x, cont);
    DownMoveNearer(s, x, cont, r);
  }

  lemma EstMoveSteps(s: Shared, x: EstPc)
    ensures EstStep(x, EstMove(s, x).0, EstMove(s, x).1)
  {
  }

  lemma EstMoveApplies(s: Shared, x: EstPc)
    requires Pointers(Est(x)) <= s.infos.Keys && Owned(Est(x)) <= s.infos.Keys
    ensures CanApply(s, EstMove(s, x).0)
  {
  }

  lemma LookupNearer(s: Shared, r: Ref)
    ensures var (e, q) := EstMove(s, Lookup(r));
      r in Owned(q) && (Nearer(Est(Lookup(r)), r, q) || NearerInLookup(s, Est(Lookup(r)), r, e, q))
  {
    hide RpcRank;
  }

  lemma DeleteOldNearer(s: Shared, r: Ref, n: Ref, todo: set<Ref>)
    ensures
      var x := DeleteOld(r, n, todo);
      var (e, q) := EstMove(s, x);
      Owned(q) == {r, n} && Nearer(Est(x), r, q) && Nearer(Est(x), n, q)
  {
    if todo != {} {
      var d := Pick(todo);
      assert |todo - {d}| == |todo| - 1;
    }
  }

  lemma EstMoveNearer(s: Shared, x: EstPc, r: Ref)
    requires r in Owned(Est(x)) && !x.Lookup? && !x.DeleteOld?
    ensures EstMove(s, x).0 == Release(r) || (r in Owned(EstMove(s, x).1) && Nearer(Est(x), r, EstMove(s, x).1))
  {
  }

  lemma PlanEst(s: Shared, x: EstPc, r: Ref)
    requires r in Owned(Est(x)) && Pointers(Est(x)) <= s.infos.Keys && Owned(Est(x)) <= s.infos.Keys
    ensures var (e, q) := EstMove(s, x); Planned(s, Est(x), r, e, q)
  {
    hide EstMove, EstStep, Nearer, NearerInLookup, Pointers, RpcStep, FindStep, DownStep, CanApply, Phase;
    EstMoveSteps(s, x);
    EstMoveApplies(s, x);
    if x.Lookup? {
      LookupNearer(s, x.r);
    } else if x.DeleteOld? {
      DeleteOldNearer(s, x.r, x.n, x.todo);
    } else {
      EstMoveNearer(s, x, r);
    }
  }

  lemma LookupMoveSteps(s: Shared, x: RpcPc, r: Ref)
    requires s.meta in s.infos
    ensures RpcStep(x, ForLookup(r), LookupMove(s, x, ForLookup(r)).0, LookupMove(s, x, ForLookup(r)).1)
  {
  }

  lemma LookupMoveApplies(s: Shared, x: RpcPc, r: Ref)
    requires s.meta in s.infos && (!x.Idle? ==> x.r == s.meta) && !Blocked(s, Rpc(x, ForLookup(r)))
    ensures CanApply(s, LookupMove(s, x, ForLookup(r)).0)
  {
  }

  /** The moves of a lookup never go round in circles. */
  lemma LookupMoveNearer(s: Shared, x: RpcPc, r: Ref)
    requires s.meta in s.infos && !s.infos[s.meta].dead && r != s.meta && (!x.Idle? ==> x.r == s.meta)
    requires !Blocked(s, Rpc(x, ForLookup(r))) && !Spawns(x)
    requires MetaUnavailable(s) ==> s.infos[s.meta].available.value !in s.closed
    ensures var (e, q) := LookupMove(s, x, ForLookup(r));
      r in Owned(q) && (Nearer(Rpc(x, ForLookup(r)), r, q) || NearerInLookup(s, Rpc(x, ForLookup(r)), r, e, q))
  {
  }

  lemma PlanLookup(s: Shared, x: RpcPc, r: Ref)
    requires s.meta in s.infos && !s.infos[s.meta].dead && r != s.meta && (!x.Idle? ==> x.r == s.meta)
    requires !Blocked(s, Rpc(x, ForLookup(r))) && !Spawns(x)
    requires MetaUnavailable(s) ==> s.infos[s.meta].available.value !in s.closed
    ensures var (e, q) := LookupMove(s, x, ForLookup(r)); Planned(s, Rpc(x, ForLookup(r)), r, e, q)
  {
    hide LookupMove, RpcStep, Nearer, NearerInLookup, Owned, FindStep, DownStep, EstStep, CanApply, Phase;
    LookupMoveSteps(s, x, r);
    LookupMoveApplies(s, x, r);
    LookupMoveNearer(s, x, r);
  }

  lemma PlanSpawn(s: Shared, x: RpcPc, back: Back, r: Ref)
    requires Spawns(x) && r in Owned(Rpc(x, back)) && x.r in s.infos && s.infos[x.r].available.Some?
    requires back.ForLookup? ==> x.r == s.meta && back.r != s.meta
    ensures var (e, q) := SpawnMove(x, back); Planned(s, Rpc(x, back), r, e, q)
  {
    hide FindStep, DownStep, EstStep;
  }

  lemma PlanRpc(s: Shared, x: RpcPc, back: Back, r: Ref)
    requires r in Owned(Rpc(x, back)) && !Blocked(s, Rpc(x, back)) && KnowsSpecial(Rpc(x, back), s.special, s.meta)
    requires s.meta in s.special && s.meta in s.infos && !s.infos[s.meta].dead
    requires MetaUnavailable(s) ==> s.infos[s.meta].available.value !in s.closed
    requires Spawns(x) ==> x.r in s.infos && s.infos[x.r].available.Some?
    ensures var (e, q) := Plan(s, Rpc(x, back), r); Planned(s, Rpc(x, back), r, e, q)
  {
    hide Planned, LookupMove, SpawnMove, MetaUnavailable;
    if Spawns(x) {
      PlanSpawn(s, x, back, r);
    } else {
      assert back == ForLookup(r);
      PlanLookup(s, x, r);
    }
  }

  lemma SpawnsOwned(x: RpcPc, back: Back)
    ensures Spawns(x) ==> x.r in Owned(Rpc(x, back))
  {
  }

  /** Unless it is a lookup waiting for the meta region, an owner can make its next move. */
  lemma PlanWorks(s: Shared, t: Tid, r: Ref)
    requires Inv(s) && t in s.threads && r in Owned(s.threads[t]) && !Blocked(s, s.threads[t])
    ensures s.meta in s.infos && var (e, q) := Plan(s, s.threads[t], r); Planned(s, s.threads[t], r, e, q)
  {
    var p := s.threads[t];
    WhatOwnersKnow(s, t);
    if p.Rpc? { SpawnsOwned(p.rpc, p.back); }
    OwnedAreInfos(s, t);
    hide Inv, Planned, RpcStep, FindStep, DownStep, EstStep, LookupMove, FindMove, DownMove, EstMove;
    hide CanApply, Pointers, SpawnMove, Local, MetaUnavailable, Distinct, Private, Owned, KnowsSpecial, Blocked;
    match p
    case Rpc(x, back) => PlanRpc(s, x, back, r);
    case Finding(x) => PlanFind(s, x, r);
    case Downing(x, cont) => PlanDown(s, x, cont, r);
    case Est(x) => PlanEst(s, x, r);
  }

  lemma OwnedAreInfos(s: Shared, t: Tid)
    requires Inv(s) && t in s.threads
    ensures Owned(s.threads[t]) <= s.infos.Keys
  {
    hide Inv, Owned, KnowsSpecial, Pointers;
    WhatOwnersKnow(s, t);
  }

  lemma WhatOwnersKnow(s: Shared, t: Tid)
    requires Inv(s) && t in s.threads
    ensures var p := s.threads[t];
      && Pointers(p) <= s.infos.Keys && KnowsSpecial(p, s.special, s.meta)
      && forall x :: x in Owned(p) ==> x in s.infos && s.infos[x].available.Some?
    ensures s.meta in s.special && s.meta in s.infos && !s.infos[s.meta].dead
    ensures MetaUnavailable(s) ==> s.infos[s.meta].available.value !in s.closed
  {
    hide Pointers, Private, Owned, KnowsSpecial, Distinct, Covered, WakesWithClient, Waiting;
  }

  lemma FreshTid(threads: map<Tid, Pc>) returns (u: Tid)
    ensures u !in threads
  {
    var m := MaxKey(threads.Keys);
    u := m + 1;
  }

  lemma {:induction false} MaxKey(ks: set<Tid>) returns (m: nat)
    ensures forall k :: k in ks ==> k <= m
  {
    m := 0;
    if ks != {} {
      var k :| k in ks;
      var n := MaxKey(ks - {k});
      m := if n < k then k else n;
      forall x | x in ks
        ensures x <= m
      {
        assert x == k || x in ks - {k};
      }
    }
  }

  predicate GivesUp(e: Effect) {
    e.Release? || e.Discard? || e.SeeDone?
  }

  /** A step that keeps `r` leaves its channel alone and passes it to the goroutine that now owns it. */
  lemma KeptRegion(s: Shared, t: Tid, r: Ref, e: Effect, q: Pc, u: Tid)
    requires CanApply(s, e) && r in s.owner && s.owner[r] == t && r in s.infos && (e.Go? ==> u != t)
    requires GivesUp(e) || Creates(e) ==> e.r != r
    ensures
      var owner, threads, infos := OwnerAfter(s.owner, t, e, u), ThreadsAfter(s.threads, t, e, q, u), InfosAfter(s, e);
      && r in owner && owner[r] in threads && r in infos && infos[r].available == s.infos[r].available
      && threads[owner[r]] == if e.Go? && e.r == r then Est(e.start) else q
  {
    InfosKept(s, e);
    hide InfosAfter, CanApply;
  }

  /** A step of another goroutine leaves `r`, its channel and its owner alone. */
  lemma OtherKept(s: Shared, t: Tid, r: Ref, e: Effect, q: Pc, u: Tid)
    requires CanApply(s, e) && r in s.owner && s.owner[r] != t && s.owner[r] in s.threads && r in s.infos
    requires (e.Go? ==> u !in s.threads) && (NeedsCharge(e) || Creates(e) ==> e.r != r)
    ensures
      var owner, threads, infos := OwnerAfter(s.owner, t, e, u), ThreadsAfter(s.threads, t, e, q, u), InfosAfter(s, e);
      && r in owner && owner[r] == s.owner[r] && r in infos && infos[r].available == s.infos[r].available
      && owner[r] in threads && threads[owner[r]] == s.threads[s.owner[r]]
  {
    InfosKept(s, e);
    hide InfosAfter, CanApply;
  }

  /** What a step of `t` cannot be about: a region of another goroutine, or one that it keeps. */
  lemma StepsApart(s: Shared, t: Tid, r: Ref, e: Effect, q: Pc, u: Tid)
    requires OwnInv(s) && Lawful(s, t, e, q, u) && r in s.owner
    ensures r in s.infos && s.infos[r].available.Some? && s.owner[r] in s.threads
    ensures s.owner[r] != t ==> (NeedsCharge(e) || Creates(e) ==> e.r != r)
    ensures s.owner[r] == t && r in Owned(q) ==> (GivesUp(e) || Creates(e) || e.Go? ==> e.r != r)
    ensures e.Go? ==> u !in s.threads
  {
    hide Owned, Distinct, Private, Pointers, PointsRight, CanApply, Waiting;
  }

  /** The pc of the goroutine that owns `r`. */
  function OwnerPc(s: Shared, r: Ref): Pc {
    if r in s.owner && s.owner[r] in s.threads then s.threads[s.owner[r]] else Exited
  }

  /** The owner of `r` in `s1` is closer to releasing it than the one in `s`. */
  predicate Progress(s: Shared, s1: Shared, r: Ref) {
    var p, q := OwnerPc(s, r), OwnerPc(s1, r);
    || Phase(q, r) < Phase(p, r)
    || (Phase(q, r) == Phase(p, r) && RankIn(s1, q) < RankIn(s, p))
    || (Phase(q, r) == Phase(p, r) && RankIn(s1, q) == RankIn(s, p) && Count(q) < Count(p))
  }

  lemma QuietKeeps(s: Shared, t: Tid, e: Effect, q: Pc, u: Tid)
    requires CanApply(s, e) && Quiet(e, s.meta) && s.meta in s.infos
    ensures var s1 := Apply(s, t, e, q, u);
      && MetaUnavailable(s1) == (MetaUnavailable(s) || (e.Mark? && e.created))
      && MetaHasClient(s1) == MetaHasClient(s) && s1.closed == s.closed
  {
  }

  lemma NearerIsProgress(s: Shared, r: Ref, e: Effect, q: Pc, u: Tid)
    requires r in s.owner && s.owner[r] in s.threads && CanApply(s, e) && s.meta in s.infos
    requires var s1 := Apply(s, s.owner[r], e, q, u); r in s1.owner && s1.owner[r] in s1.threads
    requires
      var p, q1 := OwnerPc(s, r), OwnerPc(Apply(s, s.owner[r], e, q, u), r);
      || Phase(q1, r) < Phase(p, r)
      || (q1 == q && (Nearer(p, r, q) || NearerInLookup(s, p, r, e, q)))
    ensures Progress(s, Apply(s, s.owner[r], e, q, u), r)
  {
    hide RpcRank, Phase, Count, Apply, CanApply;
    var p := OwnerPc(s, r);
    if NearerInLookup(s, p, r, e, q) { QuietKeeps(s, s.owner[r], e, q, u); }
  }

  /** A planned step closes the channel, or leaves the region with an owner that is closer to closing it. */
  lemma PlannedStep(s: Shared, r: Ref, e: Effect, q: Pc, u: Tid)
    requires Inv(s) && r in s.owner && u !in s.threads && Planned(s, s.threads[s.owner[r]], r, e, q)
    ensures Enabled(s, Run(s.owner[r], e, q, u)) && Inv(Next(s, Run(s.owner[r], e, q, u)))
    ensures r in s.infos && s.infos[r].available.Some?
    ensures
      var s1 := Next(s, Run(s.owner[r], e, q, u));
      if e == Release(r) then s.infos[r].available.value in s1.closed
      else r in s1.owner && r in s1.infos && s1.infos[r].available == s.infos[r].available && Progress(s, s1, r)
  {
    hide Inv, OwnInv, ChannelInv, SpecialInv, Local, Lawful, InfosAfter, CanApply, Nearer, NearerInLookup, Owned;
    hide OwnerAfter, ThreadsAfter, Progress, Phase, KnowsSpecial, Pointers, CacheAfter, ClientsAfter;
    var t := s.owner[r];
    InvParts(s);
    OwnerIs(s, r);
    RunKeepsInv(s, t, e, q, u);
    RunLawful(s, t, e, q, u);
    StepsApart(s, t, r, e, q, u);
    WhatOwnersKnow(s, t);
    if e == Release(r) {
      assert s.infos[r].available.value in ClosedAfter(s, e);
    } else {
      KeptRegion(s, t, r, e, q, u);
      NearerIsProgress(s, r, e, q, u);
    }
  }

  /** Who releases the meta or the admin region leaves it with a client. */
  lemma ReleasedWithClient(s: Shared, t: Tid, r: Ref, q: Pc)
    requires SpecialInv(s) && !s.done && t in s.threads && r in s.special && Local(s.threads[t], Release(r), q)
    ensures s.infos[r].client.Some?
  {
    assert KnowsSpecial(s.threads[t], s.special, s.meta) && WakesWithClient(s, s.threads[t]);
  }

  /** A waiting lookup waits on the channel of the meta region, which somebody else owns. */
  lemma BlockedOnMeta(s: Shared, r: Ref)
    requires Inv(s) && !s.done && r in s.owner && Blocked(s, s.threads[s.owner[r]])
    ensures s.meta in s.infos && s.infos[s.meta].available == Some(s.threads[s.owner[r]].rpc.ch)
    ensures r != s.meta && s.meta in s.owner && s.owner[s.meta] != s.owner[r] && s.owner[s.meta] in s.threads
    ensures s.meta in Owned(s.threads[s.owner[s.meta]]) && !Blocked(s, s.threads[s.owner[s.meta]])
  {
    var t := s.owner[r];
    var p := s.threads[t];
    WhatOwnersKnow(s, t);
    assert Owned(p) == {r} && r !in s.special;
    WaitsRight(s, t);
    MetaOwned(s);
    OwnerIs(s, r);
    OwnerIs(s, s.meta);
    WhatOwnersKnow(s, s.owner[s.meta]);
    hide Inv;
  }

  lemma WaitsRight(s: Shared, t: Tid)
    requires ChannelInv(s) && t in s.threads && Waiting(s.threads[t])
    ensures var w := s.threads[t].rpc; w.r in s.infos && (w.ch in s.closed || s.infos[w.r].available == Some(w.ch))
  {
  }

  lemma MetaOwned(s: Shared)
    requires Covered(s) && PointerInv(s) && !s.done && MetaUnavailable(s)
    ensures s.meta in s.owner
  {
    hide Pointers, Private;
  }

  lemma OwnerIs(s: Shared, r: Ref)
    requires OwnInv(s) && r in s.owner
    ensures s.owner[r] in s.threads && r in Owned(s.threads[s.owner[r]])
  {
  }

  /** One step towards waking the waiters of `r`: of its owner or, if that waits for it, of the meta region's. */
  datatype Move = Move(step: Step, next: Shared)

  lemma OwnerStep(s: Shared, r: Ref) returns (m: Move)
    requires Inv(s) && r in s.owner && !Blocked(s, OwnerPc(s, r))
    ensures m.step.Run? && m.step.t == s.owner[r] && Enabled(s, m.step) && m.next == Next(s, m.step) && Inv(m.next)
    ensures m.next.done == s.done && m.next.meta == s.meta && m.next.special == s.special
    ensures r in s.infos && s.infos[r].available.Some?
    ensures
      if m.step.e == Release(r) then s.infos[r].available.value in m.next.closed
      else
        && r in m.next.owner && r in m.next.infos && m.next.infos[r].available == s.infos[r].available
        && Progress(s, m.next, r)
  {
    var t := s.owner[r];
    OwnerIs(s, r);
    PlanWorks(s, t, r);
    var (e, q) := Plan(s, s.threads[t], r);
    var u := FreshTid(s.threads);
    hide Plan, Inv, Planned, Enabled, Progress, Owned, InfosAfter;
    PlannedStep(s, r, e, q, u);
    m := Move(Run(t, e, q, u), Next(s, Run(t, e, q, u)));
  }

  /** While the owner of `r` waits for the meta region, the meta region's owner moves; `r` comes no further away. */
  lemma MetaStep(s: Shared, r: Ref) returns (m: Move)
    requires Inv(s) && !s.done && r in s.owner && Blocked(s, OwnerPc(s, r))
    ensures s.meta in s.owner && m.step.Run? && m.step.t == s.owner[s.meta]
    ensures Enabled(s, m.step) && m.next == Next(s, m.step) && Inv(m.next)
    ensures m.next.done == s.done && m.next.meta == s.meta && m.next.special == s.special
    ensures r in m.next.owner && r in m.next.infos && r in s.infos && m.next.infos[r].available == s.infos[r].available
    ensures OwnerPc(m.next, r) == OwnerPc(s, r)
    ensures
      || RankIn(m.next, OwnerPc(s, r)) < RankIn(s, OwnerPc(s, r))
      || (RankIn(m.next, OwnerPc(s, r)) == RankIn(s, OwnerPc(s, r)) && Blocked(m.next, OwnerPc(s, r)) &&
          Progress(s, m.next, s.meta))
  {
    OwnerIs(s, r);
    BlockedOnMeta(s, r);
    WhatOwnersKnow(s, s.owner[r]);
    InvParts(s);
    hide Inv, Next, Enabled, Progress, Owned, RpcRank, OwnInv, SpecialInv, ChannelInv, KnowsSpecial, Pointers;
    m := OwnerStep(s, s.meta);
    OtherStep(s, m.step, r);
    if m.step.e == Release(s.meta) {
      MetaReleased(s, m.step, OwnerPc(s, r));
    } else {
      InvParts(m.next);
      ChannelOpen(m.next, s.meta);
      MetaStillOpen(s, m.next, OwnerPc(s, r));
    }
  }

  lemma OtherStep(s: Shared, a: Step, r: Ref)
    requires OwnInv(s) && a.Run? && Enabled(s, a) && r in s.owner && s.owner[r] != a.t
    ensures var s1 := Next(s, a);
      && r in s1.owner && r in s1.infos && r in s.infos && s1.infos[r].available == s.infos[r].available
      && OwnerPc(s1, r) == OwnerPc(s, r)
  {
    RunLawful(s, a.t, a.e, a.q, a.u);
    StepsApart(s, a.t, r, a.e, a.q, a.u);
    OtherKept(s, a.t, r, a.e, a.q, a.u);
    hide OwnInv, Lawful, Local, CanApply, InfosAfter, OwnerAfter, ThreadsAfter;
  }

  /** The release of the meta region lets a waiting lookup go on to send its rpc. */
  lemma MetaReleased(s: Shared, a: Step, p: Pc)
    requires SpecialInv(s) && s.meta in s.special && !s.done && Blocked(s, p)
    requires a.Run? && Enabled(s, a) && a.e == Release(s.meta)
    requires s.meta in s.infos && s.infos[s.meta].available == Some(p.rpc.ch)
    ensures RankIn(Next(s, a), p) < 20 == RankIn(s, p)
  {
    hide SpecialInv, Local, OwnerAfter, ThreadsAfter, CacheAfter, ClientsAfter;
    ReleasedWithClient(s, a.t, s.meta, a.q);
    var s1 := Next(s, a);
    assert MetaHasClient(s1) && p.rpc.ch in s1.closed;
  }

  lemma MetaStillOpen(s: Shared, s1: Shared, p: Pc)
    requires Blocked(s, p) && p.rpc.ch !in s1.closed
    ensures Blocked(s1, p) && RankIn(s1, p) == 20 == RankIn(s, p)
  {
  }

  lemma ChannelOpen(s: Shared, r: Ref)
    requires ChannelInv(s) && r in s.infos && s.infos[r].available.Some?
    ensures s.infos[r].available.value !in s.closed
  {
  }

  /** The regions whose owners have to move to wake the waiters of `r`. */
  function Involved(s: Shared, r: Ref): set<Ref> {
    if r in s.special then {r} else {r, s.meta}
  }

  /**
   Until the client is closed, steps of its owners, and of the owners of the meta region where they look the
   region up, close the channel that the waiters of an owned region wait on.
   */
  lemma {:induction false} OwnerCanWake(s: Shared, r: Ref) returns (steps: seq<Step>, s': Shared)
    requires Inv(s) && !s.done && r in s.owner && r in s.infos && s.infos[r].available.Some?
    ensures LeadsBy(s, steps, s', Involved(s, r))
    ensures s.infos[r].available.value in s'.closed
    decreases
      Phase(OwnerPc(s, r), r), RankIn(s, OwnerPc(s, r)), Count(OwnerPc(s, r)),
      if Blocked(s, OwnerPc(s, r)) then Phase(OwnerPc(s, s.meta), s.meta) else 0,
      if Blocked(s, OwnerPc(s, r)) then RankIn(s, OwnerPc(s, s.meta)) else 0,
      if Blocked(s, OwnerPc(s, r)) then Count(OwnerPc(s, s.meta)) else 0
  {
    hide Inv, Next, Enabled, Phase, RankIn, Count, Blocked, OwnerPc;
    var m;
    if Blocked(s, OwnerPc(s, r)) {
      m := MetaStep(s, r);
      OrdinaryWaits(s, r);
    } else {
      m := OwnerStep(s, r);
    }
    if !Blocked(s, OwnerPc(s, r)) && m.step.e == Release(r) {
      steps, s' := [m.step], m.next;
      assert LeadsBy(m.next, [], m.next, Involved(s, r));
    } else {
      var rest;
      rest, s' := OwnerCanWake(m.next, r);
      steps := [m.step] + rest;
      assert steps[1..] == rest;
    }
  }

  lemma OrdinaryWaits(s: Shared, r: Ref)
    requires Inv(s) && r in s.owner && Blocked(s, OwnerPc(s, r))
    ensures r !in s.special
  {
    OwnerIs(s, r);
    WhatOwnersKnow(s, s.owner[r]);
  }

  /** Every region that is shared and unavailable in a run of a client that is not closed can be woken so. */
  lemma WaitersCanBeWoken(states: seq<Shared>, steps: seq<Step>, r: Ref) returns (more: seq<Step>, s': Shared)
    requires IsRun(states, steps)
    requires var s := states[|steps|]; !s.done && r in s.published && r in s.infos && s.infos[r].available.Some?
    ensures var s := states[|steps|];
      LeadsBy(s, more, s', Involved(s, r)) && s.infos[r].available.value in s'.closed
  {
    var s := states[|steps|];
    RunInv(states, steps);
    hide IsRun, LeadsBy;
    assert r in s.owner;
    more, s' := OwnerCanWake(s, r);
  }
}
