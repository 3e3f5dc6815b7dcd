/**
 What runs of the availability protocol get done: a dead client takes all its regions down, evicted regions
 stay dead and lose their clients, and rpcs go only to clients that were told of the region.
 */
module AvailabilityRuns {
  import opened Bytes
  import opened RegionInfo
  import opened Availability

  // ----- Work that a goroutine has taken on is done before it goes on

  /** The regions that clientDown has yet to mark, or that have yet to lose their clients after a put. */
  function Pending(p: Pc): set<Ref> {
    match p
    case Finding(x) => if x.FindDelete? then x.todo else {}
    case Downing(x, _) => if x.Down? then {x.r} else x.todo
    case Est(x) => if x.DeleteOld? then x.todo else {}
    case _ => {}
  }

  /** The region is still pending, or it is marked unavailable or taken from its client, as the case may be. */
  lemma PendingStep(p: Pc, e: Effect, q: Pc, r: Ref)
    requires Local(p, e, q) && r in Pending(p)
    ensures
      || (r in Pending(q) && q.Downing? == p.Downing?)
      || (e.r == r && if p.Downing? then e.Mark? else e.ClientsDelete?)
  {
  }

  /** A dead client and a put that replaced both leave nothing out. */
  lemma PendingTaken(p: Pc, e: Effect, q: Pc)
    requires Local(p, e, q)
    ensures e.ClientsDown? ==> q.Downing? && e.rs <= Pending(q)
    ensures e.Put? ==> !q.Downing? && e.evicted <= Pending(q)
  {
  }

  /** A goroutine is where it was until it moves itself. */
  lemma OthersMove(s: Shared, a: Step, t: Tid)
    requires Enabled(s, a) && t in s.threads
    ensures t in Next(s, a).threads
    ensures !(a.Run? && a.t == t) ==> Next(s, a).threads[t] == s.threads[t]
  {
    hide Local, CanApply, InfosAfter, ClientsAfter, CacheAfter, ClosedAfter, OwnerAfter;
  }

  /** Step `j` of the run is a step of `t` from a state in which `r` was pending, and deals with `r`. */
  ghost predicate DealsWith(states: seq<Shared>, steps: seq<Step>, t: Tid, j: nat, r: Ref, down: bool) {
    && j < |steps| && j < |states| && steps[j].Run? && steps[j].t == t && t in states[j].threads
    && (if down then steps[j].e.Mark? else steps[j].e.ClientsDelete?) && steps[j].e.r == r
  }

  lemma {:induction false} WorkedOff(states: seq<Shared>, steps: seq<Step>, t: Tid, i: nat, k: nat, r: Ref)
    returns (j: nat)
    requires IsRun(states, steps) && i <= k <= |steps| && t in states[i].threads && r in Pending(states[i].threads[t])
    requires t in states[k].threads && r !in Pending(states[k].threads[t])
    ensures i <= j < k && DealsWith(states, steps, t, j, r, states[i].threads[t].Downing?)
    decreases k - i
  {
    hide Next, Local, Pending, CanApply, Init;
    assert i < k;
    var p := states[i].threads[t];
    OthersMove(states[i], steps[i], t);
    var q := states[i + 1].threads[t];
    if r in Pending(q) && q.Downing? == p.Downing? {
      j := WorkedOff(states, steps, t, i + 1, k, r);
    } else {
      assert steps[i].Run? && steps[i].t == t;
      MovesTo(states[i], steps[i]);
      PendingStep(p, steps[i].e, q, r);
      j := i;
    }
  }

  lemma MovesTo(s: Shared, a: Step)
    requires a.Run? && Enabled(s, a)
    ensures a.t in s.threads && Local(s.threads[a.t], a.e, a.q) && CanApply(s, a.e)
    ensures a.t in Next(s, a).threads && Next(s, a).threads[a.t] == a.q
  {
    hide Local, CanApply, InfosAfter, ClientsAfter, CacheAfter, ClosedAfter, OwnerAfter;
  }

  lemma Marked(s: Shared, a: Step)
    requires a.Run? && a.e.Mark? && Enabled(s, a)
    ensures a.e.r in Next(s, a).infos && Next(s, a).infos[a.e.r].available.Some?
  {
    hide Local, ClientsAfter, CacheAfter, ClosedAfter, OwnerAfter, ThreadsAfter;
  }

  lemma Unclaimed(s: Shared, a: Step)
    requires a.Run? && a.e.ClientsDelete? && Enabled(s, a)
    ensures a.e.r in Next(s, a).infos && Next(s, a).infos[a.e.r].client.None?
  {
    hide Local, ClientsAfter, CacheAfter, ClosedAfter, OwnerAfter, ThreadsAfter;
  }

  /** The region was unavailable at some point after `i`, up to `k`. */
  ghost predicate WasUnavailable(states: seq<Shared>, i: nat, k: nat, r: Ref) {
    exists j: nat :: i < j <= k && j < |states| && r in states[j].infos && states[j].infos[r].available.Some?
  }

  /**
   When a goroutine takes client `c` down and gets done with it, every region that was registered for the client has
   been made unavailable, so that nobody goes on to use the client for it.
   */
  lemma ClientDownMarksAll(states: seq<Shared>, steps: seq<Step>, t: Tid, i: nat, k: nat, c: ClientId)
    requires IsRun(states, steps) && i < k <= |steps|
    requires steps[i].Run? && steps[i].t == t && steps[i].e.ClientsDown? && steps[i].e.c == c
    requires t in states[k].threads && Pending(states[k].threads[t]) == {}
    ensures c in states[i].clients ==> forall r :: r in states[i].clients[c] ==> WasUnavailable(states, i, k, r)
    ensures c !in states[i + 1].clients
  {
    ClientGone(states[i], steps[i]);
    hide Next, Local, Pending, Init;
    assert Enabled(states[i], steps[i]);
    MovesTo(states[i], steps[i]);
    PendingTaken(states[i].threads[t], steps[i].e, steps[i].q);
    if c in states[i].clients {
      forall r | r in states[i].clients[c]
        ensures WasUnavailable(states, i, k, r)
      {
        assert r in steps[i].e.rs;
        var j := WorkedOff(states, steps, t, i + 1, k, r);
        assert Enabled(states[j], steps[j]);
        Marked(states[j], steps[j]);
        assert states[j + 1].infos[r].available.Some?;
      }
    }
  }

  lemma ClientGone(s: Shared, a: Step)
    requires a.Run? && a.e.ClientsDown? && Enabled(s, a)
    ensures a.e.c !in Next(s, a).clients
  {
    hide Local, InfosAfter, CacheAfter, ClosedAfter, OwnerAfter, ThreadsAfter;
  }

  /** What a goroutine is about to do is the next thing it does. */
  lemma {:induction false} FirstMove(states: seq<Shared>, steps: seq<Step>, t: Tid, i: nat, k: nat) returns (m: nat)
    requires IsRun(states, steps) && i <= k <= |steps| && t in states[i].threads
    requires t in states[k].threads && states[k].threads[t] != states[i].threads[t]
    ensures i <= m < k && steps[m].Run? && steps[m].t == t && t in states[m].threads
    ensures states[m].threads[t] == states[i].threads[t]
    decreases k - i
  {
    hide Next, Enabled, Init;
    assert Enabled(states[i], steps[i]);
    OthersMove(states[i], steps[i], t);
    if steps[i].Run? && steps[i].t == t {
      m := i;
    } else {
      m := FirstMove(states, steps, t, i + 1, k);
    }
  }

  /** The client failed the goroutine: an rpc or a probe got a ServerError, or the client could not be dialed. */
  predicate ClientFailed(p: Pc, e: Effect, r: Ref, c: ClientId) {
    || (p.Rpc? && p.rpc == Sent(r, c) && e.Answered? && e.answer == ServerError && !e.admin)
    || (p == Est(Probe(r, c)) && e.Answered? && e.answer == ServerError)
    || (p == Est(Dial(r, c)) && e.Dialed? && !e.ok)
  }

  lemma FailureGoesDown(p: Pc, e: Effect, q: Pc, r: Ref, c: ClientId)
    requires Local(p, e, q) && ClientFailed(p, e, r, c)
    ensures q.Downing? && q.down == Down(c, r)
  {
  }

  /**
   By the time a goroutine has dealt with a client that failed it, the client was taken down, and the region it was for
   and all regions of the client have been made unavailable.
   */
  lemma FailureTakesClientDown(
      states: seq<Shared>, steps: seq<Step>, t: Tid, i: nat, k: nat, r: Ref, c: ClientId) returns (m: nat)
    requires IsRun(states, steps) && i < k <= |steps| && t in states[i].threads && steps[i].Run? && steps[i].t == t
    requires ClientFailed(states[i].threads[t], steps[i].e, r, c)
    requires t in states[k].threads && Pending(states[k].threads[t]) == {}
    ensures i < m < k && WasUnavailable(states, m, k, r)
    ensures c in states[m].clients ==> forall x :: x in states[m].clients[c] ==> WasUnavailable(states, m, k, x)
  {
    assert Enabled(states[i], steps[i]);
    MovesTo(states[i], steps[i]);
    FailureGoesDown(states[i].threads[t], steps[i].e, steps[i].q, r, c);
    assert Pending(steps[i].q) == {r};
    hide Next, Init, ClientFailed;
    m := FirstMove(states, steps, t, i + 1, k);
    assert Enabled(states[m], steps[m]);
    MovesTo(states[m], steps[m]);
    assert steps[m].e.ClientsDown? && steps[m].e.c == c;
    hide Pending, Local;
    ClientDownMarksAll(states, steps, t, m, k, c);
    var j := WorkedOff(states, steps, t, m, k, r);
    assert Enabled(states[j], steps[j]);
    Marked(states[j], steps[j]);
    assert j != m;
    assert states[j + 1].infos[r].available.Some?;
  }

  /** An rpc that is told to retry goes back and is not over; one that has its answer is, or its lookup goes on. */
  lemma AnswersDecide(s: Shared, a: Step, r: Ref, c: ClientId, back: Back)
    requires Enabled(s, a) && a.Run? && a.e.Answered? && s.threads[a.t] == Rpc(Sent(r, c), back)
    ensures a.e.answer == Retryable ==> Next(s, a).threads[a.t] == Rpc(Idle, back)
    ensures a.e.answer == Success ==>
      Next(s, a).threads[a.t] == if back.Top? then Exited else Est(LookedUp(back.r))
    ensures a.e.answer == ContextEnded ==>
      Next(s, a).threads[a.t] == if back.Top? then Exited else Est(Lookup(back.r))
  {
    MovesTo(s, a);
    hide Next;
  }

  /** A region that is not served, or a master that failed: once the rpc goes on, the region has been unavailable. */
  lemma NotServedIsMarked(
      states: seq<Shared>, steps: seq<Step>, t: Tid, i: nat, k: nat, r: Ref, c: ClientId, back: Back)
    requires IsRun(states, steps) && i < k <= |steps| && t in states[i].threads && steps[i].Run? && steps[i].t == t
    requires states[i].threads[t] == Rpc(Sent(r, c), back) && steps[i].e.Answered?
    requires steps[i].e.answer == NotServingError || (steps[i].e.answer == ServerError && IsAdmin(states[i], r))
    requires t in states[k].threads && states[k].threads[t] != Rpc(NotServing(r), back)
    ensures WasUnavailable(states, i, k, r)
  {
    assert Enabled(states[i], steps[i]);
    MovesTo(states[i], steps[i]);
    assert steps[i].q == Rpc(NotServing(r), back);
    hide Next, Init;
    var m := FirstMove(states, steps, t, i + 1, k);
    assert Enabled(states[m], steps[m]);
    MovesTo(states[m], steps[m]);
    assert steps[m].e.Mark? && steps[m].e.r == r;
    Marked(states[m], steps[m]);
    assert states[m + 1].infos[r].available.Some?;
  }

  // ----- What it takes to connect a region

  /** Where goroutines start. */
  predicate IsStart(p: Pc) {
    p == Rpc(Idle, Top) || (p.Est? && (p.est.Reestablish? || p.est.Establish?))
  }

  lemma StartsThere(s: Shared, a: Step, t: Tid)
    requires Enabled(s, a) && t in Next(s, a).threads && t !in s.threads
    ensures IsStart(Next(s, a).threads[t])
  {
    if a.Run? && a.e.Go? { GoStarts(s.threads[a.t], a.e, a.q); }
    hide Local, CanApply, InfosAfter, ClientsAfter, CacheAfter, ClosedAfter, OwnerAfter;
  }

  /** A goroutine that is not where it started came there by a step. */
  lemma {:induction false} ArrivedBy(states: seq<Shared>, steps: seq<Step>, t: Tid, k: nat) returns (m: nat)
    requires IsRun(states, steps) && k <= |steps| && t in states[k].threads && !IsStart(states[k].threads[t])
    ensures m < k && steps[m].Run? && steps[m].t == t && t in states[m].threads && steps[m].q == states[k].threads[t]
    ensures Local(states[m].threads[t], steps[m].e, steps[m].q) && CanApply(states[m], steps[m].e)
    decreases k
  {
    hide Next, Local, CanApply, IsStart;
    assert states[0].threads == map[];
    var s, a := states[k - 1], steps[k - 1];
    assert Enabled(s, a) && states[k] == Next(s, a);
    if t !in s.threads {
      StartsThere(s, a, t);
    } else {
      OthersMove(s, a, t);
      if a.Run? && a.t == t {
        MovesTo(s, a);
        m := k - 1;
      } else {
        m := ArrivedBy(states, steps, t, k - 1);
      }
    }
  }

  lemma ToSetIt(p: Pc, e: Effect, q: Pc, r: Ref, c: ClientId)
    requires Local(p, e, q)
    ensures q == Est(SetIt(r, c)) ==>
      || (p == Est(Dial(r, c)) && e == Dialed(r, true, true))
      || (p == Est(Probe(r, c)) && e.Answered? && e.r == r && e.answer in {Success, ContextEnded})
    ensures q == Est(Probe(r, c)) ==> p == Est(Dial(r, c)) && e == Dialed(r, true, false)
  {
  }

  /** Step `m` is a dial of `t` for region `r` that succeeded. */
  ghost predicate DialedAt(states: seq<Shared>, steps: seq<Step>, t: Tid, m: nat, r: Ref, c: ClientId) {
    && m < |steps| && m < |states| && t in states[m].threads && steps[m].Run? && steps[m].t == t
    && states[m].threads[t] == Est(Dial(r, c)) && steps[m].e.Dialed? && steps[m].e.r == r && steps[m].e.ok
  }

  /**
   A region is connected to a client only after the goroutine dialed the client and, but for the admin region, got
   an answer from it that is none of the three errors that mean the region is not there.
   */
  lemma ConnectedMeans(states: seq<Shared>, steps: seq<Step>, t: Tid, k: nat, r: Ref, c: ClientId) returns (m: nat)
    requires IsRun(states, steps) && k <= |steps| && t in states[k].threads && states[k].threads[t] == Est(SetIt(r, c))
    ensures m < k && DialedAt(states, steps, t, m, r, c)
    ensures !IsAdmin(states[m], r) ==>
      exists n: nat :: && m < n < k && steps[n].Run? && steps[n].t == t && steps[n].e.Answered? && steps[n].e.r == r
                       && steps[n].e.answer in {Success, ContextEnded}
  {
    hide Next, Local, Enabled;
    var n := ArrivedBy(states, steps, t, k);
    var p := states[n].threads[t];
    ToSetIt(p, steps[n].e, steps[n].q, r, c);
    if p == Est(Dial(r, c)) {
      m := n;
    } else {
      m := ArrivedBy(states, steps, t, n);
      ToSetIt(states[m].threads[t], steps[m].e, steps[m].q, r, c);
    }
  }

  // ----- What puts leave behind

  /** A put that replaced, once the goroutine is done with it, has taken every evicted region from its client. */
  lemma EvictedLoseClients(states: seq<Shared>, steps: seq<Step>, t: Tid, i: nat, k: nat, r: Ref) returns (j: nat)
    requires IsRun(states, steps) && i < k <= |steps| && steps[i].Run? && steps[i].t == t && steps[i].e.Put?
    requires r in steps[i].e.evicted && t in states[k].threads && Pending(states[k].threads[t]) == {}
    ensures i < j <= k && r in states[j].infos && states[j].infos[r].client.None?
  {
    hide Next, Local, Pending, Init;
    assert Enabled(states[i], steps[i]);
    MovesTo(states[i], steps[i]);
    PendingTaken(states[i].threads[t], steps[i].e, steps[i].q);
    var n := WorkedOff(states, steps, t, i + 1, k, r);
    assert Enabled(states[n], steps[n]);
    Unclaimed(states[n], steps[n]);
    j := n + 1;
  }

  /** A goroutine of clientDown that is about to start an establisher for `r`. */
  predicate HandsOver(p: Pc, r: Ref) {
    p.Downing? && p.down.DownSpawn? && p.down.r == r
  }

  /** Clients are set by the owner only, and clientDown clears the client of a region before it hands it over. */
  lemma SetByOwner(p: Pc, e: Effect, q: Pc)
    requires Local(p, e, q)
    ensures e.SetClient? ==> e.r in Owned(p)
    ensures forall r :: HandsOver(q, r) ==> e == SetClient(r, None)
  {
  }

  lemma ClientsOfOthers(s: Shared, a: Step, r: Ref)
    requires Enabled(s, a) && r in s.infos && s.infos[r].client.None? && !(a.Run? && a.e.SetClient? && a.e.r == r)
    requires a.Run? && a.e.New? ==> a.e.r != r
    ensures r in Next(s, a).infos && Next(s, a).infos[r].client.None?
  {
    hide Local, ClientsAfter, CacheAfter, ClosedAfter, OwnerAfter, ThreadsAfter;
  }

  lemma HandsOverStep(s: Shared, a: Step, t: Tid, r: Ref)
    requires Inv(s) && Enabled(s, a) && t in Next(s, a).threads && HandsOver(Next(s, a).threads[t], r)
    requires t in s.threads && HandsOver(s.threads[t], r) ==> r in s.infos && s.infos[r].client.None?
    ensures r in Next(s, a).infos && Next(s, a).infos[r].client.None?
  {
    if t !in s.threads {
      FreshDoesNotHandOver(s, a, t, r);
    } else if a.Run? && a.t == t {
      MovesTo(s, a);
      SetByOwner(s.threads[t], a.e, a.q);
      hide Local, Inv;
    } else {
      OthersMove(s, a, t);
      InvParts(s);
      assert r in Owned(s.threads[t]);
      SoleOwner(s, t, r);
      if a.Run? {
        MovesTo(s, a);
        SetByOwner(s.threads[a.t], a.e, a.q);
        if a.e.SetClient? { SoleOwner(s, a.t, a.e.r); }
      }
      hide Inv, Local, OwnInv, Next;
      ClientsOfOthers(s, a, r);
    }
  }

  lemma FreshDoesNotHandOver(s: Shared, a: Step, t: Tid, r: Ref)
    requires Enabled(s, a) && t in Next(s, a).threads && t !in s.threads
    ensures !HandsOver(Next(s, a).threads[t], r)
  {
    hide Local, CanApply, InfosAfter, ClientsAfter, CacheAfter, ClosedAfter, OwnerAfter;
  }

  /** In every run, a region that clientDown hands to an establisher has lost its client. */
  lemma {:induction false} DownedHasNoClient(states: seq<Shared>, steps: seq<Step>, t: Tid, r: Ref)
    requires IsRun(states, steps) && t in states[|steps|].threads && HandsOver(states[|steps|].threads[t], r)
    ensures r in states[|steps|].infos && states[|steps|].infos[r].client.None?
    decreases |steps|
  {
    if steps != [] {
      hide Next, Enabled, Inv, HandsOver;
      var n := |steps| - 1;
      var before, earlier := states[..n + 1], steps[..n];
      assert IsRun(before, earlier);
      RunInv(before, earlier);
      assert Enabled(states[n], steps[n]);
      if t in states[n].threads && HandsOver(states[n].threads[t], r) {
        DownedHasNoClient(before, earlier, t, r);
      }
      HandsOverStep(states[n], steps[n], t, r);
    }
  }

  // ----- The dead stay dead

  lemma DeadStays(s: Shared, a: Step, r: Ref)
    requires Enabled(s, a) && r in s.infos && s.infos[r].dead
    ensures r in Next(s, a).infos && Next(s, a).infos[r].dead
  {
    hide Local, ClientsAfter, CacheAfter, ClosedAfter, OwnerAfter, ThreadsAfter;
  }

  lemma KilledNow(s: Shared, a: Step, r: Ref)
    requires Enabled(s, a) && a.Run? && r in s.infos
    requires (a.e.Put? && r in a.e.evicted) || (a.e.CacheDelete? && a.e.r == r)
    ensures r in Next(s, a).infos && Next(s, a).infos[r].dead
    ensures a.e.Put? ==> a.e.r in Next(s, a).cache && (a.e.r != r ==> r !in Next(s, a).cache)
  {
    hide Local, ClientsAfter, ClosedAfter, OwnerAfter, ThreadsAfter;
  }

  /** A region that a put evicted, or that meta no longer knows, is dead ever after: its rpcs look it up again. */
  lemma {:induction false} EvictedStayDead(states: seq<Shared>, steps: seq<Step>, i: nat, k: nat, r: Ref)
    requires IsRun(states, steps) && i < k <= |steps| && steps[i].Run? && r in states[i].infos
    requires (steps[i].e.Put? && r in steps[i].e.evicted) || (steps[i].e.CacheDelete? && steps[i].e.r == r)
    ensures r in states[k].infos && states[k].infos[r].dead
    decreases k
  {
    hide Next, Enabled, Init;
    if k == i + 1 {
      assert Enabled(states[i], steps[i]);
      KilledNow(states[i], steps[i], r);
    } else {
      EvictedStayDead(states, steps, i, k - 1, r);
      assert Enabled(states[k - 1], steps[k - 1]);
      DeadStays(states[k - 1], steps[k - 1], r);
    }
  }

  lemma {:induction false} DeadPersists(states: seq<Shared>, steps: seq<Step>, i: nat, k: nat, r: Ref)
    requires IsRun(states, steps) && i <= k <= |steps| && r in states[i].infos && states[i].infos[r].dead
    ensures r in states[k].infos && states[k].infos[r].dead
    decreases k
  {
    hide Next, Enabled, Init;
    if i < k {
      DeadPersists(states, steps, i, k - 1, r);
      assert Enabled(states[k - 1], steps[k - 1]);
      DeadStays(states[k - 1], steps[k - 1], r);
    }
  }

  /** An rpc that waited for a region which then turns out to be dead goes back to look its region up again. */
  lemma DeadIsLookedUpAgain(states: seq<Shared>, steps: seq<Step>, t: Tid, i: nat, k: nat, r: Ref, back: Back)
    returns (m: nat)
    requires IsRun(states, steps) && i <= k <= |steps| && t in states[i].threads && t in states[k].threads
    requires states[i].threads[t] == Rpc(CheckDead(r), back) && r in states[i].infos && states[i].infos[r].dead
    requires states[k].threads[t] != Rpc(CheckDead(r), back)
    ensures i <= m < k && t in states[m + 1].threads && states[m + 1].threads[t] == Rpc(Idle, back)
  {
    hide Next, Init;
    m := FirstMove(states, steps, t, i, k);
    DeadPersists(states, steps, i, m, r);
    assert Enabled(states[m], steps[m]);
    MovesTo(states[m], steps[m]);
    assert steps[m].e == SeeDead(r, true);
  }

  // ----- Clients know their regions

  /** The region was entered in the set of the client. */
  ghost predicate Registered(steps: seq<Step>, r: Ref, c: ClientId) {
    exists i: nat :: i < |steps| && steps[i].Run? && steps[i].e == ClientsPut(r, c)
  }

  /** The goroutine connects `r` to client `c`, or has given the client an rpc for it. */
  predicate Uses(p: Pc, r: Ref, c: ClientId) {
    || p == Est(Dial(r, c)) || p == Est(Probe(r, c)) || p == Est(SetIt(r, c))
    || (p.Rpc? && p.rpc == Sent(r, c))
  }

  ghost predicate AllRegistered(s: Shared, steps: seq<Step>) {
    && (forall r, c :: r in s.infos && s.infos[r].client == Some(c) && !IsAdmin(s, r) ==> Registered(steps, r, c))
    && (forall t, r, c :: t in s.threads && Uses(s.threads[t], r, c) && !IsAdmin(s, r) ==> Registered(steps, r, c))
  }

  lemma UsesStep(s: Shared, p: Pc, e: Effect, q: Pc, r: Ref, c: ClientId)
    requires Local(p, e, q) && CanApply(s, e) && Uses(q, r, c) && !IsAdmin(s, r)
    ensures Uses(p, r, c) || e == ClientsPut(r, c) || (r in s.infos && s.infos[r].client == Some(c))
  {
    hide FindStep, DownStep, RpcStep, EstStep, CanApply;
    match p
    case Rpc(x, back) => RpcUses(s, x, back, e, q, r, c);
    case Finding(x) => OthersDoNotUse(p, e, q, r, c);
    case Downing(x, cont) => OthersDoNotUse(p, e, q, r, c);
    case Est(x) => EstUses(s, x, e, q, r, c);
  }

  lemma RpcUses(s: Shared, x: RpcPc, back: Back, e: Effect, q: Pc, r: Ref, c: ClientId)
    requires RpcStep(x, back, e, q) && CanApply(s, e) && Uses(q, r, c)
    ensures r in s.infos && s.infos[r].client == Some(c)
  {
  }

  lemma EstUses(s: Shared, x: EstPc, e: Effect, q: Pc, r: Ref, c: ClientId)
    requires EstStep(x, e, q) && CanApply(s, e) && Uses(q, r, c) && !IsAdmin(s, r)
    ensures Uses(Est(x), r, c) || e == ClientsPut(r, c)
  {
  }

  lemma OthersDoNotUse(p: Pc, e: Effect, q: Pc, r: Ref, c: ClientId)
    requires Local(p, e, q) && (p.Finding? || p.Downing?)
    ensures !Uses(q, r, c)
  {
    hide RpcStep, EstStep;
  }

  lemma ClientSet(s: Shared, a: Step, r: Ref, c: ClientId)
    requires Enabled(s, a) && r in Next(s, a).infos && Next(s, a).infos[r].client == Some(c)
    ensures
      || (r in s.infos && s.infos[r].client == Some(c))
      || (a.Run? && a.e == SetClient(r, Some(c)) && a.t in s.threads && Uses(s.threads[a.t], r, c))
  {
    hide ClientsAfter, CacheAfter, ClosedAfter, OwnerAfter, ThreadsAfter;
  }

  lemma SpecialConstant(s: Shared, a: Step)
    requires Enabled(s, a)
    ensures Next(s, a).special == s.special && Next(s, a).meta == s.meta
  {
    hide Local, CanApply, InfosAfter, ClientsAfter, CacheAfter, ClosedAfter, OwnerAfter, ThreadsAfter;
  }

  lemma NewThreads(s: Shared, a: Step, t: Tid, r: Ref, c: ClientId)
    requires Enabled(s, a) && t in Next(s, a).threads && t !in s.threads
    ensures !Uses(Next(s, a).threads[t], r, c)
  {
    if a.Run? && a.e.Go? { GoStarts(s.threads[a.t], a.e, a.q); }
    hide Local, CanApply, InfosAfter, ClientsAfter, CacheAfter, ClosedAfter, OwnerAfter;
  }

  lemma RegisteredStep(s: Shared, a: Step, steps: seq<Step>)
    requires Enabled(s, a) && AllRegistered(s, steps)
    ensures AllRegistered(Next(s, a), steps + [a])
  {
    hide Next, Enabled, Uses;
    var s', more := Next(s, a), steps + [a];
    SpecialConstant(s, a);
    forall r, c | Registered(steps, r, c) ensures Registered(more, r, c) { StillRegistered(steps, a, r, c); }
    forall r, c | r in s'.infos && s'.infos[r].client == Some(c) && !IsAdmin(s, r)
      ensures Registered(more, r, c)
    {
      ClientSet(s, a, r, c);
    }
    forall t, r, c | t in s'.threads && Uses(s'.threads[t], r, c) && !IsAdmin(s, r)
      ensures Registered(more, r, c)
    {
      UserRegistered(s, a, steps, t, r, c);
    }
  }

  lemma StillRegistered(steps: seq<Step>, a: Step, r: Ref, c: ClientId)
    requires Registered(steps, r, c)
    ensures Registered(steps + [a], r, c)
  {
    var i: nat :| i < |steps| && steps[i].Run? && steps[i].e == ClientsPut(r, c);
    assert (steps + [a])[i] == steps[i];
  }

  lemma UserRegistered(s: Shared, a: Step, steps: seq<Step>, t: Tid, r: Ref, c: ClientId)
    requires Enabled(s, a) && AllRegistered(s, steps) && t in Next(s, a).threads && !IsAdmin(s, r)
    requires Uses(Next(s, a).threads[t], r, c)
    ensures Registered(steps + [a], r, c)
  {
    hide Next, Enabled, Uses;
    if t !in s.threads {
      NewThreads(s, a, t, r, c);
    } else {
      OthersMove(s, a, t);
      if a.Run? && a.t == t {
        MovesTo(s, a);
        UsesStep(s, s.threads[t], a.e, a.q, r, c);
        if a.e == ClientsPut(r, c) {
          assert (steps + [a])[|steps|] == a;
          return;
        }
      }
      StillRegistered(steps, a, r, c);
    }
  }

  lemma {:induction false} RunRegistered(states: seq<Shared>, steps: seq<Step>)
    requires IsRun(states, steps)
    ensures AllRegistered(states[|steps|], steps)
  {
    if steps != [] {
      hide Next, Enabled, AllRegistered;
      var n := |steps| - 1;
      assert IsRun(states[..n + 1], steps[..n]);
      RunRegistered(states[..n + 1], steps[..n]);
      assert Enabled(states[n], steps[n]);
      RegisteredStep(states[n], steps[n], steps[..n]);
      assert steps[..n] + [steps[n]] == steps;
    }
  }

  predicate InSet(s: Shared, r: Ref, c: ClientId) {
    c in s.clients && r in s.clients[c]
  }

  lemma SetStep(s: Shared, a: Step, r: Ref, c: ClientId)
    requires Enabled(s, a)
    ensures a.Run? && a.e == ClientsPut(r, c) ==> InSet(Next(s, a), r, c)
    ensures InSet(s, r, c) && !InSet(Next(s, a), r, c) ==> TakesOut(a, r, c)
  {
    hide Local, InfosAfter, CacheAfter, ClosedAfter, OwnerAfter, ThreadsAfter;
  }

  /** The client is taken down, or the region is taken from its client. */
  predicate TakesOut(a: Step, r: Ref, c: ClientId) {
    a.Run? && ((a.e.ClientsDown? && a.e.c == c) || a.e == ClientsDelete(r))
  }

  lemma {:induction false} InSetUntilTakenOut(states: seq<Shared>, steps: seq<Step>, i: nat, r: Ref, c: ClientId)
    requires IsRun(states, steps) && i <= |steps| && InSet(states[i], r, c)
    ensures InSet(states[|steps|], r, c) || exists j: nat :: i <= j < |steps| && TakesOut(steps[j], r, c)
    decreases |steps| - i
  {
    hide Next, Enabled, InSet, TakesOut, Init;
    if i < |steps| {
      assert Enabled(states[i], steps[i]) && states[i + 1] == Next(states[i], steps[i]);
      SetStep(states[i], steps[i], r, c);
      if InSet(states[i + 1], r, c) {
        InSetUntilTakenOut(states, steps, i + 1, r, c);
      }
    }
  }

  /**
   In every run, if a region has a client, or an rpc for it was given to a client, then the region was entered in the
   client's set, where clientDown finds it, and it is still there unless it was taken out since. The admin region alone
   has a connection of its own.
   */
  lemma ClientsKnowTheirRegions(states: seq<Shared>, steps: seq<Step>, t: Tid, r: Ref, c: ClientId) returns (i: nat)
    requires IsRun(states, steps) && !IsAdmin(states[|steps|], r)
    requires var s := states[|steps|];
      || (r in s.infos && s.infos[r].client == Some(c))
      || (t in s.threads && s.threads[t].Rpc? && s.threads[t].rpc == Sent(r, c))
    ensures i < |steps| && steps[i].Run? && steps[i].e == ClientsPut(r, c)
    ensures InSet(states[|steps|], r, c) || exists j: nat :: i < j < |steps| && TakesOut(steps[j], r, c)
  {
    hide Next, Enabled, InSet, TakesOut, Init;
    RunRegistered(states, steps);
    var s := states[|steps|];
    if t in s.threads && s.threads[t].Rpc? && s.threads[t].rpc == Sent(r, c) {
      assert Uses(s.threads[t], r, c);
    }
    assert Registered(steps, r, c);
    i :| i < |steps| && steps[i].Run? && steps[i].e == ClientsPut(r, c);
    assert Enabled(states[i], steps[i]) && states[i + 1] == Next(states[i], steps[i]);
    SetStep(states[i], steps[i], r, c);
    InSetUntilTakenOut(states, steps, i + 1, r, c);
  }
}
