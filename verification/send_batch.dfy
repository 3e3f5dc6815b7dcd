/**
 SendBatch (rpc.go): a batch of calls is spread over the region clients, and each call's result comes back
 in the call's own slot. What the rest of the system does is a parameter: `find` is the outcome of looking
 up the region client of each call, and `waits` is what the two selects on a call's result channel see.
 */
module SendBatch {
  import opened Bytes

  /** `id` stands for the identity of the call object. */
  datatype Call = Call(id: nat, table: Key, batchable: bool)

  datatype Error =
    | Duplicate(index: nat)
    | NotExecuted
    | MultipleTables
    | NonBatchable
    | Lookup(code: nat)
    | Canceled
    | Remote(code: nat)

  datatype RPCResult = RPCResult(msg: Option<nat>, error: Option<Error>)

  datatype Found = Client(rc: nat) | NotFound(code: nat)

  /** What a region client sends on a result channel. */
  datatype Received = Received(msg: Option<nat>, error: Option<nat>)

  /**
   `blocking` is what the select with the context yields, None being the end of the context; `polled` is
   what the select with a default yields, None being the default.
   */
  datatype Wait = Wait(blocking: Option<Received>, polled: Option<Received>)

  datatype Handled = Handled(call: Call, rc: nat)

  /** A QueueBatch call on a region client. */
  datatype Queued = Queued(rc: nat, rpcs: seq<Call>)

  // ----- The checks before anything is sent

  predicate IsFirst(batch: seq<Call>, i: nat, j: nat)
    requires i < |batch|
  {
    j <= i && batch[j] == batch[i] && forall k :: 0 <= k < j ==> batch[k] != batch[i]
  }

  /** Why slot `i` is refused, or that it is not. */
  ghost predicate Refused(batch: seq<Call>, i: nat, why: Option<Error>)
    requires i < |batch|
  {
    match why
    case Some(Duplicate(j)) => IsFirst(batch, i, j) && j < i
    case Some(MultipleTables) => IsFirst(batch, i, i) && batch[i].table != batch[0].table
    case Some(NonBatchable) => IsFirst(batch, i, i) && batch[i].table == batch[0].table && !batch[i].batchable
    case None => IsFirst(batch, i, i) && batch[i].table == batch[0].table && batch[i].batchable
    case _ => false
  }

  predicate NoDuplicates(batch: seq<Call>) {
    forall i, j :: 0 <= i < j < |batch| ==> batch[i] != batch[j]
  }

  /** All calls are for one table, can be batched, and are there once. */
  predicate Acceptable(batch: seq<Call>) {
    && NoDuplicates(batch)
    && forall i :: 0 <= i < |batch| ==> batch[i].table == batch[0].table && batch[i].batchable
  }

  /** rpcToRes: the first index of each call. */
  ghost predicate Indexes(batch: seq<Call>, n: nat, rpcToRes: map<Call, nat>)
    requires n <= |batch|
  {
    && (forall i :: 0 <= i < n ==> batch[i] in rpcToRes)
    && (forall c :: c in rpcToRes ==> rpcToRes[c] < n && batch[rpcToRes[c]] == c)
    && (forall c, k :: c in rpcToRes && 0 <= k < rpcToRes[c] ==> batch[k] != c)
  }

  /** A slot after the checks: refused for a reason, or not executed so far. */
  ghost predicate Checked(batch: seq<Call>, i: nat, r: RPCResult)
    requires i < |batch|
  {
    r.msg.None? && r.error.Some? && Refused(batch, i, if r.error == Some(NotExecuted) then None else r.error)
  }

  lemma ChecksDecide(batch: seq<Call>, res: seq<RPCResult>)
    requires batch != [] && |res| == |batch| && forall i :: 0 <= i < |batch| ==> Checked(batch, i, res[i])
    ensures (forall i :: 0 <= i < |batch| ==> res[i].error == Some(NotExecuted)) <==> Acceptable(batch)
  {
    if forall i :: 0 <= i < |batch| ==> res[i].error == Some(NotExecuted) {
      forall i, j | 0 <= i < j < |batch| ensures batch[i] != batch[j] {
        assert Checked(batch, j, res[j]) && IsFirst(batch, j, j);
      }
      forall i | 0 <= i < |batch| ensures batch[i].table == batch[0].table && batch[i].batchable {
        assert Checked(batch, i, res[i]);
      }
    } else {
      var i :| 0 <= i < |batch| && res[i].error != Some(NotExecuted);
      assert Checked(batch, i, res[i]);
    }
  }

  /** One turn of the check loop: `rpcToRes` knows the calls before `i`. */
  method CheckOne(batch: seq<Call>, i: nat, rpcToRes: map<Call, nat>) returns (r: RPCResult, indexes: map<Call, nat>)
    requires i < |batch| && Indexes(batch, i, rpcToRes)
    ensures Checked(batch, i, r) && Indexes(batch, i + 1, indexes)
  {
    var rpc := batch[i];
    if rpc in rpcToRes {
      return RPCResult(None, Some(Duplicate(rpcToRes[rpc]))), rpcToRes;
    }
    indexes := rpcToRes[rpc := i];
    if rpc.table != batch[0].table {
      r := RPCResult(None, Some(MultipleTables));
    } else if !rpc.batchable {
      r := RPCResult(None, Some(NonBatchable));
    } else {
      r := RPCResult(None, Some(NotExecuted));
    }
  }

  method CheckBatch(batch: seq<Call>) returns (res: seq<RPCResult>, allOK: bool, rpcToRes: map<Call, nat>)
    requires batch != []
    ensures |res| == |batch| && Indexes(batch, |batch|, rpcToRes)
    ensures forall i :: 0 <= i < |batch| ==> Checked(batch, i, res[i])
    ensures allOK <==> Acceptable(batch)
    ensures allOK ==> forall i :: 0 <= i < |batch| ==> res[i] == RPCResult(None, Some(NotExecuted))
  {
    hide Refused, Indexes, Acceptable;
    res, allOK := [], true;
    rpcToRes := map[];
    NothingIndexed(batch);
    ghost var bad := 0;
    for i := 0 to |batch|
      invariant |res| == i && Indexes(batch, i, rpcToRes)
      invariant forall k :: 0 <= k < i ==> Checked(batch, k, res[k])
      invariant if allOK then forall k :: 0 <= k < i ==> res[k].error == Some(NotExecuted)
                else bad < i && res[bad].error != Some(NotExecuted)
    {
      var r;
      r, rpcToRes := CheckOne(batch, i, rpcToRes);
      if allOK && r.error != Some(NotExecuted) {
        allOK, bad := false, i;
      }
      res := res + [r];
    }
    ChecksDecide(batch, res);
  }

  lemma NothingIndexed(batch: seq<Call>)
    ensures Indexes(batch, 0, map[])
  {
  }

  // ----- Groups of calls by region client

  /** The positions of the calls of a client among the first `n`, in batch order. */
  function Positions(find: nat -> Found, rc: nat, n: nat): seq<nat> {
    if n == 0 then [] else Positions(find, rc, n - 1) + if find(n - 1) == Client(rc) then [n - 1] else []
  }

  predicate Increasing(ps: seq<nat>) {
    forall p, q :: 0 <= p < q < |ps| ==> ps[p] < ps[q]
  }

  lemma {:induction false} PositionsExact(find: nat -> Found, rc: nat, n: nat)
    ensures forall i: nat :: i in Positions(find, rc, n) <==> i < n && find(i) == Client(rc)
    ensures Increasing(Positions(find, rc, n))
  {
    if n > 0 {
      PositionsExact(find, rc, n - 1);
      var before, ps := Positions(find, rc, n - 1), Positions(find, rc, n);
      forall p | 0 <= p < |before| ensures before[p] < n - 1 && ps[p] == before[p] {
        var i := before[p];
        assert i in before;
      }
    }
  }

  function CallsAt(batch: seq<Call>, ps: seq<nat>): (cs: seq<Call>)
    requires forall p :: 0 <= p < |ps| ==> ps[p] < |batch|
    ensures |cs| == |ps|
  {
    seq(|ps|, p requires 0 <= p < |ps| => batch[ps[p]])
  }

  /** The client has its calls, in batch order. */
  ghost predicate GroupOf(batch: seq<Call>, find: nat -> Found, n: nat, byClient: map<nat, seq<Call>>, rc: nat)
    requires n <= |batch|
  {
    var ps := Positions(find, rc, n);
    && (forall p :: 0 <= p < |ps| ==> ps[p] < |batch|)
    && (rc in byClient <==> ps != [])
    && (rc in byClient ==> byClient[rc] == CallsAt(batch, ps))
  }

  ghost predicate Grouped(batch: seq<Call>, find: nat -> Found, n: nat, byClient: map<nat, seq<Call>>)
    requires n <= |batch|
  {
    forall rc: nat :: GroupOf(batch, find, n, byClient, rc)
  }

  /** The region clients of the calls; a call without one keeps the error in its slot, and the rest go on. */
  method FindClients(batch: seq<Call>, find: nat -> Found, res: seq<RPCResult>)
    returns (byClient: map<nat, seq<Call>>, out: seq<RPCResult>, ok: bool)
    requires |res| == |batch|
    ensures |out| == |res| && Grouped(batch, find, |batch|, byClient)
    ensures forall i :: 0 <= i < |out| ==>
      out[i] == if find(i).Client? then res[i] else RPCResult(res[i].msg, Some(Lookup(find(i).code)))
    ensures ok <==> forall i: nat :: i < |batch| ==> find(i).Client?
  {
    hide Positions;
    byClient, out, ok := map[], res, true;
    NothingGrouped(batch, find);
    for i := 0 to |batch|
      invariant |out| == |res| && Grouped(batch, find, i, byClient)
      invariant forall k :: 0 <= k < |out| ==>
        out[k] == if k < i && find(k).NotFound? then RPCResult(res[k].msg, Some(Lookup(find(k).code))) else res[k]
      invariant ok <==> forall k: nat :: k < i ==> find(k).Client?
    {
      GroupedStep(batch, find, i, byClient);
      match find(i)
      case NotFound(code) =>
        out := out[i := RPCResult(out[i].msg, Some(Lookup(code)))];
        ok := false;
      case Client(rc) =>
        byClient := byClient[rc := (if rc in byClient then byClient[rc] else []) + [batch[i]]];
    }
  }

  lemma NothingGrouped(batch: seq<Call>, find: nat -> Found)
    ensures Grouped(batch, find, 0, map[])
  {
  }

  lemma GroupGrows(
      batch: seq<Call>, find: nat -> Found, n: nat, byClient: map<nat, seq<Call>>, after: map<nat, seq<Call>>, rc: nat)
    requires n < |batch| && GroupOf(batch, find, n, byClient, rc)
    requires if find(n) != Client(rc) then rc in after <==> rc in byClient
             else rc in after && after[rc] == (if rc in byClient then byClient[rc] else []) + [batch[n]]
    requires find(n) != Client(rc) && rc in after ==> after[rc] == byClient[rc]
    ensures GroupOf(batch, find, n + 1, after, rc)
  {
  }

  lemma GroupedStep(batch: seq<Call>, find: nat -> Found, n: nat, byClient: map<nat, seq<Call>>)
    requires n < |batch| && Grouped(batch, find, n, byClient)
    ensures find(n).NotFound? ==> Grouped(batch, find, n + 1, byClient)
    ensures find(n).Client? ==>
      var rc := find(n).rc;
      Grouped(batch, find, n + 1, byClient[rc := (if rc in byClient then byClient[rc] else []) + [batch[n]]])
  {
    hide GroupOf;
    var after :=
      match find(n)
      case NotFound(_) => byClient
      case Client(rc) => byClient[rc := (if rc in byClient then byClient[rc] else []) + [batch[n]]];
    var m := n + 1;
    forall rc: nat ensures GroupOf(batch, find, m, after, rc) {
      assert GroupOf(batch, find, n, byClient, rc);
      GroupGrows(batch, find, n, byClient, after, rc);
    }
  }

  // ----- Waiting for the results

  type Waits = Call -> Wait

  function Slot(before: RPCResult, seen: Option<Received>): RPCResult {
    if seen.None? then RPCResult(before.msg, Some(Canceled))
    else RPCResult(seen.value.msg, if seen.value.error.Some? then Some(Remote(seen.value.error.value)) else None)
  }

  /** The slot has what was received, message and error, or that the context ended. */
  predicate IsReported(seen: Option<Received>, r: RPCResult) {
    && (seen.None? ==> r.error == Some(Canceled))
    && (seen.Some? ==> r.msg == seen.value.msg)
    && (seen.Some? && seen.value.error.None? ==> r.error.None?)
    && (seen.Some? && seen.value.error.Some? ==> r.error == Some(Remote(seen.value.error.value)))
  }

  predicate IsError(seen: Option<Received>) {
    seen.Some? && seen.value.error.Some?
  }

  predicate IsOk(seen: Option<Received>) {
    seen.Some? && seen.value.error.None?
  }

  /** The end of the context was noticed while waiting for call `p` or one before it. */
  predicate CanceledIn(rpcs: seq<Call>, waits: Waits, p: nat)
    requires p < |rpcs|
  {
    exists q :: 0 <= q <= p && waits(rpcs[q]).blocking.None?
  }

  function SeenIn(rpcs: seq<Call>, waits: Waits, p: nat): Option<Received>
    requires p < |rpcs|
  {
    if CanceledIn(rpcs, waits, p) then waits(rpcs[p]).polled else waits(rpcs[p]).blocking
  }

  /** The slots of the first `n` calls of a client are filled and the others are as before. */
  ghost predicate Filled(
      rpcs: seq<Call>, ps: seq<nat>, waits: Waits, before: seq<RPCResult>, after: seq<RPCResult>, n: nat)
    requires n <= |ps| == |rpcs|
  {
    && |after| == |before|
    && (forall p :: 0 <= p < n && ps[p] < |before| ==> after[ps[p]] == Slot(before[ps[p]], SeenIn(rpcs, waits, p)))
    && (forall i :: 0 <= i < |before| && i !in ps[..n] ==> after[i] == before[i])
  }

  /** handleResultError was called for the calls with an error among the first `n`. */
  ghost predicate HandledAre(rpcs: seq<Call>, rc: nat, waits: Waits, handled: set<Handled>, n: nat)
    requires n <= |rpcs|
  {
    forall h :: h in handled <==> exists p :: 0 <= p < n && h == Handled(rpcs[p], rc) && IsError(SeenIn(rpcs, waits, p))
  }

  lemma FilledStep(rpcs: seq<Call>, ps: seq<nat>, waits: Waits, before: seq<RPCResult>, after: seq<RPCResult>, n: nat)
    requires n < |ps| == |rpcs| && Increasing(ps) && ps[n] < |before| && Filled(rpcs, ps, waits, before, after, n)
    ensures after[ps[n]] == before[ps[n]]
    ensures Filled(rpcs, ps, waits, before, after[ps[n] := Slot(before[ps[n]], SeenIn(rpcs, waits, n))], n + 1)
  {
    hide Slot, SeenIn;
    assert ps[..n + 1] == ps[..n] + [ps[n]];
    assert ps[n] !in ps[..n];
  }

  lemma HandledStep(rpcs: seq<Call>, rc: nat, waits: Waits, handled: set<Handled>, n: nat)
    requires n < |rpcs| && HandledAre(rpcs, rc, waits, handled, n)
    ensures var more := if IsError(SeenIn(rpcs, waits, n)) then {Handled(rpcs[n], rc)} else {};
      HandledAre(rpcs, rc, waits, handled + more, n + 1)
  {
    hide SeenIn, IsError;
  }

  method WaitForCompletion(rc: nat, rpcs: seq<Call>, results: seq<RPCResult>, rpcToRes: map<Call, nat>, waits: Waits,
                           ghost ps: seq<nat>) returns (out: seq<RPCResult>, ok: bool, handled: set<Handled>)
    requires |ps| == |rpcs| && Increasing(ps)
    requires forall p :: 0 <= p < |ps| ==> rpcs[p] in rpcToRes && rpcToRes[rpcs[p]] == ps[p] < |results|
    ensures Filled(rpcs, ps, waits, results, out, |ps|)
    ensures |out| == |results|
    ensures forall p :: 0 <= p < |ps| ==> IsReported(SeenIn(rpcs, waits, p), out[ps[p]])
    ensures HandledAre(rpcs, rc, waits, handled, |ps|)
    ensures ok <==> forall p :: 0 <= p < |rpcs| ==> IsOk(waits(rpcs[p]).blocking)
  {
    hide Filled, HandledAre, Slot;
    out, ok, handled := results, true, {};
    StartWaiting(rpcs, rc, ps, waits, results);
    var i := 0;
    while i < |rpcs|
      invariant 0 <= i <= |rpcs|
      invariant forall q :: 0 <= q < i ==> waits(rpcs[q]).blocking.Some?
      invariant Filled(rpcs, ps, waits, results, out, i) && HandledAre(rpcs, rc, waits, handled, i)
      invariant ok <==> forall p :: 0 <= p < i ==> IsOk(waits(rpcs[p]).blocking)
      invariant |out| == |results|
    {
      var rpc := rpcs[i];
      FilledStep(rpcs, ps, waits, results, out, i);
      HandledStep(rpcs, rc, waits, handled, i);
      var got := waits(rpc).blocking;
      if got.None? {
        ok := false;
        break;
      }
      assert SeenIn(rpcs, waits, i) == got;
      out := out[rpcToRes[rpc] := Slot(out[rpcToRes[rpc]], got)];
      if got.value.error.Some? {
        handled := handled + {Handled(rpc, rc)};
        ok := false;
      }
      FilledSize(rpcs, ps, waits, results, out, i + 1);
      assert handled + {} == handled;
      i := i + 1;
    }
    ghost var canceled := i;
    while i < |rpcs|
      invariant 0 <= canceled <= i <= |rpcs| && (i < |rpcs| ==> waits(rpcs[canceled]).blocking.None?)
      invariant Filled(rpcs, ps, waits, results, out, i) && HandledAre(rpcs, rc, waits, handled, i)
      invariant |out| == |results|
    {
      var rpc := rpcs[i];
      FilledStep(rpcs, ps, waits, results, out, i);
      HandledStep(rpcs, rc, waits, handled, i);
      var got := waits(rpc).polled;
      assert SeenIn(rpcs, waits, i) == got;
      out := out[rpcToRes[rpc] := Slot(out[rpcToRes[rpc]], got)];
      if IsError(got) {
        handled := handled + {Handled(rpc, rc)};
      }
      FilledSize(rpcs, ps, waits, results, out, i + 1);
      assert handled + {} == handled;
      i := i + 1;
    }
    FilledIsReported(rpcs, ps, waits, results, out);
  }

  lemma FilledIsReported(
      rpcs: seq<Call>, ps: seq<nat>, waits: Waits, before: seq<RPCResult>, after: seq<RPCResult>)
    requires |ps| == |rpcs| && Filled(rpcs, ps, waits, before, after, |ps|)
    requires forall p :: 0 <= p < |ps| ==> ps[p] < |before|
    ensures |after| == |before| && forall p :: 0 <= p < |ps| ==> IsReported(SeenIn(rpcs, waits, p), after[ps[p]])
  {
    hide SeenIn;
  }

  lemma StartWaiting(rpcs: seq<Call>, rc: nat, ps: seq<nat>, waits: Waits, before: seq<RPCResult>)
    requires |ps| == |rpcs|
    ensures Filled(rpcs, ps, waits, before, before, 0) && HandledAre(rpcs, rc, waits, {}, 0)
  {
  }

  lemma FilledSize(rpcs: seq<Call>, ps: seq<nat>, waits: Waits, before: seq<RPCResult>, after: seq<RPCResult>, n: nat)
    requires n <= |ps| == |rpcs| && Filled(rpcs, ps, waits, before, after, n)
    ensures |after| == |before|
  {
  }

  // ----- The whole batch

  /** The end of the context was noticed at call `i`, or before it at a call of the same client. */
  ghost predicate CanceledAt(batch: seq<Call>, find: nat -> Found, waits: Waits, i: nat)
    requires i < |batch|
  {
    exists j: nat :: j <= i && find(j) == find(i) && waits(batch[j]).blocking.None?
  }

  /** What SendBatch received for call `i`. */
  ghost function Seen(batch: seq<Call>, find: nat -> Found, waits: Waits, i: nat): Option<Received>
    requires i < |batch|
  {
    if CanceledAt(batch, find, waits, i) then waits(batch[i]).polled else waits(batch[i]).blocking
  }

  ghost predicate Dispatched(batch: seq<Call>, find: nat -> Found) {
    Acceptable(batch) && forall i: nat :: i < |batch| ==> find(i).Client?
  }

  const PENDING := RPCResult(None, Some(NotExecuted))

  /** Waiting client by client is, for each call, waiting in batch order. */
  lemma SeenByPosition(batch: seq<Call>, find: nat -> Found, waits: Waits, rc: nat, p: nat)
    requires var ps := Positions(find, rc, |batch|);
      p < |ps| && forall p :: 0 <= p < |ps| ==> ps[p] < |batch|
    ensures var ps := Positions(find, rc, |batch|);
      find(ps[p]) == Client(rc) && SeenIn(CallsAt(batch, ps), waits, p) == Seen(batch, find, waits, ps[p])
  {
    hide Positions;
    PositionsExact(find, rc, |batch|);
    var ps := Positions(find, rc, |batch|);
    var rpcs := CallsAt(batch, ps);
    assert ps[p] in ps;
    if CanceledIn(rpcs, waits, p) {
      var q :| 0 <= q <= p && waits(rpcs[q]).blocking.None?;
      assert ps[q] in ps && ps[q] <= ps[p];
      assert CanceledAt(batch, find, waits, ps[p]);
    }
    if CanceledAt(batch, find, waits, ps[p]) {
      var j: nat :| j <= ps[p] && find(j) == find(ps[p]) && waits(batch[j]).blocking.None?;
      assert j in ps;
      var q :| 0 <= q < |ps| && ps[q] == j;
      assert q <= p && rpcs[q] == batch[j];
    }
  }

  /** The slots of the calls of the clients in `done` are final, the others pending. */
  ghost predicate Progress(batch: seq<Call>, find: nat -> Found, waits: Waits, res: seq<RPCResult>, done: set<nat>) {
    && |res| == |batch|
    && forall i: nat :: i < |batch| && find(i).Client? ==>
         res[i] == if find(i).rc in done then Slot(PENDING, Seen(batch, find, waits, i)) else PENDING
  }

  lemma ProgressStep(batch: seq<Call>, find: nat -> Found, waits: Waits, before: seq<RPCResult>, after: seq<RPCResult>,
                     done: set<nat>, rc: nat)
    requires Progress(batch, find, waits, before, done) && rc !in done
    requires var ps := Positions(find, rc, |batch|);
      (forall p :: 0 <= p < |ps| ==> ps[p] < |batch|) && Filled(CallsAt(batch, ps), ps, waits, before, after, |ps|)
    ensures Progress(batch, find, waits, after, done + {rc})
  {
    hide Positions, Slot, SeenIn, Seen;
    PositionsExact(find, rc, |batch|);
    var ps := Positions(find, rc, |batch|);
    assert ps[..|ps|] == ps;
    forall i: nat | i < |batch| && find(i).Client?
      ensures after[i] == if find(i).rc in done + {rc} then Slot(PENDING, Seen(batch, find, waits, i)) else PENDING
    {
      if find(i).rc == rc {
        assert i in ps;
        var p :| 0 <= p < |ps| && ps[p] == i;
        SeenByPosition(batch, find, waits, rc, p);
      } else {
        assert i !in ps;
      }
    }
  }

  ghost predicate FailedIn(batch: seq<Call>, find: nat -> Found, waits: Waits, done: set<nat>) {
    exists i: nat :: i < |batch| && find(i).Client? && find(i).rc in done && !IsOk(waits(batch[i]).blocking)
  }

  /** `h` is the handling of the error that call `i` received, with the client it was sent to. */
  ghost predicate IsHandled(batch: seq<Call>, find: nat -> Found, waits: Waits, i: nat, h: Handled)
    requires i < |batch|
  {
    find(i) == Client(h.rc) && h.call == batch[i] && IsError(Seen(batch, find, waits, i))
  }

  ghost predicate HandledIn(batch: seq<Call>, find: nat -> Found, waits: Waits, handled: set<Handled>, done: set<nat>) {
    forall h :: h in handled <==>
      exists i: nat :: i < |batch| && IsHandled(batch, find, waits, i, h) && h.rc in done
  }

  lemma FailedStep(batch: seq<Call>, find: nat -> Found, waits: Waits, done: set<nat>, rc: nat, rpcs: seq<Call>)
    requires var ps := Positions(find, rc, |batch|);
      (forall p :: 0 <= p < |ps| ==> ps[p] < |batch|) && rpcs == CallsAt(batch, ps)
    ensures FailedIn(batch, find, waits, done + {rc}) <==>
      FailedIn(batch, find, waits, done) || exists p :: 0 <= p < |rpcs| && !IsOk(waits(rpcs[p]).blocking)
  {
    hide Positions, IsOk;
    PositionsExact(find, rc, |batch|);
    var ps := Positions(find, rc, |batch|);
    if p :| 0 <= p < |rpcs| && !IsOk(waits(rpcs[p]).blocking) {
      assert ps[p] in ps && rpcs[p] == batch[ps[p]];
      assert FailedIn(batch, find, waits, done + {rc});
    }
    if i: nat :| i < |batch| && find(i) == Client(rc) && !IsOk(waits(batch[i]).blocking) {
      assert i in ps;
      var p :| 0 <= p < |ps| && ps[p] == i;
      assert rpcs[p] == batch[i];
    }
  }

  lemma HandledInStep(batch: seq<Call>, find: nat -> Found, waits: Waits, handled: set<Handled>, more: set<Handled>,
                      done: set<nat>, rc: nat)
    requires var ps := Positions(find, rc, |batch|);
      (forall p :: 0 <= p < |ps| ==> ps[p] < |batch|) && HandledAre(CallsAt(batch, ps), rc, waits, more, |ps|)
    requires HandledIn(batch, find, waits, handled, done)
    ensures HandledIn(batch, find, waits, handled + more, done + {rc})
  {
    hide Positions, IsError, SeenIn, Seen;
    PositionsExact(find, rc, |batch|);
    var ps := Positions(find, rc, |batch|);
    var rpcs := CallsAt(batch, ps);
    forall h | h in more
      ensures h.rc == rc && exists i: nat :: i < |batch| && IsHandled(batch, find, waits, i, h)
    {
      var p :| 0 <= p < |ps| && h == Handled(rpcs[p], rc) && IsError(SeenIn(rpcs, waits, p));
      SeenByPosition(batch, find, waits, rc, p);
      assert IsHandled(batch, find, waits, ps[p], h);
    }
    forall i: nat | i < |batch| && IsError(Seen(batch, find, waits, i)) && find(i) == Client(rc)
      ensures Handled(batch[i], rc) in more
    {
      assert i in ps;
      var p :| 0 <= p < |ps| && ps[p] == i;
      SeenByPosition(batch, find, waits, rc, p);
      assert IsError(SeenIn(rpcs, waits, p)) && rpcs[p] == batch[i];
    }
  }

  lemma AllClients(batch: seq<Call>, find: nat -> Found, byClient: map<nat, seq<Call>>)
    requires Grouped(batch, find, |batch|, byClient)
    ensures forall i: nat :: i < |batch| && find(i).Client? ==> find(i).rc in byClient
  {
    hide Positions;
    forall i: nat | i < |batch| && find(i).Client? ensures find(i).rc in byClient {
      PositionsExact(find, find(i).rc, |batch|);
      assert GroupOf(batch, find, |batch|, byClient, find(i).rc);
      assert i in Positions(find, find(i).rc, |batch|);
    }
  }

  /** Each wait is in order and knows the slots of its calls. */
  lemma GroupReady(
      batch: seq<Call>, find: nat -> Found, byClient: map<nat, seq<Call>>, rpcToRes: map<Call, nat>, rc: nat)
    requires Acceptable(batch) && Grouped(batch, find, |batch|, byClient) && Indexes(batch, |batch|, rpcToRes)
    requires rc in byClient
    ensures var ps := Positions(find, rc, |batch|);
      && Increasing(ps) && (forall p :: 0 <= p < |ps| ==> ps[p] < |batch|) && byClient[rc] == CallsAt(batch, ps)
      && forall p :: 0 <= p < |ps| ==> byClient[rc][p] in rpcToRes && rpcToRes[byClient[rc][p]] == ps[p]
  {
    hide Positions;
    PositionsExact(find, rc, |batch|);
    assert GroupOf(batch, find, |batch|, byClient, rc);
  }

  /** What a batch comes back with. */
  ghost predicate BatchResult(batch: seq<Call>, find: nat -> Found, waits: Waits, res: seq<RPCResult>, allOK: bool) {
    && |res| == |batch|
    && (batch == [] ==> allOK)
    && (batch != [] && !Acceptable(batch) ==> !allOK && forall i :: 0 <= i < |batch| ==> Checked(batch, i, res[i]))
    && (batch != [] && Acceptable(batch) && !Dispatched(batch, find) ==> (
          && !allOK
          && forall i :: 0 <= i < |batch| ==>
               res[i] == if find(i).Client? then PENDING else RPCResult(None, Some(Lookup(find(i).code)))))
    && (batch != [] && Dispatched(batch, find) ==> (
          && (allOK <==> forall i :: 0 <= i < |batch| ==> IsOk(waits(batch[i]).blocking))
          && forall i :: 0 <= i < |batch| ==> res[i] == Slot(PENDING, Seen(batch, find, waits, i))))
  }

  /** Every client gets its calls, once. */
  ghost predicate QueuedAre(byClient: map<nat, seq<Call>>, queued: seq<Queued>) {
    && (forall k :: 0 <= k < |queued| ==> queued[k].rc in byClient && queued[k].rpcs == byClient[queued[k].rc])
    && (forall k, l :: 0 <= k < l < |queued| ==> queued[k].rc != queued[l].rc)
    && (forall rc :: rc in byClient ==> exists k :: 0 <= k < |queued| && queued[k].rc == rc)
  }

  /** In any order: the map decides. */
  method QueueAll(byClient: map<nat, seq<Call>>) returns (queued: seq<Queued>)
    ensures QueuedAre(byClient, queued)
  {
    queued := [];
    var todo := byClient.Keys;
    while todo != {}
      invariant todo <= byClient.Keys
      invariant forall k :: 0 <= k < |queued| ==>
        queued[k].rc in byClient && queued[k].rc !in todo && queued[k].rpcs == byClient[queued[k].rc]
      invariant forall k, l :: 0 <= k < l < |queued| ==> queued[k].rc != queued[l].rc
      invariant forall rc :: rc in byClient && rc !in todo ==> exists k :: 0 <= k < |queued| && queued[k].rc == rc
    {
      var rc :| rc in todo;
      ghost var before := queued;
      queued := queued + [Queued(rc, byClient[rc])];
      assert queued[|before|].rc == rc && forall k :: 0 <= k < |before| ==> queued[k] == before[k];
      todo := todo - {rc};
    }
  }

  /** For any order in which the clients come out of the map. */
  method SendBatch(batch: seq<Call>, find: nat -> Found, waits: Waits)
    returns (res: seq<RPCResult>, allOK: bool, queued: seq<Queued>, handled: set<Handled>)
    ensures BatchResult(batch, find, waits, res, allOK)
    ensures Dispatched(batch, find) ==>
      forall i :: 0 <= i < |batch| ==> IsReported(Seen(batch, find, waits, i), res[i])
    ensures !Dispatched(batch, find) ==> queued == [] && handled == {}
    ensures Dispatched(batch, find) ==>
      exists byClient :: Grouped(batch, find, |batch|, byClient) && QueuedAre(byClient, queued)
    ensures Dispatched(batch, find) ==> forall h :: h in handled <==>
      exists i: nat :: i < |batch| && IsHandled(batch, find, waits, i, h)
  {
    hide Acceptable, Indexes, Grouped, Checked, Seen, Progress, Slot, Positions, QueuedAre;
    handled, queued := {}, [];
    if |batch| == 0 {
      NothingQueued(batch, find);
      return [], true, [], {};
    }
    var rpcToRes;
    res, allOK, rpcToRes := CheckBatch(batch);
    if !allOK { return; }
    var byClient, ok;
    byClient, res, ok := FindClients(batch, find, res);
    if !ok { return res, false, [], {}; }
    queued := QueueAll(byClient);
    var fail;
    res, fail, handled := WaitForAll(batch, find, waits, res, queued, byClient, rpcToRes);
    allOK := !fail;
  }

  lemma NothingQueued(batch: seq<Call>, find: nat -> Found)
    requires batch == []
    ensures Grouped(batch, find, 0, map[]) && QueuedAre(map[], [])
  {
  }

  method WaitForAll(batch: seq<Call>, find: nat -> Found, waits: Waits, before: seq<RPCResult>,
                    queued: seq<Queued>, ghost byClient: map<nat, seq<Call>>, rpcToRes: map<Call, nat>)
    returns (res: seq<RPCResult>, fail: bool, handled: set<Handled>)
    requires Dispatched(batch, find) && |before| == |batch| && forall i :: 0 <= i < |batch| ==> before[i] == PENDING
    requires Grouped(batch, find, |batch|, byClient) && QueuedAre(byClient, queued) && Indexes(batch, |batch|, rpcToRes)
    ensures |res| == |batch| && forall i :: 0 <= i < |batch| ==> res[i] == Slot(PENDING, Seen(batch, find, waits, i))
    ensures forall i :: 0 <= i < |batch| ==> IsReported(Seen(batch, find, waits, i), res[i])
    ensures fail <==> exists i :: 0 <= i < |batch| && !IsOk(waits(batch[i]).blocking)
    ensures forall h :: h in handled <==>
      exists i: nat :: i < |batch| && IsHandled(batch, find, waits, i, h)
  {
    hide Positions, Acceptable, Grouped, Indexes, Seen, Slot, IsOk, IsError, Filled, HandledAre;
    res, fail, handled := before, false, {};
    ghost var done: set<nat> := {};
    AllClients(batch, find, byClient);
    for k := 0 to |queued|
      invariant forall rc :: rc in done <==> exists l :: 0 <= l < k && queued[l].rc == rc
      invariant Progress(batch, find, waits, res, done)
      invariant fail <==> FailedIn(batch, find, waits, done)
      invariant HandledIn(batch, find, waits, handled, done)
    {
      hide Progress, FailedIn, HandledIn;
      var rc, rpcs := queued[k].rc, queued[k].rpcs;
      ghost var ps := Positions(find, rc, |batch|);
      ProgressSize(batch, find, waits, res, done);
      GroupReady(batch, find, byClient, rpcToRes, rc);
      var out, ok, more := WaitForCompletion(rc, rpcs, res, rpcToRes, waits, ps);
      ProgressStep(batch, find, waits, res, out, done, rc);
      FailedStep(batch, find, waits, done, rc, rpcs);
      HandledInStep(batch, find, waits, handled, more, done, rc);
      res, handled := out, handled + more;
      if !ok { fail := true; }
      done := done + {rc};
    }
    forall i: nat | i < |batch|
      ensures IsReported(Seen(batch, find, waits, i), res[i])
    {
      SlotReports(PENDING, Seen(batch, find, waits, i));
    }
  }

  lemma SlotReports(before: RPCResult, seen: Option<Received>)
    ensures IsReported(seen, Slot(before, seen))
  {
  }

  lemma ProgressSize(batch: seq<Call>, find: nat -> Found, waits: Waits, res: seq<RPCResult>, done: set<nat>)
    requires Progress(batch, find, waits, res, done)
    ensures |res| == |batch|
  {
  }

  // ----- What a caller can rely on

  /** Slot `i` has no error if and only if the batch was sent and call `i`'s own result came back without one. */
  lemma NilErrorIff(batch: seq<Call>, find: nat -> Found, waits: Waits, res: seq<RPCResult>, allOK: bool, i: nat)
    requires BatchResult(batch, find, waits, res, allOK) && i < |batch|
    ensures res[i].error.None? <==> Dispatched(batch, find) && IsOk(Seen(batch, find, waits, i))
    ensures res[i].error.None? ==> res[i].msg == Seen(batch, find, waits, i).value.msg
    ensures Dispatched(batch, find) ==> res[i].error != Some(NotExecuted)
  {
    hide Acceptable, Seen;
    if batch != [] && !Acceptable(batch) {
      assert Checked(batch, i, res[i]);
    }
  }

  /** The error in a slot of a batch that was sent is the one that was received, or the end of the context. */
  lemma ErrorsExact(batch: seq<Call>, find: nat -> Found, waits: Waits, res: seq<RPCResult>, allOK: bool, i: nat)
    requires BatchResult(batch, find, waits, res, allOK) && i < |batch| && Dispatched(batch, find)
    ensures var seen := Seen(batch, find, waits, i);
      && (res[i].error == Some(Canceled) <==> seen.None?)
      && (forall e: nat :: res[i].error == Some(Remote(e)) <==> seen.Some? && seen.value.error == Some(e))
      && (res[i].error.None? <==> seen.Some? && seen.value.error.None?)
      && res[i].msg == if seen.Some? then seen.value.msg else None
  {
    hide Seen, Acceptable;
  }

  /**
   A result that is there is taken: what a wait brings before the end of the context, and what is there when the call
   is polled after it, also for the very call at which the end was noticed. Only calls without either are canceled.
   */
  lemma ReadyResultsAreTaken(batch: seq<Call>, find: nat -> Found, waits: Waits, i: nat)
    requires i < |batch|
    ensures var w := waits(batch[i]);
      && (w.blocking.None? ==> Seen(batch, find, waits, i) == w.polled)
      && (w.blocking.Some? && w.blocking == w.polled ==> Seen(batch, find, waits, i) == w.blocking)
      && ((forall j: nat :: j <= i ==> waits(batch[j]).blocking.Some?) ==> Seen(batch, find, waits, i) == w.blocking)
      && (Seen(batch, find, waits, i).None? ==> w.polled.None?)
  {
    if waits(batch[i]).blocking.None? {
      assert find(i) == find(i) && CanceledAt(batch, find, waits, i);
    }
  }

  /** A batch that is not acceptable leaves in each slot the reason, or that the call was not executed. */
  lemma ReasonsExact(batch: seq<Call>, find: nat -> Found, waits: Waits, res: seq<RPCResult>, allOK: bool, i: nat)
    requires BatchResult(batch, find, waits, res, allOK) && i < |batch| && !Acceptable(batch)
    ensures
      var again := exists j: nat :: j < i && batch[j] == batch[i];
      var other, alone := batch[i].table != batch[0].table, !batch[i].batchable;
      && !allOK && res[i].msg.None? && res[i].error.Some?
      && (res[i].error.value.Duplicate? <==> again)
      && (res[i].error.value.Duplicate? ==> IsFirst(batch, i, res[i].error.value.index))
      && (res[i].error.value == MultipleTables <==> !again && other)
      && (res[i].error.value == NonBatchable <==> !again && !other && alone)
      && (res[i].error.value == NotExecuted <==> !again && !other && !alone)
  {
    assert Checked(batch, i, res[i]);
  }

  /**
   allOK means that no slot has an error. The converse fails when the context ends but the results are
   there when polled: allOK holds if and only if there is no error and no select saw the end of the context.
   */
  lemma AllOkIff(batch: seq<Call>, find: nat -> Found, waits: Waits, res: seq<RPCResult>, allOK: bool)
    requires BatchResult(batch, find, waits, res, allOK)
    ensures allOK <==>
      (forall i :: 0 <= i < |res| ==> res[i].error.None?) &&
      (forall i :: 0 <= i < |batch| ==> waits(batch[i]).blocking.Some?)
  {
    hide Acceptable;
    if batch != [] {
      if Dispatched(batch, find) {
        if forall i :: 0 <= i < |batch| ==> waits(batch[i]).blocking.Some? {
          forall i: nat | i < |batch| ensures res[i].error.None? <==> IsOk(waits(batch[i]).blocking) {
            assert !CanceledAt(batch, find, waits, i);
            NilErrorIff(batch, find, waits, res, allOK, i);
          }
        }
      } else {
        NilErrorIff(batch, find, waits, res, allOK, 0);
      }
    }
  }

  /** One call whose result is ready just after the end of the context: no error, and yet not allOK. */
  lemma CancellationHidesSuccess(c: Call, rc: nat, msg: nat)
    requires c.batchable
    ensures var w := Wait(None, Some(Received(Some(msg), None)));
      BatchResult([c], _ => Client(rc), _ => w, [RPCResult(Some(msg), None)], false)
  {
    var w := Wait(None, Some(Received(Some(msg), None)));
    var find: nat -> Found, waits: Waits := _ => Client(rc), _ => w;
    assert waits([c][0]).blocking.None?;
    assert find(0) == find(0);
    assert CanceledAt([c], find, waits, 0);
  }
}
