/** A batch of calls sent as one Multi request (region/multi.go). */
module Multi {
  import opened Bytes
  import opened Cellblock

  /**
   A call: its region, its message, and whether its context is done. `buffers` are the cellblocks it
   serializes to, if it can. A call that is neither a get nor a mutation is not `batchable`.
   */
  datatype Call = Call(region: nat, request: nat, expired: bool, batchable: bool, buffers: Option<seq<Key>>)

  /** The calls of a batch, where None is a call that was dropped. */
  type Calls = seq<Option<Call>>

  /** Indices start from 1. */
  datatype Action = Action(index: nat, request: nat)

  datatype RegionAction = RegionAction(region: nat, actions: seq<Action>)

  datatype Actions = Actions(pbs: seq<Action>, cellblocks: seq<Key>)

  datatype Request = Request(ra: seq<RegionAction>, cbs: seq<Key>, size: nat) | Unsupported

  // ----- What a request is

  /** toProto drops the calls that are not worth sending. */
  function Pruned(calls: Calls): (cs: Calls)
    ensures |cs| == |calls|
  {
    seq(|calls|, i requires 0 <= i < |calls| => if calls[i].Some? && calls[i].value.expired then None else calls[i])
  }

  predicate In(cs: Calls, region: nat, i: nat)
    requires i < |cs|
  {
    cs[i].Some? && cs[i].value.region == region
  }

  /** The actions of a region among the first `n` calls, in the order of the calls. */
  function ActionsOf(cs: Calls, region: nat, n: nat): seq<Action>
    requires n <= |cs|
  {
    if n == 0 then []
    else ActionsOf(cs, region, n - 1) + if In(cs, region, n - 1) then [Action(n, cs[n - 1].value.request)] else []
  }

  function BuffersOf(cell: bool, c: Call): seq<Key> {
    if cell && c.buffers.Some? then c.buffers.value else []
  }

  function BlocksOf(cs: Calls, cell: bool, region: nat, n: nat): seq<Key>
    requires n <= |cs|
  {
    if n == 0 then []
    else BlocksOf(cs, cell, region, n - 1) + if In(cs, region, n - 1) then BuffersOf(cell, cs[n - 1].value) else []
  }

  /** The length of the cellblocks of the first `n` calls. */
  function TotalSize(cs: Calls, cell: bool, n: nat): nat
    requires n <= |cs|
  {
    if n == 0 then 0
    else TotalSize(cs, cell, n - 1) + if cs[n - 1].Some? then |Concat(BuffersOf(cell, cs[n - 1].value))| else 0
  }

  predicate Distinct(rs: seq<nat>) {
    forall i, j :: 0 <= i < j < |rs| ==> rs[i] != rs[j]
  }

  /** The request has one RegionAction for each region with calls, holding its calls in order. */
  ghost predicate Covers(cs: Calls, regions: seq<nat>, ra: seq<RegionAction>) {
    && Distinct(regions) && |ra| == |regions|
    && (forall i :: 0 <= i < |ra| ==> ra[i] == RegionAction(regions[i], ActionsOf(cs, regions[i], |cs|)))
    && (forall i :: 0 <= i < |ra| ==> ra[i].actions != [])
    && (forall r :: ActionsOf(cs, r, |cs|) != [] ==> r in regions)
  }

  /** The cellblocks of actions, in the order of the actions. */
  function ActionBlocks(cs: Calls, cell: bool, actions: seq<Action>): seq<Key> {
    if actions == [] then []
    else
      var a := actions[|actions| - 1];
      ActionBlocks(cs, cell, actions[..|actions| - 1]) +
      if 0 < a.index <= |cs| && cs[a.index - 1].Some? then BuffersOf(cell, cs[a.index - 1].value) else []
  }

  /** The cellblocks of a request, in the order of its RegionActions. */
  function RequestBlocks(cs: Calls, cell: bool, ra: seq<RegionAction>): seq<Key> {
    if ra == [] then [] else RequestBlocks(cs, cell, ra[..|ra| - 1]) + ActionBlocks(cs, cell, ra[|ra| - 1].actions)
  }

  /** The actions of a region are its calls, with their messages, in increasing order. */
  lemma {:induction false} ActionsOfExact(cs: Calls, region: nat, n: nat)
    requires n <= |cs|
    ensures forall a :: a in ActionsOf(cs, region, n) <==> (
      0 < a.index <= n && In(cs, region, a.index - 1) && a.request == cs[a.index - 1].value.request)
    ensures Increasing(ActionsOf(cs, region, n))
  {
    if n > 0 {
      ActionsOfExact(cs, region, n - 1);
      var before, list := ActionsOf(cs, region, n - 1), ActionsOf(cs, region, n);
      assert forall i :: 0 <= i < |before| ==> before[i] in before && before[i].index <= n - 1;
      assert forall i :: 0 <= i < |before| ==> list[i] == before[i];
    }
  }

  predicate Increasing(list: seq<Action>) {
    forall i, j :: 0 <= i < j < |list| ==> list[i].index < list[j].index
  }

  lemma {:induction false} BlocksOfActions(cs: Calls, cell: bool, region: nat, n: nat)
    requires n <= |cs|
    ensures ActionBlocks(cs, cell, ActionsOf(cs, region, n)) == BlocksOf(cs, cell, region, n)
  {
    if n > 0 {
      BlocksOfActions(cs, cell, region, n - 1);
      var list := ActionsOf(cs, region, n);
      if In(cs, region, n - 1) {
        assert list[..|list| - 1] == ActionsOf(cs, region, n - 1);
      } else {
        assert list == ActionsOf(cs, region, n - 1);
      }
    }
  }

  // ----- The size of a request

  function SizeOf(cs: Calls, cell: bool, region: nat, n: nat): nat
    requires n <= |cs|
  {
    |Concat(BlocksOf(cs, cell, region, n))|
  }

  function SizeOfAll(cs: Calls, cell: bool, regions: seq<nat>, n: nat): nat
    requires n <= |cs|
  {
    if regions == [] then 0
    else SizeOfAll(cs, cell, regions[..|regions| - 1], n) + SizeOf(cs, cell, regions[|regions| - 1], n)
  }

  function CallSize(cs: Calls, cell: bool, i: nat): nat
    requires i < |cs|
  {
    if cs[i].Some? then |Concat(BuffersOf(cell, cs[i].value))| else 0
  }

  lemma SizeOfStep(cs: Calls, cell: bool, region: nat, n: nat)
    requires n < |cs|
    ensures SizeOf(cs, cell, region, n + 1) ==
      SizeOf(cs, cell, region, n) + if In(cs, region, n) then CallSize(cs, cell, n) else 0
  {
    ConcatAppend(BlocksOf(cs, cell, region, n), if In(cs, region, n) then BuffersOf(cell, cs[n].value) else []);
  }

  /** A call adds to the size of its own region only. */
  lemma {:induction false} SizeOfAllStep(cs: Calls, cell: bool, regions: seq<nat>, n: nat)
    requires n < |cs| && Distinct(regions)
    ensures SizeOfAll(cs, cell, regions, n + 1) ==
      SizeOfAll(cs, cell, regions, n) +
      if cs[n].Some? && cs[n].value.region in regions then CallSize(cs, cell, n) else 0
    decreases |regions|
  {
    hide SizeOf, CallSize;
    if regions != [] {
      var rest, last := regions[..|regions| - 1], regions[|regions| - 1];
      assert regions == rest + [last];
      SizeOfAllStep(cs, cell, rest, n);
      SizeOfStep(cs, cell, last, n);
    }
  }

  /** The order of the regions does not change the size. */
  lemma {:induction false} SizesAddUp(cs: Calls, cell: bool, regions: seq<nat>, n: nat)
    requires n <= |cs| && Distinct(regions)
    requires forall i :: 0 <= i < n && cs[i].Some? ==> cs[i].value.region in regions
    ensures SizeOfAll(cs, cell, regions, n) == TotalSize(cs, cell, n)
  {
    if n == 0 {
      NoSize(cs, cell, regions);
    } else {
      hide SizeOfAll;
      SizesAddUp(cs, cell, regions, n - 1);
      SizeOfAllStep(cs, cell, regions, n - 1);
    }
  }

  lemma {:induction false} NoSize(cs: Calls, cell: bool, regions: seq<nat>)
    ensures SizeOfAll(cs, cell, regions, 0) == 0
    decreases |regions|
  {
    if regions != [] { NoSize(cs, cell, regions[..|regions| - 1]); }
  }

  lemma {:induction false} RequestSize(cs: Calls, cell: bool, regions: seq<nat>, ra: seq<RegionAction>)
    requires |ra| == |regions|
    requires forall i :: 0 <= i < |ra| ==> ra[i] == RegionAction(regions[i], ActionsOf(cs, regions[i], |cs|))
    ensures |Concat(RequestBlocks(cs, cell, ra))| == SizeOfAll(cs, cell, regions, |cs|)
    decreases |ra|
  {
    if ra != [] {
      hide ActionsOf, ActionBlocks, BlocksOf;
      var n := |ra| - 1;
      RequestSize(cs, cell, regions[..n], ra[..n]);
      BlocksOfActions(cs, cell, regions[n], |cs|);
      ConcatAppend(RequestBlocks(cs, cell, ra[..n]), ActionBlocks(cs, cell, ra[n].actions));
    }
  }

  // ----- The batch

  class Batch {
    var size: nat
    var calls: Calls
    var regions: seq<nat>

    constructor (queueSize: nat)
      ensures size == queueSize && calls == [] && regions == []
    {
      size, calls, regions := queueSize, [], [];
    }

    /** Adds calls at the end; `full` tells the sender to flush. */
    method Add(cs: seq<Call>) returns (full: bool)
      modifies this`calls
      ensures calls == old(calls) + seq(|cs|, i requires 0 <= i < |cs| => Some(cs[i]))
      ensures full <==> |calls| >= size
    {
      calls := calls + seq(|cs|, i requires 0 <= i < |cs| => Some(cs[i]));
      return |calls| >= size;
    }

    /** The first loop of toProto: calls are collected by region. */
    method Collect(cell: bool) returns (ok: bool, perRegion: map<nat, Actions>, size: nat)
      requires forall i :: 0 <= i < |calls| ==> calls[i].Some?
      modifies this`calls
      ensures ok <==> AllBatchable(old(calls))
      ensures ok ==> calls == Pruned(old(calls)) && size == Wrap(TotalSize(calls, cell, |calls|))
      ensures ok ==> Collected(calls, cell, |calls|, perRegion)
    {
      hide Wrap, Concat, ActionsOf, BlocksOf, Collected, TotalSize;
      ghost var cs := Pruned(calls);
      CollectedNone(cs, cell);
      perRegion, size := map[], 0;
      for i := 0 to |calls|
        invariant |calls| == |cs| && forall k :: 0 <= k < |cs| ==> calls[k] == if k < i then cs[k] else old(calls)[k]
        invariant AllBatchable(old(calls)[..i]) && size == Wrap(TotalSize(cs, cell, i))
        invariant Collected(cs, cell, i, perRegion)
      {
        var c := calls[i].value;
        if c.expired {
          calls := calls[i := None];
          CollectedSkip(cs, cell, i, perRegion);
        } else {
          if !c.batchable { return false, map[], 0; }
          var soFar := if c.region in perRegion then perRegion[c.region] else Actions([], []);
          var sz := Wrap(|Concat(BuffersOf(cell, c))|);
          WrapSum(TotalSize(cs, cell, i), |Concat(BuffersOf(cell, c))|);
          size := Wrap(size + sz);
          CollectedStep(cs, cell, i, perRegion);
          perRegion := perRegion[c.region :=
            Actions(soFar.pbs + [Action(i + 1, c.request)], soFar.cellblocks + BuffersOf(cell, c))];
        }
      }
      assert calls == cs && old(calls)[..|calls|] == old(calls);
      ok := true;
    }

    /**
     The request, for any order in which the regions come out of the map: its cellblocks are those of its
     actions in order, and the reported size is theirs.
     */
    method ToProto(cell: bool, cbs: seq<Key>) returns (r: Request)
      requires forall i :: 0 <= i < |calls| ==> calls[i].Some?
      modifies this`calls, this`regions
      ensures r.Unsupported? <==> !AllBatchable(old(calls))
      ensures r.Request? ==>
        var blocks := RequestBlocks(calls, cell, r.ra);
        && calls == Pruned(old(calls)) && Covers(calls, regions, r.ra)
        && r.cbs == cbs + blocks && r.size == Wrap(|Concat(blocks)|)
    {
      hide Wrap, Concat, ActionsOf, TotalSize, Pruned, AllBatchable, RequestBlocks, Collected, Covers;
      var ok, perRegion, size := Collect(cell);
      if !ok { return Unsupported; }
      var ra, rs, out := Assemble(calls, cell, perRegion, cbs);
      regions := rs;
      CoversSize(calls, cell, rs, ra);
      return Request(ra, out, size);
    }

    /** The end of every multi: its batch goes back to the pool empty. */
    method Free()
      modifies this
      ensures calls == [] && regions == [] && size == 0
    {
      calls, regions, size := [], [], 0;
    }

    /**
     Sends results to the calls; `inbox[k]` is what call k receives. A response is dispatched as it stands,
     and it is fatal exactly when it names a region or a call that is not there.
     */
    method ReturnResults(resp: seq<RegionActionResult>, err: Option<nat>)
      returns (inbox: seq<seq<Outcome>>, panicked: bool)
      modifies this
      ensures calls == [] && regions == [] && size == 0
      ensures |inbox| == |old(calls)|
      ensures err.Some? ==> !panicked
      ensures err.Some? ==>
        forall k :: 0 <= k < |inbox| ==> inbox[k] == if old(calls)[k].Some? then [Failed(err.value)] else []
      ensures err.None? ==> (panicked <==> !Dispatchable(old(calls), old(regions), resp))
      ensures err.None? && !panicked ==>
        forall k :: 0 <= k < |inbox| ==> inbox[k] == Inbox(old(calls), old(regions), resp, k, |resp|)
    {
      if err.Some? {
        inbox := FailAll(calls, Failed(err.value));
        panicked := false;
      } else {
        inbox, panicked := Dispatch(calls, regions, resp);
      }
      Free();
    }
  }

  /** The second loop of toProto. */
  method Assemble(cs: Calls, cell: bool, perRegion: map<nat, Actions>, cbs: seq<Key>)
    returns (ra: seq<RegionAction>, regions: seq<nat>, out: seq<Key>)
    requires Collected(cs, cell, |cs|, perRegion)
    ensures Covers(cs, regions, ra) && out == cbs + RequestBlocks(cs, cell, ra)
  {
    hide ActionsOf, BlocksOf, RequestBlocks;
    ra, regions, out := [], [], cbs;
    NoBlocks(cs, cell);
    var todo := perRegion.Keys;
    while todo != {}
      invariant todo <= perRegion.Keys && |ra| == |regions| && Distinct(regions)
      invariant forall x: nat :: x in regions <==> x in perRegion.Keys - todo
      invariant forall i :: 0 <= i < |ra| ==>
        regions[i] in perRegion && ra[i] == RegionAction(regions[i], perRegion[regions[i]].pbs)
      invariant out == cbs + RequestBlocks(cs, cell, ra)
    {
      var x :| x in todo;
      var list := perRegion[x];
      assert forall i :: 0 <= i < |regions| ==> regions[i] in regions && regions[i] != x;
      BlocksOfActions(cs, cell, x, |cs|);
      RequestBlocksStep(cs, cell, ra, RegionAction(x, list.pbs));
      ghost var blocks := RequestBlocks(cs, cell, ra);
      assert cbs + blocks + list.cellblocks == cbs + (blocks + list.cellblocks);
      ra, out, regions := ra + [RegionAction(x, list.pbs)], out + list.cellblocks, regions + [x];
      todo := todo - {x};
    }
  }

  lemma CoversSize(cs: Calls, cell: bool, regions: seq<nat>, ra: seq<RegionAction>)
    requires Covers(cs, regions, ra)
    ensures |Concat(RequestBlocks(cs, cell, ra))| == TotalSize(cs, cell, |cs|)
  {
    RequestSize(cs, cell, regions, ra);
    LiveRegions(cs, regions);
    SizesAddUp(cs, cell, regions, |cs|);
  }

  predicate AllBatchable(calls: Calls) {
    forall i :: 0 <= i < |calls| ==> calls[i].Some? && !calls[i].value.expired ==> calls[i].value.batchable
  }

  /** The map has what the first `n` calls have for each region. */
  ghost predicate Collected(cs: Calls, cell: bool, n: nat, perRegion: map<nat, Actions>)
    requires n <= |cs|
  {
    && (forall r: nat :: r in perRegion <==> ActionsOf(cs, r, n) != [])
    && (forall r: nat :: r in perRegion ==> perRegion[r] == Actions(ActionsOf(cs, r, n), BlocksOf(cs, cell, r, n)))
  }

  lemma {:induction false} NoActionsNoBlocks(cs: Calls, cell: bool, region: nat, n: nat)
    requires n <= |cs| && ActionsOf(cs, region, n) == []
    ensures BlocksOf(cs, cell, region, n) == []
  {
    if n > 0 { NoActionsNoBlocks(cs, cell, region, n - 1); }
  }

  lemma CollectedSkip(cs: Calls, cell: bool, n: nat, perRegion: map<nat, Actions>)
    requires n < |cs| && cs[n].None? && Collected(cs, cell, n, perRegion)
    ensures Collected(cs, cell, n + 1, perRegion) && TotalSize(cs, cell, n + 1) == TotalSize(cs, cell, n)
  {
    forall r: nat
      ensures ActionsOf(cs, r, n + 1) == ActionsOf(cs, r, n) && BlocksOf(cs, cell, r, n + 1) == BlocksOf(cs, cell, r, n)
    {
    }
  }

  lemma CollectedNone(cs: Calls, cell: bool)
    ensures Collected(cs, cell, 0, map[]) && Wrap(TotalSize(cs, cell, 0)) == 0
  {
  }

  lemma WrapSum(x: int, y: int)
    ensures Wrap(Wrap(x) + Wrap(y)) == Wrap(x + y)
  {
    WrapOnce(x, Wrap(y));
    WrapOnce(y, x);
  }

  lemma CollectedStep(cs: Calls, cell: bool, n: nat, perRegion: map<nat, Actions>)
    requires n < |cs| && cs[n].Some? && Collected(cs, cell, n, perRegion)
    ensures var c := cs[n].value;
      var soFar := if c.region in perRegion then perRegion[c.region] else Actions([], []);
      var more := Actions(soFar.pbs + [Action(n + 1, c.request)], soFar.cellblocks + BuffersOf(cell, c));
      Collected(cs, cell, n + 1, perRegion[c.region := more]) &&
      TotalSize(cs, cell, n + 1) == TotalSize(cs, cell, n) + |Concat(BuffersOf(cell, c))|
  {
    var c := cs[n].value;
    if c.region !in perRegion { NoActionsNoBlocks(cs, cell, c.region, n); }
    forall r: nat | r != c.region
      ensures ActionsOf(cs, r, n + 1) == ActionsOf(cs, r, n) && BlocksOf(cs, cell, r, n + 1) == BlocksOf(cs, cell, r, n)
    {
    }
  }

  lemma NoBlocks(cs: Calls, cell: bool)
    ensures RequestBlocks(cs, cell, []) == []
  {
  }

  lemma RequestBlocksStep(cs: Calls, cell: bool, ra: seq<RegionAction>, more: RegionAction)
    ensures RequestBlocks(cs, cell, ra + [more]) == RequestBlocks(cs, cell, ra) + ActionBlocks(cs, cell, more.actions)
  {
    assert (ra + [more])[..|ra|] == ra;
  }

  lemma LiveRegions(cs: Calls, regions: seq<nat>)
    requires forall r :: ActionsOf(cs, r, |cs|) != [] ==> r in regions
    ensures forall i :: 0 <= i < |cs| && cs[i].Some? ==> cs[i].value.region in regions
  {
    forall i | 0 <= i < |cs| && cs[i].Some? ensures cs[i].value.region in regions {
      ActionsOfExact(cs, cs[i].value.region, |cs|);
      assert Action(i + 1, cs[i].value.request) in ActionsOf(cs, cs[i].value.region, |cs|);
    }
  }

  // ----- Results

  datatype ResultOrException = ResultOrException(index: nat, result: Option<nat>, exception: Option<nat>)

  datatype RegionActionResult = RegionActionResult(exception: Option<nat>, results: seq<ResultOrException>)

  datatype Outcome = Failed(err: nat) | Exception(e: nat) | Response(result: Option<nat>)

  function OutcomeOf(r: ResultOrException): Outcome {
    if r.exception.Some? then Exception(r.exception.value) else Response(r.result)
  }

  predicate Present(cs: Calls, index: nat) {
    0 < index <= |cs| && cs[index - 1].Some?
  }

  /** The response names only regions and calls of the batch. */
  predicate Dispatchable(cs: Calls, regions: seq<nat>, resp: seq<RegionActionResult>) {
    forall i :: 0 <= i < |resp| ==>
      if resp[i].exception.Some? then i < |regions|
      else forall j :: 0 <= j < |resp[i].results| ==> Present(cs, resp[i].results[j].index)
  }

  /** The outcomes for an index among the first `n` results. */
  function ResultsFor(results: seq<ResultOrException>, index: nat, n: nat): seq<Outcome>
    requires n <= |results|
  {
    if n == 0 then []
    else ResultsFor(results, index, n - 1) + if results[n - 1].index == index then [OutcomeOf(results[n - 1])] else []
  }

  /** What the i-th part of the response brings call `k`. */
  function Share(cs: Calls, regions: seq<nat>, resp: seq<RegionActionResult>, k: nat, i: nat): seq<Outcome>
    requires k < |cs| && i < |resp|
  {
    if resp[i].exception.Some? then
      if i < |regions| && In(cs, regions[i], k) then [Exception(resp[i].exception.value)] else []
    else ResultsFor(resp[i].results, k + 1, |resp[i].results|)
  }

  function Inbox(cs: Calls, regions: seq<nat>, resp: seq<RegionActionResult>, k: nat, n: nat): seq<Outcome>
    requires k < |cs| && n <= |resp|
  {
    if n == 0 then [] else Inbox(cs, regions, resp, k, n - 1) + Share(cs, regions, resp, k, n - 1)
  }

  lemma InboxStart(cs: Calls, regions: seq<nat>, resp: seq<RegionActionResult>, k: nat)
    requires k < |cs|
    ensures Inbox(cs, regions, resp, k, 0) == []
  {
  }

  lemma InboxStep(cs: Calls, regions: seq<nat>, resp: seq<RegionActionResult>, k: nat, i: nat)
    requires k < |cs| && i < |resp|
    ensures Inbox(cs, regions, resp, k, i + 1) == Inbox(cs, regions, resp, k, i) + Share(cs, regions, resp, k, i)
  {
  }

  method FailAll(cs: Calls, o: Outcome) returns (inbox: seq<seq<Outcome>>)
    ensures |inbox| == |cs|
    ensures forall k :: 0 <= k < |cs| ==> inbox[k] == if cs[k].Some? then [o] else []
  {
    inbox := seq(|cs|, _ => []);
    for i := 0 to |cs|
      invariant |inbox| == |cs|
      invariant forall k :: 0 <= k < |cs| ==> inbox[k] == if k < i && cs[k].Some? then [o] else []
    {
      if cs[i].Some? { inbox := inbox[i := inbox[i] + [o]]; }
    }
  }

  /** The dispatch loop of returnResults. */
  method Dispatch(cs: Calls, regions: seq<nat>, resp: seq<RegionActionResult>)
    returns (inbox: seq<seq<Outcome>>, panicked: bool)
    ensures |inbox| == |cs| && (panicked <==> !Dispatchable(cs, regions, resp))
    ensures !panicked ==> forall k :: 0 <= k < |cs| ==> inbox[k] == Inbox(cs, regions, resp, k, |resp|)
  {
    hide Inbox, ResultsFor;
    inbox, panicked := seq(|cs|, _ => []), false;
    forall k: nat | k < |cs| ensures Inbox(cs, regions, resp, k, 0) == [] { InboxStart(cs, regions, resp, k); }
    for i := 0 to |resp|
      invariant |inbox| == |cs| && Dispatchable(cs, regions, resp[..i])
      invariant forall k :: 0 <= k < |cs| ==> inbox[k] == Inbox(cs, regions, resp, k, i)
    {
      forall k: nat | k < |cs|
        ensures Inbox(cs, regions, resp, k, i + 1) == Inbox(cs, regions, resp, k, i) + Share(cs, regions, resp, k, i)
      {
        InboxStep(cs, regions, resp, k, i);
      }
      if resp[i].exception.Some? {
        if i >= |regions| { return inbox, true; }
        inbox := FailRegion(cs, regions[i], Exception(resp[i].exception.value), inbox);
      } else {
        var ok;
        inbox, ok := DispatchResults(cs, resp[i].results, inbox);
        if !ok { return inbox, true; }
      }
    }
    assert resp[..|resp|] == resp;
  }

  method FailRegion(cs: Calls, region: nat, o: Outcome, inbox: seq<seq<Outcome>>) returns (out: seq<seq<Outcome>>)
    requires |inbox| == |cs|
    ensures |out| == |cs|
    ensures forall k :: 0 <= k < |cs| ==> out[k] == inbox[k] + if In(cs, region, k) then [o] else []
  {
    out := inbox;
    for i := 0 to |cs|
      invariant |out| == |cs|
      invariant forall k :: 0 <= k < |cs| ==> out[k] == inbox[k] + if k < i && In(cs, region, k) then [o] else []
    {
      if cs[i].Some? && cs[i].value.region == region {
        out := out[i := out[i] + [o]];
      }
    }
  }

  /** The exception of the action, or else its result, is in the inbox. */
  predicate IsGiven(r: ResultOrException, box: seq<Outcome>) {
    && (r.exception.Some? ==> Exception(r.exception.value) in box)
    && (r.exception.None? ==> Response(r.result) in box)
  }

  lemma NoResults(results: seq<ResultOrException>, index: nat)
    ensures ResultsFor(results, index, 0) == []
  {
  }

  /** One more result is one more outcome for its call, and takes none away. */
  lemma {:induction false} GivenNow(results: seq<ResultOrException>, j: nat, o: Outcome, box: seq<Outcome>)
    requires j < |results| && o == OutcomeOf(results[j])
    ensures IsGiven(results[j], box + [o])
    ensures forall r :: IsGiven(r, box) ==> IsGiven(r, box + [o])
    ensures forall k: nat :: (
      ResultsFor(results, k, j + 1) == ResultsFor(results, k, j) + if results[j].index == k then [o] else [])
  {
  }

  method DispatchResults(cs: Calls, results: seq<ResultOrException>, inbox: seq<seq<Outcome>>)
    returns (out: seq<seq<Outcome>>, ok: bool)
    requires |inbox| == |cs|
    ensures |out| == |cs|
    ensures ok <==> forall j :: 0 <= j < |results| ==> Present(cs, results[j].index)
    ensures ok ==> forall k :: 0 <= k < |cs| ==> out[k] == inbox[k] + ResultsFor(results, k + 1, |results|)
    ensures ok ==> forall j :: 0 <= j < |results| ==> IsGiven(results[j], out[results[j].index - 1])
  {
    hide ResultsFor, IsGiven;
    out := inbox;
    forall k: nat ensures ResultsFor(results, k, 0) == [] { NoResults(results, k); }
    for j := 0 to |results|
      invariant |out| == |cs|
      invariant forall i :: 0 <= i < j ==> Present(cs, results[i].index)
      invariant forall i :: 0 <= i < j ==> IsGiven(results[i], out[results[i].index - 1])
      invariant forall k :: 0 <= k < |cs| ==> out[k] == inbox[k] + ResultsFor(results, k + 1, j)
    {
      var i := results[j].index;
      if i == 0 || i > |cs| || cs[i - 1].None? { return out, false; }
      var o;
      if results[j].exception.Some? {
        o := Exception(results[j].exception.value);
      } else {
        o := Response(results[j].result);
      }
      GivenNow(results, j, o, out[i - 1]);
      out := out[i - 1 := out[i - 1] + [o]];
    }
    ok := true;
  }

  // ----- Every call of a well-answered request gets its own result, once

  predicate SomeResult(results: seq<ResultOrException>, index: nat) {
    exists j :: 0 <= j < |results| && results[j].index == index
  }

  predicate SomeAction(actions: seq<Action>, index: nat) {
    exists j :: 0 <= j < |actions| && actions[j].index == index
  }

  /** The region server answered every action of the region once, or failed the region. */
  ghost predicate Answers(actions: seq<Action>, rar: RegionActionResult) {
    if rar.exception.Some? then rar.results == []
    else
      && (forall index: nat :: SomeAction(actions, index) <==> SomeResult(rar.results, index))
      && (forall i, j :: 0 <= i < j < |rar.results| ==> rar.results[i].index != rar.results[j].index)
      && (forall j :: 0 <= j < |rar.results| ==> rar.results[j].result.Some? != rar.results[j].exception.Some?)
  }

  ghost predicate AllAnswered(ra: seq<RegionAction>, resp: seq<RegionActionResult>) {
    |resp| == |ra| && forall i :: 0 <= i < |resp| ==> Answers(ra[i].actions, resp[i])
  }

  /** `o` is the exception of the region of call `k`, or what the response says of the action of call `k`. */
  predicate IsOutcome(cs: Calls, regions: seq<nat>, resp: seq<RegionActionResult>, k: nat, i: nat, o: Outcome)
    requires k < |cs| && i < |resp| == |regions|
  {
    && In(cs, regions[i], k)
    && if resp[i].exception.Some? then o == Exception(resp[i].exception.value)
       else
         var results := resp[i].results;
         exists j :: && 0 <= j < |results| && results[j].index == k + 1
                     && (results[j].exception.Some? ==> o == Exception(results[j].exception.value))
                     && (results[j].result.Some? ==> o == Response(results[j].result))
  }

  lemma {:induction false} ResultsForNone(results: seq<ResultOrException>, index: nat, n: nat)
    requires n <= |results| && forall j :: 0 <= j < n ==> results[j].index != index
    ensures ResultsFor(results, index, n) == []
  {
    if n > 0 { ResultsForNone(results, index, n - 1); }
  }

  lemma {:induction false} ResultsForOne(results: seq<ResultOrException>, index: nat, n: nat, j: nat)
    requires j < n <= |results| && results[j].index == index
    requires forall i :: 0 <= i < n && i != j ==> results[i].index != index
    ensures ResultsFor(results, index, n) == [OutcomeOf(results[j])]
    decreases n
  {
    if j == n - 1 { ResultsForNone(results, index, j); } else { ResultsForOne(results, index, n - 1, j); }
  }

  /** The actions of a region have an index if and only if the call is of that region. */
  lemma ActionIndices(cs: Calls, region: nat, index: nat)
    ensures SomeAction(ActionsOf(cs, region, |cs|), index) <==> 0 < index <= |cs| && In(cs, region, index - 1)
  {
    hide ActionsOf;
    ActionsOfExact(cs, region, |cs|);
    var actions := ActionsOf(cs, region, |cs|);
    assert forall j :: 0 <= j < |actions| ==> actions[j] in actions;
    if 0 < index <= |cs| && In(cs, region, index - 1) {
      assert Action(index, cs[index - 1].value.request) in actions;
    }
  }

  /** A part of the response has something for a call if and only if it is about the call's region. */
  lemma ShareIs(cs: Calls, regions: seq<nat>, ra: seq<RegionAction>, resp: seq<RegionActionResult>, k: nat, i: nat)
    requires k < |cs| && i < |resp| && Covers(cs, regions, ra) && AllAnswered(ra, resp)
    ensures var s := Share(cs, regions, resp, k, i);
      if In(cs, regions[i], k) then |s| == 1 && IsOutcome(cs, regions, resp, k, i, s[0]) else s == []
  {
    hide ResultsFor, ActionsOf;
    if resp[i].exception.None? {
      var results := resp[i].results;
      assert Answers(ra[i].actions, resp[i]);
      ActionIndices(cs, regions[i], k + 1);
      if In(cs, regions[i], k) {
        assert SomeResult(results, k + 1);
        var j :| 0 <= j < |results| && results[j].index == k + 1;
        ResultsForOne(results, k + 1, |results|, j);
      } else {
        assert !SomeResult(results, k + 1);
        ResultsForNone(results, k + 1, |results|);
      }
    }
  }

  lemma AnsweredIsDispatchable(cs: Calls, regions: seq<nat>, ra: seq<RegionAction>, resp: seq<RegionActionResult>)
    requires Covers(cs, regions, ra) && AllAnswered(ra, resp)
    ensures Dispatchable(cs, regions, resp)
  {
    hide ActionsOf;
    forall i, j | 0 <= i < |resp| && resp[i].exception.None? && 0 <= j < |resp[i].results|
      ensures Present(cs, resp[i].results[j].index)
    {
      assert Answers(ra[i].actions, resp[i]) && SomeResult(resp[i].results, resp[i].results[j].index);
      ActionIndices(cs, regions[i], resp[i].results[j].index);
    }
  }

  /** Before the part about its region a call has nothing, and after it one outcome. */
  lemma {:induction false} InboxIs(
      cs: Calls, regions: seq<nat>, ra: seq<RegionAction>, resp: seq<RegionActionResult>, k: nat, n: nat)
    requires k < |cs| && n <= |resp| && Covers(cs, regions, ra) && AllAnswered(ra, resp)
    ensures var box := Inbox(cs, regions, resp, k, n);
      if exists i :: 0 <= i < n && In(cs, regions[i], k)
      then |box| == 1 && exists i :: 0 <= i < n && IsOutcome(cs, regions, resp, k, i, box[0])
      else box == []
  {
    hide ActionsOf, Share, Answers, IsOutcome;
    if n > 0 {
      InboxIs(cs, regions, ra, resp, k, n - 1);
      ShareIs(cs, regions, ra, resp, k, n - 1);
      var before, share := Inbox(cs, regions, resp, k, n - 1), Share(cs, regions, resp, k, n - 1);
      if In(cs, regions[n - 1], k) {
        assert forall i :: 0 <= i < n - 1 ==> !In(cs, regions[i], k);
        assert before == [] && before + share == share;
      } else {
        assert before + share == before;
      }
    }
  }

  /**
   For any request built from the calls and any well-formed response to it, no call is fatal, every call
   that was sent gets exactly one result, the one of its own action or region, and no other call gets any.
   */
  lemma EveryCallAnswered(cs: Calls, regions: seq<nat>, ra: seq<RegionAction>, resp: seq<RegionActionResult>)
    requires Covers(cs, regions, ra) && AllAnswered(ra, resp)
    ensures Dispatchable(cs, regions, resp)
    ensures forall k: nat | k < |cs| ::
      var box := Inbox(cs, regions, resp, k, |resp|);
      if cs[k].Some? then |box| == 1 && exists i :: 0 <= i < |resp| && IsOutcome(cs, regions, resp, k, i, box[0])
      else box == []
  {
    hide ActionsOf, Inbox, IsOutcome;
    AnsweredIsDispatchable(cs, regions, ra, resp);
    LiveRegions(cs, regions);
    forall k: nat | k < |cs|
      ensures var box := Inbox(cs, regions, resp, k, |resp|);
        if cs[k].Some? then |box| == 1 && exists i :: 0 <= i < |resp| && IsOutcome(cs, regions, resp, k, i, box[0])
        else box == []
    {
      InboxIs(cs, regions, ra, resp, k, |resp|);
      if cs[k].Some? {
        var i :| 0 <= i < |regions| && regions[i] == cs[k].value.region;
        assert In(cs, regions[i], k);
      }
    }
  }

  /**
   A whole exchange with a region server that answers every request in a well-formed way: each call that
   had not expired gets one result, its own, and the others none.
   */
  method Exchange(b: Batch, cell: bool, server: seq<RegionAction> -> seq<RegionActionResult>)
    returns (inbox: seq<seq<Outcome>>, panicked: bool, ghost regions: seq<nat>, ghost resp: seq<RegionActionResult>)
    requires (forall i :: 0 <= i < |b.calls| ==> b.calls[i].Some?) && AllBatchable(b.calls)
    requires forall ra :: AllAnswered(ra, server(ra))
    modifies b
    ensures !panicked && |inbox| == |old(b.calls)| && |regions| == |resp|
    ensures
      var cs := Pruned(old(b.calls));
      forall k: nat | k < |inbox| ::
        if old(b.calls)[k].value.expired then inbox[k] == []
        else |inbox[k]| == 1 && exists i :: 0 <= i < |resp| && IsOutcome(cs, regions, resp, k, i, inbox[k][0])
  {
    hide Covers, AllAnswered, RequestBlocks, Inbox, Dispatchable, IsOutcome;
    var req := b.ToProto(cell, []);
    resp := server(req.ra);
    regions := b.regions;
    SameLength(b.calls, regions, req.ra, resp);
    EveryCallAnswered(b.calls, regions, req.ra, resp);
    inbox, panicked := b.ReturnResults(server(req.ra), None);
  }

  lemma SameLength(cs: Calls, regions: seq<nat>, ra: seq<RegionAction>, resp: seq<RegionActionResult>)
    requires Covers(cs, regions, ra) && AllAnswered(ra, resp)
    ensures |regions| == |resp|
  {
  }
}
