/** The cellblocks of a Multi response (region/multi.go): one run of cells for each result, in order. */
module MultiCells {
  import opened Bytes
  import opened Cellblock
  import opened CellStream

  /** `count` is the associated cell count of a result; None is no result. */
  datatype Entry = Entry(index: nat, count: Option<nat>, exception: bool)

  datatype RegionEntries = RegionEntries(exception: bool, entries: seq<Entry>)

  /** The cells of the results in order, or an error, or a panic on a call that is not there. */
  datatype MultiRead = Read(cells: seq<seq<KeyValue>>, nread: nat) | BadResponse | BadCells(why: Parsed) | Panicked

  predicate EntryOk(present: seq<bool>, e: Entry) {
    && e.index != 0 && e.count.Some? != e.exception
    && (e.count.Some? ==> e.index <= |present| && present[e.index - 1])
  }

  predicate EntriesOk(present: seq<bool>, es: seq<Entry>) {
    forall j :: 0 <= j < |es| ==> EntryOk(present, es[j])
  }

  /** The response is one that the checks let through. */
  predicate ResponseOk(present: seq<bool>, resp: seq<RegionEntries>) {
    forall i :: 0 <= i < |resp| ==>
      if resp[i].exception then resp[i].entries == [] else EntriesOk(present, resp[i].entries)
  }

  function Counts(es: seq<Entry>): seq<nat> {
    if es == [] then []
    else Counts(es[..|es| - 1]) + if es[|es| - 1].count.Some? then [es[|es| - 1].count.value] else []
  }

  /** How many cells each result has, in the order of the response. */
  function Wanted(resp: seq<RegionEntries>): seq<nat> {
    if resp == [] then []
    else Wanted(resp[..|resp| - 1]) + if resp[|resp| - 1].exception then [] else Counts(resp[|resp| - 1].entries)
  }

  lemma {:induction false} CountsPart(es: seq<Entry>, j: nat)
    requires j < |es|
    ensures Counts(es[..j + 1]) == Counts(es[..j]) + if es[j].count.Some? then [es[j].count.value] else []
    ensures Counts(es[..j + 1]) <= Counts(es)
    decreases |es| - j
  {
    assert es[..j + 1][..j] == es[..j];
    if j + 1 == |es| {
      assert es[..j + 1] == es;
    } else {
      CountsPart(es, j + 1);
    }
  }

  lemma {:induction false} WantedPart(resp: seq<RegionEntries>, i: nat)
    requires i < |resp|
    ensures Wanted(resp[..i + 1]) == Wanted(resp[..i]) + if resp[i].exception then [] else Counts(resp[i].entries)
    ensures Wanted(resp[..i + 1]) <= Wanted(resp)
    decreases |resp| - i
  {
    hide Counts;
    assert resp[..i + 1][..i] == resp[..i];
    if i + 1 == |resp| {
      assert resp[..i + 1] == resp;
    } else {
      WantedPart(resp, i + 1);
    }
  }

  /** The first groups of all that can be read, and the only ones. */
  ghost predicate Prefix(b: Key, all: seq<nat>, gs: seq<seq<KeyValue>>, nread: nat) {
    && nread <= |b| && |gs| <= |all|
    && (|b| < M32 ==>
          && GroupsLead(b, all[..|gs|], gs) && nread == |EncodeGroups(gs)|
          && forall hs :: GroupsLead(b, all, hs) ==> hs[..|gs|] == gs)
  }

  /** One result: its cells are next. */
  method ReadResult(b: Key, count: nat, gs: seq<seq<KeyValue>>, nread: nat, ghost all: seq<nat>) returns (r: MultiRead)
    requires Prefix(b, all, gs, nread) && |gs| < |all| && all[|gs|] == count
    ensures r.Read? ==> Prefix(b, all, r.cells, r.nread) && |r.cells| == |gs| + 1
    ensures |b| < M32 && !r.Read? ==> forall hs :: !GroupsLead(b, all, hs)
  {
    hide EncodeAll, EncodeGroups, Wrap;
    var d := DeserializeCellBlocks(b[nread..], count);
    ghost var n := |gs|;
    if |b| < M32 {
      forall hs | GroupsLead(b, all, hs) ensures d == Cells(hs[n], |EncodeAll(hs[n])|) {
        NextGroupLeads(b, all, hs, n);
      }
    }
    if d.Stopped? { return if d.why == Panic then MultiRead.Panicked else BadCells(d.why); }
    if |b| < M32 {
      AppendGroup(b, all, gs, d.kvs);
      assert forall hs :: GroupsLead(b, all, hs) ==> hs[..n + 1] == hs[..n] + [hs[n]];
    }
    return Read(gs + [d.kvs], Wrap(nread + d.read));
  }

  method ReadRegion(present: seq<bool>, es: seq<Entry>, b: Key, gs: seq<seq<KeyValue>>, nread: nat,
                    ghost all: seq<nat>, ghost base: seq<nat>) returns (r: MultiRead)
    requires Prefix(b, all, gs, nread) && |gs| == |base| && base + Counts(es) <= all
    ensures r.Read? ==> EntriesOk(present, es) && Prefix(b, all, r.cells, r.nread) && |r.cells| == |base + Counts(es)|
    ensures |b| < M32 && !r.Read? && EntriesOk(present, es) ==> forall hs :: !GroupsLead(b, all, hs)
  {
    hide Prefix, GroupsLead, Counts;
    r := Read(gs, nread);
    NoCounts();
    assert es[..0] == [];
    for j := 0 to |es|
      invariant r.Read? && Prefix(b, all, r.cells, r.nread) && |r.cells| == |base + Counts(es[..j])|
      invariant EntriesOk(present, es[..j])
    {
      CountsPart(es, j);
      var e := es[j];
      if e.index == 0 { return BadResponse; }
      if e.count.None? && !e.exception { return BadResponse; }
      if e.count.Some? && e.exception { return BadResponse; }
      if !e.exception {
        if e.index > |present| || !present[e.index - 1] { return MultiRead.Panicked; }
        assert base + Counts(es[..j + 1]) <= all;
        assert all[|r.cells|] == (base + Counts(es[..j + 1]))[|r.cells|] == e.count.value;
        r := ReadResult(b, e.count.value, r.cells, r.nread, all);
        if !r.Read? { return; }
      }
    }
    assert es[..|es|] == es;
  }

  lemma NoCounts()
    ensures Counts([]) == [] && Wanted([]) == []
  {
  }

  /**
   multi.DeserializeCellBlocks. `present` says which calls of the batch are there. Each result gets the
   cells that were printed for it, whatever follows, and nothing is read from a response that is malformed.
   */
  method DeserializeMulti(present: seq<bool>, resp: seq<RegionEntries>, b: Key) returns (r: MultiRead)
    ensures r.Read? ==> ResponseOk(present, resp)
    ensures |b| < M32 && r.Read? ==> GroupsLead(b, Wanted(resp), r.cells) && r.nread == |EncodeGroups(r.cells)|
    ensures |b| < M32 && ResponseOk(present, resp) ==>
      forall gs :: GroupsLead(b, Wanted(resp), gs) ==> r == Read(gs, |EncodeGroups(gs)|)
  {
    hide GroupsLead, EncodeGroups, Wanted, Counts, EntriesOk;
    ghost var all := Wanted(resp);
    r := Read([], 0);
    NoCounts();
    assert resp[..0] == [];
    PrefixStart(b, all);
    for i := 0 to |resp|
      invariant r.Read? && Prefix(b, all, r.cells, r.nread) && |r.cells| == |Wanted(resp[..i])|
      invariant ResponseOk(present, resp[..i])
    {
      WantedPart(resp, i);
      if resp[i].exception {
        if |resp[i].entries| != 0 { return BadResponse; }
      } else {
        r := ReadRegion(present, resp[i].entries, b, r.cells, r.nread, all, Wanted(resp[..i]));
        if !r.Read? { return; }
      }
    }
    assert resp[..|resp|] == resp;
    PrefixEnd(b, all, r.cells, r.nread);
  }

  lemma PrefixStart(b: Key, all: seq<nat>)
    ensures Prefix(b, all, [], 0)
  {
    assert all[..0] == [];
  }

  lemma PrefixEnd(b: Key, all: seq<nat>, gs: seq<seq<KeyValue>>, nread: nat)
    requires Prefix(b, all, gs, nread) && |gs| == |all|
    ensures |b| < M32 ==> GroupsLead(b, all, gs) && nread == |EncodeGroups(gs)|
    ensures |b| < M32 ==> forall hs :: GroupsLead(b, all, hs) ==> hs == gs
  {
    hide EncodeGroups;
    assert all[..|all|] == all;
    assert forall hs :: GroupsLead(b, all, hs) ==> hs[..|all|] == hs;
  }
}
