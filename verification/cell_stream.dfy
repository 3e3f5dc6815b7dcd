/** Many cells in one buffer: deserializeCellBlocks (hrpc/call.go) and its use by a scan (hrpc/scan.go). */
module CellStream {
  import opened Bytes
  import opened Cellblock

  predicate AllFit(kvs: seq<KeyValue>) {
    forall i :: 0 <= i < |kvs| ==> Fits(kvs[i])
  }

  /** `kvs` are `n` cells that `b` starts with. */
  predicate Leads(b: Key, n: nat, kvs: seq<KeyValue>) {
    |kvs| == n && AllFit(kvs) && EncodeAll(kvs) <= b
  }

  /** The cells and the bytes they took, or the byte where the parser stopped and why. */
  datatype Decoded = Cells(kvs: seq<KeyValue>, read: nat) | Stopped(read: nat, why: Parsed)

  lemma {:induction false} EncodePart(kvs: seq<KeyValue>, i: nat)
    requires i < |kvs|
    ensures EncodeAll(kvs[..i + 1]) == EncodeAll(kvs[..i]) + Encode(kvs[i])
    ensures EncodeAll(kvs[..i + 1]) <= EncodeAll(kvs)
    decreases |kvs| - i
  {
    assert kvs[..i + 1][..i] == kvs[..i];
    if i + 1 == |kvs| {
      assert kvs[..i + 1] == kvs;
    } else {
      EncodePart(kvs, i + 1);
    }
  }

  /** The next cell of an encoding is the next cell that is parsed. */
  lemma NextCell(b: Key, kvs: seq<KeyValue>, i: nat)
    requires i < |kvs| && AllFit(kvs) && EncodeAll(kvs) <= b
    ensures |EncodeAll(kvs[..i])| <= |b|
    ensures Parse(b[|EncodeAll(kvs[..i])|..]) == Cell(kvs[i], CellblockLen(kvs[i]))
  {
    hide Parse, EncodeAll, Encode;
    EncodePart(kvs, i);
    var pre := EncodeAll(kvs[..i]);
    PartAt(pre, Encode(kvs[i]), b);
    ParseComplete(kvs[i], b[|pre|..]);
  }

  method DeserializeCellBlocks(b: Key, cellsLen: nat) returns (r: Decoded)
    ensures |b| < M32 && r.Cells? ==> Leads(b, cellsLen, r.kvs) && r.read == |EncodeAll(r.kvs)|
    ensures |b| < M32 && r.Stopped? ==> (
      exists kvs :: |kvs| < cellsLen && Leads(b, |kvs|, kvs) && r.read == |EncodeAll(kvs)| &&
                    Parse(b[r.read..]) == r.why && !r.why.Cell?)
    ensures |b| < M32 ==> forall kvs :: Leads(b, cellsLen, kvs) ==> r == Cells(kvs, |EncodeAll(kvs)|)
  {
    hide Parse, Encode;
    var cells: seq<KeyValue>, readLen: nat := [], 0;
    for i := 0 to cellsLen
      invariant |cells| == i && readLen <= |b|
      invariant |b| < M32 ==> Leads(b, i, cells) && readLen == |EncodeAll(cells)|
      invariant |b| < M32 ==> forall kvs :: Leads(b, cellsLen, kvs) ==> kvs[..i] == cells
    {
      var c := CellFromCellBlock(b[readLen..]);
      if |b| < M32 {
        forall kvs | Leads(b, cellsLen, kvs) ensures c == Cell(kvs[i], CellblockLen(kvs[i])) {
          NextCell(b, kvs, i);
        }
      }
      if !c.Cell? { return Stopped(readLen, c); }
      if |b| < M32 {
        ParseSound(b[readLen..]);
        AppendCell(b, cells, c.kv);
        assert forall kvs :: Leads(b, cellsLen, kvs) ==> kvs[..i + 1] == kvs[..i] + [kvs[i]];
      }
      cells := cells + [c.kv];
      readLen := Wrap(readLen + c.read);
    }
    assert forall kvs :: Leads(b, cellsLen, kvs) ==> kvs[..cellsLen] == kvs;
    return Cells(cells, readLen);
  }

  lemma AppendCell(b: Key, kvs: seq<KeyValue>, kv: KeyValue)
    requires |b| < M32 && Leads(b, |kvs|, kvs) && Fits(kv)
    requires Encode(kv) <= b[|EncodeAll(kvs)|..]
    ensures Leads(b, |kvs| + 1, kvs + [kv]) && |EncodeAll(kvs + [kv])| == |EncodeAll(kvs)| + CellblockLen(kv)
    ensures Wrap(|EncodeAll(kvs)| + CellblockLen(kv)) == |EncodeAll(kvs)| + CellblockLen(kv)
  {
    hide Encode;
    assert (kvs + [kv])[..|kvs|] == kvs;
    assert EncodeAll(kvs + [kv]) == EncodeAll(kvs) + Encode(kv);
    var n := |EncodeAll(kvs)|;
    assert b == b[..n] + b[n..];
  }

  // ----- The results of a scan

  datatype RowCells = RowCells(cells: seq<KeyValue>, partial: bool)

  /** The results array, where None is a nil entry; Failed is an error return. */
  datatype Scanned = Results(results: seq<Option<RowCells>>, read: nat) | Failed(why: Parsed) | Panicked

  function EncodeGroups(gs: seq<seq<KeyValue>>): Key {
    if gs == [] then [] else EncodeGroups(gs[..|gs| - 1]) + EncodeAll(gs[|gs| - 1])
  }

  /** `gs` are groups of `counts` cells that `b` starts with. */
  predicate GroupsLead(b: Key, counts: seq<nat>, gs: seq<seq<KeyValue>>) {
    && |gs| == |counts| && (forall i :: 0 <= i < |gs| ==> |gs[i]| == counts[i] && AllFit(gs[i]))
    && EncodeGroups(gs) <= b
  }

  /** The results are the groups, flagged, with nil entries for flags without a group. */
  predicate ResultsAre(results: seq<Option<RowCells>>, gs: seq<seq<KeyValue>>, partials: seq<bool>) {
    && |gs| <= |partials| == |results|
    && (forall i :: 0 <= i < |gs| ==> results[i] == Some(RowCells(gs[i], partials[i])))
    && (forall i :: |gs| <= i < |partials| ==> results[i] == None)
  }

  lemma {:induction false} EncodeGroupsPart(gs: seq<seq<KeyValue>>, i: nat)
    requires i < |gs|
    ensures EncodeGroups(gs[..i + 1]) == EncodeGroups(gs[..i]) + EncodeAll(gs[i])
    ensures EncodeGroups(gs[..i + 1]) <= EncodeGroups(gs)
    decreases |gs| - i
  {
    hide EncodeAll;
    assert gs[..i + 1][..i] == gs[..i];
    if i + 1 == |gs| {
      assert gs[..i + 1] == gs;
    } else {
      EncodeGroupsPart(gs, i + 1);
    }
  }

  lemma NextGroupLeads(b: Key, counts: seq<nat>, gs: seq<seq<KeyValue>>, i: nat)
    requires i < |gs| && GroupsLead(b, counts, gs)
    ensures |EncodeGroups(gs[..i])| <= |b| && Leads(b[|EncodeGroups(gs[..i])|..], counts[i], gs[i])
  {
    hide EncodeGroups, EncodeAll;
    EncodeGroupsPart(gs, i);
    PartAt(EncodeGroups(gs[..i]), EncodeAll(gs[i]), b);
  }

  lemma AppendGroup(b: Key, counts: seq<nat>, gs: seq<seq<KeyValue>>, g: seq<KeyValue>)
    requires |b| < M32 && |gs| < |counts| && GroupsLead(b, counts[..|gs|], gs)
    requires Leads(b[|EncodeGroups(gs)|..], counts[|gs|], g)
    ensures GroupsLead(b, counts[..|gs| + 1], gs + [g])
    ensures |EncodeGroups(gs + [g])| == |EncodeGroups(gs)| + |EncodeAll(g)|
    ensures Wrap(|EncodeGroups(gs)| + |EncodeAll(g)|) == |EncodeGroups(gs)| + |EncodeAll(g)|
  {
    hide EncodeAll, EncodeGroups, AllFit;
    EncodeGroupsPart(gs + [g], |gs|);
    assert (gs + [g])[..|gs|] == gs && (gs + [g])[..|gs| + 1] == gs + [g];
    PrefixThen(EncodeGroups(gs), EncodeAll(g), b);
  }

  lemma PrefixThen(p: Key, q: Key, b: Key)
    requires p <= b && q <= b[|p|..]
    ensures p + q <= b
  {
    assert b == b[..|p|] + b[|p|..];
  }

  /**
   Scan.DeserializeCellBlocks. The groups are read back exactly, whatever follows them; more counts than
   partial flags is an index out of range.
   */
  method DeserializeScan(partials: seq<bool>, cellsPerResult: seq<nat>, b: Key) returns (r: Scanned)
    ensures |b| < M32 && r.Results? ==> (
      exists gs :: && GroupsLead(b, cellsPerResult, gs) && r.read == |EncodeGroups(gs)|
                   && ResultsAre(r.results, gs, partials))
    ensures |b| < M32 ==> forall gs :: GroupsLead(b, cellsPerResult, gs) ==>
      if |gs| > |partials| then r.Panicked?
      else r.Results? && r.read == |EncodeGroups(gs)| && ResultsAre(r.results, gs, partials)
  {
    hide EncodeAll, EncodeGroups, Wrap;
    var results: seq<Option<RowCells>>, readLen: nat := seq(|partials|, _ => None), 0;
    ghost var gs: seq<seq<KeyValue>> := [];
    assert EncodeGroups([]) == [] by { NoGroups(); }
    for i := 0 to |cellsPerResult|
      invariant |gs| == i && readLen <= |b| && ResultsAre(results, gs, partials)
      invariant |b| < M32 ==> GroupsLead(b, cellsPerResult[..i], gs) && readLen == |EncodeGroups(gs)|
      invariant |b| < M32 ==> forall hs :: GroupsLead(b, cellsPerResult, hs) ==> hs[..i] == gs
    {
      var d := DeserializeCellBlocks(b[readLen..], cellsPerResult[i]);
      if |b| < M32 {
        forall hs | GroupsLead(b, cellsPerResult, hs) ensures d == Cells(hs[i], |EncodeAll(hs[i])|) {
          NextGroupLeads(b, cellsPerResult, hs, i);
        }
      }
      if d.Stopped? { return if d.why == Panic then Panicked else Failed(d.why); }
      if i >= |partials| { return Panicked; }
      if |b| < M32 {
        AppendGroup(b, cellsPerResult, gs, d.kvs);
        assert forall hs :: GroupsLead(b, cellsPerResult, hs) ==> hs[..i + 1] == hs[..i] + [hs[i]];
      }
      results := results[i := Some(RowCells(d.kvs, partials[i]))];
      gs := gs + [d.kvs];
      readLen := Wrap(readLen + d.read);
    }
    assert cellsPerResult[..|cellsPerResult|] == cellsPerResult;
    assert forall hs :: GroupsLead(b, cellsPerResult, hs) ==> hs[..|cellsPerResult|] == hs;
    return Results(results, readLen);
  }

  lemma NoGroups()
    ensures EncodeGroups([]) == []
  {
  }
}
