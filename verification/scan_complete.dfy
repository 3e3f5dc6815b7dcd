/**
 Scans of a whole table: a cluster holds sorted rows, cut into fragments, in regions that partition the
 keys. If the region servers answer honestly, driving Next to the end yields the expected rows.
 */
module ScanComplete {
  import opened Bytes
  import opened Sequences
  import opened Scanner
  import opened ScanRows

  /** `bounds` are the start keys of all regions but the first, whose start key is empty. */
  datatype Cluster = Cluster(rows: seq<RowData>, bounds: seq<Key>)

  predicate KeyBefore(a: RowData, b: RowData) {
    Less(a.key, b.key)
  }

  ghost predicate ValidCluster(cl: Cluster) {
    && Pairwise(cl.rows, KeyBefore) && (forall i :: 0 <= i < |cl.rows| ==> WellCut(cl.rows[i]))
    && Pairwise(cl.bounds, Less) && [] !in cl.bounds
  }

  // ----- Regions

  function StartOf(bounds: seq<Key>, k: Key): Key {
    if bounds == [] || Less(k, bounds[0]) then []
    else var later := StartOf(bounds[1..], k); if later == [] then bounds[0] else later
  }

  function StopOf(bounds: seq<Key>, k: Key): Key {
    if bounds == [] then [] else if Less(k, bounds[0]) then bounds[0] else StopOf(bounds[1..], k)
  }

  /** The region a key belongs to. */
  function RegionOf(cl: Cluster, k: Key): Range {
    Range(StartOf(cl.bounds, k), StopOf(cl.bounds, k))
  }

  lemma NotLess(a: Key, b: Key)
    ensures !Less(a, b) <==> AtMost(b, a)
  {
    LessTotal(a, b);
    if Less(a, b) { LessAsymmetric(a, b); } else { LessIrreflexive(a); }
  }

  lemma AtMostTransitive(a: Key, b: Key, c: Key)
    requires AtMost(a, b) && AtMost(b, c)
    ensures AtMost(a, c)
    ensures Less(a, b) || Less(b, c) ==> Less(a, c)
  {
    if Less(a, b) && Less(b, c) { LessTransitive(a, b, c); }
  }

  lemma EmptyLeast(k: Key)
    ensures AtMost([], k)
  {
  }

  /** The stop key is the least bound above the key. */
  lemma {:induction false} StopOfIs(bounds: seq<Key>, k: Key)
    requires Pairwise(bounds, Less) && [] !in bounds
    ensures var stop := StopOf(bounds, k);
      && (stop != [] ==> stop in bounds && Less(k, stop))
      && (forall b :: b in bounds && Less(k, b) ==> stop != [] && AtMost(stop, b))
  {
    if bounds != [] {
      assert bounds == [bounds[0]] + bounds[1..];
      if Less(k, bounds[0]) {
        forall b | b in bounds
          ensures AtMost(bounds[0], b)
        {
          var i :| 0 <= i < |bounds| && bounds[i] == b;
        }
      } else {
        StopOfIs(bounds[1..], k);
      }
    }
  }

  /** The start key is the greatest bound not above the key. */
  lemma {:induction false} StartOfIs(bounds: seq<Key>, k: Key)
    requires Pairwise(bounds, Less) && [] !in bounds
    ensures var start := StartOf(bounds, k);
      && (start != [] ==> start in bounds) && AtMost(start, k)
      && (forall b :: b in bounds && AtMost(b, k) ==> AtMost(b, start))
  {
    EmptyLeast(k);
    if bounds != [] {
      assert bounds == [bounds[0]] + bounds[1..];
      NotLess(k, bounds[0]);
      if Less(k, bounds[0]) {
        forall b | b in bounds
          ensures !AtMost(b, k)
        {
          var i :| 0 <= i < |bounds| && bounds[i] == b;
          AtMostTransitive(k, bounds[0], b);
          NotLess(k, b);
        }
      } else {
        StartOfIs(bounds[1..], k);
        var later := StartOf(bounds[1..], k);
        EmptyLeast(bounds[0]);
        if later != [] {
          var i :| 0 <= i < |bounds[1..]| && bounds[1..][i] == later;
          assert Less(bounds[0], bounds[i + 1]);
        } else {
          forall b | b in bounds[1..] && AtMost(b, k)
            ensures AtMost(b, bounds[0])
          {
            AtMostTransitive(b, [], bounds[0]);
          }
        }
      }
    }
  }

  // ----- What a scan is expected to return

  /** The tighter of two stop keys; an empty one is no limit. */
  function MinStop(a: Key, b: Key): Key {
    if a == [] then b else if b == [] || Less(a, b) then a else b
  }

  function InRange(lo: Key, hi: Key): RowData -> bool {
    (r: RowData) => AtMost(lo, r.key) && (hi == [] || Less(r.key, hi))
  }

  /** A forward scan: the rows of [lo, hi). */
  function Ascending(cl: Cluster, lo: Key, hi: Key): seq<RowData> {
    Filter(cl.rows, InRange(lo, hi))
  }

  /** The keys that the padding of PreviousRow jumps over when a reverse scan leaves a region. */
  ghost predicate Skipped(bounds: seq<Key>, from: Key, k: Key) {
    exists b :: b in bounds && AtMost(b, from) && Less(PreviousRow(b), k) && Less(k, b)
  }

  ghost function InReverse(bounds: seq<Key>, from: Key, stop: Key): RowData -> bool {
    (r: RowData) => AtMost(r.key, from) && (stop == [] || Less(stop, r.key)) && !Skipped(bounds, from, r.key)
  }

  /** A reverse scan: the rows of (stop, from], last first, except those it skips. */
  ghost function Descending(cl: Cluster, from: Key, stop: Key): seq<RowData> {
    Reversed(Filter(cl.rows, InReverse(cl.bounds, from, stop)))
  }

  ghost function Expected(cl: Cluster, q: Query, from: Key): seq<RowData> {
    if q.reversed then Descending(cl, from, q.stop) else Ascending(cl, from, q.stop)
  }

  function InRegionReverse(region: Range, from: Key, stop: Key): RowData -> bool {
    (r: RowData) => AtMost(r.key, from) && AtMost(region.start, r.key) && (stop == [] || Less(stop, r.key))
  }

  /** The rows a region server has for a scan opened at `from`: its own, in the order of the scan. */
  function ServerRows(cl: Cluster, q: Query, from: Key): seq<RowData> {
    var region := RegionOf(cl, from);
    if q.reversed then Reversed(Filter(cl.rows, InRegionReverse(region, from, q.stop)))
    else Ascending(cl, from, MinStop(region.stop, q.stop))
  }

  /** What is left after the region of `from`. */
  ghost function Remaining(cl: Cluster, q: Query, from: Key): seq<RowData> {
    if IsLast(q, RegionOf(cl, from)) then [] else Expected(cl, q, NextStartRow(q, RegionOf(cl, from)))
  }

  // ----- Leaving a region forwards

  predicate KeyInRange(k: Key, lo: Key, hi: Key) {
    AtMost(lo, k) && (hi == [] || Less(k, hi))
  }

  /** `mid` cuts a range in two. */
  lemma RangeSplits(k: Key, lo: Key, mid: Key, hi: Key)
    requires mid != [] && AtMost(lo, mid)
    ensures KeyInRange(k, lo, hi) <==> KeyInRange(k, lo, MinStop(mid, hi)) || KeyInRange(k, mid, hi)
    ensures KeyInRange(k, lo, MinStop(mid, hi)) ==> Less(k, mid)
  {
    hide Less;
    NotLess(k, mid);
    if AtMost(mid, k) {
      AtMostTransitive(lo, mid, k);
    }
    if hi != [] {
      NotLess(mid, hi);
      NotLess(k, hi);
      if Less(mid, hi) {
        if Less(k, mid) { AtMostTransitive(k, mid, hi); }
      } else {
        if Less(k, hi) { AtMostTransitive(k, hi, mid); }
        if AtMost(mid, k) { AtMostTransitive(hi, mid, k); }
      }
    }
  }

  lemma AscendingSplits(cl: Cluster, lo: Key, mid: Key, hi: Key)
    requires ValidCluster(cl) && mid != [] && AtMost(lo, mid)
    ensures Ascending(cl, lo, hi) == Ascending(cl, lo, MinStop(mid, hi)) + Ascending(cl, mid, hi)
  {
    hide Less, WellCut, Filter, MinStop;
    var rows, p, early, late := cl.rows, InRange(lo, hi), InRange(lo, MinStop(mid, hi)), InRange(mid, hi);
    forall i | 0 <= i < |rows|
      ensures (p(rows[i]) <==> early(rows[i]) || late(rows[i])) && !(early(rows[i]) && late(rows[i]))
    {
      RangeSplits(rows[i].key, lo, mid, hi);
      NotLess(rows[i].key, mid);
    }
    forall i, j | 0 <= i < j < |rows| && late(rows[i])
      ensures !early(rows[j])
    {
      assert KeyBefore(rows[i], rows[j]);
      AtMostTransitive(mid, rows[i].key, rows[j].key);
      NotLess(rows[j].key, mid);
      RangeSplits(rows[j].key, lo, mid, hi);
    }
    FilterPartition(rows, p, early, late);
  }

  lemma AscendingEmpty(cl: Cluster, lo: Key, hi: Key)
    requires hi != [] && AtMost(hi, lo)
    ensures Ascending(cl, lo, hi) == []
  {
    forall i | 0 <= i < |cl.rows|
      ensures !InRange(lo, hi)(cl.rows[i])
    {
      var k := cl.rows[i].key;
      NotLess(k, hi);
      if AtMost(lo, k) { AtMostTransitive(hi, lo, k); }
    }
    FilterNone(cl.rows, InRange(lo, hi));
  }

  lemma ForwardAdvances(cl: Cluster, q: Query, from: Key)
    requires ValidCluster(cl) && !q.reversed
    ensures Expected(cl, q, from) == ServerRows(cl, q, from) + Remaining(cl, q, from)
  {
    var stop := RegionOf(cl, from).stop;
    StopOfIs(cl.bounds, from);
    if stop != [] {
      AscendingSplits(cl, from, stop, q.stop);
      if IsLast(q, RegionOf(cl, from)) { AscendingEmpty(cl, stop, q.stop); }
    }
  }

  // ----- Leaving a region backwards

  /** Nothing but a longer string sorts after a string of 0xff bytes of the same start. */
  lemma {:induction false} AfterPadding(w: Key, pad: Key)
    requires forall i :: 0 <= i < |pad| ==> pad[i] == 255
    ensures AtMost(w, pad) || pad < w
  {
    if w != [] && pad != [] && w[0] == 255 {
      AfterPadding(w[1..], pad[1..]);
      assert w == [255] + w[1..] && pad == [255] + pad[1..];
    }
  }

  lemma PreviousOfOne(c: Byte, k: Key)
    ensures Less(PreviousRow([c]), [c])
    ensures Less(k, [c]) <==> AtMost(k, PreviousRow([c])) || (c != 0 && PreviousRow([c]) < k)
  {
    var p := PreviousRow([c]);
    if c == 0 {
      assert p == [];
    } else {
      assert p == [c - 1] + ROW_PADDING && p[1..] == ROW_PADDING;
      if k != [] {
        assert k == [k[0]] + k[1..];
        if k[0] == c - 1 {
          AfterPadding(k[1..], ROW_PADDING);
          assert AtMost(k[1..], ROW_PADDING) ==> AtMost(k, p);
          assert ROW_PADDING < k[1..] ==> p < k;
        }
      }
    }
  }

  /**
   The new start row of a reverse scan is the greatest key below the region's start key, up to padding:
   the only keys in between are those that properly extend it.
   */
  lemma {:induction false} PreviousRowExact(s: Key, k: Key)
    requires s != []
    ensures Less(PreviousRow(s), s)
    ensures Less(k, s) <==> AtMost(k, PreviousRow(s)) || (s[|s| - 1] != 0 && PreviousRow(s) < k)
  {
    if |s| == 1 {
      assert s == [s[0]];
      PreviousOfOne(s[0], k);
    } else {
      var p, t := PreviousRow(s), s[1..];
      assert t[|t| - 1] == s[|s| - 1] && [s[0]] + t[..|t| - 1] == s[..|s| - 1];
      assert p == [s[0]] + PreviousRow(t) && p[1..] == PreviousRow(t);
      PreviousRowExact(t, if k == [] then [] else k[1..]);
      if k != [] && k[0] == s[0] {
        assert k == [k[0]] + k[1..];
        assert AtMost(k, p) <==> AtMost(k[1..], PreviousRow(t));
        assert p < k <==> PreviousRow(t) < k[1..];
      }
    }
  }

  /** A bound that the padding jumps over leads to a start row that is not before the jump. */
  lemma JumpInsideJump(s: Key, b: Key)
    requires s != [] && Less(PreviousRow(s), b) && Less(b, s)
    ensures AtMost(PreviousRow(s), PreviousRow(b))
  {
    hide Less;
    var p := PreviousRow(s);
    PreviousRowExact(s, b);
    NotLess(p, b);
    assert p < b;
    PreviousRowExact(b, p);
    assert |p| < |b|;
    assert b[|b| - 1] != 0 ==> |PreviousRow(b)| == |b| + 8;
  }

  lemma NotSkippedInRegion(bounds: seq<Key>, from: Key, k: Key)
    requires Pairwise(bounds, Less) && [] !in bounds && AtMost(StartOf(bounds, from), k)
    ensures !Skipped(bounds, from, k)
  {
    hide Less;
    StartOfIs(bounds, from);
    forall b | b in bounds && AtMost(b, from)
      ensures !Less(k, b)
    {
      AtMostTransitive(b, StartOf(bounds, from), k);
      NotLess(k, b);
    }
  }

  /** Below the region of `from`, a reverse scan from `from` sees what one from the previous row sees. */
  lemma SameBelow(bounds: seq<Key>, from: Key, k: Key)
    requires Pairwise(bounds, Less) && [] !in bounds
    requires var s := StartOf(bounds, from); s != [] && Less(k, s)
    ensures
      var p := PreviousRow(StartOf(bounds, from));
      (AtMost(k, from) && !Skipped(bounds, from, k)) <==> (AtMost(k, p) && !Skipped(bounds, p, k))
  {
    hide Less, PreviousRow;
    var s := StartOf(bounds, from);
    var p := PreviousRow(s);
    StartOfIs(bounds, from);
    PreviousRowExact(s, k);
    AtMostTransitive(p, s, from);
    AtMostTransitive(k, s, from);
    NotLess(p, k);
    assert Less(p, k) ==> Skipped(bounds, from, k);
    forall b | b in bounds && AtMost(b, p)
      ensures AtMost(b, from)
    {
      AtMostTransitive(b, p, from);
    }
    assert Skipped(bounds, p, k) ==> Skipped(bounds, from, k);
    if AtMost(k, p) {
      forall b | b in bounds && AtMost(b, from) && Less(PreviousRow(b), k) && Less(k, b)
        ensures AtMost(b, p)
      {
        NotLess(p, b);
        if Less(p, b) {
          NotLess(b, s);
          assert AtMost(b, s);
          if b != s { JumpInsideJump(s, b); }
          AtMostTransitive(k, p, PreviousRow(b));
          NotLess(PreviousRow(b), k);
        }
      }
    }
  }

  lemma BackwardAdvances(cl: Cluster, q: Query, from: Key)
    requires ValidCluster(cl) && q.reversed
    ensures Expected(cl, q, from) == ServerRows(cl, q, from) + Remaining(cl, q, from)
  {
    hide Less, WellCut, Filter, PreviousRow, Skipped;
    var rows, region := cl.rows, RegionOf(cl, from);
    var s, p := region.start, PreviousRow(region.start);
    var all, here := InReverse(cl.bounds, from, q.stop), InRegionReverse(region, from, q.stop);
    var below := if IsLast(q, region) then (r: RowData) => false else InReverse(cl.bounds, p, q.stop);
    StartOfIs(cl.bounds, from);
    forall i | 0 <= i < |rows|
      ensures (all(rows[i]) <==> below(rows[i]) || here(rows[i])) && !(below(rows[i]) && here(rows[i]))
      ensures below(rows[i]) ==> Less(rows[i].key, s)
    {
      BackwardKey(cl.bounds, from, q.stop, rows[i].key);
    }
    forall i, j | 0 <= i < j < |rows| && here(rows[i])
      ensures !below(rows[j])
    {
      assert KeyBefore(rows[i], rows[j]);
      AtMostTransitive(s, rows[i].key, rows[j].key);
      NotLess(rows[j].key, s);
    }
    FilterPartition(rows, all, below, here);
    ReversedAppend(Filter(rows, below), Filter(rows, here));
    if IsLast(q, region) { FilterNone(rows, below); }
  }

  lemma BackwardKey(bounds: seq<Key>, from: Key, stop: Key, k: Key)
    requires Pairwise(bounds, Less) && [] !in bounds
    ensures
      var s := StartOf(bounds, from);
      var p := PreviousRow(s);
      var last := s == [] || (stop != [] && AtMost(s, stop));
      var wanted := stop == [] || Less(stop, k);
      var all := AtMost(k, from) && wanted && !Skipped(bounds, from, k);
      var here := AtMost(k, from) && AtMost(s, k) && wanted;
      var below := !last && AtMost(k, p) && wanted && !Skipped(bounds, p, k);
      (all <==> below || here) && !(below && here) && (below ==> Less(k, s))
  {
    hide Less, PreviousRow, Skipped;
    var s := StartOf(bounds, from);
    var p := PreviousRow(s);
    NotLess(k, s);
    if AtMost(s, k) {
      NotSkippedInRegion(bounds, from, k);
      if s != [] {
        PreviousRowExact(s, k);
        NotLess(p, k);
      }
    } else {
      EmptyLeast(k);
      assert s != [];
      SameBelow(bounds, from, k);
      if stop != [] && AtMost(s, stop) {
        AtMostTransitive(k, s, stop);
        NotLess(stop, k);
      }
    }
  }

  /** Whatever the direction: first the rows of the region, then what remains after it. */
  lemma RegionThenRest(cl: Cluster, q: Query, from: Key)
    requires ValidCluster(cl)
    ensures Expected(cl, q, from) == ServerRows(cl, q, from) + Remaining(cl, q, from)
  {
    if q.reversed { BackwardAdvances(cl, q, from); } else { ForwardAdvances(cl, q, from); }
  }

  // ----- Honest region servers

  /** The fragments the region server still has for this scanner; `left` is what an open session has left. */
  function Session(cl: Cluster, q: Query, c: Cursor, left: seq<Result>): seq<Result> {
    if c.id == NO_SCANNER_ID then FragsOf(ServerRows(cl, q, c.startRow)) else left
  }

  /**
   A reply to the scanner's next request: some more fragments, possibly none, of the region that holds the
   start row. It says the region is exhausted only if it is, leaves the scanner open otherwise, and says
   that the scan is over only if it is.
   */
  ghost predicate HonestReply(cl: Cluster, q: Query, c: Cursor, left: seq<Result>, rep: Reply) {
    && rep.Reply? && rep.region == RegionOf(cl, c.startRow)
    && rep.results <= Session(cl, q, c, left)
    && (!rep.moreInRegion ==> rep.results == Session(cl, q, c, left))
    && (rep.moreInRegion && c.id == NO_SCANNER_ID ==> rep.scannerId.Some?)
    && rep.scannerId != Some(NO_SCANNER_ID)
    && (rep.moreResults == Some(false) ==> rep.results == Session(cl, q, c, left) && Remaining(cl, q, c.startRow) == [])
  }

  /** The replies so far were honest, whether or not the scan has come to its end. */
  ghost predicate SoFar(cl: Cluster, q: Query, c: Cursor, left: seq<Result>, replies: seq<Reply>)
    decreases |replies|
  {
    || c.closed || replies == []
    || (&& HonestReply(cl, q, c, left, replies[0])
        && SoFar(cl, q, Round(q, c, replies[0]), Session(cl, q, c, left)[|replies[0].results|..], replies[1..]))
  }

  /** The cursor after the replies, or when the scanner has closed itself. */
  function After(q: Query, c: Cursor, replies: seq<Reply>): Cursor
    decreases |replies|
  {
    if c.closed || replies == [] then c else After(q, Round(q, c, replies[0]), replies[1..])
  }

  /** Honest replies until the scanner closes itself. */
  ghost predicate Honest(cl: Cluster, q: Query, c: Cursor, left: seq<Result>, replies: seq<Reply>)
    decreases |replies|
  {
    c.closed ||
    (&& replies != [] && HonestReply(cl, q, c, left, replies[0])
     && Honest(cl, q, Round(q, c, replies[0]), Session(cl, q, c, left)[|replies[0].results|..], replies[1..]))
  }

  lemma RoundMoves(cl: Cluster, q: Query, c: Cursor, left: seq<Result>, rep: Reply)
    requires !c.closed && HonestReply(cl, q, c, left, rep)
    ensures var c', region := Round(q, c, rep), RegionOf(cl, c.startRow);
      if rep.moreInRegion then
        && c'.startRow == c.startRow && c'.closed == (rep.moreResults == Some(false))
        && (!c'.closed ==> c'.id != NO_SCANNER_ID)
      else
        && c'.id == NO_SCANNER_ID && c'.startRow == NextStartRow(q, region)
        && c'.closed == (rep.moreResults == Some(false) || IsLast(q, region))
  {
    hide ServerRows, Remaining, FragsOf, NextStartRow, IsLast;
  }

  lemma {:induction false} FragsAppend(a: seq<RowData>, b: seq<RowData>)
    ensures FragsOf(a + b) == FragsOf(a) + FragsOf(b)
  {
    if a == [] {
      assert a + b == b;
    } else {
      assert (a + b)[1..] == a[1..] + b;
      FragsAppend(a[1..], b);
    }
  }

  /** A finished fetch brought the rest of the region and then everything that remained, without an error. */
  lemma {:induction false} FetchFinished(cl: Cluster, q: Query, c: Cursor, left: seq<Result>, replies: seq<Reply>)
    requires ValidCluster(cl) && !c.closed && Honest(cl, q, c, left, replies)
    ensures FutureOf(q, c, replies).frags == Session(cl, q, c, left) + FragsOf(Remaining(cl, q, c.startRow))
    ensures !FutureOf(q, c, replies).error
    decreases |replies|
  {
    hide ServerRows, Remaining, Expected, NextStartRow, IsLast, Round, FragsOf, ValidCluster, HonestReply, FutureOf;
    var rep := replies[0];
    HonestPrefix(cl, q, c, left, rep);
    FutureStep(q, c, replies);
    var c', all := Round(q, c, rep), Session(cl, q, c, left);
    var rest := all[|rep.results|..];
    assert all == rep.results + rest;
    RoundMoves(cl, q, c, left, rep);
    if c'.closed {
      ClosedRest(cl, q, c, left, rep);
      assert all == rep.results;
    } else {
      FetchFinished(cl, q, c', rest, replies[1..]);
      if rep.moreInRegion {
        assert Session(cl, q, c', rest) == rest;
      } else {
        OpenRest(cl, q, c, left, rep);
      }
    }
  }

  lemma FutureStep(q: Query, c: Cursor, replies: seq<Reply>)
    requires !c.closed && replies != [] && replies[0].Reply?
    ensures
      var f, rest := FutureOf(q, c, replies), FutureOf(q, Round(q, c, replies[0]), replies[1..]);
      f.frags == replies[0].results + rest.frags && f.error == rest.error && f.log == rest.log
    ensures Round(q, c, replies[0]).closed ==>
      FutureOf(q, Round(q, c, replies[0]), replies[1..]) == Future([], false, Round(q, c, replies[0]).log)
  {
    hide Round;
  }

  lemma HonestPrefix(cl: Cluster, q: Query, c: Cursor, left: seq<Result>, rep: Reply)
    requires HonestReply(cl, q, c, left, rep)
    ensures rep.Reply? && rep.results <= Session(cl, q, c, left)
  {
  }

  /** When the scanner closes itself, nothing remains. */
  lemma ClosedRest(cl: Cluster, q: Query, c: Cursor, left: seq<Result>, rep: Reply)
    requires !c.closed && HonestReply(cl, q, c, left, rep) && Round(q, c, rep).closed
    ensures rep.results == Session(cl, q, c, left) && FragsOf(Remaining(cl, q, c.startRow)) == []
  {
    hide ServerRows, Expected, NextStartRow, IsLast, Round;
    RoundMoves(cl, q, c, left, rep);
  }

  /** When it goes on to another region, what remains is that region and what remains after it. */
  lemma OpenRest(cl: Cluster, q: Query, c: Cursor, left: seq<Result>, rep: Reply)
    requires ValidCluster(cl) && !c.closed && HonestReply(cl, q, c, left, rep)
    requires !rep.moreInRegion && !Round(q, c, rep).closed
    ensures
      var c' := Round(q, c, rep);
      && rep.results == Session(cl, q, c, left)
      && FragsOf(Remaining(cl, q, c.startRow)) == Session(cl, q, c', []) + FragsOf(Remaining(cl, q, c'.startRow))
      && c'.id == NO_SCANNER_ID
  {
    hide ServerRows, Expected, NextStartRow, IsLast, Round, ValidCluster, FragsOf;
    RoundMoves(cl, q, c, left, rep);
    var next := NextStartRow(q, RegionOf(cl, c.startRow));
    RegionThenRest(cl, q, next);
    FragsAppend(ServerRows(cl, q, next), Remaining(cl, q, next));
  }

  // ----- A scan comes to its end

  function Fresh(q: Query): Cursor {
    Cursor(q.start, NO_SCANNER_ID, false, [])
  }

  /** An empty reply that leaves the region open. */
  predicate IsHeartbeat(rep: Reply) {
    rep.Reply? && rep.results == [] && rep.moreInRegion
  }

  function Heartbeats(replies: seq<Reply>): nat {
    if replies == [] then 0 else (if IsHeartbeat(replies[0]) then 1 else 0) + Heartbeats(replies[1..])
  }

  function IsAhead(q: Query, from: Key): Key -> bool {
    (b: Key) => if q.reversed then AtMost(b, from) else Less(from, b)
  }

  /** The region boundaries that a scan at `from` has yet to cross. */
  function Ahead(cl: Cluster, q: Query, from: Key): nat {
    |Filter(cl.bounds, IsAhead(q, from))|
  }

  /** The fragments and the boundaries ahead of a scan: what it takes to bring it to its end. */
  ghost function Work(cl: Cluster, q: Query, c: Cursor, left: seq<Result>): nat {
    |Session(cl, q, c, left)| + |FragsOf(Remaining(cl, q, c.startRow))| + Ahead(cl, q, c.startRow) + 1
  }

  lemma {:induction false} FilterFewer(bounds: seq<Key>, p: Key -> bool, q: Key -> bool, x: Key)
    requires x in bounds && q(x) && !p(x) && forall b :: b in bounds && p(b) ==> q(b)
    ensures |Filter(bounds, p)| < |Filter(bounds, q)|
  {
    assert bounds == [bounds[0]] + bounds[1..];
    if bounds[0] == x {
      FilterNotMore(bounds[1..], p, q);
    } else {
      FilterFewer(bounds[1..], p, q, x);
    }
  }

  lemma {:induction false} FilterNotMore(bounds: seq<Key>, p: Key -> bool, q: Key -> bool)
    requires forall b :: b in bounds && p(b) ==> q(b)
    ensures |Filter(bounds, p)| <= |Filter(bounds, q)|
  {
    if bounds != [] {
      assert bounds == [bounds[0]] + bounds[1..];
      FilterNotMore(bounds[1..], p, q);
    }
  }

  /** Leaving a region crosses a boundary for good. */
  lemma BoundaryCrossed(cl: Cluster, q: Query, from: Key)
    requires ValidCluster(cl) && !IsLast(q, RegionOf(cl, from))
    ensures Ahead(cl, q, NextStartRow(q, RegionOf(cl, from))) < Ahead(cl, q, from)
  {
    hide Less, Filter, PreviousRow, WellCut;
    var region := RegionOf(cl, from);
    var next := NextStartRow(q, region);
    var p, r := IsAhead(q, next), IsAhead(q, from);
    if q.reversed {
      var x := region.start;
      StartOfIs(cl.bounds, from);
      PreviousRowExact(x, next);
      LessAsymmetric(next, x);
      NotLess(next, x);
      forall b | b in cl.bounds && p(b)
        ensures r(b)
      {
        AtMostTransitive(b, next, x);
        AtMostTransitive(b, x, from);
      }
      FilterFewer(cl.bounds, p, r, x);
    } else {
      StopOfIs(cl.bounds, from);
      LessIrreflexive(next);
      forall b | b in cl.bounds && p(b)
        ensures r(b)
      {
        LessTransitive(from, next, b);
      }
      FilterFewer(cl.bounds, p, r, next);
    }
  }

  /** Every reply but a heartbeat brings a scan closer to its end. */
  lemma RoundWorks(cl: Cluster, q: Query, c: Cursor, left: seq<Result>, rep: Reply)
    requires ValidCluster(cl) && !c.closed && HonestReply(cl, q, c, left, rep) && !Round(q, c, rep).closed
    ensures var c', left' := Round(q, c, rep), Session(cl, q, c, left)[|rep.results|..];
      Work(cl, q, c', left') + (if IsHeartbeat(rep) then 0 else 1) <= Work(cl, q, c, left)
  {
    hide ServerRows, Remaining, Expected, NextStartRow, IsLast, Round, FragsOf, ValidCluster, Ahead;
    HonestPrefix(cl, q, c, left, rep);
    RoundMoves(cl, q, c, left, rep);
    if !rep.moreInRegion {
      OpenRest(cl, q, c, left, rep);
      BoundaryCrossed(cl, q, c.startRow);
    }
  }

  /** A scan that is still open has had fewer replies than it takes, heartbeats not counted. */
  lemma {:induction false} OpenScanIsShort(cl: Cluster, q: Query, c: Cursor, left: seq<Result>, replies: seq<Reply>)
    requires ValidCluster(cl) && SoFar(cl, q, c, left, replies)
    ensures !After(q, c, replies).closed ==> |replies| < Heartbeats(replies) + Work(cl, q, c, left)
    decreases |replies|
  {
    hide Work, Round, ValidCluster, HonestReply;
    if replies == [] {
      WorkPositive(cl, q, c, left);
    } else if !c.closed {
      var rep := replies[0];
      HonestPrefix(cl, q, c, left, rep);
      var c', left' := Round(q, c, rep), Session(cl, q, c, left)[|rep.results|..];
      ClosedStays(q, c', replies[1..]);
      if !c'.closed { RoundWorks(cl, q, c, left, rep); }
      OpenScanIsShort(cl, q, c', left', replies[1..]);
    }
  }

  lemma WorkPositive(cl: Cluster, q: Query, c: Cursor, left: seq<Result>)
    ensures Work(cl, q, c, left) > 0
  {
  }

  lemma ClosedStays(q: Query, c: Cursor, replies: seq<Reply>)
    ensures c.closed ==> After(q, c, replies).closed
  {
  }

  /** More honest replies than it takes. */
  ghost predicate Enough(cl: Cluster, q: Query, c: Cursor, left: seq<Result>, replies: seq<Reply>) {
    SoFar(cl, q, c, left, replies) && |replies| >= Heartbeats(replies) + Work(cl, q, c, left)
  }

  lemma {:induction false} ClosedIsHonest(cl: Cluster, q: Query, c: Cursor, left: seq<Result>, replies: seq<Reply>)
    requires SoFar(cl, q, c, left, replies) && After(q, c, replies).closed
    ensures Honest(cl, q, c, left, replies)
    decreases |replies|
  {
    if !c.closed {
      ClosedIsHonest(cl, q, Round(q, c, replies[0]), Session(cl, q, c, left)[|replies[0].results|..], replies[1..]);
    }
  }

  /** Then the scan has come to its end. */
  lemma ScanEnds(cl: Cluster, q: Query, c: Cursor, left: seq<Result>, replies: seq<Reply>)
    requires ValidCluster(cl) && Enough(cl, q, c, left, replies)
    ensures After(q, c, replies).closed && Honest(cl, q, c, left, replies)
  {
    hide Work, Honest, ValidCluster;
    OpenScanIsShort(cl, q, c, left, replies);
    ClosedIsHonest(cl, q, c, left, replies);
  }

  function Prefix(stream: nat -> Reply, n: nat): (replies: seq<Reply>)
    ensures |replies| == n
  {
    seq(n, i requires 0 <= i < n => stream(i))
  }

  /** A cluster that answers honestly for ever, with at most `h` heartbeats, brings every scan to its end. */
  lemma ScanTerminates(cl: Cluster, q: Query, stream: nat -> Reply, h: nat)
    requires ValidCluster(cl)
    requires forall n: nat :: SoFar(cl, q, Fresh(q), [], Prefix(stream, n)) && Heartbeats(Prefix(stream, n)) <= h
    ensures After(q, Fresh(q), Prefix(stream, h + Work(cl, q, Fresh(q), []))).closed
  {
    hide Work, SoFar, Prefix, ValidCluster, Honest, After;
    var n := h + Work(cl, q, Fresh(q), []);
    assert SoFar(cl, q, Fresh(q), [], Prefix(stream, n)) && Heartbeats(Prefix(stream, n)) <= h;
    ScanEnds(cl, q, Fresh(q), [], Prefix(stream, n));
  }

  /** The reply that has all there is left in the region. */
  ghost function LastReply(cl: Cluster, q: Query, c: Cursor, left: seq<Result>): Reply {
    Reply(Session(cl, q, c, left), None, false, None, RegionOf(cl, c.startRow))
  }

  /** From every open state of a scan, honest replies can bring it to its end. */
  lemma {:induction false} CanFinish(cl: Cluster, q: Query, c: Cursor, left: seq<Result>) returns (replies: seq<Reply>)
    requires ValidCluster(cl) && !c.closed
    ensures Honest(cl, q, c, left, replies)
    decreases Ahead(cl, q, c.startRow)
  {
    hide ServerRows, Remaining, FragsOf, ValidCluster, Ahead, NextStartRow, IsLast;
    var rep := LastReply(cl, q, c, left);
    assert HonestReply(cl, q, c, left, rep);
    RoundMoves(cl, q, c, left, rep);
    hide HonestReply, Round;
    var c' := Round(q, c, rep);
    var rest := [];
    if !c'.closed {
      BoundaryCrossed(cl, q, c.startRow);
      rest := CanFinish(cl, q, c', Session(cl, q, c, left)[|rep.results|..]);
    }
    replies := [rep] + rest;
    assert replies[1..] == rest;
  }

  lemma {:induction false} HonestThenMore(
      cl: Cluster, q: Query, c: Cursor, left: seq<Result>, replies: seq<Reply>, more: seq<Reply>)
    requires Honest(cl, q, c, left, replies)
    ensures SoFar(cl, q, c, left, replies + more)
    decreases |replies|
  {
    if !c.closed {
      assert (replies + more)[0] == replies[0] && (replies + more)[1..] == replies[1..] + more;
      HonestThenMore(
        cl, q, Round(q, c, replies[0]), Session(cl, q, c, left)[|replies[0].results|..], replies[1..], more);
    }
  }

  lemma {:induction false} HeartbeatsAppend(a: seq<Reply>, b: seq<Reply>)
    ensures Heartbeats(a + b) == Heartbeats(a) + Heartbeats(b)
  {
    if a == [] {
      assert a + b == b;
    } else {
      assert (a + b)[1..] == a[1..] + b;
      HeartbeatsAppend(a[1..], b);
    }
  }

  lemma {:induction false} NoHeartbeats(n: nat)
    ensures Heartbeats(seq(n, _ => Broken)) == 0
  {
    if n > 0 {
      assert seq(n, _ => Broken)[1..] == seq(n - 1, _ => Broken);
      NoHeartbeats(n - 1);
    }
  }

  /** Enough honest replies exist for every query of every cluster; those after the end are not asked for. */
  lemma EnoughExist(cl: Cluster, q: Query) returns (replies: seq<Reply>)
    requires ValidCluster(cl)
    ensures Enough(cl, q, Fresh(q), [], replies)
  {
    hide Work, Honest, SoFar, ValidCluster, Heartbeats;
    var honest := CanFinish(cl, q, Fresh(q), []);
    var n := Heartbeats(honest) + Work(cl, q, Fresh(q), []);
    var more := seq(n, _ => Broken);
    replies := honest + more;
    HonestThenMore(cl, q, Fresh(q), [], honest, more);
    HeartbeatsAppend(honest, more);
    NoHeartbeats(n);
  }

  // ----- The theorems

  lemma ExpectedCut(cl: Cluster, q: Query, from: Key)
    requires ValidCluster(cl)
    ensures forall i :: 0 <= i < |Expected(cl, q, from)| ==> WellCut(Expected(cl, q, from)[i])
    ensures KeysChange(Expected(cl, q, from))
  {
    hide Less, Skipped, WellCut;
    var keep := if q.reversed then InReverse(cl.bounds, from, q.stop) else InRange(from, q.stop);
    var f := Filter(cl.rows, keep);
    FilterAll(cl.rows, keep, WellCut);
    FilterPairwise(cl.rows, keep, KeyBefore);
    assert forall i, j :: 0 <= i < j < |f| ==> f[i].key != f[j].key by {
      forall i, j | 0 <= i < j < |f|
        ensures f[i].key != f[j].key
      {
        assert KeyBefore(f[i], f[j]);
        LessIrreflexive(f[i].key);
      }
    }
  }

  /** With enough honest replies, fetching brings everything that was expected, without an error. */
  lemma FetchIsComplete(cl: Cluster, q: Query, replies: seq<Reply>)
    requires ValidCluster(cl) && Enough(cl, q, Fresh(q), [], replies)
    ensures FutureOf(q, Fresh(q), replies).frags == FragsOf(Expected(cl, q, q.start))
    ensures !FutureOf(q, Fresh(q), replies).error
  {
    hide ValidCluster, Honest, SoFar, FutureOf, Expected, ServerRows, Remaining, FragsOf, Work;
    ScanEnds(cl, q, Fresh(q), [], replies);
    FetchFinished(cl, q, Fresh(q), [], replies);
    RegionThenRest(cl, q, q.start);
    FragsAppend(ServerRows(cl, q, q.start), Remaining(cl, q, q.start));
  }

  /**
   Driving Next to the end returns exactly the expected rows: for a forward scan every row of
   [start, stop) in ascending order, each once and whole.
   */
  lemma ScanIsComplete(cl: Cluster, q: Query, replies: seq<Reply>)
    requires ValidCluster(cl) && !q.allowPartial && (q.reversed ==> q.start != [])
    requires Enough(cl, q, Fresh(q), [], replies)
    ensures forall i :: 0 <= i < |Expected(cl, q, q.start)| ==> WellCut(Expected(cl, q, q.start)[i])
    ensures
      var f := FutureOf(q, Fresh(q), replies);
      !f.error && Successive(f.frags, f.error) == Wholes(Expected(cl, q, q.start))
  {
    hide ValidCluster, Enough, FutureOf, Expected, Successive, Wholes, WellCut, FragsOf;
    ExpectedCut(cl, q, q.start);
    FetchIsComplete(cl, q, replies);
    RowsComeBackWhole(Expected(cl, q, q.start));
  }

  lemma {:induction false} FragsNonempty(rows: seq<RowData>)
    requires forall i :: 0 <= i < |rows| ==> WellCut(rows[i])
    ensures forall i :: 0 <= i < |FragsOf(rows)| ==> FragsOf(rows)[i].cells != []
  {
    if rows != [] {
      assert WellCut(rows[0]);
      FragsNonempty(rows[1..]);
    }
  }

  /** The same for the scanner itself: it reads the expected rows and then reports the end. */
  method ScanTable(ghost cl: Cluster, q: Query, replies: seq<Reply>) returns (rs: seq<Result>, status: Status)
    requires ValidCluster(cl) && !q.allowPartial && (q.reversed ==> q.start != [])
    requires Enough(cl, q, Fresh(q), [], replies)
    ensures forall i :: 0 <= i < |Expected(cl, q, q.start)| ==> WellCut(Expected(cl, q, q.start)[i])
    ensures rs == Wholes(Expected(cl, q, q.start)) && status == Eof
  {
    hide ValidCluster, Enough, FutureOf, Expected, Successive, Wholes, WellCut, FragsOf, Panics;
    rs, status := ReadAll(q, replies);
    ScanIsComplete(cl, q, replies);
    FetchIsComplete(cl, q, replies);
    FragsNonempty(Expected(cl, q, q.start));
    NonemptyPartialsAreSafe(FragsOf(Expected(cl, q, q.start)));
  }

  /** The rows asked of a reverse scan, whatever the padding does. */
  function Wanted(cl: Cluster, from: Key, stop: Key): seq<RowData> {
    Reversed(Filter(cl.rows, InRegionReverse(Range([], []), from, stop)))
  }

  lemma {:induction false} WholesLength(rows: seq<RowData>)
    requires forall i :: 0 <= i < |rows| ==> WellCut(rows[i])
    ensures |Wholes(rows)| == |rows|
  {
    if rows != [] { WholesLength(rows[1..]); }
  }

  /** A filter that lets less through lets fewer through, unless it lets the same through. */
  lemma {:induction false} FilterSameLength(rows: seq<RowData>, p: RowData -> bool, q: RowData -> bool)
    requires forall i :: 0 <= i < |rows| && p(rows[i]) ==> q(rows[i])
    ensures |Filter(rows, p)| <= |Filter(rows, q)|
    ensures |Filter(rows, p)| == |Filter(rows, q)| <==> forall i :: 0 <= i < |rows| && q(rows[i]) ==> p(rows[i])
  {
    if rows != [] {
      var rest := rows[1..];
      assert forall i :: 0 <= i < |rest| ==> rest[i] == rows[i + 1];
      FilterSameLength(rest, p, q);
      assert (forall i :: 0 <= i < |rows| && q(rows[i]) ==> p(rows[i])) <==>
             (q(rows[0]) ==> p(rows[0])) && forall i :: 0 <= i < |rest| && q(rest[i]) ==> p(rest[i]);
    }
  }

  lemma WantedCut(cl: Cluster, from: Key, stop: Key)
    requires ValidCluster(cl)
    ensures forall i :: 0 <= i < |Wanted(cl, from, stop)| ==> WellCut(Wanted(cl, from, stop)[i])
  {
    hide WellCut, Less;
    FilterAll(cl.rows, InRegionReverse(Range([], []), from, stop), WellCut);
  }

  /** No row that was asked for lies between a region's start key and the padded start row before it. */
  ghost predicate SkipsNone(cl: Cluster, from: Key, stop: Key) {
    forall i :: 0 <= i < |cl.rows| ==>
      AtMost(cl.rows[i].key, from) && (stop == [] || Less(stop, cl.rows[i].key)) ==>
        !Skipped(cl.bounds, from, cl.rows[i].key)
  }

  /** What a reverse scan sees is what was asked for, if and only if it jumps over none of it. */
  lemma SeenIffNotSkipped(cl: Cluster, from: Key, stop: Key)
    requires ValidCluster(cl)
    ensures |Descending(cl, from, stop)| == |Wanted(cl, from, stop)| <==> SkipsNone(cl, from, stop)
    ensures SkipsNone(cl, from, stop) ==> Descending(cl, from, stop) == Wanted(cl, from, stop)
  {
    hide Less, Skipped, WellCut, Filter;
    var rows, p, q := cl.rows, InReverse(cl.bounds, from, stop), InRegionReverse(Range([], []), from, stop);
    forall i | 0 <= i < |rows|
      ensures p(rows[i]) <==> q(rows[i]) && !Skipped(cl.bounds, from, rows[i].key)
      ensures q(rows[i]) <==> AtMost(rows[i].key, from) && (stop == [] || Less(stop, rows[i].key))
    {
      EmptyLeast(rows[i].key);
    }
    FilterSameLength(rows, p, q);
    if |Filter(rows, p)| == |Filter(rows, q)| { FilterSame(rows, p, q); }
  }

  /**
   What Next returns of a reverse scan is all rows of (stop, start], last first, if and only if none of them lies
   between a region's start key and the padded start row before it.
   */
  lemma ReverseCompleteIff(cl: Cluster, q: Query, replies: seq<Reply>)
    requires ValidCluster(cl) && q.reversed && q.start != [] && !q.allowPartial && Enough(cl, q, Fresh(q), [], replies)
    ensures forall i :: 0 <= i < |Wanted(cl, q.start, q.stop)| ==> WellCut(Wanted(cl, q.start, q.stop)[i])
    ensures
      var f := FutureOf(q, Fresh(q), replies);
      Successive(f.frags, f.error) == Wholes(Wanted(cl, q.start, q.stop)) <==> SkipsNone(cl, q.start, q.stop)
  {
    hide ValidCluster, Enough, FutureOf, Successive, Wholes, WellCut, SkipsNone, Descending, Wanted;
    ScanIsComplete(cl, q, replies);
    WantedCut(cl, q.start, q.stop);
    SeenIffNotSkipped(cl, q.start, q.stop);
    WholesLength(Descending(cl, q.start, q.stop));
    WholesLength(Wanted(cl, q.start, q.stop));
  }

  /** A skipped row extends the padded start row of a region that does not start with a key ending in zero. */
  lemma SkippedExtendsPadding(bounds: seq<Key>, from: Key, k: Key)
    requires [] !in bounds && Skipped(bounds, from, k)
    ensures exists b :: b in bounds && AtMost(b, from) && b[|b| - 1] != 0 && PreviousRow(b) < k
  {
    hide Less;
    var b :| b in bounds && AtMost(b, from) && Less(PreviousRow(b), k) && Less(k, b);
    PreviousRowExact(b, k);
    NotLess(PreviousRow(b), k);
  }

  /** A table with one row, right below its second region. */
  function OneRowTable(): Cluster {
    var k: Key := [0] + ROW_PADDING + [255];
    Cluster([RowData(k, [Result([Cell(k, [])], false, false)])], [[1]])
  }

  const FROM_ONE := Query([1], [], true, false, false)

  /** Both regions are asked, and neither has a row for the scan. */
  const BOTH_EMPTY := [Reply([], None, false, None, Range([1], [])), Reply([], None, false, None, Range([], [1]))]

  /** It does happen: the row is asked for, the region servers are honest, and the scan ends without it. */
  lemma ReverseCanLoseARow()
    ensures ValidCluster(OneRowTable()) && |Wanted(OneRowTable(), FROM_ONE.start, FROM_ONE.stop)| == 1
    ensures Honest(OneRowTable(), FROM_ONE, Fresh(FROM_ONE), [], BOTH_EMPTY)
    ensures var f := FutureOf(FROM_ONE, Fresh(FROM_ONE), BOTH_EMPTY); f.frags == [] && !f.error
  {
    hide ServerRows, Remaining, Wanted, ValidCluster, RegionOf, OneRowTable, PreviousRow, FutureOf;
    NeitherHasTheRow();
    var cl, c := OneRowTable(), Fresh(FROM_ONE);
    var c1 := Round(FROM_ONE, c, BOTH_EMPTY[0]);
    assert c1.startRow == PreviousRow([1]) && c1.id == NO_SCANNER_ID && !c1.closed;
    var c2 := Round(FROM_ONE, c1, BOTH_EMPTY[1]);
    assert c2.closed;
    assert BOTH_EMPTY[1..] == [BOTH_EMPTY[1]] && BOTH_EMPTY[1..][1..] == [];
    FutureStep(FROM_ONE, c, BOTH_EMPTY);
    FutureStep(FROM_ONE, c1, BOTH_EMPTY[1..]);
  }

  lemma NeitherHasTheRow()
    ensures var cl := OneRowTable();
      && ValidCluster(cl) && |Wanted(cl, FROM_ONE.start, FROM_ONE.stop)| == 1
      && ServerRows(cl, FROM_ONE, [1]) == [] && RegionOf(cl, [1]) == Range([1], [])
      && ServerRows(cl, FROM_ONE, PreviousRow([1])) == [] && RegionOf(cl, PreviousRow([1])) == Range([], [1])
  {
    hide Less, Filter, PreviousRow;
    var cl := OneRowTable();
    var r := cl.rows[0];
    var next := PreviousRow([1]);
    PaddedOne(r.key);
    EmptyLeast(r.key);
    LessAsymmetric(r.key, [1]);
    LessAsymmetric(next, r.key);
    LessTransitive(next, r.key, [1]);
    LessIrreflexive([1]);
    FilterEvery([r], InRegionReverse(Range([], []), [1], []));
    FilterNone([r], InRegionReverse(Range([1], []), [1], []));
    FilterNone([r], InRegionReverse(Range([], [1]), next, []));
    assert RegionOf(cl, [1]) == Range([1], []) && RegionOf(cl, next) == Range([], [1]);
  }

  /** The scanner itself, on that table. */
  method LoseARow() returns (rs: seq<Result>, status: Status)
    ensures rs == [] && status == Eof
  {
    hide FutureOf, Panics;
    ReverseCanLoseARow();
    NonemptyPartialsAreSafe([]);
    rs, status := ReadAll(FROM_ONE, BOTH_EMPTY);
  }

  lemma PaddedOne(k: Key)
    requires k == [0] + ROW_PADDING + [255]
    ensures Less(PreviousRow([1]), k) && Less(k, [1])
  {
    hide Less;
    assert PreviousRow([1]) == [0] + ROW_PADDING < k;
    PrefixLess(PreviousRow([1]), k);
    assert k[..0] == [1][..0];
    LessAtDifference(k, [1], 0);
  }

  // ----- Which regions a scan opens

  function OpenRows(log: seq<Event>): seq<Key> {
    if log == [] then []
    else OpenRows(log[..|log| - 1]) + (if log[|log| - 1].OpenRequest? then [log[|log| - 1].row] else [])
  }

  lemma OpenRowsStep(log: seq<Event>, e: Event)
    ensures OpenRows(log + [e]) == OpenRows(log) + (if e.OpenRequest? then [e.row] else [])
  {
    assert (log + [e])[..|log|] == log;
  }

  lemma CloseOpensNothing(q: Query, c: Cursor)
    ensures OpenRows(CloseRegion(q, c).log) == OpenRows(c.log)
  {
    OpenRowsStep(c.log, CloseRequest(c.id, c.startRow));
  }

  lemma RoundOpens(q: Query, c: Cursor, resp: Reply)
    requires !c.closed
    ensures OpenRows(Round(q, c, resp).log) == OpenRows(c.log) + if c.id == NO_SCANNER_ID then [c.startRow] else []
  {
    hide OpenRows;
    var r := Requested(q, c);
    OpenRowsStep(c.log, RequestOf(q, c));
    if resp.Broken? {
      CloseOpensNothing(q, r.(closed := true));
      return;
    }
    var o := Opened(r, resp);
    if resp.scannerId.Some? { OpenRowsStep(r.log, Lease(resp.scannerId.value, r.startRow)); }
    assert OpenRows(o.log) == OpenRows(r.log);
    CloseOpensNothing(q, o);
    var u := Updated(q, r, resp);
    CloseOpensNothing(q, u.(closed := true));
  }

  function Between(from: Key, stop: Key): Key -> bool {
    (b: Key) => Less(from, b) && (stop == [] || Less(b, stop))
  }

  /** The start keys of the later regions that meet the range. */
  function LaterStarts(cl: Cluster, from: Key, stop: Key): seq<Key> {
    Filter(cl.bounds, Between(from, stop))
  }

  function Exactly(x: Key): Key -> bool {
    (b: Key) => b == x
  }

  lemma {:induction false} FilterOne(bounds: seq<Key>, x: Key)
    requires Pairwise(bounds, Less) && x in bounds
    ensures Filter(bounds, Exactly(x)) == [x]
  {
    hide Less;
    var same := Exactly(x);
    assert bounds == [bounds[0]] + bounds[1..];
    if bounds[0] == x {
      forall i | 0 <= i < |bounds[1..]|
        ensures !same(bounds[1..][i])
      {
        assert Less(bounds[0], bounds[i + 1]);
        LessIrreflexive(x);
      }
      FilterNone(bounds[1..], same);
    } else {
      FilterOne(bounds[1..], x);
    }
  }

  lemma NextStart(cl: Cluster, q: Query, from: Key)
    requires ValidCluster(cl) && !q.reversed
    ensures
      var stop := RegionOf(cl, from).stop;
      LaterStarts(cl, from, q.stop) ==
        if IsLast(q, RegionOf(cl, from)) then [] else [stop] + LaterStarts(cl, stop, q.stop)
  {
    hide Less, WellCut, Filter;
    var bounds, region := cl.bounds, RegionOf(cl, from);
    var stop, p := region.stop, Between(from, q.stop);
    StopOfIs(bounds, from);
    if IsLast(q, region) {
      forall i | 0 <= i < |bounds|
        ensures !p(bounds[i])
      {
        var b := bounds[i];
        assert b in bounds;
        if Less(from, b) {
          AtMostTransitive(q.stop, stop, b);
          NotLess(b, q.stop);
        }
      }
      FilterNone(bounds, p);
    } else {
      var same, late := Exactly(stop), Between(stop, q.stop);
      NotLess(stop, q.stop);
      forall i | 0 <= i < |bounds|
        ensures (p(bounds[i]) <==> same(bounds[i]) || late(bounds[i])) && !(same(bounds[i]) && late(bounds[i]))
      {
        var b := bounds[i];
        assert b in bounds;
        LessIrreflexive(b);
        if Less(stop, b) { LessTransitive(from, stop, b); }
      }
      forall i, j | 0 <= i < j < |bounds| && late(bounds[i])
        ensures !same(bounds[j])
      {
        assert Less(bounds[i], bounds[j]);
        LessTransitive(stop, bounds[i], bounds[j]);
        LessIrreflexive(stop);
      }
      FilterPartition(bounds, p, same, late);
      FilterOne(bounds, stop);
    }
  }

  /** The start keys of the regions that a reverse scan comes to: not those that the padding jumps over. */
  ghost function IsVisited(bounds: seq<Key>, from: Key, stop: Key): Key -> bool {
    (b: Key) => AtMost(b, from) && (stop == [] || Less(stop, b)) && !Skipped(bounds, from, b)
  }

  ghost function VisitedBelow(cl: Cluster, from: Key, stop: Key): seq<Key> {
    Reversed(Filter(cl.bounds, IsVisited(cl.bounds, from, stop)))
  }

  function PreviousRows(bounds: seq<Key>): seq<Key> {
    if bounds == [] then [] else [PreviousRow(bounds[0])] + PreviousRows(bounds[1..])
  }

  lemma NoneVisited(cl: Cluster, q: Query, from: Key)
    requires ValidCluster(cl) && q.reversed && IsLast(q, RegionOf(cl, from))
    ensures VisitedBelow(cl, from, q.stop) == []
  {
    hide Less, Skipped, WellCut, Filter;
    var bounds, s, p := cl.bounds, RegionOf(cl, from).start, IsVisited(cl.bounds, from, q.stop);
    StartOfIs(bounds, from);
    forall i | 0 <= i < |bounds|
      ensures !p(bounds[i])
    {
      var b := bounds[i];
      assert b in bounds && b != [];
      EmptyLeast(b);
      NotLess([], b);
      NotLess(q.stop, b);
      if AtMost(b, from) && s != [] { AtMostTransitive(b, s, q.stop); }
    }
    FilterNone(bounds, p);
  }

  lemma VisitedKey(bounds: seq<Key>, from: Key, stop: Key, b: Key)
    requires Pairwise(bounds, Less) && [] !in bounds && b in bounds
    requires var s := StartOf(bounds, from); s != [] && (stop == [] || Less(stop, s))
    ensures
      var s := StartOf(bounds, from);
      var all, same, below := IsVisited(bounds, from, stop), Exactly(s), IsVisited(bounds, PreviousRow(s), stop);
      (all(b) <==> below(b) || same(b)) && !(below(b) && same(b)) && (below(b) ==> Less(b, s))
  {
    hide Less, PreviousRow, Skipped;
    var s := StartOf(bounds, from);
    var p := PreviousRow(s);
    StartOfIs(bounds, from);
    PreviousRowExact(s, s);
    LessTotal(b, s);
    if b == s {
      NotSkippedInRegion(bounds, from, s);
      NotLess(p, s);
    } else if Less(b, s) {
      SameBelow(bounds, from, b);
    } else {
      NotLess(b, s);
      if AtMost(b, p) { AtMostTransitive(b, p, s); }
      NotLess(s, b);
    }
  }

  lemma NextVisited(cl: Cluster, q: Query, from: Key)
    requires ValidCluster(cl) && q.reversed && !IsLast(q, RegionOf(cl, from))
    ensures var s := RegionOf(cl, from).start;
      VisitedBelow(cl, from, q.stop) == [s] + VisitedBelow(cl, PreviousRow(s), q.stop)
  {
    hide Less, PreviousRow, Skipped, WellCut, Filter, IsVisited;
    var bounds, s := cl.bounds, RegionOf(cl, from).start;
    var all, same, below := IsVisited(bounds, from, q.stop), Exactly(s), IsVisited(bounds, PreviousRow(s), q.stop);
    StartOfIs(bounds, from);
    NotLess(q.stop, s);
    forall i | 0 <= i < |bounds|
      ensures (all(bounds[i]) <==> below(bounds[i]) || same(bounds[i])) && !(below(bounds[i]) && same(bounds[i]))
      ensures below(bounds[i]) ==> Less(bounds[i], s)
    {
      VisitedKey(bounds, from, q.stop, bounds[i]);
    }
    forall i, j | 0 <= i < j < |bounds| && same(bounds[i])
      ensures !below(bounds[j])
    {
      assert Less(bounds[i], bounds[j]);
      LessAsymmetric(s, bounds[j]);
    }
    FilterPartition(bounds, all, below, same);
    FilterOne(bounds, s);
    ReversedAppend(Filter(bounds, below), [s]);
    assert Reversed([s]) == [s];
  }

  /** The start rows that a scan at `from` will come to after the region of `from`. */
  ghost function LaterRows(cl: Cluster, q: Query, from: Key): seq<Key> {
    if q.reversed then PreviousRows(VisitedBelow(cl, from, q.stop)) else LaterStarts(cl, from, q.stop)
  }

  lemma NextRow(cl: Cluster, q: Query, from: Key)
    requires ValidCluster(cl)
    ensures
      var next := NextStartRow(q, RegionOf(cl, from));
      LaterRows(cl, q, from) == if IsLast(q, RegionOf(cl, from)) then [] else [next] + LaterRows(cl, q, next)
  {
    hide ValidCluster, LaterStarts, VisitedBelow, PreviousRow, IsLast, RegionOf;
    if !q.reversed {
      NextStart(cl, q, from);
    } else if IsLast(q, RegionOf(cl, from)) {
      NoneVisited(cl, q, from);
    } else {
      NextVisited(cl, q, from);
      var s := RegionOf(cl, from).start;
      var rest := VisitedBelow(cl, PreviousRow(s), q.stop);
      assert ([s] + rest)[1..] == rest;
    }
  }

  predicate NeverEndsEarly(replies: seq<Reply>) {
    forall i :: 0 <= i < |replies| ==> replies[i].Reply? ==> replies[i].moreResults != Some(false)
  }

  /** What a scan opened before, the row it is about to open at, and the later ones that it will come to. */
  ghost function Itinerary(cl: Cluster, q: Query, c: Cursor): seq<Key> {
    OpenRows(c.log) + (if c.id == NO_SCANNER_ID then [c.startRow] else []) + LaterRows(cl, q, c.startRow)
  }

  /** A round keeps to the itinerary. */
  lemma RoundKeepsItinerary(cl: Cluster, q: Query, c: Cursor, left: seq<Result>, rep: Reply)
    requires ValidCluster(cl) && !c.closed && HonestReply(cl, q, c, left, rep)
    ensures var c' := Round(q, c, rep);
      if c'.closed then
        && OpenRows(c'.log) <= Itinerary(cl, q, c)
        && (rep.moreResults != Some(false) ==> OpenRows(c'.log) == Itinerary(cl, q, c))
      else Itinerary(cl, q, c') == Itinerary(cl, q, c)
  {
    hide ServerRows, Remaining, Expected, IsLast, Round, FragsOf, ValidCluster, OpenRows, LaterRows, NextStartRow;
    RoundMoves(cl, q, c, left, rep);
    RoundOpens(q, c, rep);
    NextRow(cl, q, c.startRow);
  }

  /**
   A scan opens the regions that meet its range in order, each at most once, whenever and however it ends; it opens all
   of them if it comes to its end and no server ends it early. A forward scan opens each region at its start key, a
   reverse scan at the padded row before the region it left, and it comes to no region that the padding jumps over.
   */
  lemma {:induction false} RegionsInOrder(cl: Cluster, q: Query, c: Cursor, left: seq<Result>, replies: seq<Reply>)
    requires ValidCluster(cl) && !c.closed && SoFar(cl, q, c, left, replies)
    ensures OpenRows(FutureOf(q, c, replies).log) <= Itinerary(cl, q, c)
    ensures NeverEndsEarly(replies) && After(q, c, replies).closed ==>
      OpenRows(FutureOf(q, c, replies).log) == Itinerary(cl, q, c)
    decreases |replies|
  {
    hide Round, ValidCluster, OpenRows, HonestReply, FutureOf, Itinerary;
    if replies == [] {
      FutureBroken(q, c);
      RoundOpens(q, c, Broken);
      ItineraryBegins(cl, q, c);
    } else {
      var rep := replies[0];
      HonestPrefix(cl, q, c, left, rep);
      FutureStep(q, c, replies);
      RoundKeepsItinerary(cl, q, c, left, rep);
      var c', rest := Round(q, c, rep), Session(cl, q, c, left)[|rep.results|..];
      if !c'.closed {
        assert NeverEndsEarly(replies) ==> NeverEndsEarly(replies[1..]) by {
          assert forall i :: 0 <= i < |replies[1..]| ==> replies[1..][i] == replies[i + 1];
        }
        RegionsInOrder(cl, q, c', rest, replies[1..]);
      }
    }
  }

  lemma FutureBroken(q: Query, c: Cursor)
    requires !c.closed
    ensures FutureOf(q, c, []).log == Round(q, c, Broken).log
  {
  }

  lemma ItineraryBegins(cl: Cluster, q: Query, c: Cursor)
    ensures OpenRows(c.log) + (if c.id == NO_SCANNER_ID then [c.startRow] else []) <= Itinerary(cl, q, c)
  {
  }
}
