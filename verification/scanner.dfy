/**
 The scanner (scanner.go): it walks the regions of a table, holds a lease on one region scanner at a
 time, and puts rows together from the fragments the region servers send. The cluster is the sequence
 of replies it will give; running out of replies is a request that fails.
 */
module Scanner {
  import opened Bytes

  const NO_SCANNER_ID: nat := 0xFFFF_FFFF_FFFF_FFFF

  /** rowPadding */
  const ROW_PADDING: Key := [255, 255, 255, 255, 255, 255, 255, 255]

  datatype Cell = Cell(row: Key, data: Key)

  datatype Result = Result(cells: seq<Cell>, partial: bool, stale: bool)

  datatype Range = Range(start: Key, stop: Key)

  /** A ScanResponse with the region it came from, or a request that failed. */
  datatype Reply =
    | Reply(results: seq<Result>, scannerId: Option<nat>, moreInRegion: bool, moreResults: Option<bool>, region: Range)
    | Broken

  /** The scan as the caller asked for it. */
  datatype Query = Query(start: Key, stop: Key, reversed: bool, allowPartial: bool, closing: bool)

  /** What the scanner does to the cluster, in order. */
  datatype Event =
    | OpenRequest(row: Key, stop: Key)
    | ContinueRequest(row: Key, id: nat)
    | Lease(id: nat, row: Key)
    | CloseRequest(id: nat, row: Key)

  /** The fields that fetch works with, and the events so far. */
  datatype Cursor = Cursor(startRow: Key, id: nat, closed: bool, log: seq<Event>)

  // ----- fetch, as a function of the replies

  function CloseRegion(q: Query, c: Cursor): Cursor {
    if c.id == NO_SCANNER_ID then c
    else c.(id := NO_SCANNER_ID, log := if q.closing then c.log else c.log + [CloseRequest(c.id, c.startRow)])
  }

  function CloseCursor(q: Query, c: Cursor): Cursor {
    if c.closed then c else CloseRegion(q, c.(closed := true))
  }

  function RequestOf(q: Query, c: Cursor): Event {
    if c.id == NO_SCANNER_ID then OpenRequest(c.startRow, q.stop) else ContinueRequest(c.startRow, c.id)
  }

  function Requested(q: Query, c: Cursor): Cursor {
    c.(log := c.log + [RequestOf(q, c)])
  }

  /** The start row of a reverse scan after the region that starts at `s`. */
  function PreviousRow(s: Key): Key {
    if s == [] then []
    else if s[|s| - 1] == 0 then s[..|s| - 1]
    else s[..|s| - 1] + [s[|s| - 1] - 1] + ROW_PADDING
  }

  function NextStartRow(q: Query, region: Range): Key {
    if !q.reversed then region.stop else PreviousRow(region.start)
  }

  function Opened(c: Cursor, resp: Reply): Cursor
    requires resp.Reply?
  {
    if c.id == NO_SCANNER_ID && resp.scannerId.Some?
    then c.(id := resp.scannerId.value, log := c.log + [Lease(resp.scannerId.value, c.startRow)])
    else c
  }

  function Updated(q: Query, c: Cursor, resp: Reply): Cursor
    requires resp.Reply?
  {
    var o := Opened(c, resp);
    if resp.moreInRegion then o else CloseRegion(q, o).(startRow := NextStartRow(q, resp.region))
  }

  predicate IsLast(q: Query, region: Range) {
    if q.reversed then region.start == [] || (q.stop != [] && AtMost(region.start, q.stop))
    else region.stop == [] || (q.stop != [] && AtMost(q.stop, region.stop))
  }

  predicate Done(q: Query, c: Cursor, resp: Reply)
    requires resp.Reply?
  {
    resp.moreResults == Some(false) || (c.id == NO_SCANNER_ID && IsLast(q, resp.region))
  }

  /** One round of fetch: request, update, and close when done. */
  function Round(q: Query, c: Cursor, resp: Reply): Cursor {
    var r := Requested(q, c);
    if resp.Broken? then CloseCursor(q, r)
    else
      var u := Updated(q, r, resp);
      if Done(q, u, resp) then CloseCursor(q, u) else u
  }

  /** Everything that fetching until the scanner closes will bring. */
  datatype Future = Future(frags: seq<Result>, error: bool, log: seq<Event>)

  function FutureOf(q: Query, c: Cursor, replies: seq<Reply>): Future
    decreases |replies|
  {
    if c.closed then Future([], false, c.log)
    else if replies == [] || replies[0].Broken? then Future([], true, Round(q, c, Broken).log)
    else
      var rest := FutureOf(q, Round(q, c, replies[0]), replies[1..]);
      rest.(frags := replies[0].results + rest.frags)
  }

  // ----- Next, as a function of the fragments to come

  datatype Status = Ok | Eof | Error | Panic

  /** What one call to Next returns, and how many fragments it takes. */
  datatype Group = Group(result: Option<Result>, used: nat, status: Status)

  function Coalesced(r: Result, f: Result): Result {
    r.(cells := r.cells + f.cells, stale := r.stale || f.stale)
  }

  /** The loop of Next, with `acc` put together so far; `error` is how the fragments end. */
  function Grouped(acc: Option<Result>, frags: seq<Result>, error: bool): (g: Group)
    requires acc.Some? ==> acc.value.partial
    ensures g.used <= |frags|
    ensures acc.None? && frags != [] ==> g.used > 0
    ensures (g.status == Error ==> error) && (g.status == Eof ==> !error)
    decreases |frags|
  {
    if frags == [] then
      if error then Group(acc, 0, Error)
      else if acc.Some? then Group(Some(acc.value.(partial := false)), 0, Ok)
      else Group(None, 0, Eof)
    else
      var f := frags[0];
      if acc.None? then
        if !f.partial then Group(Some(f), 1, Ok)
        else var g := Grouped(Some(f), frags[1..], error); g.(used := g.used + 1)
      else if f.cells != [] && acc.value.cells == [] then Group(None, 0, Panic)
      else if f.cells != [] && acc.value.cells[0].row != f.cells[0].row then
        Group(Some(acc.value.(partial := false)), 0, Ok)
      else
        var g := Grouped(Some(Coalesced(acc.value, f)), frags[1..], error); g.(used := g.used + 1)
  }

  /** One turn of the loop, for the part of `all` from `used` on. */
  lemma GroupedTurn(acc: Option<Result>, all: seq<Result>, used: nat, error: bool)
    requires used <= |all| && (acc.Some? ==> acc.value.partial)
    ensures used == |all| ==> (
      Grouped(acc, all[used..], error) ==
        if error then Group(acc, 0, Error)
        else if acc.Some? then Group(Some(acc.value.(partial := false)), 0, Ok)
        else Group(None, 0, Eof))
    ensures used < |all| ==>
      var f := all[used];
      var joins := acc.None? || f.cells == [] || (acc.value.cells != [] && acc.value.cells[0].row == f.cells[0].row);
      var next := if acc.None? then f else Coalesced(acc.value, f);
      if !joins then
        Grouped(acc, all[used..], error) ==
          if acc.value.cells == [] then Group(None, 0, Panic) else Group(Some(acc.value.(partial := false)), 0, Ok)
      else if !next.partial then Grouped(acc, all[used..], error) == Group(Some(next), 1, Ok)
      else
        var g := Grouped(Some(next), all[used + 1..], error);
        Grouped(acc, all[used..], error) == g.(used := g.used + 1)
  {
    if used < |all| {
      assert all[used..][0] == all[used] && all[used..][1..] == all[used + 1..];
    }
  }

  /** A call to Next on the fragments to come. */
  function NextGroup(q: Query, frags: seq<Result>, error: bool): (g: Group)
    ensures g.used <= |frags|
  {
    if !q.allowPartial then Grouped(None, frags, error)
    else if frags == [] then Group(None, 0, if error then Error else Eof)
    else Group(Some(frags[0]), 1, Ok)
  }

  // ----- Leases

  /** What the cluster knows of the scan after some events: a region was asked to open a scanner, or has one open. */
  datatype Held = Free | Asked(row: Key) | Leased(id: nat, row: Key) | Mismatched

  /**
   The events of a scan up to `stop` in turn. Mismatched means: a request to open while a scanner was open or with
   another stop row, a scanner that was not asked for, or a continuation or a close that does not match the one open.
   */
  function HeldAfter(log: seq<Event>, stop: Key): Held {
    if log == [] then Free else Tracked(HeldAfter(log[..|log| - 1], stop), log[|log| - 1], stop)
  }

  function Tracked(h: Held, e: Event, stop: Key): Held {
    match e
    case OpenRequest(row, until) => if NoneHeld(h) && until == stop then Asked(row) else Mismatched
    case ContinueRequest(row, id) => if h == Leased(id, row) then h else Mismatched
    case Lease(id, row) => if h == Asked(row) then Leased(id, row) else Mismatched
    case CloseRequest(id, row) => if h == Leased(id, row) then Free else Mismatched
  }

  predicate NoneHeld(h: Held) {
    h.Free? || h.Asked?
  }

  lemma HeldStep(log: seq<Event>, e: Event, stop: Key)
    ensures HeldAfter(log + [e], stop) == Tracked(HeldAfter(log, stop), e, stop)
  {
    assert (log + [e])[..|log|] == log;
  }

  lemma {:induction false} MismatchStays(log: seq<Event>, i: nat, stop: Key)
    requires i <= |log| && HeldAfter(log[..i], stop).Mismatched?
    ensures HeldAfter(log, stop).Mismatched?
    decreases |log|
  {
    if i == |log| {
      assert log[..i] == log;
    } else {
      assert log[..|log| - 1][..i] == log[..i];
      MismatchStays(log[..|log| - 1], i, stop);
    }
  }

  /**
   In a log without mismatch, every continuation and every close is sent to the scanner that is open, with the row it
   was opened with; a region is asked only while none is open, and for the rows up to the stop row.
   */
  lemma RequestsMatch(log: seq<Event>, stop: Key, i: nat)
    requires i < |log| && !HeldAfter(log, stop).Mismatched?
    ensures var h := HeldAfter(log[..i], stop);
      match log[i]
      case OpenRequest(row, until) => NoneHeld(h) && until == stop
      case ContinueRequest(row, id) => h == Leased(id, row)
      case Lease(id, row) => h == Asked(row)
      case CloseRequest(id, row) => h == Leased(id, row)
  {
    assert log[..i + 1][..i] == log[..i];
    if HeldAfter(log[..i + 1], stop).Mismatched? {
      MismatchStays(log, i + 1, stop);
    }
  }

  /** What the scanner believes to hold is what it holds. */
  ghost predicate HoldsRight(c: Cursor, stop: Key) {
    var h := HeldAfter(c.log, stop);
    if c.id == NO_SCANNER_ID then NoneHeld(h) else h == Leased(c.id, c.startRow)
  }

  ghost predicate LeaseInv(c: Cursor, stop: Key) {
    HoldsRight(c, stop) && (c.closed ==> c.id == NO_SCANNER_ID)
  }

  predicate RealIds(replies: seq<Reply>) {
    forall i :: 0 <= i < |replies| ==> replies[i].Reply? ==> replies[i].scannerId != Some(NO_SCANNER_ID)
  }

  lemma CloseRegionKeepsLease(q: Query, c: Cursor)
    requires !q.closing && HoldsRight(c, q.stop)
    ensures NoneHeld(HeldAfter(CloseRegion(q, c).log, q.stop)) && CloseRegion(q, c).id == NO_SCANNER_ID
  {
    HeldStep(c.log, CloseRequest(c.id, c.startRow), q.stop);
  }

  lemma RoundKeepsLease(q: Query, c: Cursor, resp: Reply)
    requires !q.closing && LeaseInv(c, q.stop) && !c.closed
    requires resp.Reply? ==> resp.scannerId != Some(NO_SCANNER_ID)
    ensures LeaseInv(Round(q, c, resp), q.stop)
    ensures resp.Broken? ==> Round(q, c, resp).closed
  {
    var r := Requested(q, c);
    HeldStep(c.log, RequestOf(q, c), q.stop);
    hide HeldAfter;
    if resp.Broken? {
      CloseRegionKeepsLease(q, r.(closed := true));
    } else {
      var o := Opened(r, resp);
      if resp.scannerId.Some? { HeldStep(r.log, Lease(resp.scannerId.value, r.startRow), q.stop); }
      assert LeaseInv(o, q.stop);
      CloseRegionKeepsLease(q, o);
      var u := Updated(q, r, resp);
      assert LeaseInv(u, q.stop);
      CloseRegionKeepsLease(q, u.(closed := true));
    }
  }

  /**
   However the cluster answers, a scan that does not close early takes one lease at a time, continues it and closes
   it with the start row it was opened with; after the end, an error or Close none is left.
   */
  lemma {:induction false} LeasesAreReturned(q: Query, c: Cursor, replies: seq<Reply>)
    requires !q.closing && LeaseInv(c, q.stop) && RealIds(replies)
    ensures NoneHeld(HeldAfter(FutureOf(q, c, replies).log, q.stop))
    ensures NoneHeld(HeldAfter(CloseCursor(q, c).log, q.stop))
    decreases |replies|
  {
    CloseRegionKeepsLease(q, c.(closed := true));
    if !c.closed {
      if replies == [] || replies[0].Broken? {
        RoundKeepsLease(q, c, Broken);
      } else {
        RoundKeepsLease(q, c, replies[0]);
        assert forall i :: 0 <= i < |replies[1..]| ==> replies[1..][i] == replies[i + 1];
        LeasesAreReturned(q, Round(q, c, replies[0]), replies[1..]);
      }
    }
  }

  predicate NoCloses(log: seq<Event>) {
    forall i :: 0 <= i < |log| ==> !log[i].CloseRequest?
  }

  /** A scan that asked the region servers to close for it sends no close request of its own. */
  lemma {:induction false} ClosingScanSendsNoClose(q: Query, c: Cursor, replies: seq<Reply>)
    requires q.closing && NoCloses(c.log)
    ensures NoCloses(FutureOf(q, c, replies).log) && NoCloses(CloseCursor(q, c).log)
    decreases |replies|
  {
    if !c.closed && replies != [] && replies[0].Reply? {
      ClosingScanSendsNoClose(q, Round(q, c, replies[0]), replies[1..]);
    }
  }

  class Scanner {
    const rpc: Query
    var startRow: Key
    var curRegionScannerID: nat
    var results: seq<Result>
    var closed: bool
    var replies: seq<Reply>
    var log: seq<Event>

    function Cur(): Cursor
      reads this
    {
      Cursor(startRow, curRegionScannerID, closed, log)
    }

    function Coming(): Future
      reads this
    {
      FutureOf(rpc, Cur(), replies)
    }

    /** All fragments that Next will still see. */
    function Stream(): seq<Result>
      reads this
    {
      results + Coming().frags
    }

    /** The scanner holds the lease it believes to hold, and no id to come is the reserved one. */
    ghost predicate HoldsWhatItThinks()
      reads this
    {
      LeaseInv(Cur(), rpc.stop) && RealIds(replies)
    }

    constructor (rpc: Query, replies: seq<Reply>)
      ensures this.rpc == rpc && this.replies == replies
      ensures Cur() == Cursor(rpc.start, NO_SCANNER_ID, false, []) && results == []
    {
      this.rpc, this.replies := rpc, replies;
      startRow, curRegionScannerID, closed := rpc.start, NO_SCANNER_ID, false;
      results, log := [], [];
    }

    method CloseRegionScanner()
      modifies this`curRegionScannerID, this`log
      ensures Cur() == CloseRegion(rpc, old(Cur()))
    {
      if curRegionScannerID == NO_SCANNER_ID { return; }
      if !rpc.closing {
        log := log + [CloseRequest(curRegionScannerID, startRow)];
      }
      curRegionScannerID := NO_SCANNER_ID;
    }

    method Close()
      modifies this`closed, this`curRegionScannerID, this`log
      ensures Cur() == CloseCursor(rpc, old(Cur()))
    {
      if closed { return; }
      closed := true;
      CloseRegionScanner();
    }

    method Request() returns (resp: Reply)
      modifies this`replies, this`log
      ensures Cur() == Requested(rpc, old(Cur()))
      ensures old(replies) == [] ==> resp == Broken && replies == []
      ensures old(replies) != [] ==> resp == old(replies)[0] && replies == old(replies)[1..]
    {
      if curRegionScannerID == NO_SCANNER_ID {
        log := log + [OpenRequest(startRow, rpc.stop)];
      } else {
        log := log + [ContinueRequest(startRow, curRegionScannerID)];
      }
      if replies == [] { return Broken; }
      resp := replies[0];
      replies := replies[1..];
    }

    method Update(resp: Reply)
      requires resp.Reply?
      modifies this`startRow, this`curRegionScannerID, this`log
      ensures Cur() == Updated(rpc, old(Cur()), resp)
    {
      if curRegionScannerID == NO_SCANNER_ID && resp.scannerId.Some? {
        curRegionScannerID := resp.scannerId.value;
        log := log + [Lease(resp.scannerId.value, startRow)];
      }
      if !resp.moreInRegion {
        CloseRegionScanner();
        if !rpc.reversed {
          startRow := resp.region.stop;
          return;
        }
        if |resp.region.start| == 0 {
          startRow := resp.region.start;
          return;
        }
        var rsk := resp.region.start;
        if rsk[|rsk| - 1] == 0 {
          startRow := rsk[..|rsk| - 1];
          return;
        }
        var tmp := rsk[|rsk| - 1 := rsk[|rsk| - 1] - 1];
        assert tmp == rsk[..|rsk| - 1] + [rsk[|rsk| - 1] - 1];
        startRow := tmp + ROW_PADDING;
      }
    }

    method IsDone(resp: Reply) returns (b: bool)
      requires resp.Reply?
      ensures b == Done(rpc, Cur(), resp)
    {
      if resp.moreResults == Some(false) { return true; }
      if curRegionScannerID != NO_SCANNER_ID { return false; }
      if resp.region.stop == [] && !rpc.reversed { return true; }
      if rpc.reversed && resp.region.start == [] { return true; }
      if !rpc.reversed {
        return rpc.stop != [] && AtMost(rpc.stop, resp.region.stop);
      }
      return rpc.stop != [] && AtMost(resp.region.start, rpc.stop);
    }

    /** Fetches until there is something to return: the next fragments, an error, or the end. */
    method Fetch() returns (rs: seq<Result>, status: Status)
      requires !closed
      modifies this`startRow, this`curRegionScannerID, this`closed, this`replies, this`log
      ensures status == Ok <==> rs != []
      ensures status == Ok ==> old(Coming()) == Coming().(frags := rs + Coming().frags)
      ensures status == Eof ==> closed && old(Coming()) == Coming()
      ensures status == Error ==> closed && old(Coming()) == Coming().(error := true)
      ensures status != Panic
      ensures !rpc.closing && old(HoldsWhatItThinks()) ==> HoldsWhatItThinks()
    {
      hide LeaseInv;
      while true
        invariant !closed && old(Coming()) == Coming()
        invariant !rpc.closing && old(HoldsWhatItThinks()) ==> HoldsWhatItThinks()
        decreases |replies|
      {
        if !rpc.closing && HoldsWhatItThinks() {
          RoundKeepsLease(rpc, Cur(), if replies == [] then Broken else replies[0]);
        }
        var resp := Request();
        if resp.Broken? {
          Close();
          return [], Error;
        }
        Update(resp);
        var done := IsDone(resp);
        if done { Close(); }
        if resp.results != [] {
          return resp.results, Ok;
        } else if closed {
          return [], Eof;
        }
      }
    }

    method Peek() returns (r: Option<Result>, status: Status)
      modifies this
      ensures status == Ok ==> results != [] && r == Some(results[0]) && Stream() == old(Stream())
      ensures status != Ok ==> r.None? && results == [] && closed && Stream() == old(Stream()) == []
      ensures status == Eof ==> !old(Coming().error)
      ensures status == Error ==> old(Coming().error)
      ensures status != Error ==> Coming().error == old(Coming().error)
      ensures Coming().log == old(Coming().log) && status != Panic
      ensures !rpc.closing && old(HoldsWhatItThinks()) ==> HoldsWhatItThinks()
    {
      if results == [] {
        if closed { return None, Eof; }
        var rs, st := Fetch();
        if st != Ok { return None, st; }
        results := rs;
      }
      return Some(results[0]), Ok;
    }

    method Shift()
      modifies this`results
      ensures results == if old(results) == [] then [] else old(results)[1..]
    {
      if |results| == 0 { return; }
      results := results[1..];
    }

    /** Adds a fragment to the row under construction; None is an index out of range. */
    method Coalesce(result: Option<Result>, partial: Result) returns (r: Option<Result>, done: bool)
      ensures result.None? ==> r == Some(partial) && done
      ensures result.Some? && !result.value.partial ==> r == result && !done
      ensures result.Some? && result.value.partial ==>
        if partial.cells == [] then r == Some(Coalesced(result.value, partial)) && done
        else if result.value.cells == [] then r.None?
        else if result.value.cells[0].row != partial.cells[0].row then
          r == Some(result.value.(partial := false)) && !done
        else r == Some(Coalesced(result.value, partial)) && done
    {
      if result.None? { return Some(partial), true; }
      if !result.value.partial { return result, false; }
      if |partial.cells| > 0 {
        if |result.value.cells| == 0 { return None, false; }
        if result.value.cells[0].row != partial.cells[0].row {
          return Some(result.value.(partial := false)), false;
        }
      }
      var cells := result.value.cells + partial.cells;
      r := Some(result.value.(cells := cells));
      if partial.stale {
        r := Some(r.value.(stale := partial.stale));
      }
      return r, true;
    }

    /** One turn of the loop of Next: it takes one fragment and goes on, or it ends the loop. */
    method Turn(result: Option<Result>) returns (r: Option<Result>, status: Status, again: bool)
      requires result.Some? ==> result.value.partial
      modifies this
      ensures var all, g := old(Stream()), Grouped(result, old(Stream()), old(Coming().error));
        if again then
          && all != [] && Stream() == all[1..] && r.Some? && r.value.partial
          && var h := Grouped(r, all[1..], old(Coming().error)); g == h.(used := h.used + 1)
        else r == g.result && status == g.status && Stream() == all[g.used..]
      ensures again || status != Error ==> Coming().error == old(Coming().error)
      ensures Coming().log == old(Coming().log)
      ensures !rpc.closing && old(HoldsWhatItThinks()) ==> HoldsWhatItThinks()
    {
      hide FutureOf, Grouped, LeaseInv, RealIds, Coalesced;
      ghost var all := Stream();
      assert all[0..] == all;
      GroupedTurn(result, all, 0, Coming().error);
      r, status, again := result, Ok, false;
      var partial, st := Peek();
      if st == Eof && result.Some? {
        return Some(result.value.(partial := false)), Ok, false;
      }
      if st != Ok { return result, st, false; }
      var next, done := Coalesce(result, partial.value);
      if next.None? { return None, Panic, false; }
      r := next;
      if done {
        Shift();
      }
      again := r.value.partial;
    }

    /** The loop of Next, for a caller that does not handle partial rows. */
    method NextWhole() returns (r: Option<Result>, status: Status)
      modifies this
      ensures var g := Grouped(None, old(Stream()), old(Coming().error));
        r == g.result && status == g.status && Stream() == old(Stream())[g.used..]
      ensures status != Error ==> Coming().error == old(Coming().error)
      ensures Coming().log == old(Coming().log)
      ensures !rpc.closing && old(HoldsWhatItThinks()) ==> HoldsWhatItThinks()
    {
      hide FutureOf, Grouped, LeaseInv, RealIds, HoldsWhatItThinks, Stream, Coming;
      ghost var all, err, used := Stream(), Coming().error, 0;
      r, status := None, Ok;
      var again := true;
      assert all[0..] == all;
      while again
        invariant used <= |all| && (again ==> Stream() == all[used..] && Coming().error == err)
        invariant Coming().log == old(Coming().log)
        invariant !rpc.closing && old(HoldsWhatItThinks()) ==> HoldsWhatItThinks()
        invariant again && r.Some? ==> r.value.partial
        invariant var g := Grouped(None, all, err);
          if again then (var h := Grouped(r, all[used..], err); g == h.(used := h.used + used))
          else r == g.result && status == g.status && Stream() == all[g.used..]
        invariant !again && status != Error ==> Coming().error == err
        decreases again, |all| - used
      {
        ghost var rest := all[used..];
        r, status, again := Turn(r);
        if again {
          assert rest[1..] == all[used + 1..];
          used := used + 1;
        }
      }
    }

    /** `expired` is whether the context of the scan is done; the scanner is then closed. */
    method Next(expired: bool) returns (r: Option<Result>, status: Status)
      modifies this
      ensures expired ==> status == Error && r.None? && Cur() == CloseCursor(rpc, old(Cur())) && results == old(results)
      ensures !expired ==>
        var g := NextGroup(rpc, old(Stream()), old(Coming().error));
        r == g.result && status == g.status && Stream() == old(Stream())[g.used..]
      ensures !expired && status != Error ==> Coming().error == old(Coming().error)
      ensures !expired ==> Coming().log == old(Coming().log)
      ensures !rpc.closing && old(HoldsWhatItThinks()) ==> HoldsWhatItThinks()
    {
      if expired {
        if !rpc.closing && HoldsWhatItThinks() { CloseRegionKeepsLease(rpc, Cur().(closed := true)); }
        Close();
        return None, Error;
      }
      if rpc.allowPartial {
        var p, st := Peek();
        if st != Ok { return None, st; }
        Shift();
        return p, Ok;
      }
      r, status := NextWhole();
    }
  }
}
