/** What successive calls to Next make of the fragments, and which leases they leave behind. */
module ScanRows {
  import opened Bytes
  import opened Scanner

  /** The results of calling Next until it reports the end or an error. */
  function Successive(frags: seq<Result>, error: bool): seq<Result>
    decreases |frags|
  {
    if frags == [] then []
    else
      var g := Grouped(None, frags, error);
      (if g.result.Some? then [g.result.value] else []) +
      (if g.status == Ok then Successive(frags[g.used..], error) else [])
  }

  /** What Next returns of the fragments: one by one for a caller that handles partial results, else in groups. */
  function Returned(q: Query, frags: seq<Result>, error: bool): seq<Result> {
    if q.allowPartial then frags else Successive(frags, error)
  }

  /** A caller that reads a scanner to the end, as the Scanner interface tells it to. */
  method ReadAll(q: Query, replies: seq<Reply>) returns (rs: seq<Result>, status: Status)
    ensures var f := FutureOf(q, Cursor(q.start, NO_SCANNER_ID, false, []), replies);
      && rs == Returned(q, f.frags, f.error)
      && status != Ok && (status == Eof ==> !f.error) && (status == Error ==> f.error)
      && (status == Panic <==> !q.allowPartial && Panics(f.frags))
  {
    hide FutureOf, NextGroup, Returned, Fatally;
    var s := new Scanner(q, replies);
    ghost var frags, error := s.Coming().frags, s.Coming().error;
    ghost var all, fatal := Returned(q, frags, error), Fatally(q, frags);
    assert s.Stream() == frags;
    rs, status := [], Ok;
    while status == Ok
      invariant s.rpc == q
      invariant status == Ok ==> s.Stream() == frags && s.Coming().error == error
      invariant status == Ok ==> rs + Returned(q, frags, error) == all
      invariant status != Ok ==> rs == all
      invariant (status == Eof ==> !error) && (status == Error ==> error)
      invariant if status == Ok then Fatally(q, frags) == fatal else (status == Panic <==> fatal)
      decreases status == Ok, |frags|
    {
      ReturnedStep(q, frags, error);
      var r;
      r, status := s.Next(false);
      frags := s.Stream();
      if r.Some? { rs := rs + [r.value]; }
    }
    FatallyMeans(q, FutureOf(q, Cursor(q.start, NO_SCANNER_ID, false, []), replies).frags);
  }

  ghost predicate Fatally(q: Query, frags: seq<Result>) {
    !q.allowPartial && Panics(frags)
  }

  lemma FatallyMeans(q: Query, frags: seq<Result>)
    ensures Fatally(q, frags) <==> !q.allowPartial && Panics(frags)
  {
  }

  lemma ReturnedStep(q: Query, frags: seq<Result>, error: bool)
    ensures var g := NextGroup(q, frags, error);
      && (g.status == Ok ==> g.used > 0) && (g.status == Eof ==> !error) && (g.status == Error ==> error)
      && Returned(q, frags, error) == (if g.result.Some? then [g.result.value] else []) +
                                      (if g.status == Ok then Returned(q, frags[g.used..], error) else [])
      && match g.status
         case Panic => Fatally(q, frags)
         case Ok => Fatally(q, frags) == Fatally(q, frags[g.used..])
         case _ => !Fatally(q, frags)
  {
    hide Grouped, Successive, Panics;
    if q.allowPartial {
      assert frags != [] ==> [frags[0]] + frags[1..] == frags;
    } else {
      SuccessiveStep(frags, error);
      GroupTracks(None, frags, error);
    }
  }

  /**
   A caller that stops at will: it calls Next any number of times, the context being done at those in
   `expired`, and then Close. Whatever the cluster answered, no region scanner is left open.
   */
  method ReadAndClose(q: Query, replies: seq<Reply>, expired: seq<bool>) returns (log: seq<Event>)
    requires !q.closing && RealIds(replies)
    ensures NoneHeld(HeldAfter(log, q.stop))
  {
    hide LeaseInv, RealIds;
    var s := new Scanner(q, replies);
    NothingHeld(q);
    for i := 0 to |expired|
      invariant s.rpc == q && s.HoldsWhatItThinks()
    {
      var _, _ := s.Next(expired[i]);
    }
    LeasesAreReturned(q, s.Cur(), s.replies);
    s.Close();
    log := s.log;
  }

  lemma NothingHeld(q: Query)
    ensures LeaseInv(Cursor(q.start, NO_SCANNER_ID, false, []), q.stop)
  {
  }

  lemma SuccessiveStep(frags: seq<Result>, error: bool)
    ensures var g := Grouped(None, frags, error);
      && (g.status == Ok ==> g.used > 0) && (g.status == Eof ==> !error) && (g.status == Error ==> error)
      && Successive(frags, error) == (if g.result.Some? then [g.result.value] else []) +
                                     (if g.status == Ok then Successive(frags[g.used..], error) else [])
  {
  }

  function Cells(rs: seq<Result>): seq<Cell> {
    if rs == [] then [] else rs[0].cells + Cells(rs[1..])
  }

  lemma {:induction false} CellsAppend(a: seq<Result>, b: seq<Result>)
    ensures Cells(a + b) == Cells(a) + Cells(b)
  {
    if a == [] {
      assert a + b == b;
    } else {
      assert (a + b)[1..] == a[1..] + b;
      CellsAppend(a[1..], b);
    }
  }

  // ----- When Next runs into an index out of range

  /** Where the loop of Next stands: before a row, within one, or with a row that has no cells to tell its key. */
  datatype Grouping = Before | Within(row: Key) | Nameless | Fatal

  function Begin(f: Result): Grouping {
    if !f.partial then Before else if f.cells == [] then Nameless else Within(f.cells[0].row)
  }

  function Absorb(g: Grouping, f: Result): Grouping {
    match g
    case Before => Begin(f)
    case Within(row) => if f.cells == [] || f.cells[0].row == row then g else Begin(f)
    case Nameless => if f.cells == [] then Nameless else Fatal
    case Fatal => Fatal
  }

  /** A fold over the rows and the partial flags of the fragments. */
  function GroupingAfter(g: Grouping, frags: seq<Result>): Grouping {
    if frags == [] then g else Absorb(GroupingAfter(g, frags[..|frags| - 1]), frags[|frags| - 1])
  }

  /** An empty partial fragment begins a row, and a later fragment has cells. */
  ghost predicate Panics(frags: seq<Result>) {
    exists i: nat, j: nat :: i < j < |frags| && BeginsNameless(frags, i) && frags[j].cells != []
  }

  predicate BeginsNameless(frags: seq<Result>, i: nat)
    requires i < |frags|
  {
    GroupingAfter(Before, frags[..i]).Before? && frags[i].partial && frags[i].cells == []
  }

  lemma {:induction false} GroupingFront(g: Grouping, frags: seq<Result>)
    requires frags != []
    ensures GroupingAfter(g, frags) == GroupingAfter(Absorb(g, frags[0]), frags[1..])
    decreases |frags|
  {
    if |frags| > 1 {
      var n := |frags| - 1;
      GroupingFront(g, frags[..n]);
      assert frags[..n][1..] == frags[1..][..n - 1];
    }
  }

  ghost predicate HasNameless(frags: seq<Result>) {
    exists i: nat :: i < |frags| && BeginsNameless(frags, i)
  }

  lemma SameBeginnings(frags: seq<Result>, i: nat)
    requires i < |frags| - 1
    ensures BeginsNameless(frags[..|frags| - 1], i) <==> BeginsNameless(frags, i)
  {
    assert frags[..|frags| - 1][..i] == frags[..i];
  }

  lemma PanicsStep(frags: seq<Result>)
    requires frags != []
    ensures var rest, f := frags[..|frags| - 1], frags[|frags| - 1];
      && (Panics(frags) <==> Panics(rest) || (HasNameless(rest) && f.cells != []))
      && (HasNameless(frags) <==> HasNameless(rest) || BeginsNameless(frags, |frags| - 1))
  {
    hide BeginsNameless;
    var n := |frags| - 1;
    var rest := frags[..n];
    forall i: nat | i < n ensures BeginsNameless(rest, i) <==> BeginsNameless(frags, i) { SameBeginnings(frags, i); }
    if i: nat, j: nat :| i < j < |frags| && BeginsNameless(frags, i) && frags[j].cells != [] {
      assert BeginsNameless(rest, i);
      assert j < n ==> rest[j] == frags[j];
    }
    if i: nat, j: nat :| i < j < n && BeginsNameless(rest, i) && rest[j].cells != [] {
      assert BeginsNameless(frags, i) && frags[j].cells != [];
    }
    if i: nat :| i < n && BeginsNameless(rest, i) {
      assert BeginsNameless(frags, i);
    }
  }

  /** The fold reaches Fatal exactly then. */
  lemma {:induction false} PanicsIff(frags: seq<Result>)
    ensures Panics(frags) <==> GroupingAfter(Before, frags).Fatal?
    ensures GroupingAfter(Before, frags).Nameless? <==> !Panics(frags) && HasNameless(frags)
    ensures Panics(frags) ==> HasNameless(frags)
    decreases |frags|
  {
    if frags != [] {
      PanicsIff(frags[..|frags| - 1]);
      PanicsStep(frags);
      hide Panics, HasNameless;
    }
  }

  function GroupingOf(acc: Option<Result>): Grouping {
    if acc.None? then Before else if acc.value.cells == [] then Nameless else Within(acc.value.cells[0].row)
  }

  lemma {:induction false} FatalStays(frags: seq<Result>)
    ensures GroupingAfter(Fatal, frags).Fatal?
    decreases |frags|
  {
    if frags != [] { FatalStays(frags[..|frags| - 1]); }
  }

  /** One call to Next follows the fold. */
  lemma {:induction false} GroupFollows(acc: Option<Result>, frags: seq<Result>, error: bool)
    requires acc.Some? ==> acc.value.partial
    ensures var g, fatal := Grouped(acc, frags, error), GroupingAfter(GroupingOf(acc), frags).Fatal?;
      match g.status
      case Panic => fatal
      case Ok => fatal == GroupingAfter(Before, frags[g.used..]).Fatal?
      case _ => !fatal
    decreases |frags|
  {
    hide Grouped;
    assert frags[0..] == frags;
    GroupedTurn(acc, frags, 0, error);
    if frags != [] {
      var f, rest := frags[0], frags[1..];
      var next := if acc.None? then f else Coalesced(acc.value, f);
      GroupingFront(GroupingOf(acc), frags);
      GroupingFront(Before, frags);
      FatalStays(rest);
      if next.partial &&
         (acc.None? || f.cells == [] || (acc.value.cells != [] && acc.value.cells[0].row == f.cells[0].row)) {
        GroupFollows(Some(next), rest, error);
        var n := Grouped(Some(next), rest, error).used;
        assert rest[n..] == frags[n + 1..];
      }
    }
  }

  lemma GroupTracks(acc: Option<Result>, frags: seq<Result>, error: bool)
    requires acc.None?
    ensures var g := Grouped(acc, frags, error);
      match g.status
      case Panic => Panics(frags)
      case Ok => Panics(frags) == Panics(frags[g.used..])
      case _ => !Panics(frags)
  {
    hide Grouped, Panics;
    GroupFollows(acc, frags, error);
    PanicsIff(frags);
    PanicsIff(frags[Grouped(acc, frags, error).used..]);
  }

  // ----- Nothing is lost and nothing is made up

  function CellsIn(r: Option<Result>): seq<Cell> {
    if r.Some? then r.value.cells else []
  }

  /** A call to Next returns what it had and what it took. */
  ghost predicate Conserves(acc: Option<Result>, frags: seq<Result>, g: Group) {
    && g.used <= |frags|
    && (g.status == Eof ==> acc.None? && frags == []) && (g.status == Ok ==> g.result.Some?)
    && (g.status == Error ==> g.used == |frags|)
    && (if g.status == Panic then g.result.None? && Cells(frags) != []
        else CellsIn(g.result) == CellsIn(acc) + Cells(frags[..g.used]))
  }

  lemma ConservesMore(acc: Option<Result>, next: Option<Result>, frags: seq<Result>, g: Group)
    requires frags != [] && next.Some? && Conserves(next, frags[1..], g)
    requires CellsIn(next) == CellsIn(acc) + frags[0].cells
    ensures Conserves(acc, frags, g.(used := g.used + 1))
  {
    if g.status != Panic {
      hide Cells;
      CellsStep(frags, g.used + 1);
    }
  }

  /** Unless it panics, a call to Next returns exactly the cells of the fragments it takes. */
  lemma {:induction false} GroupConserves(acc: Option<Result>, frags: seq<Result>, error: bool)
    requires acc.Some? ==> acc.value.partial
    ensures Conserves(acc, frags, Grouped(acc, frags, error))
    decreases |frags|
  {
    hide Cells, Grouped;
    NoCells();
    assert frags[0..] == frags;
    GroupedTurn(acc, frags, 0, error);
    if frags == [] {
      assert frags[..0] == [];
    } else {
      var f, rest := frags[0], frags[1..];
      var next := Some(if acc.None? then f else Coalesced(acc.value, f));
      assert frags[..0] == [] && rest[..0] == [];
      CellsStep(frags, 1);
      CellsFront(frags);
      if next.value.partial &&
         (acc.None? || f.cells == [] || (acc.value.cells != [] && acc.value.cells[0].row == f.cells[0].row)) {
        GroupConserves(next, rest, error);
        ConservesMore(acc, next, frags, Grouped(next, rest, error));
      }
    }
  }

  lemma CellsFront(frags: seq<Result>)
    requires frags != []
    ensures Cells(frags) == frags[0].cells + Cells(frags[1..])
  {
  }

  lemma CellsStep(frags: seq<Result>, used: nat)
    requires 0 < used <= |frags|
    ensures Cells(frags[..used]) == frags[0].cells + Cells(frags[1..][..used - 1])
  {
    assert frags[..used][1..] == frags[1..][..used - 1];
  }

  /**
   Without AllowPartialResults, the cells that Next returns begin the cells that were fetched, in order; they
   are all of them if and only if there was no index out of range.
   */
  lemma {:induction false} NextConservesCells(frags: seq<Result>, error: bool)
    ensures Cells(Successive(frags, error)) <= Cells(frags)
    ensures Cells(Successive(frags, error)) == Cells(frags) <==> !Panics(frags)
    decreases |frags|
  {
    hide Grouped, Cells, Successive, Panics;
    NoCells();
    GroupTracks(None, frags, error);
    GroupConserves(None, frags, error);
    SuccessiveStep(frags, error);
    var g := Grouped(None, frags, error);
    var first, rest := frags[..g.used], frags[g.used..];
    assert frags == first + rest;
    CellsAppend(first, rest);
    if g.status == Ok {
      var later := Successive(rest, error);
      NextConservesCells(rest, error);
      SuccessiveCells(g.result.value, later);
      assert Cells(Successive(frags, error)) == Cells(first) + Cells(later);
    } else if g.status != Panic {
      assert rest == [];
      if g.result.Some? {
        SuccessiveCells(g.result.value, []);
        assert Successive(frags, error) == [g.result.value] + [];
      } else {
        assert Successive(frags, error) == [];
      }
    }
  }

  /** It happens: a partial fragment without cells, and then the cells. */
  lemma EmptyPartialLosesCells()
    ensures var frags := [Result([], true, false), Result([Cell([1], [])], false, false)];
      && Panics(frags) && Grouped(None, frags, false).status == Panic
      && Successive(frags, false) == [] && |Cells(frags)| == 1
  {
    var frags := [Result([], true, false), Result([Cell([1], [])], false, false)];
    assert BeginsNameless(frags, 0) && frags[1].cells != [];
    assert frags[1..] == [frags[1]] && frags[1..][1..] == [];
  }

  /** It does not if every partial fragment has cells, which is sufficient and not necessary. */
  lemma NonemptyPartialsAreSafe(frags: seq<Result>)
    requires forall i :: 0 <= i < |frags| ==> frags[i].partial ==> frags[i].cells != []
    ensures !Panics(frags)
  {
  }

  lemma NoCells()
    ensures Cells([]) == []
  {
  }

  lemma SuccessiveCells(r: Result, rs: seq<Result>)
    ensures Cells([r] + rs) == r.cells + Cells(rs)
  {
    assert ([r] + rs)[1..] == rs;
  }

  // ----- Rows come back whole

  /** A row of a table, cut into the fragments a region server will send. */
  datatype RowData = RowData(key: Key, frags: seq<Result>)

  predicate WellCut(r: RowData) {
    && r.frags != []
    && (forall i :: 0 <= i < |r.frags| ==> r.frags[i].cells != [] && r.frags[i].cells[0].row == r.key)
    && (forall i :: 0 <= i < |r.frags| ==> r.frags[i].partial == (i < |r.frags| - 1))
  }

  function Joined(acc: Result, frags: seq<Result>): Result
    decreases |frags|
  {
    if frags == [] then acc.(partial := false) else Joined(Coalesced(acc, frags[0]), frags[1..])
  }

  /** The row as one result: all its cells, not partial, stale if any fragment was. */
  function Whole(r: RowData): Result
    requires r.frags != []
  {
    Joined(r.frags[0], r.frags[1..])
  }

  lemma {:induction false} JoinedIs(acc: Result, frags: seq<Result>)
    ensures Joined(acc, frags) ==
      Result(acc.cells + Cells(frags), false, acc.stale || exists i :: 0 <= i < |frags| && frags[i].stale)
    decreases |frags|
  {
    if frags != [] {
      JoinedIs(Coalesced(acc, frags[0]), frags[1..]);
      assert forall i :: 1 <= i < |frags| ==> frags[i] == frags[1..][i - 1];
    }
  }

  lemma WholeIs(r: RowData)
    requires r.frags != []
    ensures Whole(r).cells == Cells(r.frags) && !Whole(r).partial
    ensures Whole(r).stale <==> exists i :: 0 <= i < |r.frags| && r.frags[i].stale
  {
    JoinedIs(r.frags[0], r.frags[1..]);
    assert forall i :: 1 <= i < |r.frags| ==> r.frags[i] == r.frags[1..][i - 1];
  }

  function FragsOf(rows: seq<RowData>): seq<Result> {
    if rows == [] then [] else rows[0].frags + FragsOf(rows[1..])
  }

  function Wholes(rows: seq<RowData>): seq<Result>
    requires forall i :: 0 <= i < |rows| ==> WellCut(rows[i])
  {
    if rows == [] then [] else assert WellCut(rows[0]); [Whole(rows[0])] + Wholes(rows[1..])
  }

  /** Neighbouring rows have different keys. */
  predicate KeysChange(rows: seq<RowData>) {
    forall i :: 0 < i < |rows| ==> rows[i - 1].key != rows[i].key
  }

  /** The rest of a row is taken up to the first fragment of another row. */
  lemma {:induction false} GroupTail(key: Key, acc: Result, frags: seq<Result>, rest: seq<Result>)
    requires acc.partial && acc.cells != [] && acc.cells[0].row == key
    requires forall i :: 0 <= i < |frags| ==> frags[i].cells != [] && frags[i].cells[0].row == key
    requires rest != [] ==> rest[0].cells != [] && rest[0].cells[0].row != key
    ensures Grouped(Some(acc), frags + rest, false) == Group(Some(Joined(acc, frags)), |frags|, Ok)
    decreases |frags|
  {
    var all := frags + rest;
    if frags == [] {
      assert all == rest;
    } else {
      assert all[0] == frags[0] && all[1..] == frags[1..] + rest;
      GroupTail(key, Coalesced(acc, frags[0]), frags[1..], rest);
    }
  }

  lemma GroupRow(r: RowData, rest: seq<Result>)
    requires WellCut(r) && (rest != [] ==> rest[0].cells != [] && rest[0].cells[0].row != r.key)
    ensures Grouped(None, r.frags + rest, false) == Group(Some(Whole(r)), |r.frags|, Ok)
  {
    var all := r.frags + rest;
    assert all[0] == r.frags[0] && all[1..] == r.frags[1..] + rest;
    if |r.frags| == 1 {
      assert r.frags[1..] == [];
    } else {
      GroupTail(r.key, r.frags[0], r.frags[1..], rest);
    }
  }

  /** Each row comes back exactly once and whole, in order, wherever the fetches were cut. */
  lemma {:induction false} RowsComeBackWhole(rows: seq<RowData>)
    requires KeysChange(rows) && forall i :: 0 <= i < |rows| ==> WellCut(rows[i])
    ensures Successive(FragsOf(rows), false) == Wholes(rows)
  {
    if rows != [] {
      var r, rest := rows[0], FragsOf(rows[1..]);
      if |rows| > 1 {
        assert rest[0] == rows[1].frags[0];
      }
      GroupRow(r, rest);
      assert (r.frags + rest)[|r.frags|..] == rest;
      assert forall i :: 0 <= i < |rows[1..]| ==> rows[1..][i] == rows[i + 1];
      RowsComeBackWhole(rows[1..]);
    }
  }
}
