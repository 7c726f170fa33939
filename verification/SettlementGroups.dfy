/** Finalising positions: a position closes when every settlement row of its group is confirmed. */
module SettlementGroups {
  import opened Prelude
  import opened SettlementJobs
  import opened SettlementStore

  datatype Position = Position(
    realizedPnlUsd: Option<real>, closedAt: Option<int>, depositedUsd: real, claimedUsd: real, openedAt: int)

  /** Net profit from the position, the measured output and the execution cost. */
  type PnlModel = (Position, real, real) -> real

  function Group(processed: seq<Row>, positionId: string): (g: seq<Row>)
    ensures forall j :: j in g <==> j in processed && j.positionId == positionId
  {
    if processed == [] then []
    else
      var n := |processed| - 1;
      var g := Group(processed[..n], positionId);
      if processed[n].positionId == positionId then g + [processed[n]] else g
  }

  function SumOutput(g: seq<Row>): real {
    if g == [] then 0.0 else SumOutput(g[..|g| - 1]) + GetOr(g[|g| - 1].outputUsd, 0.0)
  }

  function SumCost(g: seq<Row>): real {
    if g == [] then 0.0 else SumCost(g[..|g| - 1]) + GetOr(g[|g| - 1].executionCostUsd, 0.0)
  }

  predicate Settled(row: Row) {
    row.status.Confirmed? && row.outputUsd.Some? && row.executionCostUsd.Some?
  }

  /** Some row is not yet finalised, and every row of the group is confirmed with its figures. */
  predicate Due(processed: seq<Row>, positionId: string) {
    var g := Group(processed, positionId);
    (exists j :: j in g && j.finalizedAt.None?) && (forall j :: j in g ==> Settled(j))
  }

  /** The profit a finalisation books: a figure that is already set is authoritative. */
  function BookedPnl(p: Position, g: seq<Row>, model: PnlModel): real {
    GetOr(p.realizedPnlUsd, model(p, SumOutput(g), SumCost(g)))
  }

  datatype Book = Book(rows: Rows, positions: map<string, Position>)

  /** One database transaction closes the position and stamps the listed rows. */
  function CloseGroup(b: Book, positionId: string, ids: set<string>, pnl: real, now: int): Book
    requires positionId in b.positions
  {
    Book(map id | id in b.rows ::
           if id in ids then b.rows[id].(finalizedAt := Some(now), realizedPnlUsd := Some(pnl)) else b.rows[id],
         b.positions[positionId := b.positions[positionId].(realizedPnlUsd := Some(pnl), closedAt := Some(now))])
  }

  function IdsIn(g: seq<Row>): (ids: set<string>)
    ensures forall id :: id in ids <==> exists j :: j in g && j.id == id
  {
    set j | j in g :: j.id
  }

  /** What finalising does for one position; `usable` are those whose reads and writes succeed. */
  function FinalizeOne(
      b: Book, processed: seq<Row>, positionId: string, usable: set<string>, model: PnlModel, now: int): (t: Book)
    ensures t.positions.Keys == b.positions.Keys && t.rows.Keys == b.rows.Keys
  {
    if Due(processed, positionId) && positionId in usable && positionId in b.positions then
      var g := Group(processed, positionId);
      CloseGroup(b, positionId, IdsIn(g), BookedPnl(b.positions[positionId], g, model), now)
    else b
  }

  function FinalizeFirst(
      b: Book, processed: seq<Row>, order: seq<string>, usable: set<string>, model: PnlModel, now: int): (t: Book)
    ensures t.positions.Keys == b.positions.Keys && t.rows.Keys == b.rows.Keys
  {
    if order == [] then b
    else
      var n := |order| - 1;
      FinalizeOne(FinalizeFirst(b, processed, order[..n], usable, model, now), processed, order[n], usable, model, now)
  }

  /** The positions of the processed rows, first seen first. */
  function GroupOrder(processed: seq<Row>): (order: seq<string>)
    ensures forall p :: p in order <==> exists j :: j in processed && j.positionId == p
    ensures forall i, k :: 0 <= i < k < |order| ==> order[i] != order[k]
  {
    if processed == [] then []
    else
      var n := |processed| - 1;
      var order := GroupOrder(processed[..n]);
      var p := processed[n].positionId;
      assert processed[n] in processed;
      if p in order then order else order + [p]
  }

  class PositionBook {
    var book: Book

    constructor (b: Book)
      ensures book == b
    {
      book := b;
    }

    /** One group: closed when some row of it is open and every row is confirmed and complete. */
    method FinalizeGroup(processed: seq<Row>, positionId: string, usable: set<string>, model: PnlModel, now: int)
      modifies this
      ensures book == FinalizeOne(old(book), processed, positionId, usable, model, now)
    {
      var jobs := Group(processed, positionId);
      var unfinalized := exists j :: j in jobs && j.finalizedAt.None?;
      if !unfinalized { return; }
      if exists j :: j in jobs && !j.status.Confirmed? { return; }
      if exists j :: j in jobs && (j.outputUsd.None? || j.executionCostUsd.None?) { return; }
      if positionId !in usable || positionId !in book.positions { return; }
      var pnl := BookedPnl(book.positions[positionId], jobs, model);
      book := CloseGroup(book, positionId, IdsIn(jobs), pnl, now);
    }

    method FinalizeSettlementGroups(processed: seq<Row>, usable: set<string>, model: PnlModel, now: int)
      modifies this
      ensures book == FinalizeFirst(old(book), processed, GroupOrder(processed), usable, model, now)
    {
      var order := GroupOrder(processed);
      for i := 0 to |order|
        invariant book == FinalizeFirst(old(book), processed, order[..i], usable, model, now)
      {
        assert order[..i + 1][..i] == order[..i];
        FinalizeGroup(processed, order[i], usable, model, now);
      }
      assert order[..|order|] == order;
    }
  }

  // ---- What finalising guarantees ----

  /** Rows are identified by id, also across the groups of a pass. */
  ghost predicate Consistent(b: Book, processed: seq<Row>) {
    && (forall id :: id in b.rows ==> b.rows[id].id == id)
    && (forall j, k :: j in processed && k in processed && j.id == k.id ==> j.positionId == k.positionId)
  }

  ghost predicate Closes(b: Book, processed: seq<Row>, positionId: string, usable: set<string>) {
    Due(processed, positionId) && positionId in usable && positionId in b.positions
  }

  /** The row with this id belongs to a group of `order` that is closed. */
  ghost predicate Stamped(b: Book, processed: seq<Row>, order: seq<string>, usable: set<string>, id: string) {
    exists j :: j in processed && j.id == id && j.positionId in order && Closes(b, processed, j.positionId, usable)
  }

  /** The effect on every row and position, group by group. */
  lemma {:induction false} FinalizeEffect(
      b: Book, processed: seq<Row>, order: seq<string>, usable: set<string>, model: PnlModel, now: int)
    requires Consistent(b, processed)
    requires forall i, k :: 0 <= i < k < |order| ==> order[i] != order[k]
    ensures var t := FinalizeFirst(b, processed, order, usable, model, now);
      && t.rows.Keys == b.rows.Keys && t.positions.Keys == b.positions.Keys
      && (forall p :: p in b.positions && p in order && Closes(b, processed, p, usable) ==>
            t.positions[p]
            == b.positions[p].(realizedPnlUsd := Some(BookedPnl(b.positions[p], Group(processed, p), model)),
                                              closedAt := Some(now)))
      && (forall p :: p in b.positions && !(p in order && Closes(b, processed, p, usable)) ==>
            t.positions[p] == b.positions[p])
      && (forall j :: j in processed && j.id in b.rows && j.positionId in order ==>
            Closes(b, processed, j.positionId, usable) ==>
            t.rows[j.id] == b.rows[j.id].(finalizedAt := Some(now),
              realizedPnlUsd := Some(BookedPnl(b.positions[j.positionId], Group(processed, j.positionId), model))))
      && (forall id :: id in b.rows && !Stamped(b, processed, order, usable, id) ==> t.rows[id] == b.rows[id])
  {
    if order == [] {
    } else {
      var n := |order| - 1;
      var p := order[n];
      FinalizeEffect(b, processed, order[..n], usable, model, now);
      var s := FinalizeFirst(b, processed, order[..n], usable, model, now);
      var t := FinalizeFirst(b, processed, order, usable, model, now);
      assert forall q :: q in order <==> q in order[..n] || q == p;
      assert p !in order[..n];
      var g := Group(processed, p);
      forall j | j in processed && j.id in b.rows && j.positionId in order && Closes(b, processed, j.positionId, usable)
        ensures t.rows[j.id] == b.rows[j.id].(finalizedAt := Some(now),
                  realizedPnlUsd := Some(BookedPnl(b.positions[j.positionId], Group(processed, j.positionId), model)))
      {
        if j.positionId == p {
          assert j in g && j.id in IdsIn(g);
          assert s.rows[j.id] == b.rows[j.id];
        }
      }
    }
  }

  /** Every row of the table's group was processed and persisted as it now stands. */
  ghost predicate GroupPersisted(b: Book, processed: seq<Row>, positionId: string) {
    forall id :: id in b.rows && b.rows[id].positionId == positionId ==> b.rows[id] in processed
  }

  function Finalize(b: Book, processed: seq<Row>, usable: set<string>, model: PnlModel, now: int): Book {
    FinalizeFirst(b, processed, GroupOrder(processed), usable, model, now)
  }

  lemma DueExactlyWhenSettled(b: Book, processed: seq<Row>, positionId: string)
    requires GroupPersisted(b, processed, positionId)
    requires forall j :: j in processed && j.positionId == positionId ==> j.id in b.rows && b.rows[j.id] == j
    ensures Due(processed, positionId) <==>
              && (exists id :: id in b.rows && b.rows[id].positionId == positionId && b.rows[id].finalizedAt.None?)
              && (forall id :: id in b.rows && b.rows[id].positionId == positionId ==> Settled(b.rows[id]))
  {
    if id :| id in b.rows && b.rows[id].positionId == positionId && b.rows[id].finalizedAt.None? {
      assert b.rows[id] in Group(processed, positionId);
    }
    if j :| j in Group(processed, positionId) && j.finalizedAt.None? {
      assert b.rows[j.id] == j;
    }
    if Due(processed, positionId) {
      forall id | id in b.rows && b.rows[id].positionId == positionId
        ensures Settled(b.rows[id])
      {
        assert b.rows[id] in Group(processed, positionId);
      }
    }
  }

  /** A position whose rows all persisted is closed exactly when all are confirmed, some not yet finalised. */
  lemma ClosedExactlyWhenSettled(
      b: Book, processed: seq<Row>, positionId: string, usable: set<string>, model: PnlModel, now: int)
    requires Consistent(b, processed) && GroupPersisted(b, processed, positionId)
    requires forall j :: j in processed && j.positionId == positionId ==> j.id in b.rows && b.rows[j.id] == j
    requires positionId in b.positions && positionId in usable && b.positions[positionId].closedAt.None?
    ensures Finalize(b, processed, usable, model, now).positions[positionId].closedAt.Some? <==>
              && (exists id :: id in b.rows && b.rows[id].positionId == positionId && b.rows[id].finalizedAt.None?)
              && (forall id :: id in b.rows && b.rows[id].positionId == positionId ==> Settled(b.rows[id]))
  {
    FinalizeEffect(b, processed, GroupOrder(processed), usable, model, now);
    DueExactlyWhenSettled(b, processed, positionId);
  }

  /** A profit that is already booked passes through; a missing one is filled from the measured output. */
  lemma BookedPnlIsNeverClobbered(
      b: Book, processed: seq<Row>, positionId: string, usable: set<string>, model: PnlModel, now: int)
    requires Consistent(b, processed) && positionId in b.positions && b.positions[positionId].realizedPnlUsd.Some?
    ensures positionId in Finalize(b, processed, usable, model, now).positions
    ensures Finalize(b, processed, usable, model, now).positions[positionId].realizedPnlUsd
         == b.positions[positionId].realizedPnlUsd
  {
    FinalizeEffect(b, processed, GroupOrder(processed), usable, model, now);
  }

  lemma StoredRowIsStamped(
      b: Book, processed: seq<Row>, positionId: string, usable: set<string>, model: PnlModel, now: int, id: string)
    requires Consistent(b, processed) && Closes(b, processed, positionId, usable)
    requires GroupPersisted(b, processed, positionId)
    requires id in b.rows && Finalize(b, processed, usable, model, now).rows[id].positionId == positionId
    ensures Finalize(b, processed, usable, model, now).rows[id].finalizedAt.Some?
  {
    var order := GroupOrder(processed);
    FinalizeEffect(b, processed, order, usable, model, now);
    if b.rows[id].positionId == positionId { assert b.rows[id] in processed; }
  }

  /** Once a group is finalised, passes over its stored rows never finalise it again. */
  lemma FinalizedOnce(b: Book, processed: seq<Row>, again: seq<Row>, positionId: string, usable: set<string>,
                      model: PnlModel, now: int, later: int)
    requires Consistent(b, processed) && Closes(b, processed, positionId, usable)
    requires GroupPersisted(b, processed, positionId)
    requires var t := Finalize(b, processed, usable, model, now);
      forall j :: j in again ==> j.id in t.rows && t.rows[j.id] == j
    ensures var t := Finalize(b, processed, usable, model, now);
      !Due(again, positionId) && FinalizeOne(t, again, positionId, usable, model, later) == t
  {
    FinalizeEffect(b, processed, GroupOrder(processed), usable, model, now);
    var t := Finalize(b, processed, usable, model, now);
    forall j | j in Group(again, positionId)
      ensures j.finalizedAt.Some?
    {
      assert j in again && t.rows[j.id] == j;
      StoredRowIsStamped(b, processed, positionId, usable, model, now, j.id);
    }
  }

  /** Some stored row of the position is not confirmed with its figures. */
  ghost predicate SomeUnsettled(b: Book, positionId: string) {
    exists id :: id in b.rows && b.rows[id].positionId == positionId && !Settled(b.rows[id])
  }

  /** Some stored row of the position is unsettled and the pass does not know of it. */
  ghost predicate SomeUnsettledUnseen(b: Book, processed: seq<Row>, positionId: string) {
    exists id :: id in b.rows && b.rows[id].positionId == positionId && !Settled(b.rows[id])
                 && b.rows[id] !in processed
  }

  lemma ClosesExactlyWhenDue(
      b: Book, processed: seq<Row>, positionId: string, usable: set<string>, model: PnlModel, now: int)
    requires Consistent(b, processed)
    requires positionId in b.positions && positionId in usable && b.positions[positionId].closedAt.None?
    ensures positionId in Finalize(b, processed, usable, model, now).positions
    ensures Finalize(b, processed, usable, model, now).positions[positionId].closedAt.Some? <==>
            Due(processed, positionId)
  {
    FinalizeEffect(b, processed, GroupOrder(processed), usable, model, now);
    if Due(processed, positionId) {
      var j :| j in Group(processed, positionId) && j.finalizedAt.None?;
      assert j in processed && j.positionId == positionId;
    }
  }

  /**
   * Exactly when a pass closes a position while one of its stored rows is unsettled: the rows the
   * pass knows are due to close, and an unsettled one is not among them.
   */
  lemma ClosesTooEarlyExactly(
      b: Book, processed: seq<Row>, positionId: string, usable: set<string>, model: PnlModel, now: int)
    requires Consistent(b, processed)
    requires positionId in b.positions && positionId in usable && b.positions[positionId].closedAt.None?
    ensures Finalize(b, processed, usable, model, now).positions[positionId].closedAt.Some?
            && SomeUnsettled(b, positionId) <==>
            Due(processed, positionId) && SomeUnsettledUnseen(b, processed, positionId)
  {
    FinalizeEffect(b, processed, GroupOrder(processed), usable, model, now);
    ClosesExactlyWhenDue(b, processed, positionId, usable, model, now);
    if Due(processed, positionId) {
      forall j | j in processed && j.positionId == positionId ensures Settled(j) {
        assert j in Group(processed, positionId);
      }
    }
  }

  /** When a row's save failed, its group can be finalised although the stored row is not confirmed. */
  lemma UnsavedRowEscapes(saved: Row, unsaved: Row, p: Position, model: PnlModel, now: int)
    requires Settled(saved) && saved.finalizedAt.None? && saved.id != unsaved.id && !unsaved.status.Confirmed?
    requires saved.positionId == unsaved.positionId && p.closedAt.None?
    ensures var b := Book(map[saved.id := saved, unsaved.id := unsaved], map[saved.positionId := p]);
      Finalize(b, [saved], {saved.positionId}, model, now).positions[saved.positionId].closedAt.Some?
  {
    var b := Book(map[saved.id := saved, unsaved.id := unsaved], map[saved.positionId := p]);
    assert saved in [saved] && saved in Group([saved], saved.positionId);
    FinalizeEffect(b, [saved], GroupOrder([saved]), {saved.positionId}, model, now);
  }

  // ---- What is booked ----

  lemma {:induction false} SumOutputConcat(a: seq<Row>, b: seq<Row>)
    ensures SumOutput(a + b) == SumOutput(a) + SumOutput(b)
  {
    if b == [] {
      assert a + b == a;
    } else {
      assert (a + b)[..|a + b| - 1] == a + b[..|b| - 1];
      SumOutputConcat(a, b[..|b| - 1]);
    }
  }

  lemma {:induction false} SumCostConcat(a: seq<Row>, b: seq<Row>)
    ensures SumCost(a + b) == SumCost(a) + SumCost(b)
  {
    if b == [] {
      assert a + b == a;
    } else {
      assert (a + b)[..|a + b| - 1] == a + b[..|b| - 1];
      SumCostConcat(a, b[..|b| - 1]);
    }
  }

  /** What the rows of one position brought in: each row's output, counted once. */
  function Proceeds(rows: seq<Row>, positionId: string): real {
    if rows == [] then 0.0
    else
      (if rows[0].positionId == positionId && rows[0].outputUsd.Some? then rows[0].outputUsd.value else 0.0)
      + Proceeds(rows[1..], positionId)
  }

  /** What the rows of one position cost to sell. */
  function Costs(rows: seq<Row>, positionId: string): real {
    if rows == [] then 0.0
    else
      (if rows[0].positionId == positionId && rows[0].executionCostUsd.Some? then rows[0].executionCostUsd.value
       else 0.0)
      + Costs(rows[1..], positionId)
  }

  /** The group of a list with one row put in front. */
  lemma {:induction false} GroupCons(row: Row, rows: seq<Row>, positionId: string)
    ensures Group([row] + rows, positionId)
         == (if row.positionId == positionId then [row] else []) + Group(rows, positionId)
  {
    if rows == [] {
      assert ([row] + rows)[..0] == [] && [row] + rows == [row];
    } else {
      var n := |rows| - 1;
      assert ([row] + rows)[..|rows|] == [row] + rows[..n];
      GroupCons(row, rows[..n], positionId);
    }
  }

  /** The sums of a group are the totals over all the rows, whatever order and mixture they come in. */
  lemma {:induction false} GroupTotals(rows: seq<Row>, positionId: string)
    ensures SumOutput(Group(rows, positionId)) == Proceeds(rows, positionId)
    ensures SumCost(Group(rows, positionId)) == Costs(rows, positionId)
  {
    if rows == [] {
    } else {
      var first := if rows[0].positionId == positionId then [rows[0]] else [];
      assert rows == [rows[0]] + rows[1..];
      GroupCons(rows[0], rows[1..], positionId);
      GroupTotals(rows[1..], positionId);
      SumOutputConcat(first, Group(rows[1..], positionId));
      SumCostConcat(first, Group(rows[1..], positionId));
    }
  }

  lemma DueExactly(processed: seq<Row>, positionId: string)
    ensures Due(processed, positionId) <==>
              && (exists j :: j in processed && j.positionId == positionId && j.finalizedAt.None?)
              && (forall j :: j in processed && j.positionId == positionId ==>
                    j.status.Confirmed? && j.outputUsd.Some? && j.executionCostUsd.Some?)
  {
    if Due(processed, positionId) {
      var open :| open in Group(processed, positionId) && open.finalizedAt.None?;
      assert open in processed;
      forall j | j in processed && j.positionId == positionId
        ensures Settled(j)
      {
        assert j in Group(processed, positionId);
      }
    } else if open :| open in processed && open.positionId == positionId && open.finalizedAt.None? {
      assert open in Group(processed, positionId);
    }
  }

  /**
   * A position is booked by a pass exactly when one of its processed rows is open and all are
   * confirmed with their figures: a missing result from the totals over all of them, one already
   * there as it is.
   */
  lemma BookedFromTotals(
      b: Book, processed: seq<Row>, positionId: string, usable: set<string>, model: PnlModel, now: int)
    requires Consistent(b, processed) && positionId in b.positions && positionId in usable
    ensures var p, t := b.positions[positionId], Finalize(b, processed, usable, model, now);
      && positionId in t.positions
      && t.positions[positionId] ==
         if (exists j :: j in processed && j.positionId == positionId && j.finalizedAt.None?)
            && (forall j :: j in processed && j.positionId == positionId ==>
                  j.status.Confirmed? && j.outputUsd.Some? && j.executionCostUsd.Some?)
         then p.(closedAt := Some(now),
                 realizedPnlUsd := if p.realizedPnlUsd.Some? then p.realizedPnlUsd
                                   else Some(model(p, Proceeds(processed, positionId), Costs(processed, positionId))))
         else p
  {
    FinalizeEffect(b, processed, GroupOrder(processed), usable, model, now);
    DueExactly(processed, positionId);
    GroupTotals(processed, positionId);
    if Due(processed, positionId) {
      var j :| j in Group(processed, positionId) && j.finalizedAt.None?;
      assert j in processed && j.positionId == positionId;
    }
  }
}
