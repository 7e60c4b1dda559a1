/** The batching INSERT: rows are collected and sent in as many queries as their text needs. */
module DBInserts {
  import opened Basics
  import opened Sequences
  import opened InsertBatches

  /** The server: it keeps what it executed; `refusals` says which of the next queries fail. */
  class Database {
    const maxPacketSize: nat
    var executed: seq<string>
    var refusals: seq<bool>

    constructor (maxPacketSize: nat, refusals: seq<bool>)
      ensures this.maxPacketSize == maxPacketSize && executed == [] && this.refusals == refusals
    {
      this.maxPacketSize, executed, this.refusals := maxPacketSize, [], refusals;
    }

    method ExecuteQuery(query: string) returns (ok: bool)
      modifies this`executed, this`refusals
      ensures executed == if ok then old(executed) + [query] else old(executed)
      ensures old(refusals) == [] ==> ok && refusals == []
    {
      ok := refusals == [] || !refusals[0];
      refusals := if refusals == [] then [] else refusals[1..];
      if ok {
        executed := executed + [query];
      }
    }
  }

  function Assignment(column: string): string {
    "`" + column + "` = VALUES(`" + column + "`)"
  }

  function Assignments(columns: seq<string>): string {
    if columns == [] then ""
    else if |columns| == 1 then Assignment(columns[0])
    else Assignment(columns[0]) + ", " + Assignments(columns[1..])
  }

  function UpsertText(columns: seq<string>): string {
    if columns == [] then "" else " ON DUPLICATE KEY UPDATE " + Assignments(columns)
  }

  function TotalLength(rows: seq<string>): nat {
    if rows == [] then 0 else TotalLength(rows[..|rows| - 1]) + |rows[|rows| - 1]|
  }

  class DBInsert {
    const query: string
    const db: Database
    var values: string
    var length: nat
    var upsertColumns: seq<string>
    /** The rows added so far, the rows that each completed `Execute` has sent, and the bytes
        of rows that were counted but could not be added. */
    ghost var rows: seq<string>
    ghost var sent: seq<seq<string>>
    ghost var refused: nat

    ghost predicate Valid()
      reads this`values, this`rows
    {
      values == Text(rows)
    }

    ghost predicate Counted()
      reads this`length, this`rows, this`refused
    {
      length == |query| + TotalLength(rows) + refused
    }

    constructor (insertQuery: string, db: Database)
      ensures Valid() && Counted() && rows == [] && sent == [] && refused == 0
      ensures query == insertQuery && this.db == db && upsertColumns == []
    {
      query, this.db := insertQuery, db;
      values, length, upsertColumns := "", |insertQuery|, [];
      rows, sent, refused := [], [], 0;
    }

    method Upsert(columns: seq<string>)
      requires Valid()
      modifies this`upsertColumns
      ensures Valid() && upsertColumns == columns
    {
      upsertColumns := columns;
    }

    method UpsertQuery() returns (text: string)
      ensures text == UpsertText(upsertColumns)
    {
      text := "";
      if upsertColumns != [] {
        text := " ON DUPLICATE KEY UPDATE ";
        var i := 0;
        while i < |upsertColumns|
          invariant 0 <= i <= |upsertColumns|
          invariant text + Assignments(upsertColumns[i..]) == UpsertText(upsertColumns)
        {
          var column := upsertColumns[i];
          assert upsertColumns[i..][1..] == upsertColumns[i + 1..];
          ghost var rest := Assignments(upsertColumns[i + 1..]);
          if i < |upsertColumns| - 1 {
            assert text + (Assignment(column) + ", " + rest) == text + Assignment(column) + ", " + rest;
            text := text + Assignment(column) + ", ";
          } else {
            assert text + Assignment(column) + "" == text + Assignment(column);
            text := text + Assignment(column);
          }
          i := i + 1;
        }
      }
    }

    /** Sends every row added so far.  The rows stay: a later call sends them again. */
    method Execute() returns (ok: bool)
      requires Valid()
      modifies this`sent, db`executed, db`refusals
      ensures Valid() && old(db.executed) <= db.executed
      ensures ok ==> PiecesFor(query, upsertColumns, rows).Some? &&
                     db.executed ==
                     old(db.executed) +
                     Queries(query, PiecesFor(query, upsertColumns, rows).value, UpsertText(upsertColumns))
      ensures old(db.refusals) == [] ==> db.refusals == [] && (ok <==> PiecesFor(query, upsertColumns, rows).Some?)
      ensures sent == if ok && rows != [] then old(sent) + [rows] else old(sent)
    {
      hide Text, Queries, Query, UpsertText, Pieces, Budget, PiecesFor, PlannedFrom;
      EmptyText(rows);
      if values == "" {
        NothingPlanned(query, upsertColumns);
        return true;
      }
      var baseQuery := query;
      var upsertQuery := UpsertQuery();
      var currentBatch := values;
      ghost var done: seq<string> := [];
      ghost var plan := PiecesFor(query, upsertColumns, rows);
      StartPlan(query, upsertColumns, rows);
      NoQueries(query, upsertQuery);
      while currentBatch != ""
        invariant db.executed == old(db.executed) + Queries(query, done, upsertQuery)
        invariant old(db.refusals) == [] ==> db.refusals == []
        invariant sent == old(sent)
        invariant PlannedFrom(done, currentBatch, plan, Budget(baseQuery, upsertQuery))
        decreases |currentBatch|
      {
        var cutPos := Budget(baseQuery, upsertQuery);
        if cutPos < |currentBatch| {
          var found := RFind(currentBatch, cutPos);
          if found.None? {
            NoPlaceToCut(done, currentBatch, plan, cutPos);
            return false;
          }
          cutPos := found.value + 2;
        } else {
          cutPos := |currentBatch|;
        }
        var batchValues := currentBatch[..cutPos];
        if batchValues[|batchValues| - 1] == ',' {
          batchValues := batchValues[..|batchValues| - 1];
        }
        NextPiece(done, currentBatch, plan, Budget(baseQuery, upsertQuery), cutPos);
        currentBatch := currentBatch[cutPos..];
        ok := db.ExecuteQuery(Query(baseQuery, batchValues, upsertQuery));
        if !ok {
          return false;
        }
        QueriesSnoc(query, done, batchValues, upsertQuery, old(db.executed));
        done := done + [batchValues];
      }
      PlanEnds(done, plan, Budget(baseQuery, upsertQuery));
      if rows != [] {
        sent := sent + [rows];
      }
      return true;
    }

    /** Adds a row; when the rows have grown too long, sends the ones before it first. */
    method AddRow(row: string) returns (ok: bool)
      requires Valid() && Counted()
      modifies this, db`executed, db`refusals
      ensures Valid() && Counted()
      ensures rows == if ok then old(rows) + [row] else old(rows)
      ensures refused == if ok then old(refused) else old(refused) + |row|
      ensures upsertColumns == old(upsertColumns) && old(db.executed) <= db.executed
      ensures ok ==> sent == old(sent) + Flushed(|query| + old(refused), old(rows), row, db.maxPacketSize)
      ensures ok ==> Sends(query, upsertColumns, Flushed(|query| + old(refused), old(rows), row, db.maxPacketSize),
                           old(db.executed), db.executed)
    {
      ghost var before := db.executed;
      SendsNothing(query, upsertColumns, before);
      hide Text, Pieces, TotalLength, Queries, UpsertText, Budget, Sends, PiecesFor;
      EmptyText(rows);
      TotalSnoc(rows, row);
      var rowLength := |row|;
      length := length + rowLength;
      if length > db.maxPacketSize {
        var executed := Execute();
        if !executed {
          refused := refused + |row|;
          return false;
        }
        ExecuteSends(query, upsertColumns, rows, before);
      }
      TextSnoc(rows, row);
      if values == "" {
        values := "(" + row + ")";
      } else {
        values := values + "," + "(" + row + ")";
      }
      rows := rows + [row];
      return true;
    }
  }

  /** What `AddRow` sends before it takes the row: all rows so far, if with it they are too long. */
  ghost function Flushed(counted: nat, rows: seq<string>, row: string, max: nat): seq<seq<string>> {
    if counted + TotalLength(rows) + |row| > max && rows != [] then [rows] else []
  }

  /** The pieces in which a batch of rows is sent. */
  ghost function PiecesFor(query: string, columns: seq<string>, rows: seq<string>): Option<seq<string>> {
    Pieces(Text(rows), Budget(query, UpsertText(columns)))
  }

  /** The queries with which batches of rows are sent, one batch after the other. */
  ghost function QueriesFor(query: string, columns: seq<string>, batches: seq<seq<string>>): seq<string> {
    if batches == [] then []
    else
      var n := |batches| - 1;
      var pieces := PiecesFor(query, columns, batches[n]);
      QueriesFor(query, columns, batches[..n]) +
      if pieces.None? then [] else Queries(query, pieces.value, UpsertText(columns))
  }

  /** The batches could all be cut, and exactly their queries were executed. */
  ghost predicate Sends(query: string, columns: seq<string>, batches: seq<seq<string>>,
                        before: seq<string>, after: seq<string>) {
    && (forall i :: 0 <= i < |batches| ==> PiecesFor(query, columns, batches[i]).Some?)
    && after == before + QueriesFor(query, columns, batches)
  }

  lemma SendsNothing(query: string, columns: seq<string>, before: seq<string>)
    ensures Sends(query, columns, [], before, before)
    ensures PiecesFor(query, columns, []) == Some([])
  {
    assert before + [] == before;
  }

  lemma SendsOne(query: string, columns: seq<string>, rows: seq<string>, before: seq<string>)
    requires PiecesFor(query, columns, rows).Some?
    ensures Sends(query, columns, [rows], before,
                  before + Queries(query, PiecesFor(query, columns, rows).value, UpsertText(columns)))
  {
    QueriesForLast(query, columns, [rows]);
    hide PiecesFor, Queries, UpsertText;
    var qs := Queries(query, PiecesFor(query, columns, rows).value, UpsertText(columns));
    assert [rows][..0] == [] && [] + qs == qs;
  }

  lemma {:induction false} SendsMore(query: string, columns: seq<string>, a: seq<seq<string>>, b: seq<seq<string>>,
                                     before: seq<string>, between: seq<string>, after: seq<string>)
    requires Sends(query, columns, a, before, between) && Sends(query, columns, b, between, after)
    ensures Sends(query, columns, a + b, before, after)
  {
    hide PiecesFor, QueriesFor;
    QueriesConcat(query, columns, a, b);
    Associative(before, QueriesFor(query, columns, a), QueriesFor(query, columns, b));
  }

  lemma {:induction false} QueriesConcat(query: string, columns: seq<string>,
                                         a: seq<seq<string>>, b: seq<seq<string>>)
    ensures QueriesFor(query, columns, a + b) == QueriesFor(query, columns, a) + QueriesFor(query, columns, b)
  {
    hide PiecesFor, Queries, UpsertText;
    if b == [] {
      assert a + b == a;
    } else {
      var n := |b| - 1;
      QueriesConcat(query, columns, a, b[..n]);
      assert (a + b)[..|a + b| - 1] == a + b[..n];
      var pieces := PiecesFor(query, columns, b[n]);
      Associative(QueriesFor(query, columns, a), QueriesFor(query, columns, b[..n]),
                  if pieces.None? then [] else Queries(query, pieces.value, UpsertText(columns)));
    }
  }

  /** The queries of the batches are those of groups of whole rows, which join to all the rows in the batches. */
  ghost predicate InGroups(query: string, columns: seq<string>, batches: seq<seq<string>>,
                           pieces: seq<string>, groups: seq<seq<string>>) {
    && QueriesFor(query, columns, batches) == Queries(query, pieces, UpsertText(columns))
    && Grouped(pieces, groups, Concat(batches), Budget(query, UpsertText(columns)))
  }

  lemma {:induction false} SentInGroups(query: string, columns: seq<string>, batches: seq<seq<string>>)
    returns (pieces: seq<string>, groups: seq<seq<string>>)
    requires forall i :: 0 <= i < |batches| ==> PiecesFor(query, columns, batches[i]).Some?
    requires forall i :: 0 <= i < |batches| ==> AllClean(batches[i])
    ensures InGroups(query, columns, batches, pieces, groups)
  {
    hide InGroups, PiecesFor, AllClean, Grouped, Budget, UpsertText;
    if batches == [] {
      pieces, groups := [], [];
      NothingInGroups(query, columns);
    } else {
      var n := |batches| - 1;
      var ps, gs := SentInGroups(query, columns, batches[..n]);
      var qs, hs := BatchInGroups(query, columns, batches[n]);
      pieces, groups := ps + qs, gs + hs;
      BothInGroups(query, columns, batches, ps, gs, qs, hs);
    }
  }

  lemma NothingInGroups(query: string, columns: seq<string>)
    ensures InGroups(query, columns, [], [], [])
  {
  }

  lemma BothInGroups(query: string, columns: seq<string>, batches: seq<seq<string>>,
                     ps: seq<string>, gs: seq<seq<string>>, qs: seq<string>, hs: seq<seq<string>>)
    requires batches != [] && InGroups(query, columns, batches[..|batches| - 1], ps, gs)
    requires PiecesFor(query, columns, batches[|batches| - 1]) == Some(qs)
    requires Grouped(qs, hs, batches[|batches| - 1], Budget(query, UpsertText(columns)))
    ensures InGroups(query, columns, batches, ps + qs, gs + hs)
  {
    hide PiecesFor, QueriesFor, Queries, UpsertText, Budget, Grouped, Concat;
    var n := |batches| - 1;
    QueriesForLast(query, columns, batches);
    QueriesOfBoth(query, ps, qs, UpsertText(columns));
    GroupedConcat(ps, gs, Concat(batches[..n]), qs, hs, batches[n], Budget(query, UpsertText(columns)));
    ConcatLast(batches);
  }

  lemma ConcatLast(groups: seq<seq<string>>)
    requires groups != []
    ensures Concat(groups) == Concat(groups[..|groups| - 1]) + groups[|groups| - 1]
  {
    hide Concat;
    ConcatSnoc(groups[..|groups| - 1], groups[|groups| - 1]);
    assert groups == groups[..|groups| - 1] + [groups[|groups| - 1]];
  }

  lemma BatchInGroups(query: string, columns: seq<string>, rows: seq<string>)
    returns (pieces: seq<string>, groups: seq<seq<string>>)
    requires PiecesFor(query, columns, rows).Some? && AllClean(rows)
    ensures PiecesFor(query, columns, rows) == Some(pieces)
    ensures Grouped(pieces, groups, rows, Budget(query, UpsertText(columns)))
  {
    hide Text, Pieces, Budget, UpsertText, Grouped, AllClean;
    pieces := PiecesFor(query, columns, rows).value;
    groups := PiecesAreRows(rows, Budget(query, UpsertText(columns)));
  }

  lemma QueriesForLast(query: string, columns: seq<string>, batches: seq<seq<string>>)
    requires batches != [] && PiecesFor(query, columns, batches[|batches| - 1]).Some?
    ensures var n := |batches| - 1;
            QueriesFor(query, columns, batches) ==
            QueriesFor(query, columns, batches[..n])
            + Queries(query, PiecesFor(query, columns, batches[n]).value, UpsertText(columns))
  {
    hide PiecesFor, Queries, UpsertText;
  }

  lemma QueriesOfBoth(query: string, a: seq<string>, b: seq<string>, upsertQuery: string)
    ensures Queries(query, a + b, upsertQuery) == Queries(query, a, upsertQuery) + Queries(query, b, upsertQuery)
  {
  }

  lemma GroupedConcat(ps: seq<string>, gs: seq<seq<string>>, a: seq<string>,
                      qs: seq<string>, hs: seq<seq<string>>, b: seq<string>, cut: nat)
    requires Grouped(ps, gs, a, cut) && Grouped(qs, hs, b, cut)
    ensures Grouped(ps + qs, gs + hs, a + b, cut)
  {
    hide Text, Concat;
    ConcatBoth(gs, hs);
  }

  lemma {:induction false} ConcatBoth(gs: seq<seq<string>>, hs: seq<seq<string>>)
    ensures Concat(gs + hs) == Concat(gs) + Concat(hs)
  {
    if gs == [] {
      assert gs + hs == hs;
    } else {
      ConcatBoth(gs[1..], hs);
      assert (gs + hs)[1..] == gs[1..] + hs;
      Associative(gs[0], Concat(gs[1..]), Concat(hs));
    }
  }

  /** What is sent of clean rows is clean. */
  lemma {:induction false} SentIsClean(counted: nat, rows: seq<string>, max: nat)
    requires AllClean(rows)
    ensures forall i :: 0 <= i < |SentBy(counted, rows, max)| ==> AllClean(SentBy(counted, rows, max)[i])
  {
    if rows != [] {
      SentIsClean(counted, rows[..|rows| - 1], max);
    }
  }

  ghost predicate PlannedFrom(done: seq<string>, batch: string, plan: Option<seq<string>>, cut: nat) {
    match Pieces(batch, cut)
    case None => plan.None?
    case Some(rest) => plan == Some(done + rest)
  }

  lemma StartPlan(query: string, columns: seq<string>, rows: seq<string>)
    ensures PlannedFrom([], Text(rows), PiecesFor(query, columns, rows), Budget(query, UpsertText(columns)))
  {
    match PiecesFor(query, columns, rows)
    case None =>
    case Some(rest) => assert [] + rest == rest;
  }

  lemma EmptyText(rows: seq<string>)
    ensures Text(rows) == "" <==> rows == []
  {
    if rows != [] { TextEnds(rows); }
  }

  lemma NothingPlanned(query: string, columns: seq<string>)
    ensures PiecesFor(query, columns, []) == Some([])
    ensures Queries(query, [], UpsertText(columns)) == []
  {
  }

  lemma NoQueries(query: string, upsertQuery: string)
    ensures Queries(query, [], upsertQuery) == []
  {
  }

  lemma NoPlaceToCut(done: seq<string>, batch: string, plan: Option<seq<string>>, cut: nat)
    requires PlannedFrom(done, batch, plan, cut) && cut < |batch| && RFind(batch, cut).None?
    ensures plan == None
  {
  }

  lemma PlanEnds(done: seq<string>, plan: Option<seq<string>>, cut: nat)
    requires PlannedFrom(done, "", plan, cut)
    ensures plan == Some(done)
  {
    assert Pieces("", cut) == Some([]) && done + [] == done;
  }

  lemma TotalSnoc(rows: seq<string>, row: string)
    ensures TotalLength(rows + [row]) == TotalLength(rows) + |row|
  {
    assert (rows + [row])[..|rows|] == rows;
  }

  lemma QueriesSnoc(query: string, done: seq<string>, piece: string, upsertQuery: string, before: seq<string>)
    ensures before + Queries(query, done + [piece], upsertQuery)
            == before + Queries(query, done, upsertQuery) + [Query(query, piece, upsertQuery)]
  {
  }

  lemma NextPiece(done: seq<string>, batch: string, plan: Option<seq<string>>, cut: nat, cutPos: nat)
    requires batch != "" && PlannedFrom(done, batch, plan, cut)
    requires if cut < |batch| then RFind(batch, cut).Some? && cutPos == RFind(batch, cut).value + 2
             else cutPos == |batch|
    ensures PlannedFrom(done + [DropComma(batch[..cutPos])], batch[cutPos..], plan, cut)
  {
    var piece := DropComma(batch[..cutPos]);
    if cut >= |batch| {
      assert batch[..cutPos] == batch && batch[cutPos..] == "";
      assert done + [piece] + [] == done + [piece];
    } else {
      match Pieces(batch[cutPos..], cut)
      case None =>
      case Some(rest) => Associative(done, [piece], rest);
    }
  }

  // ----- A whole session ----------------------------------------------------------------------

  /** Everything sent when the rows are added one by one and then executed, if nothing fails. */
  ghost function SentBy(counted: nat, rows: seq<string>, max: nat): seq<seq<string>> {
    if rows == [] then []
    else var n := |rows| - 1;
         SentBy(counted, rows[..n], max) + Flushed(counted, rows[..n], rows[n], max)
  }

  lemma NothingSent(counted: nat, rows: seq<string>, max: nat)
    ensures SentBy(counted, rows[..0], max) == [] && TotalLength(rows[..0]) == 0
  {
  }

  /** The text `t` stands in `q` at the place `at`. */
  predicate StandsAt(q: string, at: nat, t: string) {
    at + |t| <= |q| && q[at..at + |t|] == t
  }

  /** The query is the insert's text, a space, the rows in parentheses with commas between, and the upsert clause. */
  ghost predicate Inserts(q: string, insertQuery: string, rows: seq<string>, upsertQuery: string) {
    && |q| == |insertQuery| + 1 + |Text(rows)| + |upsertQuery|
    && StandsAt(q, 0, insertQuery) && StandsAt(q, |insertQuery|, " ")
    && StandsAt(q, |insertQuery| + 1, Text(rows)) && StandsAt(q, |insertQuery| + 1 + |Text(rows)|, upsertQuery)
  }

  /** What was executed is one insert for each of some groups of rows, which join to all the rows in the batches. */
  ghost predicate ExecutedInGroups(query: string, columns: seq<string>, batches: seq<seq<string>>,
                                   before: seq<string>, after: seq<string>) {
    exists groups :: Concat(groups) == Concat(batches) && ExecutedAs(query, columns, groups, before, after)
  }

  ghost predicate ExecutedAs(query: string, columns: seq<string>, groups: seq<seq<string>>,
                             before: seq<string>, after: seq<string>) {
    && |after| == |before| + |groups| && after[..|before|] == before
    && forall i :: 0 <= i < |groups| ==>
         groups[i] != [] && Inserts(after[|before| + i], query, groups[i], UpsertText(columns))
  }

  /** At `at` the column is set to the value that would have been inserted. */
  predicate SetAt(t: string, at: nat, column: string) {
    && StandsAt(t, at, "`") && StandsAt(t, at + 1, column) && StandsAt(t, at + 1 + |column|, "` = VALUES(`")
    && StandsAt(t, at + 13 + |column|, column) && StandsAt(t, at + 13 + 2 * |column|, "`)")
  }

  /** From `ats[0]` to the end, the text sets each column once, in order, with commas between. */
  predicate SetsColumns(t: string, columns: seq<string>, ats: seq<nat>) {
    |ats| == |columns| && forall i :: 0 <= i < |columns| ==> SetsColumn(t, columns, ats, i)
  }

  predicate SetsColumn(t: string, columns: seq<string>, ats: seq<nat>, i: nat)
    requires i < |columns| == |ats|
  {
    && SetAt(t, ats[i], columns[i])
    && var behind := ats[i] + 15 + 2 * |columns[i]|;
       if i < |columns| - 1 then StandsAt(t, behind, ", ") && ats[i + 1] == behind + 2 else behind == |t|
  }

  lemma AssignmentStands(u: string, column: string, v: string)
    ensures SetAt(u + Assignment(column) + v, |u|, column) && |Assignment(column)| == 15 + 2 * |column|
  {
    var t := u + Assignment(column) + v;
    assert Assignment(column) == "`" + (column + ("` = VALUES(`" + (column + "`)")));
    assert t[|u|..|u| + |Assignment(column)|] == Assignment(column);
  }

  lemma {:induction false} AssignmentsStand(u: string, columns: seq<string>) returns (ats: seq<nat>)
    requires columns != []
    ensures SetsColumns(u + Assignments(columns), columns, ats) && ats[0] == |u|
    decreases |columns|
  {
    var c, rest := columns[0], columns[1..];
    hide SetAt, Assignment, StandsAt, SetsColumns;
    if rest == [] {
      ats := [|u|];
      AssignmentStands(u, c, "");
      assert u + Assignment(c) + "" == u + Assignments(columns);
      OneColumn(u + Assignments(columns), columns, |u|);
    } else {
      var more := AssignmentsStand(u + Assignment(c) + ", ", rest);
      AssignmentStands(u, c, ", " + Assignments(rest));
      CommaStands(u, Assignment(c), Assignments(rest));
      ats := [|u|] + more;
      assert Assignments(columns) == Assignment(c) + ", " + Assignments(rest);
      OneMoreColumn(u + Assignments(columns), columns, |u|, more);
    }
  }

  lemma CommaStands(u: string, a: string, rest: string)
    ensures StandsAt(u + (a + ", " + rest), |u| + |a|, ", ")
    ensures u + (a + ", " + rest) == u + a + ", " + rest == u + a + (", " + rest)
  {
    assert u + (a + ", " + rest) == u + a + (", " + rest);
    assert u + (a + ", " + rest) == u + a + ", " + rest;
  }

  lemma OneColumn(t: string, columns: seq<string>, at: nat)
    requires |columns| == 1 && SetAt(t, at, columns[0]) && |t| == at + 15 + 2 * |columns[0]|
    ensures SetsColumns(t, columns, [at])
  {
    hide SetAt, StandsAt;
  }

  lemma OneMoreColumn(t: string, columns: seq<string>, at: nat, more: seq<nat>)
    requires |columns| > 1 && SetAt(t, at, columns[0]) && StandsAt(t, at + 15 + 2 * |columns[0]|, ", ")
    requires SetsColumns(t, columns[1..], more) && more[0] == at + 17 + 2 * |columns[0]|
    ensures SetsColumns(t, columns, [at] + more)
  {
    hide SetAt, StandsAt;
    var ats := [at] + more;
    assert SetsColumn(t, columns, ats, 0);
    forall i | 1 <= i < |columns| ensures SetsColumn(t, columns, ats, i) {
      assert SetsColumn(t, columns[1..], more, i - 1);
    }
  }

  /** Without columns there is no upsert clause; otherwise it sets each column once, in order. */
  lemma UpsertSetsColumns(columns: seq<string>) returns (ats: seq<nat>)
    ensures columns == [] ==> UpsertText(columns) == ""
    ensures columns != [] ==>
              && StandsAt(UpsertText(columns), 0, " ON DUPLICATE KEY UPDATE ")
              && SetsColumns(UpsertText(columns), columns, ats) && ats[0] == 25
  {
    if columns == [] {
      ats := [];
    } else {
      hide Assignments, SetsColumns;
      ats := AssignmentsStand(" ON DUPLICATE KEY UPDATE ", columns);
    }
  }

  lemma TwoRows()
    ensures Text(["1", "2"]) == "(1),(2)"
  {
    assert Text(["2"]) == "(2)";
    assert ["1", "2"][1..] == ["2"];
    assert Text(["1", "2"]) == "(" + "1" + ")" + "," + "(2)";
    assert "(" + "1" + ")" + "," + "(2)" == "(1),(2)";
  }

  lemma QueryInserts(query: string, rows: seq<string>, upsertQuery: string)
    ensures Inserts(Query(query, Text(rows), upsertQuery), query, rows, upsertQuery)
  {
    var text := Text(rows);
    hide Text;
    var q := Query(query, text, upsertQuery);
    assert q == query + (" " + text + upsertQuery);
    assert q == query + " " + (text + upsertQuery);
    assert q == query + " " + text + upsertQuery;
  }

  /** Adds the rows to a new INSERT with some columns to update, and executes it. */
  method InsertAll(db: Database, query: string, columns: seq<string>, rows: seq<string>)
    returns (ok: bool, insert: DBInsert)
    modifies db`executed, db`refusals
    ensures fresh(insert)
    ensures ok ==> insert.rows == rows && insert.upsertColumns == columns
    ensures ok ==> insert.sent == SentBy(|query|, rows, db.maxPacketSize) + if rows == [] then [] else [rows]
    ensures ok && AllClean(rows) ==> ExecutedInGroups(query, columns, insert.sent, old(db.executed), db.executed)
  {
    SendsNothing(query, columns, db.executed);
    hide Text, Pieces, TotalLength, Queries, UpsertText, Budget, SentBy, Flushed, Sends, AllClean, ExecutedInGroups;
    insert := new DBInsert(query, db);
    insert.Upsert(columns);
    var i := 0;
    NothingSent(|query|, rows, db.maxPacketSize);
    while i < |rows|
      invariant 0 <= i <= |rows|
      invariant insert.Valid() && insert.Counted() && insert.refused == 0
      invariant insert.query == query && insert.db == db && insert.rows == rows[..i]
      invariant insert.upsertColumns == columns
      invariant insert.sent == SentBy(|query|, rows[..i], db.maxPacketSize)
      invariant Sends(query, columns, insert.sent, old(db.executed), db.executed)
    {
      ghost var between := db.executed;
      ok := insert.AddRow(rows[i]);
      if !ok {
        return;
      }
      OneMoreSent(query, columns, rows, i, db.maxPacketSize, old(db.executed), between, db.executed);
      i := i + 1;
    }
    assert rows[..i] == rows;
    ghost var between := db.executed;
    ok := insert.Execute();
    if ok {
      AllSent(query, columns, rows, db.maxPacketSize, old(db.executed), between);
    }
  }

  lemma OneMoreSent(query: string, columns: seq<string>, rows: seq<string>, i: nat, max: nat,
                    before: seq<string>, between: seq<string>, after: seq<string>)
    requires i < |rows|
    requires Sends(query, columns, SentBy(|query|, rows[..i], max), before, between)
    requires Sends(query, columns, Flushed(|query|, rows[..i], rows[i], max), between, after)
    ensures rows[..i + 1] == rows[..i] + [rows[i]]
    ensures SentBy(|query|, rows[..i + 1], max)
            == SentBy(|query|, rows[..i], max) + Flushed(|query|, rows[..i], rows[i], max)
    ensures Sends(query, columns, SentBy(|query|, rows[..i + 1], max), before, after)
  {
    hide Flushed, Sends;
    assert rows[..i + 1][..i] == rows[..i];
    SendsMore(query, columns, SentBy(|query|, rows[..i], max), Flushed(|query|, rows[..i], rows[i], max),
              before, between, after);
  }

  lemma AllSent(query: string, columns: seq<string>, rows: seq<string>, max: nat,
                before: seq<string>, between: seq<string>)
    requires Sends(query, columns, SentBy(|query|, rows, max), before, between)
    requires PiecesFor(query, columns, rows).Some?
    ensures AllClean(rows) ==>
              ExecutedInGroups(query, columns, SentBy(|query|, rows, max) + if rows == [] then [] else [rows], before,
                               between + Queries(query, PiecesFor(query, columns, rows).value, UpsertText(columns)))
  {
    hide PiecesFor, Queries, Sends, SentBy, AllClean, ExecutedInGroups, UpsertText;
    var batches := SentBy(|query|, rows, max) + if rows == [] then [] else [rows];
    var after := between + Queries(query, PiecesFor(query, columns, rows).value, UpsertText(columns));
    ExecuteSends(query, columns, rows, between);
    SendsMore(query, columns, SentBy(|query|, rows, max), if rows == [] then [] else [rows], before, between, after);
    if AllClean(rows) {
      SentIsClean(|query|, rows, max);
      CleanInGroups(query, columns, batches, before, after);
    }
  }

  lemma CleanInGroups(query: string, columns: seq<string>, batches: seq<seq<string>>,
                      before: seq<string>, after: seq<string>)
    requires forall i :: 0 <= i < |batches| ==> AllClean(batches[i])
    requires Sends(query, columns, batches, before, after)
    ensures ExecutedInGroups(query, columns, batches, before, after)
  {
    hide PiecesFor, QueriesFor, AllClean, InGroups;
    var pieces, groups := SentInGroups(query, columns, batches);
    InGroupsExecuted(query, columns, batches, pieces, groups, before, after);
  }

  lemma InGroupsExecuted(query: string, columns: seq<string>, batches: seq<seq<string>>,
                         pieces: seq<string>, groups: seq<seq<string>>, before: seq<string>, after: seq<string>)
    requires InGroups(query, columns, batches, pieces, groups) && after == before + QueriesFor(query, columns, batches)
    ensures Concat(groups) == Concat(batches) && ExecutedAs(query, columns, groups, before, after)
  {
    hide QueriesFor, Query, Text, Concat, UpsertText, Inserts, Budget;
    forall i | 0 <= i < |groups|
      ensures groups[i] != [] && Inserts(after[|before| + i], query, groups[i], UpsertText(columns))
    {
      assert after[|before| + i] == Query(query, pieces[i], UpsertText(columns));
      QueryInserts(query, groups[i], UpsertText(columns));
    }
  }

  /** An execution sends the rows in one batch, or nothing when there are none. */
  lemma ExecuteSends(query: string, columns: seq<string>, rows: seq<string>, before: seq<string>)
    requires PiecesFor(query, columns, rows).Some?
    ensures Sends(query, columns, if rows == [] then [] else [rows], before,
                  before + Queries(query, PiecesFor(query, columns, rows).value, UpsertText(columns)))
  {
    SendsNothing(query, columns, before);
    SendsOne(query, columns, rows, before);
    if rows == [] {
      assert Queries(query, [], UpsertText(columns)) == [] && before + [] == before;
    }
  }

  lemma {:induction false} ConcatSnoc(groups: seq<seq<string>>, last: seq<string>)
    ensures Concat(groups + [last]) == Concat(groups) + last
  {
    if groups == [] {
      assert [] + [last] == [last] && [last][1..] == [] && last + [] == last;
    } else {
      ConcatSnoc(groups[1..], last);
      assert (groups + [last])[1..] == groups[1..] + [last];
      Associative(groups[0], Concat(groups[1..]), last);
    }
  }

  /** Nothing is sent before the end exactly if the rows stay within the packet size, or there is only one. */
  lemma {:induction false} NothingFlushed(counted: nat, rows: seq<string>, max: nat)
    ensures Concat(SentBy(counted, rows, max)) == [] <==> |rows| <= 1 || counted + TotalLength(rows) <= max
  {
    if rows != [] {
      var n := |rows| - 1;
      var init := rows[..n];
      NothingFlushed(counted, init, max);
      assert SentBy(counted, rows, max) == SentBy(counted, init, max) + Flushed(counted, init, rows[n], max);
      assert TotalLength(rows) == TotalLength(init) + |rows[n]|;
      hide SentBy, TotalLength, Concat;
      if Flushed(counted, init, rows[n], max) != [] {
        ConcatSnoc(SentBy(counted, init, max), init);
      } else {
        assert SentBy(counted, init, max) + [] == SentBy(counted, init, max);
      }
    }
  }

  /** The source keeps the rows after sending them.  So a session sends each row once exactly if
      it has at most one row or never exceeds the packet size; otherwise it sends rows again. */
  lemma EachRowIsSentOnceIff(query: string, rows: seq<string>, max: nat)
    ensures Concat(SentBy(|query|, rows, max) + if rows == [] then [] else [rows]) == rows
            <==> |rows| <= 1 || |query| + TotalLength(rows) <= max
  {
    var early := SentBy(|query|, rows, max);
    NothingFlushed(|query|, rows, max);
    if rows != [] {
      ConcatSnoc(early, rows);
      assert Concat(early) == [] ==> [] + rows == rows;
      assert |Concat(early) + rows| == |Concat(early)| + |rows|;
    }
  }

  /** Two rows of three letters, with a packet size of five: the first is sent early, and again with the second. */
  lemma ARowSentTwice()
    ensures var rows := ["abc", "def"];
            SentBy(0, rows, 5) + [rows] == [["abc"], ["abc", "def"]]
  {
    assert ["abc", "def"][..1] == ["abc"] && ["abc"][..0] == [];
    assert TotalLength(["abc"]) == 3;
  }
}
