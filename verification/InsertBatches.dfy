/** How the text of an INSERT's rows is cut into queries. */
module InsertBatches {
  import opened Basics
  import opened Sequences

  const MAX_QUERY_SIZE := 8 * 1024 * 1024
  const SIZE_T := 0x1_0000_0000_0000_0000

  // ----- Rows and their text ----------------------------------------------------------------

  /** The rows in parentheses, with commas between them. */
  function Text(rows: seq<string>): string {
    if rows == [] then ""
    else if |rows| == 1 then "(" + rows[0] + ")"
    else "(" + rows[0] + ")" + "," + Text(rows[1..])
  }

  /** The separator of two rows begins at `p`. */
  predicate SeparatorAt(t: string, p: nat) {
    p + 2 < |t| && t[p] == ')' && t[p + 1] == ',' && t[p + 2] == '('
  }

  /** A row that cannot be mistaken for two. */
  ghost predicate Clean(row: string) {
    forall p: nat :: !SeparatorAt(row, p)
  }

  ghost predicate AllClean(rows: seq<string>) {
    forall i :: 0 <= i < |rows| ==> Clean(rows[i])
  }

  lemma {:induction false} TextSnoc(rows: seq<string>, row: string)
    ensures Text(rows + [row]) == if rows == [] then "(" + row + ")" else Text(rows) + "," + "(" + row + ")"
  {
    if rows == [] {
      assert [] + [row] == [row];
    } else {
      TextSnoc(rows[1..], row);
      var more := rows + [row];
      assert more[1..] == rows[1..] + [row] && more[0] == rows[0];
      var front := "(" + rows[0] + ")" + ",";
      assert Text(more) == front + Text(rows[1..] + [row]);
      Joined(front, if |rows| == 1 then "" else Text(rows[1..]) + ",", row);
      if |rows| == 1 {
        assert front == Text(rows) + ",";
      } else {
        Associative(front, Text(rows[1..]), ",");
      }
    }
  }

  lemma Joined(front: string, text: string, row: string)
    ensures front + (text + "(" + row + ")") == front + text + "(" + row + ")"
    ensures text == "" ==> text + "(" + row + ")" == "(" + row + ")" && front + text == front
  {
    Associative(front, text + "(" + row, ")");
    Associative(front, text + "(", row);
    Associative(front, text, "(");
    assert text == "" ==> text + "(" == "(";
  }

  /** The place behind the first `k` rows, where the separator begins. */
  function Cut(rows: seq<string>, k: nat): nat
    requires 0 < k <= |rows|
  {
    if k == 1 then |rows[0]| + 1 else |rows[0]| + 3 + Cut(rows[1..], k - 1)
  }

  /** Cutting there gives the text of the rows before and of the rows behind. */
  lemma {:induction false} CutSplits(rows: seq<string>, k: nat)
    requires 0 < k < |rows|
    ensures var t, p := Text(rows), Cut(rows, k);
            && SeparatorAt(t, p) && t[..p + 1] == Text(rows[..k]) && t[p + 2..] == Text(rows[k..])
  {
    var t, p := Text(rows), Cut(rows, k);
    var front := "(" + rows[0] + ")" + ",";
    var rest := Text(rows[1..]);
    assert t == front + rest && |front| == |rows[0]| + 3;
    assert rest[0] == '(';
    if k == 1 {
      assert rows[..1] == [rows[0]];
    } else {
      CutSplits(rows[1..], k - 1);
      var q := Cut(rows[1..], k - 1);
      assert rows[1..][..k - 1] == rows[..k][1..] && rows[1..][k - 1..] == rows[k..];
      assert t[..p + 1] == front + rest[..q + 1];
      assert t[p + 2..] == rest[q + 2..];
    }
  }

  lemma SeparatorInside(t: string, row: string, p: nat)
    requires |t| >= |row| + 2 && t[1..|row| + 1] == row && t[|row| + 1] == ')'
    requires 0 < p < |row| + 1 && SeparatorAt(t, p)
    ensures SeparatorAt(row, p - 1)
  {
    assert row[p - 1] == t[p];
    assert p < |row| ==> row[p] == t[p + 1];
    assert p + 1 < |row| ==> row[p + 1] == t[p + 2];
  }

  /** In clean rows, separators begin nowhere else. */
  lemma {:induction false} SeparatorIsCut(rows: seq<string>, p: nat) returns (k: nat)
    requires AllClean(rows) && SeparatorAt(Text(rows), p)
    ensures 0 < k < |rows| && p == Cut(rows, k)
  {
    var row, n := rows[0], |rows[0]|;
    var t := Text(rows);
    var behind := if |rows| == 1 then ")" else ")" + ("," + Text(rows[1..]));
    assert t == "(" + row + behind;
    assert t[0] == '(' && t[n + 1] == behind[0] && t[1..n + 1] == row;
    assert p != 0 && Clean(row);
    if p < n + 1 {
      SeparatorInside(t, row, p);
      assert false;
    } else if p == n + 1 {
      k := 1;
    } else {
      var front := "(" + row + ")" + ",";
      assert t == front + Text(rows[1..]);
      assert |front| == n + 3 && t[n + 2] == front[n + 2] == ',';
      assert SeparatorAt(Text(rows[1..]), p - n - 3);
      k := SeparatorIsCut(rows[1..], p - n - 3);
      k := k + 1;
    }
  }

  // ----- Cutting the text -------------------------------------------------------------------

  /** The last separator that begins at `p` or before it. */
  function RFind(t: string, p: nat): (r: Option<nat>)
    ensures r.Some? ==> r.value <= p && SeparatorAt(t, r.value)
    ensures forall q: nat | q <= p && SeparatorAt(t, q) :: r.Some? && q <= r.value
  {
    if SeparatorAt(t, p) then Some(p)
    else if p == 0 then None
    else RFind(t, p - 1)
  }

  function DropComma(t: string): string
    requires t != ""
  {
    if t[|t| - 1] == ',' then t[..|t| - 1] else t
  }

  /** The pieces into which `execute` cuts the text of the values; None when it finds no place to cut. */
  function Pieces(t: string, cut: nat): Option<seq<string>>
    decreases |t|
  {
    if t == "" then Some([])
    else if cut < |t| then
      match RFind(t, cut)
      case None => None
      case Some(p) =>
        match Pieces(t[p + 2..], cut)
        case None => None
        case Some(rest) => Some([DropComma(t[..p + 2])] + rest)
    else Some([DropComma(t)])
  }

  function Concat(groups: seq<seq<string>>): seq<string> {
    if groups == [] then [] else groups[0] + Concat(groups[1..])
  }

  /** The pieces are the texts of groups of whole rows, and no piece is longer than the cut allows. */
  ghost predicate Grouped(pieces: seq<string>, groups: seq<seq<string>>, rows: seq<string>, cut: nat) {
    && |pieces| == |groups| && Concat(groups) == rows
    && forall i :: 0 <= i < |pieces| ==> groups[i] != [] && pieces[i] == Text(groups[i]) && |pieces[i]| <= cut + 1
  }

  lemma FirstGroup(rows: seq<string>, k: nat, pieces: seq<string>, groups: seq<seq<string>>, cut: nat)
    requires 0 < k < |rows| && |Text(rows[..k])| <= cut + 1
    requires Grouped(pieces, groups, rows[k..], cut)
    ensures Grouped([Text(rows[..k])] + pieces, [rows[..k]] + groups, rows, cut)
  {
    assert ([rows[..k]] + groups)[1..] == groups;
    assert rows == rows[..k] + rows[k..];
  }

  lemma TextEnds(rows: seq<string>)
    requires rows != []
    ensures Text(rows) != "" && Text(rows)[|Text(rows)| - 1] == ')' && Text(rows)[0] == '('
  {
  }

  /** Cutting loses no row, splits no row, and keeps the order. */
  lemma {:induction false} PiecesAreRows(rows: seq<string>, cut: nat) returns (groups: seq<seq<string>>)
    requires AllClean(rows) && Pieces(Text(rows), cut).Some?
    ensures Grouped(Pieces(Text(rows), cut).value, groups, rows, cut)
    ensures NoneTakesMore(groups, cut)
    decreases |rows|
  {
    hide Text, Cut, RFind, SeparatorAt, Clean, Grouped, DropComma, NoneTakesMore;
    var t := Text(rows);
    if rows == [] {
      groups := [];
      NoGroups(cut);
      FewGroups(groups, cut);
    } else if cut < |t| {
      TextEnds(rows);
      var p := RFind(t, cut).value;
      var k := SeparatorIsCut(rows, p);
      CutSplits(rows, k);
      DropsComma(t, p);
      CleanBehind(rows, k);
      var rest := PiecesAreRows(rows[k..], cut);
      groups := [rows[..k]] + rest;
      FirstGroup(rows, k, Pieces(Text(rows[k..]), cut).value, rest, cut);
      FirstTakesAll(rows, k, p, cut);
      FirstOf(rest, rows[k..], Pieces(Text(rows[k..]), cut).value, cut);
      OneMoreGroup(rows[..k], rest, rows[k], cut);
      assert Pieces(t, cut).value == [Text(rows[..k])] + Pieces(Text(rows[k..]), cut).value;
    } else {
      TextEnds(rows);
      groups := [rows];
      OneGroup(rows, cut);
      FewGroups(groups, cut);
    }
  }

  /** No batch could have taken the next row too. */
  ghost predicate NoneTakesMore(groups: seq<seq<string>>, cut: nat) {
    forall i :: 0 <= i < |groups| - 1 ==> TakesNoMore(groups, i, cut)
  }

  ghost predicate TakesNoMore(groups: seq<seq<string>>, i: nat, cut: nat)
    requires i < |groups| - 1
  {
    groups[i + 1] != [] && |Text(groups[i] + [groups[i + 1][0]])| > cut
  }

  lemma FewGroups(groups: seq<seq<string>>, cut: nat)
    requires |groups| <= 1
    ensures NoneTakesMore(groups, cut)
  {
  }

  lemma OneMoreGroup(first: seq<string>, rest: seq<seq<string>>, row: string, cut: nat)
    requires NoneTakesMore(rest, cut) && rest != [] && rest[0] != [] && rest[0][0] == row
    requires |Text(first + [row])| > cut
    ensures NoneTakesMore([first] + rest, cut)
  {
    hide Text;
    forall i | 0 <= i < |rest| ensures TakesNoMore([first] + rest, i, cut) {
      if i > 0 { assert TakesNoMore(rest, i - 1, cut); }
    }
  }

  /** The first group of some rows begins with the first of them. */
  lemma FirstOf(groups: seq<seq<string>>, rows: seq<string>, pieces: seq<string>, cut: nat)
    requires rows != [] && Grouped(pieces, groups, rows, cut)
    ensures groups != [] && groups[0] != [] && groups[0][0] == rows[0]
  {
    hide Text;
  }

  /** Where the text is cut, one row more would not have fitted. */
  lemma FirstTakesAll(rows: seq<string>, k: nat, p: nat, cut: nat)
    requires 0 < k < |rows| && cut < |Text(rows)| && RFind(Text(rows), cut) == Some(p) && p == Cut(rows, k)
    ensures |Text(rows[..k] + [rows[k]])| > cut
  {
    assert rows[..k] + [rows[k]] == rows[..k + 1];
    if k + 1 < |rows| {
      CutGrows(rows, k);
      CutSplits(rows, k + 1);
      hide Text, Cut, SeparatorAt;
      assert Text(rows)[..Cut(rows, k + 1) + 1] == Text(rows[..k + 1]);
    } else {
      assert rows[..k + 1] == rows;
    }
  }

  lemma {:induction false} CutGrows(rows: seq<string>, k: nat)
    requires 0 < k < |rows|
    ensures Cut(rows, k) < Cut(rows, k + 1)
  {
    if k > 1 {
      CutGrows(rows[1..], k - 1);
    }
  }

  lemma CleanBehind(rows: seq<string>, k: nat)
    requires AllClean(rows) && k <= |rows|
    ensures AllClean(rows[k..])
  {
    hide Clean;
  }

  lemma DropsComma(t: string, p: nat)
    requires SeparatorAt(t, p)
    ensures t[..p + 2] != "" && DropComma(t[..p + 2]) == t[..p + 1]
  {
  }

  lemma NoGroups(cut: nat)
    ensures Text([]) == "" && Grouped([], [], [], cut)
  {
  }

  lemma OneGroup(rows: seq<string>, cut: nat)
    requires rows != [] && |Text(rows)| <= cut
    ensures Text(rows) != "" && Grouped([DropComma(Text(rows))], [rows], rows, cut)
  {
    TextEnds(rows);
    assert [rows][1..] == [] && rows + [] == rows;
  }

  // ----- When the cutting succeeds ----------------------------------------------------------

  /** Each row finds room behind the cut's budget; the last one must leave room for its closing parenthesis too. */
  predicate Fits(rows: seq<string>, cut: nat) {
    forall i :: 0 <= i < |rows| ==> |rows[i]| + (if i == |rows| - 1 then 2 else 1) <= cut
  }

  lemma {:induction false} RowsWithinText(rows: seq<string>)
    ensures forall i :: 0 <= i < |rows| ==> |rows[i]| + 2 <= |Text(rows)|
  {
    if |rows| > 1 {
      RowsWithinText(rows[1..]);
      assert forall i :: 1 <= i < |rows| ==> rows[i] == rows[1..][i - 1];
    }
  }

  lemma {:induction false} RowsWithinCut(rows: seq<string>, k: nat)
    requires 0 < k <= |rows|
    ensures forall i :: 0 <= i < k ==> |rows[i]| + 1 <= Cut(rows, k)
  {
    if k > 1 {
      RowsWithinCut(rows[1..], k - 1);
      assert forall i :: 1 <= i < k ==> rows[i] == rows[1..][i - 1];
    }
  }

  /** Cutting succeeds exactly for rows that fit. */
  lemma {:induction false} CuttingSucceedsIfRowsFit(rows: seq<string>, cut: nat)
    requires AllClean(rows) && rows != []
    ensures Pieces(Text(rows), cut).Some? <==> Fits(rows, cut)
    decreases |rows|
  {
    hide Text, Cut, Fits, SeparatorAt, AllClean, RFind, DropComma;
    var t := Text(rows);
    TextIsSome(rows);
    if cut < |t| {
      var r := RFind(t, cut);
      if r.Some? {
        var k := SeparatorIsCut(rows, r.value);
        CutSplits(rows, k);
        RowsBehind(rows, k, cut);
        CuttingSucceedsIfRowsFit(rows[k..], cut);
        assert t[r.value + 2..] == Text(rows[k..]);
      } else {
        UncutDoesNotFit(rows, cut);
      }
    } else {
      UncutFits(rows, cut);
    }
  }

  lemma TextIsSome(rows: seq<string>)
    requires rows != []
    ensures |Text(rows)| > 0
  {
  }

  lemma UncutFits(rows: seq<string>, cut: nat)
    requires |Text(rows)| <= cut
    ensures Fits(rows, cut)
  {
    RowsWithinText(rows);
  }

  lemma UncutDoesNotFit(rows: seq<string>, cut: nat)
    requires rows != [] && cut < |Text(rows)| && RFind(Text(rows), cut).None?
    ensures !Fits(rows, cut)
  {
    if |rows| > 1 {
      CutSplits(rows, 1);
      assert |rows[0]| + 1 > cut;
    }
  }

  lemma RowsBehind(rows: seq<string>, k: nat, cut: nat)
    requires AllClean(rows) && 0 < k < |rows| && Cut(rows, k) <= cut
    ensures AllClean(rows[k..]) && rows[k..] != []
    ensures Fits(rows, cut) <==> Fits(rows[k..], cut)
  {
    RowsWithinCut(rows, k);
    assert forall i :: k <= i < |rows| ==> rows[i] == rows[k..][i - k];
    FitsBehind(rows, k, cut);
  }

  lemma FitsBehind(rows: seq<string>, k: nat, cut: nat)
    requires k < |rows| && forall i :: 0 <= i < k ==> |rows[i]| + 1 <= cut
    ensures Fits(rows, cut) <==> Fits(rows[k..], cut)
  {
    if Fits(rows[k..], cut) {
      forall i | 0 <= i < |rows| ensures |rows[i]| + (if i == |rows| - 1 then 2 else 1) <= cut {
        if i >= k { assert rows[i] == rows[k..][i - k]; }
      }
    }
  }

  // ----- The queries --------------------------------------------------------------------------

  /** The room for values in one query; like the program's, the subtraction wraps around. */
  function Budget(baseQuery: string, upsertQuery: string): nat {
    (MAX_QUERY_SIZE - |baseQuery| - |upsertQuery|) % SIZE_T
  }

  /** Base text and upsert clause leave eight megabytes less their length, unless they are longer than that. */
  lemma BudgetIsTheRest(baseQuery: string, upsertQuery: string)
    ensures var fixed := |baseQuery| + |upsertQuery|;
            && (fixed <= 8388608 ==> Budget(baseQuery, upsertQuery) + fixed == 8388608)
            && (8388608 < fixed < SIZE_T ==> Budget(baseQuery, upsertQuery) + fixed == 8388608 + SIZE_T)
  {
    var fixed := |baseQuery| + |upsertQuery|;
    if 8388608 < fixed < SIZE_T {
      assert (8388608 - fixed + SIZE_T) % SIZE_T == (8388608 - fixed) % SIZE_T;
    }
  }

  function Query(baseQuery: string, values: string, upsertQuery: string): string {
    baseQuery + " " + values + upsertQuery
  }

  function Queries(baseQuery: string, pieces: seq<string>, upsertQuery: string): seq<string> {
    seq(|pieces|, i requires 0 <= i < |pieces| => Query(baseQuery, pieces[i], upsertQuery))
  }

  /** When the fixed text leaves room, no query is more than two bytes over the limit. */
  lemma QueriesAreBounded(baseQuery: string, upsertQuery: string, rows: seq<string>, i: nat)
    requires |baseQuery| + |upsertQuery| <= MAX_QUERY_SIZE && AllClean(rows)
    requires Pieces(Text(rows), Budget(baseQuery, upsertQuery)).Some?
    requires i < |Pieces(Text(rows), Budget(baseQuery, upsertQuery)).value|
    ensures var qs := Queries(baseQuery, Pieces(Text(rows), Budget(baseQuery, upsertQuery)).value, upsertQuery);
            |qs[i]| <= 8388610
  {
    var groups := PiecesAreRows(rows, Budget(baseQuery, upsertQuery));
  }
}
