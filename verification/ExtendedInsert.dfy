/** How mysqldump packs rows into multi-row INSERT statements. */
module ExtendedInsert {

  type Group = seq<string>

  ghost function Flatten(gs: seq<Group>): seq<string> {
    if gs == [] then [] else gs[0] + Flatten(gs[1..])
  }

  /** The accounting of the source: 2 for each row, and 4 with the start of the statement. */
  ghost function RowsWeight(g: Group): nat {
    if g == [] then 0 else 2 + |g[0]| + RowsWeight(g[1..])
  }

  ghost function Weight(pat: string, g: Group): nat {
    |pat| + 4 + RowsWeight(g)
  }

  /** A single row always fits; more rows must stay below the limit. */
  ghost predicate Fits(pat: string, limit: nat, g: Group) {
    g != [] && (|g| >= 2 ==> Weight(pat, g) < limit)
  }

  ghost predicate AllFit(pat: string, limit: nat, gs: seq<Group>) {
    gs == [] || (Fits(pat, limit, gs[0]) && AllFit(pat, limit, gs[1..]))
  }

  /** Every group fits, and would not with the first row of the next group. */
  ghost predicate Greedy(pat: string, limit: nat, gs: seq<Group>) {
    gs == [] || (&& Fits(pat, limit, gs[0]) && Greedy(pat, limit, gs[1..])
                 && (|gs| > 1 ==> gs[1] != [] && !Fits(pat, limit, gs[0] + [gs[1][0]])))
  }

  // --- the statements as text ---

  ghost function Commas(g: Group): string {
    if g == [] then "" else if |g| == 1 then g[0] else Commas(g[..|g| - 1]) + "," + g[|g| - 1]
  }

  /** The statements, all but the last one ended. */
  ghost function Open(pat: string, gs: seq<Group>): string {
    if gs == [] then ""
    else Closed(pat, gs[..|gs| - 1]) + pat + Commas(gs[|gs| - 1])
  }

  ghost function Closed(pat: string, gs: seq<Group>): string {
    if gs == [] then "" else Closed(pat, gs[..|gs| - 1]) + pat + Commas(gs[|gs| - 1]) + ";\n"
  }

  /** A statement is shorter than what the accounting says. */
  lemma {:induction false} CommasLength(g: Group)
    requires g != []
    ensures |Commas(g)| + |g| + 1 == RowsWeight(g)
  {
    if |g| > 1 {
      var n := |g| - 1;
      CommasLength(g[..n]);
      WeightOfSum(g[..n], [g[n]]);
      assert g == g[..n] + [g[n]];
    }
  }

  lemma {:induction false} WeightOfSum(a: Group, b: Group)
    ensures RowsWeight(a + b) == RowsWeight(a) + RowsWeight(b)
  {
    if a == [] {
      assert a + b == b;
    } else {
      WeightOfSum(a[1..], b);
      assert (a + b)[1..] == a[1..] + b;
    }
  }

  /** The text of a statement, from its first row on. */
  ghost function Statement(pat: string, g: Group): string
    requires g != []
  {
    pat + g[0] + MoreRows(g[1..]) + ";\n"
  }

  ghost function MoreRows(g: Group): string {
    if g == [] then "" else "," + g[0] + MoreRows(g[1..])
  }

  lemma {:induction false} CommasAre(g: Group)
    requires g != []
    ensures Commas(g) == g[0] + MoreRows(g[1..])
  {
    if |g| > 1 {
      var n := |g| - 1;
      CommasAre(g[..n]);
      MoreRowsEnd(g[1..]);
      assert g[..n][1..] == g[1..][..n - 1];
    }
  }

  lemma {:induction false} MoreRowsEnd(g: Group)
    requires g != []
    ensures MoreRows(g) == MoreRows(g[..|g| - 1]) + "," + g[|g| - 1]
  {
    if |g| > 1 {
      MoreRowsEnd(g[1..]);
      assert g[1..][..|g| - 2] == g[..|g| - 1][1..];
    }
  }

  /** The statements one after the other. */
  ghost function Statements(pat: string, gs: seq<Group>): string {
    if gs == [] then "" else (if gs[0] == [] then "" else Statement(pat, gs[0])) + Statements(pat, gs[1..])
  }

  lemma {:induction false} StatementsEnd(pat: string, gs: seq<Group>)
    requires gs != [] && gs[|gs| - 1] != []
    ensures Statements(pat, gs) == Statements(pat, gs[..|gs| - 1]) + Statement(pat, gs[|gs| - 1])
  {
    if |gs| > 1 {
      StatementsEnd(pat, gs[1..]);
      assert gs[1..][..|gs| - 2] == gs[..|gs| - 1][1..];
    }
  }

  /** What is written for a grouping is its statements: the start, the rows with commas between, and the end. */
  lemma {:induction false} WrittenAreStatements(pat: string, gs: seq<Group>)
    requires forall i :: 0 <= i < |gs| ==> gs[i] != []
    ensures Closed(pat, gs) == Statements(pat, gs)
    decreases |gs|
  {
    if gs != [] {
      var n := |gs| - 1;
      WrittenAreStatements(pat, gs[..n]);
      StatementsEnd(pat, gs);
      CommasAre(gs[n]);
      Regroup(Statements(pat, gs[..n]), pat, gs[n][0], MoreRows(gs[n][1..]), ";\n");
    }
  }

  lemma Regroup(a: string, b: string, c: string, d: string, e: string)
    ensures a + b + (c + d) + e == a + (b + c + d + e)
  {
  }

  /** A group of two or more rows fits exactly if its text, one for each row and three are below the limit. */
  lemma FitsByText(pat: string, limit: nat, g: Group)
    requires g != []
    ensures Fits(pat, limit, g) <==> |g| == 1 || |Statement(pat, g)| + |g| + 3 < limit
  {
    CommasLength(g);
    CommasAre(g);
  }

  /** Every statement of two or more rows is shorter than the limit. */
  lemma {:induction false} StatementsBelowLimit(pat: string, limit: nat, gs: seq<Group>, i: nat)
    requires Greedy(pat, limit, gs) && i < |gs| && |gs[i]| >= 2
    ensures |pat + Commas(gs[i]) + ";\n"| < limit
  {
    if i == 0 {
      CommasLength(gs[0]);
    } else {
      StatementsBelowLimit(pat, limit, gs[1..], i - 1);
    }
  }

  // --- no grouping has fewer statements ---

  lemma PrefixFits(pat: string, limit: nat, g: Group, n: nat)
    requires Fits(pat, limit, g) && 0 < n <= |g|
    ensures Fits(pat, limit, g[..n])
  {
    WeightOfSum(g[..n], g[n..]);
    assert g == g[..n] + g[n..];
  }

  lemma SuffixFits(pat: string, limit: nat, g: Group, n: nat)
    requires Fits(pat, limit, g) && n < |g|
    ensures Fits(pat, limit, g[n..])
  {
    WeightOfSum(g[..n], g[n..]);
    assert g == g[..n] + g[n..];
  }

  /** A grouping without its first n rows; no group is added. */
  lemma {:induction false} WithoutFirst(pat: string, limit: nat, gs: seq<Group>, n: nat) returns (hs: seq<Group>)
    requires AllFit(pat, limit, gs) && n <= |Flatten(gs)|
    ensures AllFit(pat, limit, hs) && Flatten(hs) == Flatten(gs)[n..] && |hs| <= |gs|
    decreases |gs|
  {
    if n == 0 {
      hs := gs;
    } else if n < |gs[0]| {
      SuffixFits(pat, limit, gs[0], n);
      hs := [gs[0][n..]] + gs[1..];
    } else {
      hs := WithoutFirst(pat, limit, gs[1..], n - |gs[0]|);
      assert Flatten(gs) == gs[0] + Flatten(gs[1..]);
    }
  }

  /** A greedy grouping has as few groups as any other one that fits. */
  lemma {:induction false} GreedyIsLeast(pat: string, limit: nat, gs: seq<Group>, hs: seq<Group>)
    requires Greedy(pat, limit, gs) && AllFit(pat, limit, hs) && Flatten(gs) == Flatten(hs)
    ensures |gs| <= |hs|
    decreases |gs|
  {
    if gs != [] {
      assert hs != [];
      var n, m := |gs[0]|, |hs[0]|;
      FirstIsLongest(pat, limit, gs, hs);
      var rest := WithoutFirst(pat, limit, hs[1..], n - m);
      Split(gs, hs);
      GreedyIsLeast(pat, limit, gs[1..], rest);
    }
  }

  lemma Split(gs: seq<Group>, hs: seq<Group>)
    requires gs != [] && hs != [] && Flatten(gs) == Flatten(hs) && |hs[0]| <= |gs[0]|
    ensures |gs[0]| - |hs[0]| <= |Flatten(hs[1..])| && Flatten(gs[1..]) == Flatten(hs[1..])[|gs[0]| - |hs[0]|..]
  {
    var all, n, m := Flatten(gs), |gs[0]|, |hs[0]|;
    assert all[n..] == Flatten(gs[1..]) && all[m..] == Flatten(hs[1..]);
    assert all[m..][n - m..] == all[n..];
  }

  lemma FirstIsLongest(pat: string, limit: nat, gs: seq<Group>, hs: seq<Group>)
    requires Greedy(pat, limit, gs) && AllFit(pat, limit, hs) && Flatten(gs) == Flatten(hs) && gs != [] && hs != []
    ensures |hs[0]| <= |gs[0]|
  {
    var all, n := Flatten(gs), |gs[0]|;
    if |gs| == 1 {
      assert Flatten(gs[1..]) == [];
    } else {
      NextRow(gs);
      assert n < |hs[0]| ==> hs[0][..n + 1] == all[..n + 1];
      if n < |hs[0]| {
        PrefixFits(pat, limit, hs[0], n + 1);
        assert false;
      }
    }
  }

  lemma NextRow(gs: seq<Group>)
    requires |gs| > 1 && gs[1] != []
    ensures var n := |gs[0]|; n < |Flatten(gs)| && Flatten(gs)[..n + 1] == gs[0] + [gs[1][0]]
  {
    assert Flatten(gs[1..])[0] == gs[1][0];
  }

  // --- the loop ---

  lemma {:induction false} FlattenMore(gs: seq<Group>, g: Group)
    ensures Flatten(gs + [g]) == Flatten(gs) + g
  {
    if gs == [] {
      assert gs + [g] == [g];
    } else {
      FlattenMore(gs[1..], g);
      assert (gs + [g])[1..] == gs[1..] + [g];
    }
  }

  /** The last group may be replaced by a longer one that fits, or be followed by another group. */
  lemma {:induction false} GreedyMore(pat: string, limit: nat, gs: seq<Group>, g: Group, row: string)
    requires Greedy(pat, limit, gs + [g])
    ensures Fits(pat, limit, g + [row]) ==> Greedy(pat, limit, gs + [g + [row]])
    ensures !Fits(pat, limit, g + [row]) ==> Greedy(pat, limit, gs + [g, [row]])
  {
    if gs == [] {
      assert gs + [g] == [g] && gs + [g + [row]] == [g + [row]] && gs + [g, [row]] == [g, [row]];
      assert [g, [row]][1..] == [[row]];
    } else {
      assert (gs + [g])[1..] == gs[1..] + [g];
      assert (gs + [g + [row]])[1..] == gs[1..] + [g + [row]];
      assert (gs + [g, [row]])[1..] == gs[1..] + [g, [row]];
      GreedyMore(pat, limit, gs[1..], g, row);
    }
  }

  /** The same row in a longer last statement, and in a statement of its own. */
  lemma NextStatement(pat: string, gs: seq<Group>, g: Group, row: string)
    requires g != []
    ensures RowsWeight(g + [row]) == RowsWeight(g) + 2 + |row|
    ensures Open(pat, gs + [g + [row]]) == Open(pat, gs + [g]) + "," + row
    ensures Open(pat, gs + [g, [row]]) == Closed(pat, gs + [g]) + pat + row
    ensures Closed(pat, gs + [g]) == Open(pat, gs + [g]) + ";\n"
  {
    WeightOfSum(g, [row]);
    OpenLast(pat, gs, g);
    OpenLast(pat, gs, g + [row]);
    OpenLast(pat, gs + [g], [row]);
    assert (gs + [g]) + [[row]] == gs + [g, [row]];
    CommasMore(g, row);
    Assoc(Closed(pat, gs) + pat, Commas(g), "," + row);
    Assoc(Closed(pat, gs) + pat + Commas(g), ",", row);
  }

  lemma OpenLast(pat: string, gs: seq<Group>, g: Group)
    ensures Open(pat, gs + [g]) == Closed(pat, gs) + pat + Commas(g)
    ensures Closed(pat, gs + [g]) == Closed(pat, gs) + pat + Commas(g) + ";\n"
  {
    assert (gs + [g])[..|gs|] == gs;
  }

  lemma CommasMore(g: Group, row: string)
    requires g != []
    ensures Commas(g + [row]) == Commas(g) + ("," + row)
  {
    assert (g + [row])[..|g|] == g;
    Assoc(Commas(g), ",", row);
  }

  lemma Assoc(a: string, b: string, c: string)
    ensures a + (b + c) == a + b + c
  {
  }

  /** The groups with one more row. */
  ghost function AddRow(pat: string, limit: nat, gs: seq<Group>, row: string): seq<Group> {
    if gs == [] then [[row]]
    else
      var n := |gs| - 1;
      if Fits(pat, limit, gs[n] + [row]) then gs[..n] + [gs[n] + [row]] else gs + [[row]]
  }

  lemma AddRowKeeps(pat: string, limit: nat, gs: seq<Group>, row: string)
    requires Greedy(pat, limit, gs)
    ensures Greedy(pat, limit, AddRow(pat, limit, gs, row))
    ensures Flatten(AddRow(pat, limit, gs, row)) == Flatten(gs) + [row]
  {
    if gs == [] {
      assert Greedy(pat, limit, [[row]]);
      FlattenMore([], [row]);
    } else {
      var n := |gs| - 1;
      var front, g := gs[..n], gs[n];
      assert gs == front + [g];
      GreedyMore(pat, limit, front, g, row);
      FlattenMore(front, g);
      FlattenMore(front, g + [row]);
      FlattenMore(gs, [row]);
      assert gs + [[row]] == front + [g, [row]];
    }
  }

  lemma {:induction false} GreedyLastFits(pat: string, limit: nat, gs: seq<Group>)
    requires Greedy(pat, limit, gs) && gs != []
    ensures Fits(pat, limit, gs[|gs| - 1])
  {
    if |gs| > 1 {
      GreedyLastFits(pat, limit, gs[1..]);
    }
  }

  lemma {:induction false} GreedyNotEmpty(pat: string, limit: nat, gs: seq<Group>)
    requires Greedy(pat, limit, gs)
    ensures forall i :: 0 <= i < |gs| ==> gs[i] != []
  {
    if gs != [] {
      GreedyNotEmpty(pat, limit, gs[1..]);
      assert forall i :: 0 < i < |gs| ==> gs[i] == gs[1..][i - 1];
    }
  }

  /** What one turn of the loop has to write: a row that goes on, or a row that starts a statement. */
  lemma RowGoesOn(pat: string, limit: nat, gs: seq<Group>, row: string)
    requires Greedy(pat, limit, gs) && gs != [] && Weight(pat, gs[|gs| - 1]) + 2 + |row| < limit
    ensures var hs := AddRow(pat, limit, gs, row);
            && hs != [] && Open(pat, hs) == Open(pat, gs) + "," + row
            && Weight(pat, hs[|hs| - 1]) == Weight(pat, gs[|gs| - 1]) + 2 + |row|
  {
    var n := |gs| - 1;
    var front, g := gs[..n], gs[n];
    GreedyLastFits(pat, limit, gs);
    NextStatement(pat, front, g, row);
    assert gs == front + [g];
    assert Fits(pat, limit, g + [row]);
    assert AddRow(pat, limit, gs, row) == front + [g + [row]];
    LastOf(front, g + [row]);
  }

  lemma LastOf(gs: seq<Group>, g: Group)
    ensures (gs + [g])[|gs + [g]| - 1] == g
  {
  }

  lemma RowStarts(pat: string, limit: nat, gs: seq<Group>, row: string)
    requires Greedy(pat, limit, gs) && gs != [] && Weight(pat, gs[|gs| - 1]) + 2 + |row| >= limit
    ensures var hs := AddRow(pat, limit, gs, row);
            && hs == gs + [[row]] && Open(pat, hs) == Closed(pat, gs) + pat + row
            && Weight(pat, [row]) == 2 + |row| + |pat| + 4
  {
    var n := |gs| - 1;
    var front, g := gs[..n], gs[n];
    GreedyLastFits(pat, limit, gs);
    NextStatement(pat, front, g, row);
    assert gs == front + [g] && gs + [[row]] == front + [g, [row]];
    assert !Fits(pat, limit, g + [row]);
    FirstRow(pat, row);
  }

  lemma FirstRow(pat: string, row: string)
    ensures Open(pat, [[row]]) == pat + row && Weight(pat, [row]) == 2 + |row| + |pat| + 4
  {
    assert [[row]][..0] == [] && Closed(pat, []) == "";
    assert "" + pat + row == pat + row;
    assert RowsWeight([row]) == 2 + |row|;
  }

  lemma ClosedIsOpenEnded(pat: string, gs: seq<Group>)
    ensures Closed(pat, gs) == if gs == [] then "" else Open(pat, gs) + ";\n"
  {
  }

  /** What was written for some rows, with the length of the last statement as the source counts it. */
  ghost predicate Written(pat: string, limit: nat, gs: seq<Group>, out: string, total: nat, rowBreak: bool) {
    && Greedy(pat, limit, gs) && rowBreak == (gs != []) && out == Open(pat, gs)
    && total == if gs == [] then limit else Weight(pat, gs[|gs| - 1])
  }

  /** One turn of the loop over the rows. */
  method WriteRow(pat: string, limit: nat, row: string, before: string, total: nat, rowBreak: bool,
                  ghost gs: seq<Group>)
    returns (out: string, total': nat, rowBreak': bool)
    requires Written(pat, limit, gs, before, total, rowBreak)
    ensures Written(pat, limit, AddRow(pat, limit, gs, row), out, total', rowBreak')
  {
    out, total', rowBreak' := before, total, rowBreak;
    var rowLength := 2 + |row|;
    AddRowKeeps(pat, limit, gs, row);
    if total + rowLength < limit {
      RowGoesOn(pat, limit, gs, row);
      total' := total + rowLength;
      out := out + "," + row;
    } else {
      if rowBreak {
        RowStarts(pat, limit, gs, row);
        ClosedIsOpenEnded(pat, gs);
        out := out + ";\n";
      } else {
        FirstRow(pat, row);
      }
      rowBreak' := true;
      out := out + pat + row;
      total' := rowLength + |pat| + 4;
    }
  }

  /** Write the rows of a table; the groups are the statements written. */
  method WriteRows(pat: string, limit: nat, rows: seq<string>) returns (out: string, ghost gs: seq<Group>)
    ensures Greedy(pat, limit, gs) && Flatten(gs) == rows && out == Statements(pat, gs)
  {
    var total, rowBreak := limit, false;
    out, gs := "", [];
    for i := 0 to |rows|
      invariant Written(pat, limit, gs, out, total, rowBreak) && Flatten(gs) == rows[..i]
    {
      AddRowKeeps(pat, limit, gs, rows[i]);
      out, total, rowBreak := WriteRow(pat, limit, rows[i], out, total, rowBreak, gs);
      gs := AddRow(pat, limit, gs, rows[i]);
      assert rows[..i + 1] == rows[..i] + [rows[i]];
    }
    ClosedIsOpenEnded(pat, gs);
    GreedyNotEmpty(pat, limit, gs);
    WrittenAreStatements(pat, gs);
    if rowBreak {
      out := out + ";\n";
    }
  }
}
