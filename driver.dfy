/** The entry point: raw_parser turns the query text into a list of parse
    trees (NIL on any error), and verify walks that list under a root
    QueryInfo and hands the rewritten tree's text back to the provider. The
    grammar itself is not modelled: what it makes of the text is a
    parameter. */
module Driver {
  import opened Provider
  import opened Nodes
  import opened Walking
  import opened Checker
  import opened WalkFacts
  import opened WalkTrace

  /** What base_yyparse does with the text: it returns a result code, with
      the statements it built when that code is 0, or it raises an error
      that the try block catches. */
  datatype Grammar = Returned(code: int, parsetree: seq<Node>) | Raised

  /** raw_parser's outcome: the list it returns (the empty list standing for
      NIL) and the error flag it sets. */
  datatype RawParse = RawParse(tree: seq<Node>, error: bool)

  /** raw_parser: a raised error counts as result -1; any non-zero result
      sets the error flag and yields NIL. */
  function RawParser(g: Grammar): (r: RawParse)
    ensures r.error <==> g.Raised? || g.code != 0
    ensures r.error ==> r.tree == []
    ensures !r.error ==> r.tree == g.parsetree
  {
    var result := match g case Raised => -1 case Returned(code, _) => code;
    if result != 0 then RawParse([], true)
    else RawParse(g.parsetree, false)
  }

  /** nodeToString of a list; NIL prints as "<>". */
  function RenderTree(ns: seq<Node>): string {
    if |ns| == 0 then Render(Nil) else Render(List(ns))
  }

  /** What verify does to the provider, given whether the memory context
      could be set up, what the grammar makes of the query, and the kind
      the root record happens to hold (verify never sets it). */
  function VerifyRun(ready: bool, g: Grammar, rootKind: QueryType, e: Env): Env {
    if !ready then e
    else
      var tree := RawParser(g).tree;
      if |tree| == 0 then e.NotHandled("error").SetQuery(RenderTree(tree))
      else
        var rs := WalkList(tree, [Scope(rootKind, None)], e);
        rs.env.SetQuery(RenderTree(rs.nodes))
  }

  /** verify. */
  method Verify(ready: bool, g: Grammar, rootKind: QueryType, data: Data)
    modifies data
    ensures data.State() == VerifyRun(ready, g, rootKind, old(data.State()))
  {
    if ready {
      var p := RawParser(g);
      var qi := new QueryInfo(rootKind, null);
      assert Chain(qi) == [Scope(rootKind, None)];
      if |p.tree| == 0 {
        data.NotHandled("error");
        data.SetQuery(RenderTree(p.tree));
      } else {
        var rewritten := CheckList(p.tree, data, qi);
        data.SetQuery(RenderTree(rewritten));
      }
    }
  }

  // ---------------------------------------------------------------------
  // Properties of verify
  // ---------------------------------------------------------------------

  /** Every report a walk issues is the rendering of a node, which starts
      with a brace; so none of them is the parse-error report. */
  lemma {:induction false} ReportsAreRenderings(n: Node)
    ensures forall s :: s in Reports(n) ==> |s| > 0 && s[0] == '{'
    decreases n, 1
  {
    match n
    case List(items) => ReportsAllAreRenderings(items);
    case SortBy(x, _) => ReportsAreRenderings(x);
    case AExpr(l, r) => ReportsAreRenderings(l); ReportsAreRenderings(r);
    case BoolExpr(args) => ReportsAllAreRenderings(args);
    case RangeVar(_, al) => ReportsAreRenderings(al);
    case JoinExpr(l, r, u, q, al) =>
      ReportsAreRenderings(l); ReportsAreRenderings(r); ReportsAreRenderings(u);
      ReportsAreRenderings(q); ReportsAreRenderings(al);
    case AIndirection(a, ind) => ReportsAreRenderings(a); ReportsAreRenderings(ind);
    case ResTarget(v, _) => ReportsAreRenderings(v);
    case FromExpr(fl, q) => ReportsAreRenderings(fl); ReportsAreRenderings(q);
    case Statement(_, cl, _) => ReportsAllAreRenderings(cl);
    case RangeSubselect(q, al) => ReportsAreRenderings(q); ReportsAreRenderings(al);
    case _ =>
  }

  lemma {:induction false} ReportsAllAreRenderings(ns: seq<Node>)
    ensures forall s :: s in ReportsAll(ns) ==> |s| > 0 && s[0] == '{'
    decreases ns, 0
  {
    if |ns| > 0 {
      ReportsAllAreRenderings(ns[..|ns| - 1]);
      ReportsAreRenderings(ns[|ns| - 1]);
    }
  }

  /** verify hands the provider exactly one query text, and reports "error"
      exactly when raw_parser returns NIL: then that is its only report and
      the text is "<>"; otherwise the reports are those of the walk. Without
      a memory context nothing happens at all. */
  lemma VerifyReports(ready: bool, g: Grammar, rootKind: QueryType, e: Env)
    ensures var e2 := VerifyRun(ready, g, rootKind, e);
            && (!ready ==> e2 == e)
            && (ready ==> |e2.queries| == |e.queries| + 1 && e2.queries[..|e.queries|] == e.queries)
            && (ready && RawParser(g).tree == [] ==>
                  e2.reports == e.reports + ["error"] && e2.queries[|e.queries|] == "<>")
            && (ready && RawParser(g).tree != [] ==>
                  e2.reports == e.reports + ReportsAll(RawParser(g).tree) && "error" !in ReportsAll(RawParser(g).tree))
  {
    var tree := RawParser(g).tree;
    if ready && tree != [] {
      WalkListLogs(tree, [Scope(rootKind, None)], e);
      ReportsAllAreRenderings(tree);
    }
  }

  /** A parse error always takes the NIL path; an empty query that parses
      takes it too. */
  lemma ParseErrorReportsError(g: Grammar, rootKind: QueryType, e: Env)
    requires RawParser(g).error || g == Returned(0, [])
    ensures VerifyRun(true, g, rootKind, e) == e.NotHandled("error").SetQuery("<>")
  {
  }

  /** The query text is the rendering of a tree of the same shape as the
      parsed one: only table names and the heads of qualified column
      references differ. The walk removes one table per statement and
      sub-select, and nothing else about the lookups changes. */
  lemma VerifyQueryText(g: Grammar, rootKind: QueryType, e: Env)
    requires RawParser(g).tree != []
    ensures var tree := RawParser(g).tree;
            var e2 := VerifyRun(true, g, rootKind, e);
            && e2.rel == e.rel && e2.relFor == e.relFor
            && |e2.removals| == |e.removals| + ScopesAll(tree)
            && exists out :: |out| == |tree| && EraseAll(out) == EraseAll(tree)
                             && e2.queries == e.queries + [RenderTree(out)]
  {
    var tree := RawParser(g).tree;
    var sc := [Scope(rootKind, None)];
    WalkListLogs(tree, sc, e);
    WalkListKeepsShape(tree, sc, e);
    var out := WalkList(tree, sc, e).nodes;
    assert |out| == |tree| && EraseAll(out) == EraseAll(tree);
  }

  /** Statements drop their own tables, but nothing drops the root record's:
      verify leaves behind exactly one new table, holding the names the
      top-level items declare in the root scope, when there are any. */
  lemma VerifyTables(ready: bool, g: Grammar, rootKind: QueryType, e: Env)
    requires e.Valid()
    ensures var e2 := VerifyRun(ready, g, rootKind, e);
            var d := if ready then DeclaredAll(RawParser(g).tree) else {};
            && e2.Valid()
            && (d == {} ==> e2.tables == e.tables)
            && (d != {} ==> exists h: Handle :: h !in e.tables && e2.tables == e.tables[h := d])
  {
    var tree := RawParser(g).tree;
    var sc := [Scope(rootKind, None)];
    if ready && tree != [] {
      WalkListEvolves(tree, sc, e);
      var rs := WalkList(tree, sc, e);
      if rs.table.Some? {
        var h := rs.table.value;
        var want := e.tables[h := DeclaredAll(tree)];
        assert h !in e.tables && rs.env.tables.Keys == want.Keys;
        assert forall k :: k in want ==> rs.env.tables[k] == want[k];
        assert rs.env.tables == want;
      } else {
        assert rs.env.tables == e.tables;
      }
    }
  }
}
