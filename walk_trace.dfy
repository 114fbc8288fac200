/** What a walk leaves behind besides the alias tables: the notHandled
    reports, the removeTable calls, the untouched lookups and query log, and
    a tree that differs from the input only in the names the provider
    rewrites. */
module WalkTrace {
  import opened Provider
  import opened Nodes
  import opened Walking
  import opened WalkFacts

  // ---------------------------------------------------------------------
  // Reference definitions, read off the tree alone
  // ---------------------------------------------------------------------

  /** The reports a walk issues, in order: one rendering per function call
      other than row_number and per node kind the switch does not name, in
      every walked position. Leaves, constants, parameters, type casts,
      target entries and common table expressions report nothing, and the
      arguments of a call and the children of an unnamed node are never
      visited. */
  function Reports(n: Node): seq<string>
    decreases n
  {
    match n
    case List(items) => ReportsAll(items)
    case SortBy(x, _) => Reports(x)
    case AExpr(l, r) => Reports(l) + Reports(r)
    case BoolExpr(args) => ReportsAll(args)
    case RangeVar(_, al) => Reports(al)
    case JoinExpr(l, r, u, q, al) => Reports(l) + Reports(r) + Reports(u) + Reports(q) + Reports(al)
    case AIndirection(a, ind) => Reports(a) + Reports(ind)
    case ResTarget(v, _) => Reports(v)
    case FromExpr(fl, q) => Reports(fl) + Reports(q)
    case Statement(_, cl, _) => ReportsAll(cl)
    case FuncCall(f, _) => if IsRowNumber(f) then [] else [Render(n)]
    case RangeSubselect(q, al) => Reports(q) + Reports(al)
    case Other(_, _) => [Render(n)]
    case _ => []
  }

  function ReportsAll(ns: seq<Node>): seq<string>
    decreases ns
  {
    if |ns| == 0 then [] else ReportsAll(ns[..|ns| - 1]) + Reports(ns[|ns| - 1])
  }

  /** How many scopes a walk opens: one per statement and per sub-select in
      a walked position. */
  function Scopes(n: Node): nat
    decreases n
  {
    match n
    case List(items) => ScopesAll(items)
    case SortBy(x, _) => Scopes(x)
    case AExpr(l, r) => Scopes(l) + Scopes(r)
    case BoolExpr(args) => ScopesAll(args)
    case RangeVar(_, al) => Scopes(al)
    case JoinExpr(l, r, u, q, al) => Scopes(l) + Scopes(r) + Scopes(u) + Scopes(q) + Scopes(al)
    case AIndirection(a, ind) => Scopes(a) + Scopes(ind)
    case ResTarget(v, _) => Scopes(v)
    case FromExpr(fl, q) => Scopes(fl) + Scopes(q)
    case Statement(_, cl, _) => 1 + ScopesAll(cl)
    case RangeSubselect(q, al) => 1 + Scopes(q) + Scopes(al)
    case _ => 0
  }

  function ScopesAll(ns: seq<Node>): nat
    decreases ns
  {
    if |ns| == 0 then 0 else ScopesAll(ns[..|ns| - 1]) + Scopes(ns[|ns| - 1])
  }

  /** The tree with every name the walker may rewrite blanked out: range
      variable names, and the string head of a column reference with more
      than one field. Positions the walker never visits are kept as they
      are. */
  function Erase(n: Node): Node
    decreases n
  {
    match n
    case List(items) => List(EraseAll(items))
    case SortBy(x, name) => SortBy(Erase(x), name)
    case AExpr(l, r) => AExpr(Erase(l), Erase(r))
    case BoolExpr(args) => BoolExpr(EraseAll(args))
    case RangeVar(_, al) => RangeVar("", Erase(al))
    case JoinExpr(l, r, u, q, al) => JoinExpr(Erase(l), Erase(r), Erase(u), Erase(q), Erase(al))
    case AIndirection(a, ind) => AIndirection(Erase(a), Erase(ind))
    case ResTarget(v, ind) => ResTarget(Erase(v), ind)
    case ColumnRef(fields) => if |fields| > 1 then ColumnRef(EraseHead(fields)) else n
    case FromExpr(fl, q) => FromExpr(Erase(fl), Erase(q))
    case Statement(k, cl, u) => Statement(k, EraseAll(cl), u)
    case RangeSubselect(q, al) => RangeSubselect(Erase(q), Erase(al))
    case _ => n
  }

  function EraseAll(ns: seq<Node>): (r: seq<Node>)
    ensures |r| == |ns|
    decreases ns
  {
    if |ns| == 0 then [] else EraseAll(ns[..|ns| - 1]) + [Erase(ns[|ns| - 1])]
  }

  function EraseHead(fields: seq<Node>): seq<Node>
    requires |fields| > 0
  {
    match fields[0]
    case Str(_) => [Str("")] + fields[1..]
    case BitStr(_) => [BitStr("")] + fields[1..]
    case _ => fields
  }

  /** e2 is e with the given reports and k removeTable calls appended, and
      the lookups and the query log as they were. */
  predicate Appends(e: Env, e2: Env, reports: seq<string>, k: nat) {
    && e2.rel == e.rel && e2.relFor == e.relFor && e2.queries == e.queries
    && e2.reports == e.reports + reports
    && |e2.removals| == |e.removals| + k && e2.removals[..|e.removals|] == e.removals
  }

  // ---------------------------------------------------------------------
  // Logs
  // ---------------------------------------------------------------------

  lemma AppendsThen(e1: Env, e2: Env, e3: Env, r1: seq<string>, r2: seq<string>, k1: nat, k2: nat)
    requires Appends(e1, e2, r1, k1) && Appends(e2, e3, r2, k2)
    ensures Appends(e1, e3, r1 + r2, k1 + k2)
  {
    assert e3.reports == e1.reports + (r1 + r2);
    assert e3.removals[..|e1.removals|] == e2.removals[..|e2.removals|][..|e1.removals|];
  }

  lemma AppendsRemoval(e: Env, t: Option<Handle>)
    ensures Appends(e, e.RemoveTable(t), [], 1)
  {
    assert e.reports + [] == e.reports;
  }

  lemma AppendsNothing(e: Env)
    ensures Appends(e, e, [], 0)
  {
    assert e.reports + [] == e.reports;
  }

  lemma RegisterAliasAppends(name: string, t: Option<Handle>, e: Env)
    ensures Appends(e, RegisterAlias(name, t, e).1, [], 0)
  {
    assert e.reports + [] == e.reports;
  }

  /** Every report the walk issues is one that the tree calls for, in tree
      order; it opens and removes one scope per statement and sub-select;
      and it never touches the lookups or the query log. */
  lemma {:induction false} WalkLogs(n: Node, sc: seq<Scope>, e: Env)
    requires |sc| > 0
    ensures Appends(e, Walk(n, sc, e).env, Reports(n), Scopes(n))
    decreases n, 2
  {
    if Inert(n) {
      InertLogs(n, sc, e);
    } else if n.List? || n.SortBy? || n.Alias? || n.AExpr? || n.BoolExpr? || n.RangeVar? {
      ExpressionLogs(n, sc, e);
    } else {
      ClauseLogs(n, sc, e);
    }
  }

  lemma InertLogs(n: Node, sc: seq<Scope>, e: Env)
    requires |sc| > 0 && Inert(n)
    ensures Appends(e, Walk(n, sc, e).env, Reports(n), Scopes(n))
  {
    assert e.reports + [] == e.reports;
  }

  lemma {:induction false} ExpressionLogs(n: Node, sc: seq<Scope>, e: Env)
    requires |sc| > 0
    requires n.List? || n.SortBy? || n.Alias? || n.AExpr? || n.BoolExpr? || n.RangeVar?
    ensures Appends(e, Walk(n, sc, e).env, Reports(n), Scopes(n))
    decreases n, 1
  {
    match n
    case List(items) => WalkListLogs(items, sc, e);
    case SortBy(x, name) =>
      var r := Walk(x, sc, e);
      WalkLogs(x, sc, e);
      RegisterAliasAppends(name, r.table, r.env);
      AppendsThen(e, r.env, RegisterAlias(name, r.table, r.env).1, Reports(x), [], Scopes(x), 0);
      assert Reports(x) + [] == Reports(x);
    case Alias(name) => RegisterAliasAppends(name, sc[0].table, e);
    case AExpr(_, _) => TwoLogs(n, sc, e);
    case BoolExpr(args) => WalkListLogs(args, sc, e);
    case RangeVar(_, al) => WalkLogs(al, sc, e);
  }

  lemma {:induction false} ClauseLogs(n: Node, sc: seq<Scope>, e: Env)
    requires |sc| > 0
    requires n.JoinExpr? || n.AIndirection? || n.ResTarget? || n.FromExpr? || n.Statement? || n.RangeSubselect?
    ensures Appends(e, Walk(n, sc, e).env, Reports(n), Scopes(n))
    decreases n, 1
  {
    match n
    case JoinExpr(_, _, _, _, _) => JoinExprLogs(n, sc, e);
    case AIndirection(_, _) => TwoLogs(n, sc, e);
    case ResTarget(v, _) => WalkLogs(v, sc, e);
    case FromExpr(_, _) => TwoLogs(n, sc, e);
    case Statement(_, _, _) => StatementLogs(n, sc, e);
    case RangeSubselect(_, _) => RangeSubselectLogs(n, sc, e);
  }

  lemma {:induction false} StatementLogs(n: Node, sc: seq<Scope>, e: Env)
    requires |sc| > 0 && n.Statement?
    ensures Appends(e, Walk(n, sc, e).env, Reports(n), Scopes(n))
    decreases n, 0
  {
    var inner := [Scope(n.kind, None)] + sc;
    var rs := WalkList(n.clauses, inner, e);
    WalkListLogs(n.clauses, inner, e);
    AppendsRemoval(rs.env, rs.table);
    AppendsThen(e, rs.env, rs.env.RemoveTable(rs.table), ReportsAll(n.clauses), [], ScopesAll(n.clauses), 1);
    assert ReportsAll(n.clauses) + [] == ReportsAll(n.clauses);
  }

  lemma {:induction false} RangeSubselectLogs(n: Node, sc: seq<Scope>, e: Env)
    requires |sc| > 0 && n.RangeSubselect?
    ensures Appends(e, Walk(n, sc, e).env, Reports(n), Scopes(n))
    decreases n, 0
  {
    var q, al := n.subquery, n.alias;
    var r1 := Walk(q, [Scope(Select, None)] + sc, e);
    WalkLogs(q, [Scope(Select, None)] + sc, e);
    var r2 := Walk(al, sc, r1.env);
    WalkLogs(al, sc, r1.env);
    AppendsThen(e, r1.env, r2.env, Reports(q), Reports(al), Scopes(q), Scopes(al));
    AppendsRemoval(r2.env, r1.table);
    AppendsThen(e, r2.env, r2.env.RemoveTable(r1.table), Reports(q) + Reports(al), [], Scopes(q) + Scopes(al), 1);
    assert Reports(q) + Reports(al) + [] == Reports(n);
  }

  lemma {:induction false} TwoLogs(n: Node, sc: seq<Scope>, e: Env)
    requires |sc| > 0 && (n.AExpr? || n.AIndirection? || n.FromExpr?)
    ensures Appends(e, Walk(n, sc, e).env, Reports(n), Scopes(n))
    decreases n, 0
  {
    var a := if n.AExpr? then n.lexpr else if n.AIndirection? then n.arg else n.fromlist;
    var b := if n.AExpr? then n.rexpr else if n.AIndirection? then n.indirection else n.quals;
    var r1 := Walk(a, sc, e);
    WalkLogs(a, sc, e);
    WalkLogs(b, WithTop(sc, r1.table), r1.env);
    AppendsThen(e, r1.env, Walk(b, WithTop(sc, r1.table), r1.env).env, Reports(a), Reports(b), Scopes(a), Scopes(b));
  }

  lemma {:induction false} JoinExprLogs(n: Node, sc: seq<Scope>, e: Env)
    requires |sc| > 0 && n.JoinExpr?
    ensures Appends(e, Walk(n, sc, e).env, Reports(n), Scopes(n))
    decreases n, 0
  {
    var r1 := Walk(n.larg, sc, e);
    var r2 := Walk(n.rarg, WithTop(sc, r1.table), r1.env);
    var r3 := Walk(n.usingClause, WithTop(sc, r2.table), r2.env);
    var r4 := Walk(n.quals, WithTop(sc, r3.table), r3.env);
    var r5 := Walk(n.alias, WithTop(sc, r4.table), r4.env);
    WalkLogs(n.larg, sc, e);
    WalkLogs(n.rarg, WithTop(sc, r1.table), r1.env);
    WalkLogs(n.usingClause, WithTop(sc, r2.table), r2.env);
    WalkLogs(n.quals, WithTop(sc, r3.table), r3.env);
    WalkLogs(n.alias, WithTop(sc, r4.table), r4.env);
    var p2, k2 := Reports(n.larg) + Reports(n.rarg), Scopes(n.larg) + Scopes(n.rarg);
    AppendsThen(e, r1.env, r2.env, Reports(n.larg), Reports(n.rarg), Scopes(n.larg), Scopes(n.rarg));
    AppendsThen(e, r2.env, r3.env, p2, Reports(n.usingClause), k2, Scopes(n.usingClause));
    var p3, k3 := p2 + Reports(n.usingClause), k2 + Scopes(n.usingClause);
    AppendsThen(e, r3.env, r4.env, p3, Reports(n.quals), k3, Scopes(n.quals));
    var p4, k4 := p3 + Reports(n.quals), k3 + Scopes(n.quals);
    AppendsThen(e, r4.env, r5.env, p4, Reports(n.alias), k4, Scopes(n.alias));
  }

  lemma {:induction false} WalkListLogs(items: seq<Node>, sc: seq<Scope>, e: Env)
    requires |sc| > 0
    ensures Appends(e, WalkList(items, sc, e).env, ReportsAll(items), ScopesAll(items))
    decreases items
  {
    if |items| == 0 {
      AppendsNothing(e);
    } else {
      var init, last := items[..|items| - 1], items[|items| - 1];
      var rs := WalkList(init, sc, e);
      WalkListLogs(init, sc, e);
      WalkLogs(last, WithTop(sc, rs.table), rs.env);
      AppendsThen(e, rs.env, Walk(last, WithTop(sc, rs.table), rs.env).env,
                  ReportsAll(init), Reports(last), ScopesAll(init), Scopes(last));
    }
  }

  /** The nodes that report on their own: a function call exactly when it
      is not row_number, and every node kind the switch does not name, each
      with one report; the leaves and the kinds the switch skips change
      nothing at all. */
  lemma NodeReports(n: Node, sc: seq<Scope>, e: Env)
    requires |sc| > 0
    ensures n.FuncCall? ==> (Walk(n, sc, e).env.reports == e.reports <==> IsRowNumber(n.funcname))
    ensures (n.FuncCall? && !IsRowNumber(n.funcname)) || n.Other? ==>
              Walk(n, sc, e) == Step(n, sc[0].table, e.NotHandled(Render(n)))
    ensures (|| n.Nil? || n.Integer? || n.Float? || n.Str? || n.BitStr? || n.AConst? || n.ParamRef?
             || n.TargetEntry? || n.TypeCast? || n.CommonTableExpr? || (n.FuncCall? && IsRowNumber(n.funcname)))
            ==> Walk(n, sc, e) == Step(n, sc[0].table, e)
  {
    if n.FuncCall? && !IsRowNumber(n.funcname) {
      assert |e.NotHandled(Render(n)).reports| == |e.reports| + 1;
    }
  }

  /** A table name inside a statement is looked up under that statement's
      kind, whatever the kinds of the statements around it. */
  lemma StatementKindSelectsLookup(n: Node, i: nat, sc: seq<Scope>, e: Env)
    requires |sc| > 0 && n.Statement? && i < |n.clauses| && n.clauses[i].RangeVar?
    ensures var r := Walk(n, sc, e).node;
            var name := n.clauses[i].relname;
            && r.Statement? && r.kind == n.kind && i < |r.clauses| && r.clauses[i].RangeVar?
            && r.clauses[i].relname == if (name, n.kind) in e.relFor then e.relFor[(name, n.kind)] else name
  {
    var inner := [Scope(n.kind, None)] + sc;
    WalkListAt(n.clauses, i, inner, e);
    WalkListLogs(n.clauses[..i], inner, e);
  }

  // ---------------------------------------------------------------------
  // Shape
  // ---------------------------------------------------------------------

  /** The walk changes nothing in the tree but the names the provider
      rewrites. */
  lemma {:induction false} WalkKeepsShape(n: Node, sc: seq<Scope>, e: Env)
    requires |sc| > 0
    ensures Erase(Walk(n, sc, e).node) == Erase(n)
    decreases n, 2
  {
    if Inert(n) {
    } else if n.List? || n.SortBy? || n.Alias? || n.AExpr? || n.BoolExpr? || n.RangeVar? {
      ExpressionKeepsShape(n, sc, e);
    } else {
      ClauseKeepsShape(n, sc, e);
    }
  }

  lemma {:induction false} ExpressionKeepsShape(n: Node, sc: seq<Scope>, e: Env)
    requires |sc| > 0
    requires n.List? || n.SortBy? || n.Alias? || n.AExpr? || n.BoolExpr? || n.RangeVar?
    ensures Erase(Walk(n, sc, e).node) == Erase(n)
    decreases n, 1
  {
    match n
    case List(items) => WalkListKeepsShape(items, sc, e);
    case SortBy(x, _) => WalkKeepsShape(x, sc, e);
    case Alias(_) =>
    case AExpr(_, _) => TwoKeepsShape(n, sc, e);
    case BoolExpr(args) => WalkListKeepsShape(args, sc, e);
    case RangeVar(_, al) => WalkKeepsShape(al, sc, e);
  }

  lemma {:induction false} ClauseKeepsShape(n: Node, sc: seq<Scope>, e: Env)
    requires |sc| > 0
    requires n.JoinExpr? || n.AIndirection? || n.ResTarget? || n.FromExpr? || n.Statement? || n.RangeSubselect?
    ensures Erase(Walk(n, sc, e).node) == Erase(n)
    decreases n, 1
  {
    match n
    case JoinExpr(_, _, _, _, _) => JoinExprKeepsShape(n, sc, e);
    case AIndirection(_, _) => TwoKeepsShape(n, sc, e);
    case ResTarget(v, _) => WalkKeepsShape(v, sc, e);
    case FromExpr(_, _) => TwoKeepsShape(n, sc, e);
    case Statement(_, _, _) => StatementKeepsShape(n, sc, e);
    case RangeSubselect(_, _) => RangeSubselectKeepsShape(n, sc, e);
  }

  lemma {:induction false} TwoKeepsShape(n: Node, sc: seq<Scope>, e: Env)
    requires |sc| > 0 && (n.AExpr? || n.AIndirection? || n.FromExpr?)
    ensures Erase(Walk(n, sc, e).node) == Erase(n)
    decreases n, 0
  {
    var a := if n.AExpr? then n.lexpr else if n.AIndirection? then n.arg else n.fromlist;
    var b := if n.AExpr? then n.rexpr else if n.AIndirection? then n.indirection else n.quals;
    var r1 := Walk(a, sc, e);
    WalkKeepsShape(a, sc, e);
    WalkKeepsShape(b, WithTop(sc, r1.table), r1.env);
  }

  lemma {:induction false} StatementKeepsShape(n: Node, sc: seq<Scope>, e: Env)
    requires |sc| > 0 && n.Statement?
    ensures Erase(Walk(n, sc, e).node) == Erase(n)
    decreases n, 0
  {
    var rs := WalkList(n.clauses, [Scope(n.kind, None)] + sc, e);
    WalkListKeepsShape(n.clauses, [Scope(n.kind, None)] + sc, e);
    assert Walk(n, sc, e).node == n.(clauses := rs.nodes);
  }

  lemma {:induction false} RangeSubselectKeepsShape(n: Node, sc: seq<Scope>, e: Env)
    requires |sc| > 0 && n.RangeSubselect?
    ensures Erase(Walk(n, sc, e).node) == Erase(n)
    decreases n, 0
  {
    var r1 := Walk(n.subquery, [Scope(Select, None)] + sc, e);
    WalkKeepsShape(n.subquery, [Scope(Select, None)] + sc, e);
    WalkKeepsShape(n.alias, sc, r1.env);
  }

  lemma {:induction false} JoinExprKeepsShape(n: Node, sc: seq<Scope>, e: Env)
    requires |sc| > 0 && n.JoinExpr?
    ensures Erase(Walk(n, sc, e).node) == Erase(n)
    decreases n, 0
  {
    var r1 := Walk(n.larg, sc, e);
    var r2 := Walk(n.rarg, WithTop(sc, r1.table), r1.env);
    var r3 := Walk(n.usingClause, WithTop(sc, r2.table), r2.env);
    var r4 := Walk(n.quals, WithTop(sc, r3.table), r3.env);
    WalkKeepsShape(n.larg, sc, e);
    WalkKeepsShape(n.rarg, WithTop(sc, r1.table), r1.env);
    WalkKeepsShape(n.usingClause, WithTop(sc, r2.table), r2.env);
    WalkKeepsShape(n.quals, WithTop(sc, r3.table), r3.env);
    WalkKeepsShape(n.alias, WithTop(sc, r4.table), r4.env);
  }

  lemma {:induction false} WalkListKeepsShape(items: seq<Node>, sc: seq<Scope>, e: Env)
    requires |sc| > 0
    ensures EraseAll(WalkList(items, sc, e).nodes) == EraseAll(items)
    decreases items
  {
    if |items| > 0 {
      var init, last := items[..|items| - 1], items[|items| - 1];
      var rs := WalkList(init, sc, e);
      WalkListKeepsShape(init, sc, e);
      WalkKeepsShape(last, WithTop(sc, rs.table), rs.env);
      var out := WalkList(items, sc, e).nodes;
      assert out[..|out| - 1] == rs.nodes;
    }
  }

  /** A one-item target list whose column has a head that no scope on the
      chain declares gets hasRel's name for that head. */
  lemma {:induction false} TargetItemRenamed(sc: seq<Scope>, e: Env, a: string, rest: seq<Node>, ind: Node)
    requires |sc| > 0 && |rest| > 0 && a in e.rel
    requires forall i :: 0 <= i < |sc| ==> !e.HasAlias(sc[i].table, a)
    ensures Walk(List([ResTarget(ColumnRef([Str(a)] + rest), ind)]), sc, e).node
            == List([ResTarget(ColumnRef([Str(e.rel[a])] + rest), ind)])
  {
    var f := [Str(a)] + rest;
    ColumnRefResolution(f, sc, e);
    var c := Walk(ColumnRef(f), sc, e).node;
    assert c.fields == [Str(e.rel[a])] + rest by {
      assert c.fields[0] == Str(e.rel[a]);
      assert c.fields[1..] == rest;
    }
    var x := ResTarget(ColumnRef(f), ind);
    assert [x][..0] == [] && WithTop(sc, sc[0].table) == sc;
    assert WalkList([x], sc, e).nodes == [Walk(x, sc, e).node];
  }

  /** Clauses that declare nothing leave a fresh scope without a table and
      every enclosing table, and hasRel, as they were. */
  lemma {:induction false} SilentPrefix(items: seq<Node>, sc: seq<Scope>, e: Env, a: string)
    requires |sc| > 0 && Good(e, sc[0].table) && DeclaredAll(items) == {}
    requires forall i :: 0 <= i < |sc| ==> !e.HasAlias(sc[i].table, a)
    ensures var sc1 := [Scope(Select, None)] + sc;
            var p := WalkList(items, sc1, e);
            && p.table == None && p.env.rel == e.rel
            && forall i :: 0 <= i < |sc1| ==> !p.env.HasAlias(sc1[i].table, a)
  {
    var sc1 := [Scope(Select, None)] + sc;
    var p := WalkList(items, sc1, e);
    WalkListEvolves(items, sc1, e);
    WalkListLogs(items, sc1, e);
    forall i | 0 <= i < |sc1|
      ensures !p.env.HasAlias(sc1[i].table, a)
    {
      if i > 0 {
        assert sc1[i] == sc[i - 1];
      }
    }
  }

  /** A SELECT walks its target list (clause 2) before its FROM clause
      (clause 3). So a qualified column of the target list whose head is
      declared as an alias only by the FROM clause, and by no enclosing
      scope, is renamed by hasRel all the same: in `SELECT o.id FROM t o`
      the `o` of `o.id` becomes the provider's name for `o`. */
  lemma {:induction false} TargetListPrecedesFrom(n: Node, sc: seq<Scope>, e: Env, a: string, rest: seq<Node>, ind: Node)
    requires |sc| > 0 && Good(e, sc[0].table)
    requires n.Statement? && n.kind == Select && WellFormedStatement(n)
    requires DeclaredAll(n.clauses[..2]) == {}
    requires n.clauses[2] == List([ResTarget(ColumnRef([Str(a)] + rest), ind)]) && |rest| > 0
    requires a in Declared(n.clauses[3])
    requires forall i :: 0 <= i < |sc| ==> !e.HasAlias(sc[i].table, a)
    requires a in e.rel
    ensures var r := Walk(n, sc, e).node;
            && r.Statement? && |r.clauses| == |n.clauses|
            && r.clauses[2] == List([ResTarget(ColumnRef([Str(e.rel[a])] + rest), ind)])
  {
    var sc1 := [Scope(Select, None)] + sc;
    WalkListAt(n.clauses, 2, sc1, e);
    var p := WalkList(n.clauses[..2], sc1, e);
    SilentPrefix(n.clauses[..2], sc, e, a);
    assert WithTop(sc1, p.table) == sc1;
    TargetItemRenamed(sc1, p.env, a, rest, ind);
    assert Walk(n, sc, e) == WalkStatement(n, sc, e);
  }
}
