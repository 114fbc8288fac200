/** What the walker guarantees about scopes, alias tables, renaming and
    reporting, proved about the functions of module Walking. */
module WalkFacts {
  import opened Provider
  import opened Nodes
  import opened Walking

  // ---------------------------------------------------------------------
  // Reference definitions, read off the tree alone
  // ---------------------------------------------------------------------

  /** The alias names a node registers in the scope it is walked in: Alias
      nodes and the names SortBy falls through with, in every walked child
      that does not open a scope of its own. A sub-select contributes only
      its own alias; a statement contributes nothing. */
  function Declared(n: Node): set<string>
    decreases n
  {
    match n
    case List(items) => DeclaredAll(items)
    case SortBy(x, name) => Declared(x) + {name}
    case Alias(name) => {name}
    case AExpr(l, r) => Declared(l) + Declared(r)
    case BoolExpr(args) => DeclaredAll(args)
    case RangeVar(_, al) => Declared(al)
    case JoinExpr(l, r, u, q, al) => Declared(l) + Declared(r) + Declared(u) + Declared(q) + Declared(al)
    case AIndirection(a, ind) => Declared(a) + Declared(ind)
    case ResTarget(v, _) => Declared(v)
    case FromExpr(fl, q) => Declared(fl) + Declared(q)
    case RangeSubselect(_, al) => Declared(al)
    case _ => {}
  }

  function DeclaredAll(ns: seq<Node>): set<string>
    decreases ns
  {
    if |ns| == 0 then {} else DeclaredAll(ns[..|ns| - 1]) + Declared(ns[|ns| - 1])
  }

  /** The names a scope's table holds (none while it has no table). */
  function Names(e: Env, t: Option<Handle>): set<string> {
    if t.Some? && t.value in e.tables then e.tables[t.value] else {}
  }

  /** A provider state and a scope's table fit together: the handles are
      consistent and the scope's table, if any, is alive. */
  ghost predicate Good(e: Env, t: Option<Handle>) {
    e.Valid() && (t.Some? ==> t.value in e.tables)
  }

  /** How one walk may change the alias tables, seen from the scope it runs
      in (table t before, t2 after, d the names it registers there):
      - the scope keeps its table; without one, a table appears exactly when
        a name is registered, and then it is a new one;
      - no other table appears, disappears or changes;
      - the scope's table gains exactly d. */
  ghost predicate Evolves(e: Env, t: Option<Handle>, e2: Env, t2: Option<Handle>, d: set<string>) {
    && e2.Valid() && e.next <= e2.next
    && (t.Some? ==> t2 == t)
    && (t2.None? <==> t.None? && d == {})
    && (t.None? && t2.Some? ==> e.next <= t2.value)
    && (t2.Some? ==> t2.value in e2.tables)
    && e2.tables.Keys == e.tables.Keys + (if t.None? && t2.Some? then {t2.value} else {})
    && (forall h :: h in e.tables && Some(h) != t ==> e2.tables[h] == e.tables[h])
    && Names(e2, t2) == Names(e, t) + d
  }

  // ---------------------------------------------------------------------
  // Alias tables and scopes
  // ---------------------------------------------------------------------

  lemma EvolvesNothing(e: Env, t: Option<Handle>)
    requires Good(e, t)
    ensures Evolves(e, t, e, t, {})
  {
  }

  lemma {:induction false} EvolvesThen(e1: Env, t1: Option<Handle>, e2: Env, t2: Option<Handle>,
                                       e3: Env, t3: Option<Handle>, d1: set<string>, d2: set<string>)
    requires Good(e1, t1)
    requires Evolves(e1, t1, e2, t2, d1) && Evolves(e2, t2, e3, t3, d2)
    ensures Evolves(e1, t1, e3, t3, d1 + d2)
  {
    forall h | h in e1.tables && Some(h) != t1
      ensures e3.tables[h] == e1.tables[h]
    {
      assert h < e1.next;
      assert Some(h) != t2;
    }
  }

  /** The Alias case: the table is created only when the scope has none,
      later names go to the same table, and the name is added to it. */
  lemma RegisterAliasEvolves(name: string, t: Option<Handle>, e: Env)
    requires Good(e, t)
    ensures var (t2, e2) := RegisterAlias(name, t, e); Evolves(e, t, e2, t2, {name})
  {
    var (t2, e2) := RegisterAlias(name, t, e);
    if t.None? {
      var (e1, h) := e.AddTable();
      assert e2.tables[h] == {name};
      forall k | k in e.tables
        ensures e2.tables[k] == e.tables[k]
      {
        assert k < e.next;
      }
    }
  }

  lemma {:induction false} WalkEvolves(n: Node, sc: seq<Scope>, e: Env)
    requires |sc| > 0 && Good(e, sc[0].table)
    ensures var r := Walk(n, sc, e); Evolves(e, sc[0].table, r.env, r.table, Declared(n))
    decreases n, 2
  {
    if Inert(n) {
      InertEvolves(n, sc, e);
    } else if n.List? || n.SortBy? || n.Alias? || n.AExpr? || n.BoolExpr? || n.RangeVar? {
      ExpressionEvolves(n, sc, e);
    } else {
      ClauseEvolves(n, sc, e);
    }
  }

  lemma {:induction false} ExpressionEvolves(n: Node, sc: seq<Scope>, e: Env)
    requires |sc| > 0 && Good(e, sc[0].table)
    requires n.List? || n.SortBy? || n.Alias? || n.AExpr? || n.BoolExpr? || n.RangeVar?
    ensures var r := Walk(n, sc, e); Evolves(e, sc[0].table, r.env, r.table, Declared(n))
    decreases n, 1
  {
    var t := sc[0].table;
    match n
    case List(items) => WalkListEvolves(items, sc, e);
    case SortBy(_, _) => SortByEvolves(n, sc, e);
    case Alias(name) => RegisterAliasEvolves(name, t, e);
    case AExpr(_, _) => TwoEvolves(n, sc, e);
    case BoolExpr(args) => WalkListEvolves(args, sc, e);
    case RangeVar(_, al) => WalkEvolves(al, sc, e);
  }

  lemma InertEvolves(n: Node, sc: seq<Scope>, e: Env)
    requires |sc| > 0 && Good(e, sc[0].table) && Inert(n)
    ensures var r := Walk(n, sc, e); Evolves(e, sc[0].table, r.env, r.table, Declared(n))
  {
    var r := Walk(n, sc, e);
    assert r.table == sc[0].table && r.env.tables == e.tables && r.env.next == e.next;
    EvolvesNothing(e, sc[0].table);
  }

  lemma {:induction false} SortByEvolves(n: Node, sc: seq<Scope>, e: Env)
    requires |sc| > 0 && Good(e, sc[0].table) && n.SortBy?
    ensures var r := Walk(n, sc, e); Evolves(e, sc[0].table, r.env, r.table, Declared(n))
    decreases n, 0
  {
    var r := Walk(n.node, sc, e);
    WalkEvolves(n.node, sc, e);
    RegisterAliasEvolves(n.overlaidName, r.table, r.env);
    var (t2, e2) := RegisterAlias(n.overlaidName, r.table, r.env);
    EvolvesThen(e, sc[0].table, r.env, r.table, e2, t2, Declared(n.node), {n.overlaidName});
  }

  lemma {:induction false} ClauseEvolves(n: Node, sc: seq<Scope>, e: Env)
    requires |sc| > 0 && Good(e, sc[0].table)
    requires n.JoinExpr? || n.AIndirection? || n.ResTarget? || n.FromExpr? || n.Statement? || n.RangeSubselect?
    ensures var r := Walk(n, sc, e); Evolves(e, sc[0].table, r.env, r.table, Declared(n))
    decreases n, 1
  {
    match n
    case JoinExpr(_, _, _, _, _) => JoinExprEvolves(n, sc, e);
    case AIndirection(_, _) => TwoEvolves(n, sc, e);
    case ResTarget(v, _) => WalkEvolves(v, sc, e);
    case FromExpr(_, _) => TwoEvolves(n, sc, e);
    case Statement(_, _, _) => StatementEvolves(n, sc, e);
    case RangeSubselect(_, _) => RangeSubselectEvolves(n, sc, e);
  }

  /** A_Expr, A_Indirection, FromExpr: two children in sequence. */
  lemma {:induction false} TwoEvolves(n: Node, sc: seq<Scope>, e: Env)
    requires |sc| > 0 && Good(e, sc[0].table) && (n.AExpr? || n.AIndirection? || n.FromExpr?)
    ensures var r := Walk(n, sc, e); Evolves(e, sc[0].table, r.env, r.table, Declared(n))
    decreases n, 0
  {
    var a := if n.AExpr? then n.lexpr else if n.AIndirection? then n.arg else n.fromlist;
    var b := if n.AExpr? then n.rexpr else if n.AIndirection? then n.indirection else n.quals;
    var r1 := Walk(a, sc, e);
    WalkEvolves(a, sc, e);
    WalkEvolves(b, WithTop(sc, r1.table), r1.env);
    var r2 := Walk(b, WithTop(sc, r1.table), r1.env);
    EvolvesThen(e, sc[0].table, r1.env, r1.table, r2.env, r2.table, Declared(a), Declared(b));
  }

  lemma {:induction false} JoinExprEvolves(n: Node, sc: seq<Scope>, e: Env)
    requires |sc| > 0 && Good(e, sc[0].table) && n.JoinExpr?
    ensures var r := Walk(n, sc, e); Evolves(e, sc[0].table, r.env, r.table, Declared(n))
    decreases n, 0
  {
    var t := sc[0].table;
    var r1 := Walk(n.larg, sc, e);
    var r2 := Walk(n.rarg, WithTop(sc, r1.table), r1.env);
    var r3 := Walk(n.usingClause, WithTop(sc, r2.table), r2.env);
    var r4 := Walk(n.quals, WithTop(sc, r3.table), r3.env);
    var r5 := Walk(n.alias, WithTop(sc, r4.table), r4.env);
    WalkEvolves(n.larg, sc, e);
    WalkEvolves(n.rarg, WithTop(sc, r1.table), r1.env);
    EvolvesThen(e, t, r1.env, r1.table, r2.env, r2.table, Declared(n.larg), Declared(n.rarg));
    var d2 := Declared(n.larg) + Declared(n.rarg);
    WalkEvolves(n.usingClause, WithTop(sc, r2.table), r2.env);
    EvolvesThen(e, t, r2.env, r2.table, r3.env, r3.table, d2, Declared(n.usingClause));
    var d3 := d2 + Declared(n.usingClause);
    WalkEvolves(n.quals, WithTop(sc, r3.table), r3.env);
    EvolvesThen(e, t, r3.env, r3.table, r4.env, r4.table, d3, Declared(n.quals));
    var d4 := d3 + Declared(n.quals);
    WalkEvolves(n.alias, WithTop(sc, r4.table), r4.env);
    EvolvesThen(e, t, r4.env, r4.table, r5.env, r5.table, d4, Declared(n.alias));
  }

  lemma {:induction false} WalkListEvolves(items: seq<Node>, sc: seq<Scope>, e: Env)
    requires |sc| > 0 && Good(e, sc[0].table)
    ensures var rs := WalkList(items, sc, e); Evolves(e, sc[0].table, rs.env, rs.table, DeclaredAll(items))
    decreases items
  {
    if |items| == 0 {
      EvolvesNothing(e, sc[0].table);
    } else {
      var init, last := items[..|items| - 1], items[|items| - 1];
      var rs := WalkList(init, sc, e);
      WalkListEvolves(init, sc, e);
      var r := Walk(last, WithTop(sc, rs.table), rs.env);
      WalkEvolves(last, WithTop(sc, rs.table), rs.env);
      EvolvesThen(e, sc[0].table, rs.env, rs.table, r.env, r.table, DeclaredAll(init), Declared(last));
    }
  }

  /** Removing a table that the walk of a nested scope created, from a state
      that otherwise evolved as the outer scope sees it. */
  lemma {:induction false} DropInner(e: Env, t: Option<Handle>, e1: Env, inner: Option<Handle>,
                                     e2: Env, t2: Option<Handle>, d: set<string>)
    requires Good(e, t)
    requires inner.None? || (e.next <= inner.value && inner.value < e1.next)
    requires e1.tables.Keys == e.tables.Keys + (if inner.Some? then {inner.value} else {})
    requires forall h :: h in e.tables ==> e1.tables[h] == e.tables[h]
    requires e1.Valid() && e.next <= e1.next
    requires Evolves(e1, t, e2, t2, d)
    ensures Evolves(e, t, e2.RemoveTable(inner), t2, d)
  {
    var e3 := e2.RemoveTable(inner);
    assert Names(e1, t) == Names(e, t);
    assert t2.Some? && t.None? ==> e1.next <= t2.value;
    forall h | h in e.tables && Some(h) != t
      ensures e3.tables[h] == e.tables[h]
    {
      assert h < e.next;
    }
    assert inner.Some? ==> Some(inner.value) != t2;
    assert inner.Some? ==> inner.value !in e.tables;
    assert Names(e3, t2) == Names(e2, t2);
  }

  /** A statement leaves the caller's scope as it found it. */
  lemma {:induction false} StatementEvolves(n: Node, sc: seq<Scope>, e: Env)
    requires |sc| > 0 && Good(e, sc[0].table) && n.Statement?
    ensures var r := Walk(n, sc, e); Evolves(e, sc[0].table, r.env, r.table, Declared(n))
    decreases n, 0
  {
    var t := sc[0].table;
    var inner := [Scope(n.kind, None)] + sc;
    var rs := WalkList(n.clauses, inner, e);
    WalkListEvolves(n.clauses, inner, e);
    assert rs.table.Some? ==> rs.table.value < rs.env.next;
    EvolvesNothing(rs.env, t);
    DropInner(e, t, rs.env, rs.table, rs.env, t, {});
  }

  /** A sub-select: the sub-query's table is gone afterwards, and only the
      sub-select's own alias reaches the enclosing scope. */
  lemma {:induction false} RangeSubselectEvolves(n: Node, sc: seq<Scope>, e: Env)
    requires |sc| > 0 && Good(e, sc[0].table) && n.RangeSubselect?
    ensures var r := Walk(n, sc, e); Evolves(e, sc[0].table, r.env, r.table, Declared(n))
    decreases n, 0
  {
    var t := sc[0].table;
    var inner := [Scope(Select, None)] + sc;
    var r1 := Walk(n.subquery, inner, e);
    WalkEvolves(n.subquery, inner, e);
    assert r1.table.Some? ==> r1.table.value < r1.env.next;
    var r2 := Walk(n.alias, sc, r1.env);
    WalkEvolves(n.alias, sc, r1.env);
    DropInner(e, t, r1.env, r1.table, r2.env, r2.table, Declared(n.alias));
  }

  /** A statement leaves the caller's scope exactly as it found it: the same
      table, and every alias table as before, its own included. */
  lemma StatementRestoresScope(n: Node, sc: seq<Scope>, e: Env)
    requires |sc| > 0 && Good(e, sc[0].table) && n.Statement?
    ensures var r := Walk(n, sc, e); r.table == sc[0].table && r.env.tables == e.tables
  {
    var r := Walk(n, sc, e);
    WalkEvolves(n, sc, e);
    assert forall h :: h in e.tables ==> r.env.tables[h] == e.tables[h];
  }

  /** The last thing a statement does is removeTable on its own scope's
      table, which is absent exactly when its clauses declare no alias and
      otherwise holds exactly those aliases. */
  lemma StatementDropsOwnTable(n: Node, sc: seq<Scope>, e: Env)
    requires |sc| > 0 && Good(e, sc[0].table) && n.Statement?
    ensures var rs := WalkList(n.clauses, [Scope(n.kind, None)] + sc, e);
            var r := Walk(n, sc, e);
            && |r.env.removals| > 0 && r.env.removals[|r.env.removals| - 1] == rs.table
            && (rs.table.None? <==> DeclaredAll(n.clauses) == {})
            && Names(rs.env, rs.table) == DeclaredAll(n.clauses)
  {
    WalkListEvolves(n.clauses, [Scope(n.kind, None)] + sc, e);
  }

  /** A sub-select: the sub-query's table no longer exists afterwards, and
      the enclosing scope gains only the sub-select's own alias, so names
      declared inside the sub-query are invisible to its siblings. */
  lemma SubselectHidesInnerAliases(n: Node, sc: seq<Scope>, e: Env)
    requires |sc| > 0 && Good(e, sc[0].table) && n.RangeSubselect?
    ensures var inner := Walk(n.subquery, [Scope(Select, None)] + sc, e);
            var r := Walk(n, sc, e);
            && (inner.table.Some? ==> inner.table.value !in r.env.tables)
            && Names(r.env, r.table) == Names(e, sc[0].table) + Declared(n.alias)
  {
    var inner := Walk(n.subquery, [Scope(Select, None)] + sc, e);
    WalkEvolves(n.subquery, [Scope(Select, None)] + sc, e);
    var r2 := Walk(n.alias, sc, inner.env);
    WalkEvolves(n.alias, sc, inner.env);
    RangeSubselectEvolves(n, sc, e);
  }

  // ---------------------------------------------------------------------
  // Renaming
  // ---------------------------------------------------------------------

  /** check_first's loop asks every scope from the innermost to the root. */
  lemma {:induction false} AliasBoundSomewhere(sc: seq<Scope>, e: Env, name: string)
    ensures AliasBound(sc, e, name) <==> exists i :: 0 <= i < |sc| && e.HasAlias(sc[i].table, name)
    decreases |sc|
  {
    if |sc| > 0 {
      AliasBoundSomewhere(sc[1..], e, name);
      if e.HasAlias(sc[0].table, name) {
        assert 0 < |sc|;
      } else if AliasBound(sc[1..], e, name) {
        var i :| 0 <= i < |sc[1..]| && e.HasAlias(sc[1..][i].table, name);
        assert e.HasAlias(sc[i + 1].table, name);
      } else {
        forall i | 0 <= i < |sc|
          ensures !e.HasAlias(sc[i].table, name)
        {
          if i > 0 {
            assert sc[i] == sc[1..][i - 1];
          }
        }
      }
    }
  }

  /** The text of a String or BitString value, the two kinds check_first
      resolves. */
  function HeadText(n: Node): string
    requires n.Str? || n.BitStr?
  {
    if n.Str? then n.sval else n.bval
  }

  /** A column reference: with one field nothing is looked up; with more only
      a String or BitString head can change. It keeps its kind, and its text
      stays as it is when a scope on the chain has it as an alias, becomes
      the provider's name for it otherwise, and stays when the provider has
      none. The walk changes no provider state. */
  lemma ColumnRefResolution(fields: seq<Node>, sc: seq<Scope>, e: Env)
    requires |sc| > 0
    ensures var r := Walk(ColumnRef(fields), sc, e);
            && r.env == e && r.table == sc[0].table && r.node.ColumnRef?
            && |r.node.fields| == |fields| && (|fields| > 0 ==> r.node.fields[1..] == fields[1..])
            && (|fields| <= 1 || !(fields[0].Str? || fields[0].BitStr?) ==> r.node.fields == fields)
    ensures |fields| > 1 && (fields[0].Str? || fields[0].BitStr?) ==>
              var a := HeadText(fields[0]);
              var head := Walk(ColumnRef(fields), sc, e).node.fields[0];
              && head.Str? == fields[0].Str? && head.BitStr? == fields[0].BitStr?
              && ((exists i :: 0 <= i < |sc| && e.HasAlias(sc[i].table, a)) ==> head == fields[0])
              && (!(exists i :: 0 <= i < |sc| && e.HasAlias(sc[i].table, a)) && a in e.rel ==> HeadText(head) == e.rel[a])
              && (a !in e.rel ==> head == fields[0])
  {
    if |fields| > 1 && (fields[0].Str? || fields[0].BitStr?) {
      AliasBoundSomewhere(sc, e, HeadText(fields[0]));
    }
  }

  /** A table name is rewritten exactly by the provider's name for it under
      the kind of the innermost statement, and the range variable's alias is
      registered in the current scope. */
  lemma RangeVarRenaming(name: string, al: Node, sc: seq<Scope>, e: Env)
    requires |sc| > 0 && Good(e, sc[0].table)
    ensures var r := Walk(RangeVar(name, al), sc, e);
            && r.node.RangeVar?
            && (r.node.relname != name ==> (name, sc[0].kind) in e.relFor)
            && ((name, sc[0].kind) in e.relFor ==> r.node.relname == e.relFor[(name, sc[0].kind)])
            && Names(r.env, r.table) == Names(e, sc[0].table) + Declared(al)
            && r.env.tables.Keys <= e.tables.Keys + (if r.table.Some? then {r.table.value} else {})
  {
    WalkEvolves(al, sc, e);
  }

  /** The i-th item of a list is walked under the chain and state that the
      items before it leave. */
  lemma {:induction false} WalkListAt(items: seq<Node>, i: nat, sc: seq<Scope>, e: Env)
    requires |sc| > 0 && i < |items|
    ensures var p := WalkList(items[..i], sc, e);
            WalkList(items, sc, e).nodes[i] == Walk(items[i], WithTop(sc, p.table), p.env).node
    decreases |items|
  {
    var init := items[..|items| - 1];
    if i < |items| - 1 {
      WalkListAt(init, i, sc, e);
      assert init[..i] == items[..i];
    } else {
      assert init == items[..i];
    }
  }

  /** An alias declared by an earlier item of the same list (a SELECT's FROM
      clause before its WHERE clause, say) shadows the provider: a qualified
      column reference headed by it is left alone. */
  lemma AliasShadowsColumn(items: seq<Node>, i: nat, sc: seq<Scope>, e: Env, a: string, rest: seq<Node>)
    requires |sc| > 0 && Good(e, sc[0].table) && i < |items|
    requires items[i] == ColumnRef([Str(a)] + rest) && |rest| > 0
    requires a in DeclaredAll(items[..i])
    ensures WalkList(items, sc, e).nodes[i] == items[i]
  {
    WalkListAt(items, i, sc, e);
    var p := WalkList(items[..i], sc, e);
    WalkListEvolves(items[..i], sc, e);
    assert p.env.HasAlias(WithTop(sc, p.table)[0].table, a);
    assert ([Str(a)] + rest)[1..] == rest;
  }
}
