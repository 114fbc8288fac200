/** The walker's meaning, as functions on values: walking a node under a
    chain of scopes, against a provider state, yields the rewritten node, the
    new alias table of the innermost scope and the new provider state.

    Only the innermost scope's alias table can change during a walk: a
    statement's clauses are walked under a scope of their own, and the alias
    of a sub-select is registered in the scope that holds the sub-select. So
    the result carries just that one table. */
module Walking {
  import opened Provider
  import opened Nodes

  /** One QueryInfo as the walker sees it: its statement kind and its alias
      table (None until the first alias is registered). */
  datatype Scope = Scope(kind: QueryType, table: Option<Handle>)

  datatype Step = Step(node: Node, table: Option<Handle>, env: Env)

  datatype Steps = Steps(nodes: seq<Node>, table: Option<Handle>, env: Env)

  /** The chain with the innermost scope's table replaced. */
  function WithTop(sc: seq<Scope>, t: Option<Handle>): (r: seq<Scope>)
    requires |sc| > 0
    ensures |r| == |sc| && r[0] == Scope(sc[0].kind, t) && r[1..] == sc[1..]
  {
    [Scope(sc[0].kind, t)] + sc[1..]
  }

  /** The Alias case: the scope's table is created on first use, then the
      name is added to it. */
  function RegisterAlias(name: string, t: Option<Handle>, e: Env): (r: (Option<Handle>, Env))
    ensures r.0.Some?
    ensures t.Some? ==> r.0 == t
  {
    if t.Some? then (t, e.AddAlias(t.value, name).0)
    else
      var (e1, h) := e.AddTable();
      (Some(h), e1.AddAlias(h, name).0)
  }

  /** Whether a table on the chain, innermost first, holds the name: the
      do-while loop of check_first, which asks every scope up to the root. */
  predicate AliasBound(sc: seq<Scope>, e: Env, name: string) {
    |sc| > 0 && (e.HasAlias(sc[0].table, name) || AliasBound(sc[1..], e, name))
  }

  /** The name a qualified column reference's head ends up with. */
  function Substituted(sc: seq<Scope>, e: Env, name: string): (r: string)
    ensures r == name || (name in e.rel && r == e.rel[name])
  {
    if AliasBound(sc, e, name) then name
    else
      match e.HasRel(name)
      case Some(nn) => nn
      case None => name
  }

  /** check_first on the fields of a column reference: a string head is
      renamed, any other head is left alone. */
  function ResolveFirst(fields: seq<Node>, sc: seq<Scope>, e: Env): (r: seq<Node>)
    ensures |r| == |fields| && (|fields| > 0 ==> r[1..] == fields[1..])
    ensures |fields| > 0 && !(fields[0].Str? || fields[0].BitStr?) ==> r == fields
  {
    if |fields| == 0 then fields
    else
      match fields[0]
      case Str(s) => [Str(Substituted(sc, e, s))] + fields[1..]
      case BitStr(s) => [BitStr(Substituted(sc, e, s))] + fields[1..]
      case _ => fields
  }

  /** The node kinds whose walk visits no child and registers no alias. */
  predicate Inert(n: Node) {
    || n.Nil? || n.Integer? || n.Float? || n.Str? || n.BitStr? || n.AConst? || n.ParamRef?
    || n.TargetEntry? || n.ColumnRef? || n.FuncCall? || n.TypeCast? || n.CommonTableExpr? || n.Other?
  }

  /** check_node. */
  function Walk(n: Node, sc: seq<Scope>, e: Env): Step
    requires |sc| > 0
    decreases n, 1
  {
    var t := sc[0].table;
    match n
    case Nil => Step(n, t, e)
    case List(items) =>
      var rs := WalkList(items, sc, e);
      Step(List(rs.nodes), rs.table, rs.env)
    case Integer(_) => Step(n, t, e)
    case Float(_) => Step(n, t, e)
    case Str(_) => Step(n, t, e)
    case BitStr(_) => Step(n, t, e)
    case AConst(_) => Step(n, t, e)
    case ParamRef(_) => Step(n, t, e)
    case SortBy(_, _) => WalkSortBy(n, sc, e)
    case Alias(name) =>
      var (t2, e2) := RegisterAlias(name, t, e);
      Step(n, t2, e2)
    case AExpr(_, _) => WalkTwo(n, sc, e)
    case BoolExpr(args) =>
      var rs := WalkList(args, sc, e);
      Step(BoolExpr(rs.nodes), rs.table, rs.env)
    case RangeVar(name, al) =>
      var name2 := match e.HasRelFor(name, sc[0].kind) case Some(nn) => nn case None => name;
      var r := Walk(al, sc, e);
      Step(RangeVar(name2, r.node), r.table, r.env)
    case JoinExpr(_, _, _, _, _) => WalkJoinExpr(n, sc, e)
    case AIndirection(_, _) => WalkTwo(n, sc, e)
    case ResTarget(v, ind) =>
      var r := Walk(v, sc, e);
      Step(ResTarget(r.node, ind), r.table, r.env)
    case TargetEntry(_) => Step(n, t, e)
    case ColumnRef(fields) =>
      if |fields| > 1 then Step(ColumnRef(ResolveFirst(fields, sc, e)), t, e)
      else Step(n, t, e)
    case FromExpr(_, _) => WalkTwo(n, sc, e)
    case Statement(_, _, _) => WalkStatement(n, sc, e)
    case FuncCall(f, _) =>
      if IsRowNumber(f) then Step(n, t, e) else Step(n, t, e.NotHandled(Render(n)))
    case RangeSubselect(_, _) => WalkRangeSubselect(n, sc, e)
    case TypeCast(_) => Step(n, t, e)
    case CommonTableExpr(_, _) => Step(n, t, e)
    case Other(_, _) => Step(n, t, e.NotHandled(Render(n)))
  }

  /** SortBy: the key is walked, then control falls through into the Alias
      case, which registers whatever the alias-name slot reads. */
  function WalkSortBy(n: Node, sc: seq<Scope>, e: Env): Step
    requires |sc| > 0 && n.SortBy?
    decreases n, 0
  {
    var r := Walk(n.node, sc, e);
    var (t2, e2) := RegisterAlias(n.overlaidName, r.table, r.env);
    Step(SortBy(r.node, n.overlaidName), t2, e2)
  }

  /** A_Expr, A_Indirection and FromExpr: two children, in order. */
  function WalkTwo(n: Node, sc: seq<Scope>, e: Env): Step
    requires |sc| > 0 && (n.AExpr? || n.AIndirection? || n.FromExpr?)
    decreases n, 0
  {
    match n
    case AExpr(l, r) =>
      var r1 := Walk(l, sc, e);
      var r2 := Walk(r, WithTop(sc, r1.table), r1.env);
      Step(AExpr(r1.node, r2.node), r2.table, r2.env)
    case AIndirection(a, ind) =>
      var r1 := Walk(a, sc, e);
      var r2 := Walk(ind, WithTop(sc, r1.table), r1.env);
      Step(AIndirection(r1.node, r2.node), r2.table, r2.env)
    case FromExpr(fl, q) =>
      var r1 := Walk(fl, sc, e);
      var r2 := Walk(q, WithTop(sc, r1.table), r1.env);
      Step(FromExpr(r1.node, r2.node), r2.table, r2.env)
  }

  /** JoinExpr: both sides, the USING list, the condition and the alias. */
  function WalkJoinExpr(n: Node, sc: seq<Scope>, e: Env): Step
    requires |sc| > 0 && n.JoinExpr?
    decreases n, 0
  {
    var r1 := Walk(n.larg, sc, e);
    var r2 := Walk(n.rarg, WithTop(sc, r1.table), r1.env);
    var r3 := Walk(n.usingClause, WithTop(sc, r2.table), r2.env);
    var r4 := Walk(n.quals, WithTop(sc, r3.table), r3.env);
    var r5 := Walk(n.alias, WithTop(sc, r4.table), r4.env);
    Step(JoinExpr(r1.node, r2.node, r3.node, r4.node, r5.node), r5.table, r5.env)
  }

  /** RangeSubselect: the sub-query under a SELECT scope of its own, the
      alias in the enclosing scope, then removeTable on the sub-query
      scope's table. */
  function WalkRangeSubselect(n: Node, sc: seq<Scope>, e: Env): Step
    requires |sc| > 0 && n.RangeSubselect?
    decreases n, 0
  {
    var r1 := Walk(n.subquery, [Scope(Select, None)] + sc, e);
    var r2 := Walk(n.alias, sc, r1.env);
    Step(RangeSubselect(r1.node, r2.node), r2.table, r2.env.RemoveTable(r1.table))
  }

  /** A statement: its clauses are walked in order under a new scope of the
      statement's kind, whose table is then handed to removeTable whether or
      not one was ever created. */
  function WalkStatement(n: Node, sc: seq<Scope>, e: Env): Step
    requires |sc| > 0 && n.Statement?
    decreases n, 0
  {
    var rs := WalkList(n.clauses, [Scope(n.kind, None)] + sc, e);
    Step(n.(clauses := rs.nodes), sc[0].table, rs.env.RemoveTable(rs.table))
  }

  /** check_list: the items in order, each under the chain as the previous
      one left it. */
  function WalkList(items: seq<Node>, sc: seq<Scope>, e: Env): (rs: Steps)
    requires |sc| > 0
    ensures |rs.nodes| == |items|
    decreases items
  {
    if |items| == 0 then Steps([], sc[0].table, e)
    else
      var rs := WalkList(items[..|items| - 1], sc, e);
      var r := Walk(items[|items| - 1], WithTop(sc, rs.table), rs.env);
      Steps(rs.nodes + [r.node], r.table, r.env)
  }
}
