/** The walker as the source runs it: check_node, check_list, check_first
    and check_FuncCall over a chain of QueryInfo records, each method proved
    to do exactly what the functions of module Walk say. */
module Checker {
  import opened Provider
  import opened Nodes
  import opened Walking

  /** One QueryInfo: the kind of the statement it stands for, the enclosing
      statement's record (null at the root) and the alias table, created on
      the first alias. `up` holds the enclosing records. */
  class QueryInfo {
    const kind: QueryType
    const parent: QueryInfo?
    var aliasTable: Option<Handle>
    ghost const up: set<QueryInfo>

    /** A record for a statement nested in `parent`, with no table yet. */
    constructor (kind: QueryType, parent: QueryInfo?)
      requires parent != null ==> Linked(parent)
      ensures this.kind == kind && this.parent == parent && aliasTable == None
      ensures Linked(this)
    {
      this.kind := kind;
      this.parent := parent;
      this.aliasTable := None;
      this.up := if parent == null then {} else {parent} + parent.up;
    }
  }

  /** `up` really is the parent chain, and it does not loop back. */
  ghost predicate Linked(q: QueryInfo)
    decreases |q.up|
  {
    if q.parent == null then q.up == {}
    else q.up == {q.parent} + q.parent.up && q.parent !in q.parent.up && q !in q.up && Linked(q.parent)
  }

  /** The chain of scopes a record stands for, innermost first. */
  ghost function Chain(q: QueryInfo): (sc: seq<Scope>)
    requires Linked(q)
    reads q, q.up
    ensures |sc| > 0 && sc[0] == Scope(q.kind, q.aliasTable)
    decreases |q.up|
  {
    if q.parent == null then [Scope(q.kind, q.aliasTable)]
    else
      [Scope(q.kind, q.aliasTable)] + Chain(q.parent)
  }

  /** Whether the record or one it is nested in has the name as an alias:
      the question check_first's loop answers. */
  ghost predicate Visible(q: QueryInfo, e: Env, name: string)
    requires Linked(q)
    reads q, q.up
    decreases |q.up|
  {
    e.HasAlias(q.aliasTable, name) || (q.parent != null && Visible(q.parent, e, name))
  }

  lemma {:induction false} VisibleOnChain(q: QueryInfo, e: Env, name: string)
    requires Linked(q)
    ensures Visible(q, e, name) == AliasBound(Chain(q), e, name)
    decreases |q.up|
  {
    if q.parent != null {
      VisibleOnChain(q.parent, e, name);
      assert Chain(q)[1..] == Chain(q.parent);
    }
  }

  /** check_first: the head of a column reference's field list, when it is
      a string, is replaced by the provider's name for it unless a table on
      the chain holds it as an alias. */
  method CheckFirst(fields: seq<Node>, data: Data, info: QueryInfo) returns (r: seq<Node>)
    requires Linked(info)
    ensures r == ResolveFirst(fields, Chain(info), data.State())
  {
    if |fields| == 0 {
      return fields;
    }
    var name: string;
    if fields[0].Str? {
      name := fields[0].sval;
    } else if fields[0].BitStr? {
      name := fields[0].bval;
    } else {
      return fields;
    }
    ghost var e := data.State();
    var p: QueryInfo := info;
    var hasAlias := false;
    while true
      invariant Linked(p)
      invariant Visible(info, e, name) == Visible(p, e, name)
      decreases |p.up|
    {
      hasAlias := data.HasAlias(p.aliasTable, name);
      if hasAlias {
        break;
      }
      if p.parent == null {
        break;
      }
      p := p.parent;
    }
    VisibleOnChain(info, e, name);
    var nn := name;
    if !hasAlias {
      var found := data.HasRel(name);
      if found.Some? {
        nn := found.value;
      }
    }
    assert nn == Substituted(Chain(info), e, name);
    if fields[0].Str? {
      r := [Str(nn)] + fields[1..];
    } else {
      r := [BitStr(nn)] + fields[1..];
    }
  }

  /** check_FuncCall: a call to anything but row_number is reported. */
  method CheckFuncCall(n: Node, data: Data)
    requires n.FuncCall?
    modifies data
    ensures data.State() == if IsRowNumber(n.funcname) then old(data.State())
                            else old(data.State()).NotHandled(Render(n))
  {
    if |n.funcname| == 0 || n.funcname[0] != "row_number" {
      data.NotHandled(Render(n));
    }
  }

  /** The Alias case, also reached from SortBy by falling through. */
  method AddAliasTo(name: string, data: Data, info: QueryInfo)
    modifies data, info
    ensures (info.aliasTable, data.State()) == RegisterAlias(name, old(info.aliasTable), old(data.State()))
  {
    if info.aliasTable.None? {
      var h := data.AddTable();
      info.aliasTable := Some(h);
    }
    var _ := data.AddAlias(info.aliasTable.value, name);
  }

  /** check_node: NULL, lists and value nodes first, then the switch on the
      node tag. */
  method CheckNode(o: Node, data: Data, info: QueryInfo) returns (o2: Node)
    requires Linked(info)
    modifies data, info
    ensures var r := Walk(o, old(Chain(info)), old(data.State()));
            o2 == r.node && info.aliasTable == r.table && data.State() == r.env
    decreases o, 4
  {
    if o.Nil? {
      o2 := o;
    } else if o.List? {
      var items2 := CheckList(o.items, data, info);
      o2 := List(items2);
    } else if o.Integer? || o.Float? {
      o2 := o;
    } else if o.Str? || o.BitStr? {
      o2 := o;
    } else {
      o2 := CheckExpressionCases(o, data, info);
    }
  }

  /** The switch of check_node, in three methods following the order of its
      cases; this one has A_Const to RangeVar. The cases with more than one
      walked child are methods of their own further below. */
  method CheckExpressionCases(o: Node, data: Data, info: QueryInfo) returns (o2: Node)
    requires Linked(info)
    requires !(o.Nil? || o.List? || o.Integer? || o.Float? || o.Str? || o.BitStr?)
    modifies data, info
    ensures var r := Walk(o, old(Chain(info)), old(data.State()));
            o2 == r.node && info.aliasTable == r.table && data.State() == r.env
    decreases o, 3
  {
    match o {
      case AConst(_) =>
        o2 := o;
      case ParamRef(_) =>
        o2 := o;
      case SortBy(_, _) =>
        o2 := CheckSortBy(o, data, info);
      case Alias(name) =>
        AddAliasTo(name, data, info);
        o2 := o;
      case AExpr(_, _) =>
        o2 := CheckAExpr(o, data, info);
      case BoolExpr(args) =>
        var args2 := CheckList(args, data, info);
        o2 := BoolExpr(args2);
      case RangeVar(_, _) =>
        o2 := CheckRangeVar(o, data, info);
      case JoinExpr(_, _, _, _, _) | AIndirection(_, _) | ResTarget(_, _) | TargetEntry(_) | ColumnRef(_)
         | FromExpr(_, _) | Statement(_, _, _) | FuncCall(_, _) | RangeSubselect(_, _) | TypeCast(_)
         | CommonTableExpr(_, _) | Other(_, _) =>
        o2 := CheckClauseCases(o, data, info);
    }
  }

  /** The switch of check_node, JoinExpr to FromExpr. */
  method CheckClauseCases(o: Node, data: Data, info: QueryInfo) returns (o2: Node)
    requires Linked(info)
    requires o.JoinExpr? || o.AIndirection? || o.ResTarget? || o.TargetEntry? || o.ColumnRef? || o.FromExpr?
          || o.Statement? || o.FuncCall? || o.RangeSubselect? || o.TypeCast? || o.CommonTableExpr? || o.Other?
    modifies data, info
    ensures var r := Walk(o, old(Chain(info)), old(data.State()));
            o2 == r.node && info.aliasTable == r.table && data.State() == r.env
    decreases o, 2
  {
    match o {
      case JoinExpr(_, _, _, _, _) =>
        o2 := CheckJoinExpr(o, data, info);
      case AIndirection(_, _) =>
        o2 := CheckAIndirection(o, data, info);
      case ResTarget(v, ind) =>
        var v2 := CheckNode(v, data, info);
        o2 := ResTarget(v2, ind);
      case TargetEntry(_) =>
        o2 := o;
      case ColumnRef(_) =>
        o2 := CheckColumnRef(o, data, info);
      case FromExpr(_, _) =>
        o2 := CheckFromExpr(o, data, info);
      case Statement(_, _, _) | FuncCall(_, _) | RangeSubselect(_, _) | TypeCast(_) | CommonTableExpr(_, _)
         | Other(_, _) =>
        o2 := CheckStatementCases(o, data, info);
    }
  }

  /** The switch of check_node, the statements to the default case, which
      reports every node kind not named before it. */
  method CheckStatementCases(o: Node, data: Data, info: QueryInfo) returns (o2: Node)
    requires Linked(info)
    requires o.Statement? || o.FuncCall? || o.RangeSubselect? || o.TypeCast? || o.CommonTableExpr? || o.Other?
    modifies data, info
    ensures var r := Walk(o, old(Chain(info)), old(data.State()));
            o2 == r.node && info.aliasTable == r.table && data.State() == r.env
    decreases o, 1
  {
    match o {
      case Statement(_, _, _) =>
        o2 := CheckStatement(o, data, info);
      case FuncCall(_, _) =>
        CheckFuncCall(o, data);
        o2 := o;
      case RangeSubselect(_, _) =>
        o2 := CheckRangeSubselect(o, data, info);
      case TypeCast(_) =>
        o2 := o;
      case CommonTableExpr(_, _) =>
        o2 := o;
      case Other(_, _) =>
        data.NotHandled(Render(o));
        o2 := o;
    }
  }

  /** SortBy: the sort key is walked, then control falls through into the
      Alias case, which registers whatever the alias-name slot reads. */
  method CheckSortBy(o: Node, data: Data, info: QueryInfo) returns (o2: Node)
    requires Linked(info) && o.SortBy?
    modifies data, info
    ensures var r := Walk(o, old(Chain(info)), old(data.State()));
            o2 == r.node && info.aliasTable == r.table && data.State() == r.env
    decreases o, 0
  {
    var x2 := CheckNode(o.node, data, info);
    AddAliasTo(o.overlaidName, data, info);
    o2 := SortBy(x2, o.overlaidName);
  }

  /** RangeVar: the table name is replaced by the provider's name for it
      under the current record's type, then the alias is walked. */
  method CheckRangeVar(o: Node, data: Data, info: QueryInfo) returns (o2: Node)
    requires Linked(info) && o.RangeVar?
    modifies data, info
    ensures var r := Walk(o, old(Chain(info)), old(data.State()));
            o2 == r.node && info.aliasTable == r.table && data.State() == r.env
    decreases o, 0
  {
    var found := data.HasRelFor(o.relname, info.kind);
    var name2 := if found.Some? then found.value else o.relname;
    var al2 := CheckNode(o.alias, data, info);
    o2 := RangeVar(name2, al2);
  }

  /** ColumnRef: only a qualified reference is handed to check_first. */
  method CheckColumnRef(o: Node, data: Data, info: QueryInfo) returns (o2: Node)
    requires Linked(info) && o.ColumnRef?
    modifies data, info
    ensures var r := Walk(o, old(Chain(info)), old(data.State()));
            o2 == r.node && info.aliasTable == r.table && data.State() == r.env
    decreases o, 0
  {
    if |o.fields| > 1 {
      var fields2 := CheckFirst(o.fields, data, info);
      o2 := ColumnRef(fields2);
    } else {
      o2 := o;
    }
  }

  method CheckAExpr(o: Node, data: Data, info: QueryInfo) returns (o2: Node)
    requires Linked(info) && o.AExpr?
    modifies data, info
    ensures var r := Walk(o, old(Chain(info)), old(data.State()));
            o2 == r.node && info.aliasTable == r.table && data.State() == r.env
    decreases o, 0
  {
    ghost var c0 := Chain(info);
    var l2 := CheckNode(o.lexpr, data, info);
    assert Chain(info) == WithTop(c0, info.aliasTable);
    var r2 := CheckNode(o.rexpr, data, info);
    o2 := AExpr(l2, r2);
  }

  method CheckJoinExpr(o: Node, data: Data, info: QueryInfo) returns (o2: Node)
    requires Linked(info) && o.JoinExpr?
    modifies data, info
    ensures var r := Walk(o, old(Chain(info)), old(data.State()));
            o2 == r.node && info.aliasTable == r.table && data.State() == r.env
    decreases o, 0
  {
    ghost var c0 := Chain(info);
    var l2 := CheckNode(o.larg, data, info);
    assert Chain(info) == WithTop(c0, info.aliasTable);
    var r2 := CheckNode(o.rarg, data, info);
    assert Chain(info) == WithTop(c0, info.aliasTable);
    var u2 := CheckNode(o.usingClause, data, info);
    assert Chain(info) == WithTop(c0, info.aliasTable);
    var q2 := CheckNode(o.quals, data, info);
    assert Chain(info) == WithTop(c0, info.aliasTable);
    var al2 := CheckNode(o.alias, data, info);
    o2 := JoinExpr(l2, r2, u2, q2, al2);
  }

  method CheckAIndirection(o: Node, data: Data, info: QueryInfo) returns (o2: Node)
    requires Linked(info) && o.AIndirection?
    modifies data, info
    ensures var r := Walk(o, old(Chain(info)), old(data.State()));
            o2 == r.node && info.aliasTable == r.table && data.State() == r.env
    decreases o, 0
  {
    ghost var c0 := Chain(info);
    var a2 := CheckNode(o.arg, data, info);
    assert Chain(info) == WithTop(c0, info.aliasTable);
    var ind2 := CheckNode(o.indirection, data, info);
    o2 := AIndirection(a2, ind2);
  }

  method CheckFromExpr(o: Node, data: Data, info: QueryInfo) returns (o2: Node)
    requires Linked(info) && o.FromExpr?
    modifies data, info
    ensures var r := Walk(o, old(Chain(info)), old(data.State()));
            o2 == r.node && info.aliasTable == r.table && data.State() == r.env
    decreases o, 0
  {
    ghost var c0 := Chain(info);
    var fl2 := CheckNode(o.fromlist, data, info);
    assert Chain(info) == WithTop(c0, info.aliasTable);
    var q2 := CheckNode(o.quals, data, info);
    o2 := FromExpr(fl2, q2);
  }

  /** RangeSubselect: the sub-query under a SELECT record of its own, the
      alias in the enclosing record, then removeTable on the sub-query
      record's table. */
  method CheckRangeSubselect(o: Node, data: Data, info: QueryInfo) returns (o2: Node)
    requires Linked(info) && o.RangeSubselect?
    modifies data, info
    ensures var r := Walk(o, old(Chain(info)), old(data.State()));
            o2 == r.node && info.aliasTable == r.table && data.State() == r.env
    decreases o, 0
  {
    ghost var c0 := Chain(info);
    var qi := new QueryInfo(Select, info);
    assert Chain(qi) == [Scope(Select, None)] + c0;
    var q2 := CheckNode(o.subquery, data, qi);
    assert Chain(info) == c0;
    var al2 := CheckNode(o.alias, data, info);
    data.RemoveTable(qi.aliasTable);
    o2 := RangeSubselect(q2, al2);
  }

  /** The statement cases of check_node: a QueryInfo of the statement's kind
      for its clauses, and removeTable on its table afterwards. */
  method CheckStatement(o: Node, data: Data, info: QueryInfo) returns (o2: Node)
    requires Linked(info)
    requires o.Statement?
    modifies data, info
    ensures var r := Walk(o, old(Chain(info)), old(data.State()));
            o2 == r.node && info.aliasTable == r.table && data.State() == r.env
    decreases o, 0
  {
    ghost var c0 := Chain(info);
    var qi := new QueryInfo(o.kind, info);
    assert Chain(qi) == [Scope(o.kind, None)] + c0;
    var cl := CheckList(o.clauses, data, qi);
    assert Chain(info) == c0;
    data.RemoveTable(qi.aliasTable);
    o2 := o.(clauses := cl);
  }

  /** check_list. */
  method CheckList(items: seq<Node>, data: Data, info: QueryInfo) returns (r: seq<Node>)
    requires Linked(info)
    modifies data, info
    ensures var rs := WalkList(items, old(Chain(info)), old(data.State()));
            r == rs.nodes && info.aliasTable == rs.table && data.State() == rs.env
    decreases items
  {
    ghost var c0 := Chain(info);
    ghost var e0 := data.State();
    r := [];
    var k := 0;
    while k < |items|
      invariant 0 <= k <= |items|
      invariant Chain(info) == WithTop(c0, info.aliasTable)
      invariant var rs := WalkList(items[..k], c0, e0);
                r == rs.nodes && info.aliasTable == rs.table && data.State() == rs.env
    {
      ghost var rs := WalkList(items[..k], c0, e0);
      assert items[..k + 1][..k] == items[..k];
      ghost var step := Walk(items[k], WithTop(c0, rs.table), rs.env);
      assert WalkList(items[..k + 1], c0, e0) == Steps(rs.nodes + [step.node], step.table, step.env);
      var x := CheckNode(items[k], data, info);
      r := r + [x];
      k := k + 1;
    }
    assert items[..k] == items;
  }
}
