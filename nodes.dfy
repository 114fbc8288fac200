/** The raw parse tree the grammar hands to the walker, as a closed
    datatype: one constructor per node kind the walker's dispatch names,
    `Nil` for NULL (PostgreSQL's NIL list), and `Other` for every
    node kind it does not name. Only the fields the walker reads, rewrites,
    or deliberately leaves alone are kept. */
module Nodes {
  import opened Text
  import opened Provider

  datatype Node =
    | Nil
    | List(items: seq<Node>)
    | Integer(ival: int)
    | Float(fval: string)
    | Str(sval: string)
    | BitStr(bval: string)
    | AConst(literal: string)
    | ParamRef(number: int)
      /** The ordering key and, standing for whatever the alias-name slot of
          an Alias reads when the walker treats this SortBy as one, an
          unspecified string. */
    | SortBy(node: Node, overlaidName: string)
    | Alias(aliasname: string)
    | AExpr(lexpr: Node, rexpr: Node)
    | BoolExpr(args: seq<Node>)
    | RangeVar(relname: string, alias: Node)
    | JoinExpr(larg: Node, rarg: Node, usingClause: Node, quals: Node, alias: Node)
    | AIndirection(arg: Node, indirection: Node)
    | ResTarget(val: Node, indirection: Node)
    | TargetEntry(expr: Node)
    | ColumnRef(fields: seq<Node>)
    | FromExpr(fromlist: Node, quals: Node)
      /** SelectStmt, InsertStmt, UpdateStmt and DeleteStmt: the statement's
          kind, the clauses the walker visits, in the order it visits them,
          and the clauses it never looks at. See StatementClauses. */
    | Statement(kind: QueryType, clauses: seq<Node>, unwalked: seq<Node>)
      /** The components of the qualified function name, and the arguments. */
    | FuncCall(funcname: seq<string>, args: seq<Node>)
    | RangeSubselect(subquery: Node, alias: Node)
    | TypeCast(arg: Node)
    | CommonTableExpr(ctename: string, ctequery: Node)
    | Other(tag: string, children: seq<Node>)

  /** The fields of each statement node, split as the walker treats them:
      those it visits, in its order, and those it skips. */
  function StatementClauses(kind: QueryType): (r: (seq<string>, seq<string>)) {
    match kind
    case Select => (["distinctClause", "intoClause", "targetList", "fromClause", "whereClause",
                     "groupClause", "havingClause", "windowClause", "withClause", "valuesLists",
                     "sortClause", "limitOffset", "limitCount", "lockingClause", "larg", "rarg"], [])
    case Insert => (["relation", "cols", "selectStmt", "returningList"], ["onConflictClause", "withClause"])
    case Delete => (["relation", "usingClause", "whereClause", "returningList"], ["withClause"])
    case Update => (["relation", "targetList", "whereClause", "fromClause", "returningList"], ["withClause"])
  }

  /** A statement node whose fields are the ones its kind has. */
  predicate WellFormedStatement(n: Node)
    requires n.Statement?
  {
    |n.clauses| == |StatementClauses(n.kind).0| && |n.unwalked| == |StatementClauses(n.kind).1|
  }

  function KindName(k: QueryType): string {
    match k
    case Select => "SELECT"
    case Insert => "INSERT"
    case Delete => "DELETE"
    case Update => "UPDATE"
  }

  /** check_FuncCall's test: the name is non-NIL and its first component is
      exactly "row_number". */
  predicate IsRowNumber(funcname: seq<string>) {
    |funcname| > 0 && funcname[0] == "row_number"
  }

  /** A textual rendering of a node, standing in for nodeToString: it feeds
      only the notHandled and setQuery logs, and it shows every name the
      tree holds. */
  function Render(n: Node): string {
    match n
    case Nil => "<>"
    case List(items) => "(" + RenderAll(items) + ")"
    case Integer(i) => IntToString(i)
    case Float(f) => f
    case Str(s) => "\"" + s + "\""
    case BitStr(s) => "b\"" + s + "\""
    case AConst(lit) => "{A_CONST " + lit + "}"
    case ParamRef(k) => "{PARAMREF $" + IntToString(k) + "}"
    case SortBy(x, _) => "{SORTBY " + Render(x) + "}"
    case Alias(a) => "{ALIAS " + a + "}"
    case AExpr(l, r) => "{AEXPR " + Render(l) + " " + Render(r) + "}"
    case BoolExpr(args) => "{BOOLEXPR " + RenderAll(args) + "}"
    case RangeVar(name, al) => "{RANGEVAR " + name + " " + Render(al) + "}"
    case JoinExpr(l, r, u, q, al) =>
      "{JOINEXPR " + Render(l) + " " + Render(r) + " " + Render(u) + " " + Render(q) + " " + Render(al) + "}"
    case AIndirection(a, ind) => "{A_INDIRECTION " + Render(a) + " " + Render(ind) + "}"
    case ResTarget(v, ind) => "{RESTARGET " + Render(v) + " " + Render(ind) + "}"
    case TargetEntry(x) => "{TARGETENTRY " + Render(x) + "}"
    case ColumnRef(fs) => "{COLUMNREF " + RenderAll(fs) + "}"
    case FromExpr(fl, q) => "{FROMEXPR " + Render(fl) + " " + Render(q) + "}"
    case Statement(k, cl, rest) => "{" + KindName(k) + " " + RenderAll(cl) + " " + RenderAll(rest) + "}"
    case FuncCall(f, args) => "{FUNCCALL " + RenderNames(f) + " " + RenderAll(args) + "}"
    case RangeSubselect(q, al) => "{RANGESUBSELECT " + Render(q) + " " + Render(al) + "}"
    case TypeCast(x) => "{TYPECAST " + Render(x) + "}"
    case CommonTableExpr(name, q) => "{COMMONTABLEEXPR " + name + " " + Render(q) + "}"
    case Other(tag, cs) => "{" + tag + " " + RenderAll(cs) + "}"
  }

  function RenderAll(ns: seq<Node>): string {
    if |ns| == 0 then "" else RenderAll(ns[..|ns| - 1]) + " " + Render(ns[|ns| - 1])
  }

  function RenderNames(names: seq<string>): string {
    if |names| == 0 then "" else RenderNames(names[..|names| - 1]) + "." + names[|names| - 1]
  }
}
