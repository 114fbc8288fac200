/** The resolution provider the walker calls into: the eight callbacks of
    the Data bundle in parser.h, over the query-type enumeration.

    The provider is injected by the caller; the model uses a recording
    provider whose state is the value Env: alias tables keyed by handle,
    two lookup maps that decide hasRel and hasRelFor, and append-only logs
    of the notHandled, setQuery and removeTable calls. */
module Provider {

  datatype Option<T> = None | Some(value: T)

  /** QueryType, in the declaration order of parser.h. */
  datatype QueryType = Select | Delete | Insert | Update

  /** An alias-table handle as addTable hands it out. */
  type Handle = nat

  datatype Env = Env(
    tables: map<Handle, set<string>>,
    next: Handle,
    rel: map<string, string>,
    relFor: map<(string, QueryType), string>,
    reports: seq<string>,
    queries: seq<string>,
    removals: seq<Option<Handle>>)
  {
    /** Every live table was handed out before `next`. */
    ghost predicate Valid() {
      forall h :: h in tables ==> h < next
    }

    /** addTable: a new, empty table under a handle never used before. */
    function AddTable(): (r: (Env, Handle))
      ensures r.1 == next && (Valid() ==> r.1 !in tables)
      ensures r.0.tables.Keys == tables.Keys + {r.1} && r.0.tables[r.1] == {}
      ensures Valid() ==> forall h :: h in tables ==> r.0.tables[h] == tables[h]
      ensures r.0.next > r.1
      ensures r.0.rel == rel && r.0.relFor == relFor
      ensures r.0.reports == reports && r.0.queries == queries && r.0.removals == removals
      ensures Valid() ==> r.0.Valid()
    {
      (this.(tables := tables[next := {}], next := next + 1), next)
    }

    /** removeTable: destroys the table (nothing for an absent handle); the
        call itself is recorded. */
    function RemoveTable(t: Option<Handle>): (e: Env)
      ensures e.removals == removals + [t]
      ensures e.tables.Keys == if t.Some? then tables.Keys - {t.value} else tables.Keys
      ensures forall h :: h in e.tables ==> e.tables[h] == tables[h]
      ensures e.next == next && e.rel == rel && e.relFor == relFor
      ensures e.reports == reports && e.queries == queries
      ensures Valid() ==> e.Valid()
    {
      var live := if t.Some? then tables - {t.value} else tables;
      this.(tables := live, removals := removals + [t])
    }

    /** hasAlias: whether the table holds the name; an absent handle or a
        handle that is no longer live holds nothing. */
    predicate HasAlias(t: Option<Handle>, name: string) {
      t.Some? && t.value in tables && name in tables[t.value]
    }

    /** addAlias: adds the name to a live table and reports success; a handle
        that is not live is refused and nothing changes. */
    function AddAlias(h: Handle, name: string): (r: (Env, bool))
      ensures r.1 <==> h in tables
      ensures r.1 ==> r.0 == this.(tables := tables[h := tables[h] + {name}])
      ensures !r.1 ==> r.0 == this
      ensures Valid() ==> r.0.Valid()
    {
      if h in tables then (this.(tables := tables[h := tables[h] + {name}]), true)
      else (this, false)
    }

    /** hasRel: the physical name for a bare name, if the provider has one. */
    function HasRel(name: string): (r: Option<string>)
      ensures r.Some? <==> name in rel
      ensures r.Some? ==> r.value == rel[name]
    {
      if name in rel then Some(rel[name]) else None
    }

    /** hasRelFor: the physical name for a table name under a statement kind. */
    function HasRelFor(name: string, kind: QueryType): (r: Option<string>)
      ensures r.Some? <==> (name, kind) in relFor
      ensures r.Some? ==> r.value == relFor[(name, kind)]
    {
      if (name, kind) in relFor then Some(relFor[(name, kind)]) else None
    }

    /** setQuery: the text joins the query log; nothing else changes. */
    function SetQuery(text: string): (e: Env)
      ensures e.queries == queries + [text]
      ensures e.tables == tables && e.next == next && e.rel == rel && e.relFor == relFor
      ensures e.reports == reports && e.removals == removals
    {
      this.(queries := queries + [text])
    }

    /** notHandled: the text joins the report log; nothing else changes. */
    function NotHandled(text: string): (e: Env)
      ensures e.reports == reports + [text]
      ensures e.tables == tables && e.next == next && e.rel == rel && e.relFor == relFor
      ensures e.queries == queries && e.removals == removals
    {
      this.(reports := reports + [text])
    }
  }

  /** A provider instance: the `obj` behind the Data bundle, whose callbacks
      update it in place. */
  class Data {
    var tables: map<Handle, set<string>>
    var next: Handle
    const rel: map<string, string>
    const relFor: map<(string, QueryType), string>
    var reports: seq<string>
    var queries: seq<string>
    var removals: seq<Option<Handle>>

    function State(): Env
      reads this
    {
      Env(tables, next, rel, relFor, reports, queries, removals)
    }

    /** A fresh provider with the given lookup maps and nothing recorded. */
    constructor (rel: map<string, string>, relFor: map<(string, QueryType), string>)
      ensures State() == Env(map[], 0, rel, relFor, [], [], [])
      ensures State().Valid()
    {
      this.tables := map[];
      this.next := 0;
      this.rel := rel;
      this.relFor := relFor;
      this.reports := [];
      this.queries := [];
      this.removals := [];
    }

    method AddTable() returns (h: Handle)
      modifies this
      ensures (State(), h) == old(State()).AddTable()
    {
      h := next;
      tables := tables[next := {}];
      next := next + 1;
    }

    method RemoveTable(t: Option<Handle>)
      modifies this
      ensures State() == old(State()).RemoveTable(t)
    {
      if t.Some? {
        tables := tables - {t.value};
      }
      removals := removals + [t];
    }

    method HasAlias(t: Option<Handle>, name: string) returns (b: bool)
      ensures b == State().HasAlias(t, name)
    {
      b := t.Some? && t.value in tables && name in tables[t.value];
    }

    method AddAlias(h: Handle, name: string) returns (ok: bool)
      modifies this
      ensures (State(), ok) == old(State()).AddAlias(h, name)
    {
      ok := h in tables;
      if ok {
        tables := tables[h := tables[h] + {name}];
      }
    }

    method HasRel(name: string) returns (r: Option<string>)
      ensures r == State().HasRel(name)
    {
      r := if name in rel then Some(rel[name]) else None;
    }

    method HasRelFor(name: string, kind: QueryType) returns (r: Option<string>)
      ensures r == State().HasRelFor(name, kind)
    {
      r := if (name, kind) in relFor then Some(relFor[(name, kind)]) else None;
    }

    method SetQuery(text: string)
      modifies this
      ensures State() == old(State()).SetQuery(text)
    {
      queries := queries + [text];
    }

    method NotHandled(text: string)
      modifies this
      ensures State() == old(State()).NotHandled(text)
    {
      reports := reports + [text];
    }
  }
}
