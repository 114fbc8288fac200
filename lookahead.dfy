/** The token filter between the grammar and the core scanner. Three tokens
    need a second token of lookahead to keep the grammar LALR(1): NOT, NULLS
    and WITH. For each of them the filter reads the following token, keeps it
    for the next call, and relabels the current one when the pair forms one
    of the multiword operators. */
module Lookahead {
  import opened Provider

  datatype Token =
    | Not | NullsP | With
    | Between | InP | Like | ILike | Similar
    | FirstP | LastP
    | Time | Ordinality
    | NotLa | NullsLa | WithLa
      /** Every other token code (0 is the end of the input). */
    | OtherToken(code: int)

  /** A token with its semantic value and its location in the query. */
  datatype Lexeme = Lexeme(token: Token, value: string, loc: int)

  /** The three relabelled tokens, which the grammar reads but the core
      scanner never produces. */
  predicate IsRelabelled(t: Token) {
    t.NotLa? || t.NullsLa? || t.WithLa?
  }

  /** The length of a token that needs lookahead, None for every other. */
  function LookaheadLength(t: Token): (len: Option<nat>)
    ensures len.Some? <==> t.Not? || t.NullsP? || t.With?
  {
    match t
    case Not => Some(3)
    case NullsP => Some(5)
    case With => Some(4)
    case _ => None
  }

  /** The second switch: the current token as the grammar should see it,
      given the token that follows. */
  function Relabel(cur: Token, next: Token): (t: Token)
    ensures t.NotLa? <==> cur.NotLa? || (cur.Not? && (next.Between? || next.InP? || next.Like? || next.ILike? || next.Similar?))
    ensures t.NullsLa? <==> cur.NullsLa? || (cur.NullsP? && (next.FirstP? || next.LastP?))
    ensures t.WithLa? <==> cur.WithLa? || (cur.With? && (next.Time? || next.Ordinality?))
    ensures !IsRelabelled(cur) ==> Unlabel(t) == cur
  {
    match cur
    case Not =>
      (match next
       case Between => NotLa
       case InP => NotLa
       case Like => NotLa
       case ILike => NotLa
       case Similar => NotLa
       case _ => cur)
    case NullsP =>
      (match next
       case FirstP => NullsLa
       case LastP => NullsLa
       case _ => cur)
    case With =>
      (match next
       case Time => WithLa
       case Ordinality => WithLa
       case _ => cur)
    case _ => cur
  }

  /** The token a relabelled token stands for. */
  function Unlabel(t: Token): Token {
    match t
    case NotLa => Not
    case NullsLa => NullsP
    case WithLa => With
    case _ => t
  }

  /** The filter's own state: how many tokens it has taken from the core
      scanner, whether it holds one back, the one it holds, and where the
      token before it ends. */
  datatype FilterState = FilterState(pos: nat, haveLookahead: bool, lookahead: Lexeme, lookaheadEnd: int)

  /** The token the filter works on next: the one it holds back, if any,
      or else a fresh one from the scanner. */
  function Current(core: nat -> Lexeme, s: FilterState): Lexeme {
    if s.haveLookahead then s.lookahead else core(s.pos)
  }

  /** One call of base_yylex, with the core scanner as the stream `core`
      of tokens it would return call after call. */
  function FilterStep(core: nat -> Lexeme, s: FilterState): (r: (Lexeme, FilterState))
    ensures var cur := Current(core, s);
            var taken := s.pos + (if s.haveLookahead then 0 else 1);
            && r.0.value == cur.value && r.0.loc == cur.loc
            && (!IsRelabelled(cur.token) ==> Unlabel(r.0.token) == cur.token)
            && (r.1.haveLookahead <==> LookaheadLength(cur.token).Some?)
            && r.1.pos == taken + (if r.1.haveLookahead then 1 else 0)
            && (!r.1.haveLookahead ==> r.0.token == cur.token)
            && (r.1.haveLookahead ==>
                  r.1.lookahead == core(taken) && r.1.lookaheadEnd == cur.loc + LookaheadLength(cur.token).value
                  && r.0.token == Relabel(cur.token, core(taken).token))
  {
    var cur := Current(core, s);
    var pos1 := if s.haveLookahead then s.pos else s.pos + 1;
    match LookaheadLength(cur.token)
    case None => (cur, s.(pos := pos1, haveLookahead := false))
    case Some(len) =>
      var next := core(pos1);
      (cur.(token := Relabel(cur.token, next.token)), FilterState(pos1 + 1, true, next, cur.loc + len))
  }

  /** The lexemes of k calls in a row, and the state they leave. */
  function Run(core: nat -> Lexeme, s: FilterState, k: nat): (r: (seq<Lexeme>, FilterState))
    ensures |r.0| == k
    decreases k
  {
    if k == 0 then ([], s)
    else
      var (out, s1) := Run(core, s, k - 1);
      var (l, s2) := FilterStep(core, s1);
      (out + [l], s2)
  }

  /** The filter has emitted exactly the first k tokens of the scanner, and
      holds back the next one if it holds any. */
  ghost predicate Aligned(core: nat -> Lexeme, s: FilterState, k: nat) {
    s.pos == k + (if s.haveLookahead then 1 else 0) && (s.haveLookahead ==> s.lookahead == core(k))
  }

  /** A token held back is the next one the filter returns, and the scanner
      is not asked for another before it. */
  lemma HeldTokenComesNext(core: nat -> Lexeme, s: FilterState)
    requires !IsRelabelled(Current(core, s).token)
    requires !IsRelabelled(FilterStep(core, s).1.lookahead.token)
    ensures var s1 := FilterStep(core, s).1;
            var l2 := FilterStep(core, s1).0;
            s1.haveLookahead ==>
              Current(core, s1) == s1.lookahead && Unlabel(l2.token) == s1.lookahead.token
              && l2.value == s1.lookahead.value && l2.loc == s1.lookahead.loc
  {
  }

  /** Started without a held token, the filter returns the scanner's tokens
      one for one and in order, each with its own value and location, and
      the only change is the relabelling of NOT, NULLS and WITH. */
  lemma {:induction false} RunEmitsScannerTokens(core: nat -> Lexeme, s: FilterState, k: nat)
    requires s.pos == 0 && !s.haveLookahead
    requires forall i :: !IsRelabelled(core(i).token)
    ensures var (out, s2) := Run(core, s, k);
            && Aligned(core, s2, k)
            && forall i :: 0 <= i < k ==>
                 Unlabel(out[i].token) == core(i).token && out[i].value == core(i).value && out[i].loc == core(i).loc
    decreases k
  {
    if k > 0 {
      RunEmitsScannerTokens(core, s, k - 1);
      var (out, s1) := Run(core, s, k - 1);
      assert Current(core, s1) == core(k - 1);
      var l := FilterStep(core, s1).0;
      assert Run(core, s, k).0 == out + [l];
    }
  }

  /** The filter state of base_yy_extra_type, over a core scanner that
      returns `core(i)` on its i-th call. */
  class Filter {
    const core: nat -> Lexeme
    var pos: nat
    var haveLookahead: bool
    var lookahead: Lexeme
    var lookaheadEnd: int

    function State(): FilterState
      reads this
    {
      FilterState(pos, haveLookahead, lookahead, lookaheadEnd)
    }

    /** raw_parser's set-up: a fresh scanner and no token held back. */
    constructor (core: nat -> Lexeme)
      ensures this.core == core && pos == 0 && !haveLookahead
    {
      this.core := core;
      pos := 0;
      haveLookahead := false;
      lookahead := Lexeme(OtherToken(0), "", 0);
      lookaheadEnd := 0;
    }

    /** core_yylex: the scanner's next token. */
    method CoreLex() returns (l: Lexeme)
      modifies this
      ensures l == core(old(pos)) && pos == old(pos) + 1
      ensures haveLookahead == old(haveLookahead) && lookahead == old(lookahead) && lookaheadEnd == old(lookaheadEnd)
    {
      l := core(pos);
      pos := pos + 1;
    }

    /** base_yylex. */
    method BaseYylex() returns (l: Lexeme)
      modifies this
      ensures (l, State()) == FilterStep(core, old(State()))
    {
      var cur: Lexeme;
      if haveLookahead {
        cur := lookahead;
        haveLookahead := false;
      } else {
        cur := CoreLex();
      }
      var len := LookaheadLength(cur.token);
      if len.None? {
        return cur;
      }
      lookaheadEnd := cur.loc + len.value;
      var next := CoreLex();
      lookahead := next;
      haveLookahead := true;
      l := cur.(token := Relabel(cur.token, next.token));
    }
  }
}
