/** Printing a query tree as a SQL search condition, and reading it back by precedence. */
module SqlConditions {
  import opened SqlText
  import opened Wrappers
  import opened Strings

  // ----- query trees

  /** A literal to compare with; numbers carry the text they print as. */
  datatype Primitive =
    | NullValue
    | NumberValue(text: string)
    | LongValue(n: int)  // printed from the unset double field
    | BoolValue(b: bool)
    | StringValue(s: string)
    | NoValue  // no kind set, or bytes: prints nothing

  datatype Bound = Bound(text: string, inclusive: bool)

  datatype Query =
    | BoolQuery(must: seq<Query>, should: seq<Query>, mustNot: seq<Query>)
    | TermQuery(name: string, term: Primitive)
    | TermsQuery(name: string, terms: seq<Primitive>)
    | RangeQuery(name: string, from: Option<Bound>, to: Option<Bound>)
    | NotSet

  // ----- tokens and their spelling

  datatype Token = LParen | RParen | And | Or | Not | Atom(text: string)

  function SpellToken(t: Token): string {
    match t
    case LParen => "("
    case RParen => ")"
    case And => " AND "
    case Or => " OR "
    case Not => "NOT "
    case Atom(text) => text
  }

  function Spell(ts: seq<Token>): string {
    if ts == [] then "" else SpellToken(ts[0]) + Spell(ts[1..])
  }

  lemma {:induction false} SpellConcat(a: seq<Token>, b: seq<Token>)
    ensures Spell(a + b) == Spell(a) + Spell(b)
  {
    if a == [] {
      assert a + b == b;
    } else {
      assert (a + b)[1..] == a[1..] + b;
      SpellConcat(a[1..], b);
    }
  }

  // ----- leaves

  function ValueText(v: Primitive): string {
    match v
    case NullValue => "NULL"
    case NumberValue(text) => text
    case LongValue(_) => "0.000000"
    case BoolValue(b) => if b then "1" else "0"
    case StringValue(s) => "'" + Escape(s) + "'"
    case NoValue => ""
  }

  /** Two values of one kind print alike exactly when they are equal, except that all 64-bit integers print alike. */
  lemma PrintedAlike(u: Primitive, v: Primitive)
    requires u.NumberValue? == v.NumberValue? && u.LongValue? == v.LongValue? && u.BoolValue? == v.BoolValue?
    requires u.StringValue? == v.StringValue? && u.NullValue? == v.NullValue?
    ensures ValueText(u) == ValueText(v) <==> u == v || u.LongValue?
  {
    if u.StringValue? {
      QuotedRoundTrip(u.s, "");
      QuotedRoundTrip(v.s, "");
      assert ValueText(u) + "" == ValueText(u) && ValueText(v) + "" == ValueText(v);
    }
  }

  function ValueTexts(vs: seq<Primitive>): (r: seq<string>)
    ensures |r| == |vs| && forall i | 0 <= i < |vs| :: r[i] == ValueText(vs[i])
  {
    seq(|vs|, i requires 0 <= i < |vs| => ValueText(vs[i]))
  }

  function FromText(name: string, b: Bound): string {
    name + (if b.inclusive then " >= " else " > ") + b.text
  }

  function ToText(name: string, b: Bound): string {
    name + (if b.inclusive then " <= " else " < ") + b.text
  }

  // ----- the printer, on tokens

  datatype Kind = Must | Should | MustNot

  function Connective(kind: Kind): Token {
    if kind == Should then Or else And
  }

  function Sign(kind: Kind): seq<Token> {
    if kind == MustNot then [Not] else []
  }

  function JoinTokens(parts: seq<seq<Token>>, sep: Token): seq<Token> {
    if parts == [] then [] else if |parts| == 1 then parts[0] else parts[0] + [sep] + JoinTokens(parts[1..], sep)
  }

  /** The tokens printed for a query. */
  function TokensOf(q: Query): seq<Token>
    decreases q, 2
  {
    match q
    case BoolQuery(must, should, mustNot) =>
      JoinTokens(ClauseTokens(Must, must) + ClauseTokens(Should, should) + ClauseTokens(MustNot, mustNot), And)
    case TermQuery(name, v) => [Atom(name + " = " + ValueText(v))]
    case TermsQuery(name, vs) => [Atom(name + " IN (" + Joined(ValueTexts(vs), ", ") + ")")]
    case RangeQuery(name, from, to) =>
      if from.Some? && to.Some? then
        [LParen, Atom(FromText(name, from.value)), And, Atom(ToText(name, to.value)), RParen]
      else if from.Some? then [Atom(FromText(name, from.value))]
      else if to.Some? then [Atom(ToText(name, to.value))]
      else []
    case NotSet => []
  }

  /** The predicate of one clause, if it has children: parenthesised only when there are several. */
  function ClauseTokens(kind: Kind, qs: seq<Query>): (r: seq<seq<Token>>)
    ensures |r| == if qs == [] then 0 else 1
    decreases qs, 1
  {
    if qs == [] then []
    else if |qs| == 1 then [Sign(kind) + TokensOf(qs[0])]
    else [[LParen] + ListTokens(kind, qs) + [RParen]]
  }

  function ListTokens(kind: Kind, qs: seq<Query>): seq<Token>
    decreases qs, 0
  {
    if qs == [] then []
    else if |qs| == 1 then Sign(kind) + TokensOf(qs[0])
    else Sign(kind) + TokensOf(qs[0]) + [Connective(kind)] + ListTokens(kind, qs[1..])
  }

  // ----- reading by precedence: NOT over AND over OR (section 8.12 of ISO/IEC 9075:1992)

  type Reading = Option<(bool, seq<Token>)>

  function ReadFactor(ts: seq<Token>, truth: set<string>): (r: Reading)
    ensures r.Some? ==> |r.value.1| < |ts|
    decreases |ts|, 0
  {
    if ts == [] then None
    else match ts[0]
      case Not =>
        var r := ReadFactor(ts[1..], truth);
        if r.None? then None else Some((!r.value.0, r.value.1))
      case Atom(text) => Some((text in truth, ts[1..]))
      case LParen =>
        var r := ReadCondition(ts[1..], truth);
        if r.Some? && r.value.1 != [] && r.value.1[0] == RParen then Some((r.value.0, r.value.1[1..])) else None
      case _ => None
  }

  function ReadTerm(ts: seq<Token>, truth: set<string>): (r: Reading)
    ensures r.Some? ==> |r.value.1| < |ts|
    decreases |ts|, 1
  {
    var f := ReadFactor(ts, truth);
    if f.None? then None
    else if f.value.1 != [] && f.value.1[0] == And then
      var rest := ReadTerm(f.value.1[1..], truth);
      if rest.None? then None else Some((f.value.0 && rest.value.0, rest.value.1))
    else f
  }

  function ReadCondition(ts: seq<Token>, truth: set<string>): (r: Reading)
    ensures r.Some? ==> |r.value.1| < |ts|
    decreases |ts|, 2
  {
    var t := ReadTerm(ts, truth);
    if t.None? then None
    else if t.value.1 != [] && t.value.1[0] == Or then
      var rest := ReadCondition(t.value.1[1..], truth);
      if rest.None? then None else Some((t.value.0 || rest.value.0, rest.value.1))
    else t
  }

  /** The truth value of a whole condition, given the comparisons that hold. */
  function Read(ts: seq<Token>, truth: set<string>): Option<bool> {
    var r := ReadCondition(ts, truth);
    if r.Some? && r.value.1 == [] then Some(r.value.0) else None
  }

  // ----- what a query tree means

  /** No empty clause and no empty range. */
  predicate WellFormed(q: Query)
    decreases q
  {
    match q
    case BoolQuery(must, should, mustNot) =>
      && must + should + mustNot != []
      && (forall i | 0 <= i < |must| :: WellFormed(must[i]))
      && (forall i | 0 <= i < |should| :: WellFormed(should[i]))
      && (forall i | 0 <= i < |mustNot| :: WellFormed(mustNot[i]))
    case RangeQuery(_, from, to) => from.Some? || to.Some?
    case NotSet => false
    case _ => true
  }

  predicate LeafHolds(q: Query, truth: set<string>) {
    match q
    case TermQuery(name, v) => name + " = " + ValueText(v) in truth
    case TermsQuery(name, vs) => name + " IN (" + Joined(ValueTexts(vs), ", ") + ")" in truth
    case RangeQuery(name, from, to) =>
      && (from.Some? ==> FromText(name, from.value) in truth)
      && (to.Some? ==> ToText(name, to.value) in truth)
    case _ => true
  }

  /** All of must, one of should if there are any, none of mustNot. */
  predicate Holds(q: Query, truth: set<string>)
    decreases q
  {
    match q
    case BoolQuery(must, should, mustNot) =>
      && (forall i | 0 <= i < |must| :: Holds(must[i], truth))
      && (should == [] || exists i | 0 <= i < |should| :: Holds(should[i], truth))
      && (forall i | 0 <= i < |mustNot| :: !Holds(mustNot[i], truth))
    case _ => LeafHolds(q, truth)
  }

  // ----- the factors of the printed conjunction

  function SignGroups(kind: Kind, g: seq<seq<Token>>): (r: seq<seq<Token>>)
    ensures |r| == |g|
  {
    if kind == MustNot && g != [] then [[Not] + g[0]] + g[1..] else g
  }

  /** The printed text is the conjunction of these token groups, each one factor. */
  function Groups(q: Query): seq<seq<Token>>
    decreases q, 1
  {
    match q
    case BoolQuery(must, should, mustNot) =>
      ClauseGroups(Must, must) + ClauseGroups(Should, should) + ClauseGroups(MustNot, mustNot)
    case _ => [TokensOf(q)]
  }

  function ClauseGroups(kind: Kind, qs: seq<Query>): seq<seq<Token>>
    decreases qs, 0
  {
    if qs == [] then []
    else if |qs| == 1 then SignGroups(kind, Groups(qs[0]))
    else ClauseTokens(kind, qs)
  }

  predicate All(v: seq<bool>) {
    forall i | 0 <= i < |v| :: v[i]
  }

  /** A NOT in front of a conjunction negates its first factor only. */
  function SignVals(kind: Kind, v: seq<bool>): (r: seq<bool>)
    ensures |r| == |v|
  {
    if kind == MustNot && v != [] then [!v[0]] + v[1..] else v
  }

  /** The truth values of the factors. */
  function Vals(q: Query, truth: set<string>): seq<bool>
    decreases q, 1
  {
    match q
    case BoolQuery(must, should, mustNot) =>
      ClauseVals(Must, must, truth) + ClauseVals(Should, should, truth) + ClauseVals(MustNot, mustNot, truth)
    case _ => [LeafHolds(q, truth)]
  }

  function ClauseVals(kind: Kind, qs: seq<Query>, truth: set<string>): seq<bool>
    decreases qs, 1
  {
    if qs == [] then []
    else if |qs| == 1 then SignVals(kind, Vals(qs[0], truth))
    else [ListVal(kind, qs, truth)]
  }

  /** One child as its clause prints it. */
  predicate ChildVal(kind: Kind, q: Query, truth: set<string>)
    decreases q, 2
  {
    All(SignVals(kind, Vals(q, truth)))
  }

  predicate ListVal(kind: Kind, qs: seq<Query>, truth: set<string>)
    decreases qs, 0
  {
    if kind == Should then exists i | 0 <= i < |qs| :: ChildVal(kind, qs[i], truth)
    else forall i | 0 <= i < |qs| :: ChildVal(kind, qs[i], truth)
  }

  lemma {:induction false} ValsNonEmpty(q: Query, truth: set<string>)
    requires WellFormed(q)
    ensures |Vals(q, truth)| == |Groups(q)| > 0
    decreases q
  {
    if q.BoolQuery? {
      ClauseSizes(Must, q.must, truth);
      ClauseSizes(Should, q.should, truth);
      ClauseSizes(MustNot, q.mustNot, truth);
    }
  }

  lemma ClauseSizes(kind: Kind, qs: seq<Query>, truth: set<string>)
    requires forall i | 0 <= i < |qs| :: WellFormed(qs[i])
    ensures |ClauseVals(kind, qs, truth)| == |ClauseGroups(kind, qs)|
    ensures qs != [] ==> |ClauseVals(kind, qs, truth)| > 0
    decreases qs
  {
    if |qs| == 1 {
      ValsNonEmpty(qs[0], truth);
    }
  }

  lemma {:induction false} JoinConcat(a: seq<seq<Token>>, b: seq<seq<Token>>, sep: Token)
    requires a != [] && b != []
    ensures JoinTokens(a + b, sep) == JoinTokens(a, sep) + [sep] + JoinTokens(b, sep)
  {
    if |a| == 1 {
      assert (a + b)[1..] == b;
    } else {
      assert (a + b)[1..] == a[1..] + b;
      JoinConcat(a[1..], b, sep);
    }
  }

  /** JoinConcat where either side may be missing. */
  lemma JoinAppend(a: seq<seq<Token>>, b: seq<seq<Token>>, sep: Token)
    ensures JoinTokens(a + b, sep) ==
            if a == [] then JoinTokens(b, sep) else if b == [] then JoinTokens(a, sep)
            else JoinTokens(a, sep) + [sep] + JoinTokens(b, sep)
  {
    if a == [] {
      assert a + b == b;
    } else if b == [] {
      assert a + b == a;
    } else {
      JoinConcat(a, b, sep);
    }
  }

  lemma JoinSign(g: seq<seq<Token>>)
    requires g != []
    ensures JoinTokens(SignGroups(MustNot, g), And) == [Not] + JoinTokens(g, And)
  {
    var signed := SignGroups(MustNot, g);
    if |g| > 1 {
      assert signed[1..] == g[1..];
    }
  }

  /** The printed tokens are the groups joined by AND. */
  lemma {:induction false} TokensAreGroups(q: Query)
    requires WellFormed(q)
    ensures TokensOf(q) == JoinTokens(Groups(q), And)
    decreases q
  {
    if q.BoolQuery? {
      ClauseIsGroups(Must, q.must);
      ClauseIsGroups(Should, q.should);
      ClauseIsGroups(MustNot, q.mustNot);
      var t1, t2, t3 := ClauseTokens(Must, q.must), ClauseTokens(Should, q.should), ClauseTokens(MustNot, q.mustNot);
      var g1, g2, g3 := ClauseGroups(Must, q.must), ClauseGroups(Should, q.should), ClauseGroups(MustNot, q.mustNot);
      JoinAppend(t1 + t2, t3, And);
      JoinAppend(t1, t2, And);
      JoinAppend(g1 + g2, g3, And);
      JoinAppend(g1, g2, And);
    }
  }

  lemma ClauseIsGroups(kind: Kind, qs: seq<Query>)
    requires forall i | 0 <= i < |qs| :: WellFormed(qs[i])
    ensures JoinTokens(ClauseTokens(kind, qs), And) == JoinTokens(ClauseGroups(kind, qs), And)
    ensures ClauseTokens(kind, qs) == [] <==> qs == []
    ensures ClauseGroups(kind, qs) == [] <==> qs == []
    decreases qs
  {
    if |qs| == 1 {
      TokensAreGroups(qs[0]);
      ValsNonEmpty(qs[0], {});
      if kind == MustNot {
        JoinSign(Groups(qs[0]));
      }
    }
  }

  // ----- reading the groups

  /** The group reads as one factor of value `v`, whatever follows. */
  ghost predicate ReadsAs(g: seq<Token>, v: bool, truth: set<string>) {
    forall k: seq<Token> {:trigger g + k} :: ReadFactor(g + k, truth) == Some((v, k))
  }

  ghost predicate AllRead(gs: seq<seq<Token>>, vs: seq<bool>, truth: set<string>) {
    |gs| == |vs| && forall i {:trigger ReadsAs(gs[i], vs[i], truth)} | 0 <= i < |gs| :: ReadsAs(gs[i], vs[i], truth)
  }

  predicate StartsWith(k: seq<Token>, t: Token) {
    k != [] && k[0] == t
  }

  /** A conjunction of value `v` followed by `k`, read on as one term. */
  function Chain(v: bool, k: seq<Token>, truth: set<string>): Reading {
    if StartsWith(k, And) then
      var rest := ReadTerm(k[1..], truth);
      if rest.None? then None else Some((v && rest.value.0, rest.value.1))
    else Some((v, k))
  }

  lemma {:induction false} ChainReads(gs: seq<seq<Token>>, vs: seq<bool>, k: seq<Token>, truth: set<string>)
    requires gs != [] && AllRead(gs, vs, truth)
    ensures ReadTerm(JoinTokens(gs, And) + k, truth) == Chain(All(vs), k, truth)
  {
    assert ReadsAs(gs[0], vs[0], truth);
    if |gs| == 1 {
      assert JoinTokens(gs, And) + k == gs[0] + k;
      assert All(vs) == vs[0];
    } else {
      var rest := JoinTokens(gs[1..], And) + k;
      assert JoinTokens(gs, And) + k == gs[0] + ([And] + rest);
      assert ([And] + rest)[1..] == rest;
      forall i | 0 <= i < |gs| - 1 ensures ReadsAs(gs[1..][i], vs[1..][i], truth) {
        assert ReadsAs(gs[i + 1], vs[i + 1], truth);
      }
      ChainReads(gs[1..], vs[1..], k, truth);
      assert All(vs) == (vs[0] && All(vs[1..])) by {
        assert vs == [vs[0]] + vs[1..];
      }
    }
  }

  lemma SignReads(kind: Kind, gs: seq<seq<Token>>, vs: seq<bool>, truth: set<string>)
    requires AllRead(gs, vs, truth)
    ensures AllRead(SignGroups(kind, gs), SignVals(kind, vs), truth)
  {
    var sg, sv := SignGroups(kind, gs), SignVals(kind, vs);
    forall i | 0 <= i < |gs| ensures ReadsAs(sg[i], sv[i], truth) {
      assert ReadsAs(gs[i], vs[i], truth);
      if kind == MustNot && i == 0 {
        forall k: seq<Token> ensures ReadFactor(sg[0] + k, truth) == Some((sv[0], k)) {
          assert (sg[0] + k)[1..] == gs[0] + k;
        }
      }
    }
  }

  lemma AppendReads(a: seq<seq<Token>>, va: seq<bool>, b: seq<seq<Token>>, vb: seq<bool>, truth: set<string>)
    requires AllRead(a, va, truth) && AllRead(b, vb, truth)
    ensures AllRead(a + b, va + vb, truth)
  {
    forall i | 0 <= i < |a + b| ensures ReadsAs((a + b)[i], (va + vb)[i], truth) {
      if i < |a| {
        assert ReadsAs(a[i], va[i], truth);
      } else {
        assert ReadsAs(b[i - |a|], vb[i - |a|], truth);
      }
    }
  }

  lemma LeafReads(q: Query, truth: set<string>)
    requires WellFormed(q) && !q.BoolQuery?
    ensures ReadsAs(TokensOf(q), LeafHolds(q, truth), truth)
  {
    var g := TokensOf(q);
    forall k: seq<Token> ensures ReadFactor(g + k, truth) == Some((LeafHolds(q, truth), k)) {
      if |g| == 1 {
        assert (g + k)[1..] == k;
      } else {
        var a, b := g[1], g[3];
        var tail := [b, RParen] + k;
        assert (g + k)[1..] == [a, And] + tail;
        assert ([a, And] + tail)[1..] == [And] + tail && ([And] + tail)[1..] == tail;
        assert tail[1..] == [RParen] + k;
        assert ([RParen] + k)[1..] == k;
        assert ReadTerm(tail, truth) == Some((b.text in truth, [RParen] + k));
        assert ReadTerm([a, And] + tail, truth) == Some((a.text in truth && b.text in truth, [RParen] + k));
      }
    }
  }

  /** Every group of a printed query reads as one factor, with the value `Vals` gives it. */
  lemma {:induction false} GroupsRead(q: Query, truth: set<string>)
    requires WellFormed(q)
    ensures AllRead(Groups(q), Vals(q, truth), truth)
    decreases q, 2
  {
    if q.BoolQuery? {
      ClauseReads(Must, q.must, truth);
      ClauseReads(Should, q.should, truth);
      ClauseReads(MustNot, q.mustNot, truth);
      var g1, g2, g3 := ClauseGroups(Must, q.must), ClauseGroups(Should, q.should), ClauseGroups(MustNot, q.mustNot);
      var v1, v2 := ClauseVals(Must, q.must, truth), ClauseVals(Should, q.should, truth);
      var v3 := ClauseVals(MustNot, q.mustNot, truth);
      AppendReads(g1, v1, g2, v2, truth);
      AppendReads(g1 + g2, v1 + v2, g3, v3, truth);
    } else {
      LeafReads(q, truth);
    }
  }

  lemma ClauseReads(kind: Kind, qs: seq<Query>, truth: set<string>)
    requires forall i | 0 <= i < |qs| :: WellFormed(qs[i])
    ensures AllRead(ClauseGroups(kind, qs), ClauseVals(kind, qs, truth), truth)
    decreases qs, 1
  {
    if |qs| == 1 {
      GroupsRead(qs[0], truth);
      SignReads(kind, Groups(qs[0]), Vals(qs[0], truth), truth);
    } else if |qs| > 1 {
      var g, v := ClauseGroups(kind, qs)[0], ClauseVals(kind, qs, truth)[0];
      forall k: seq<Token> ensures ReadFactor(g + k, truth) == Some((v, k)) {
        ListReads(kind, qs, [RParen] + k, truth);
        ParensRead(ListTokens(kind, qs), v, k, truth);
      }
      assert ReadsAs(g, v, truth);
    }
  }

  lemma ParensRead(inner: seq<Token>, v: bool, k: seq<Token>, truth: set<string>)
    requires ReadCondition(inner + ([RParen] + k), truth) == Some((v, [RParen] + k))
    ensures ReadFactor([LParen] + inner + [RParen] + k, truth) == Some((v, k))
  {
    var ts := [LParen] + inner + [RParen] + k;
    assert ts[1..] == inner + ([RParen] + k);
    assert ([RParen] + k)[1..] == k;
  }

  /** A child in its clause, read as the start of a term. */
  lemma ChildReads(kind: Kind, q: Query, k: seq<Token>, truth: set<string>)
    requires WellFormed(q)
    ensures ReadTerm(Sign(kind) + TokensOf(q) + k, truth) == Chain(All(SignVals(kind, Vals(q, truth))), k, truth)
    decreases q, 3
  {
    GroupsRead(q, truth);
    TokensAreGroups(q);
    ValsNonEmpty(q, truth);
    SignReads(kind, Groups(q), Vals(q, truth), truth);
    if kind == MustNot {
      JoinSign(Groups(q));
    }
    assert Sign(kind) + TokensOf(q) == JoinTokens(SignGroups(kind, Groups(q)), And);
    ChainReads(SignGroups(kind, Groups(q)), SignVals(kind, Vals(q, truth)), k, truth);
  }

  lemma ListValSplit(kind: Kind, qs: seq<Query>, truth: set<string>)
    requires |qs| > 1
    ensures ListVal(kind, qs, truth) ==
            if kind == Should then ChildVal(kind, qs[0], truth) || ListVal(kind, qs[1..], truth)
            else ChildVal(kind, qs[0], truth) && ListVal(kind, qs[1..], truth)
  {
    assert qs == [qs[0]] + qs[1..];
    assert forall i | 1 <= i < |qs| :: qs[i] == qs[1..][i - 1];
  }

  lemma ReadOnAnd(ts: seq<Token>, v: bool, rest: seq<Token>, w: bool, k: seq<Token>, truth: set<string>)
    requires ReadTerm(ts, truth) == Chain(v, [And] + rest, truth)
    requires ReadTerm(rest, truth) == Some((w, k)) && StartsWith(k, RParen)
    ensures ReadTerm(ts, truth) == ReadCondition(ts, truth) == Some((v && w, k))
  {
    assert ([And] + rest)[1..] == rest;
  }

  lemma ReadOnOr(ts: seq<Token>, v: bool, rest: seq<Token>, w: bool, k: seq<Token>, truth: set<string>)
    requires ReadTerm(ts, truth) == Chain(v, [Or] + rest, truth)
    requires ReadCondition(rest, truth) == Some((w, k))
    ensures ReadCondition(ts, truth) == Some((v || w, k))
  {
    assert ([Or] + rest)[1..] == rest;
  }

  lemma ListTokensSplit(kind: Kind, qs: seq<Query>, k: seq<Token>)
    requires |qs| > 1
    ensures ListTokens(kind, qs) + k ==
            Sign(kind) + TokensOf(qs[0]) + ([Connective(kind)] + (ListTokens(kind, qs[1..]) + k))
  {
  }

  /** The children of a clause, read up to the closing parenthesis. */
  lemma {:induction false} ListReads(kind: Kind, qs: seq<Query>, k: seq<Token>, truth: set<string>)
    requires qs != [] && forall i | 0 <= i < |qs| :: WellFormed(qs[i])
    requires StartsWith(k, RParen)
    ensures kind != Should ==> ReadTerm(ListTokens(kind, qs) + k, truth) == Some((ListVal(kind, qs, truth), k))
    ensures ReadCondition(ListTokens(kind, qs) + k, truth) == Some((ListVal(kind, qs, truth), k))
    decreases qs, 0
  {
    if |qs| == 1 {
      ChildReads(kind, qs[0], k, truth);
    } else {
      var ts, rest := ListTokens(kind, qs) + k, ListTokens(kind, qs[1..]) + k;
      var v, w := ChildVal(kind, qs[0], truth), ListVal(kind, qs[1..], truth);
      ListTokensSplit(kind, qs, k);
      ListValSplit(kind, qs, truth);
      ChildReads(kind, qs[0], [Connective(kind)] + rest, truth);
      ListReads(kind, qs[1..], k, truth);
      if kind == Should {
        ReadOnOr(ts, v, rest, w, k, truth);
      } else {
        ReadOnAnd(ts, v, rest, w, k, truth);
      }
    }
  }

  /** The printed text of a well-formed query reads as the conjunction of its factors. */
  lemma PrintedReads(q: Query, truth: set<string>)
    requires WellFormed(q)
    ensures Read(TokensOf(q), truth) == Some(All(Vals(q, truth)))
  {
    ChildReads(Must, q, [], truth);
    assert Sign(Must) + TokensOf(q) + [] == TokensOf(q);
  }
}
