/** Where the connectives of a printed condition stand: every OR inside parentheses. */
module SqlNesting {
  import opened SqlConditions

  function Opening(t: Token): int {
    match t
    case LParen => 1
    case RParen => -1
    case _ => 0
  }

  /** Opening less closing parentheses. */
  function Depth(ts: seq<Token>): int {
    if ts == [] then 0 else Opening(ts[0]) + Depth(ts[1..])
  }

  /** With `d` parentheses open before them, no OR of the tokens stands outside all parentheses. */
  predicate OrsInside(ts: seq<Token>, d: int) {
    ts == [] || ((ts[0] == Or ==> d > 0) && OrsInside(ts[1..], d + Opening(ts[0])))
  }

  lemma {:induction false} InsideAppend(a: seq<Token>, b: seq<Token>, d: int)
    ensures Depth(a + b) == Depth(a) + Depth(b)
    ensures OrsInside(a + b, d) <==> OrsInside(a, d) && OrsInside(b, d + Depth(a))
  {
    if a == [] {
      assert a + b == b;
    } else {
      assert (a + b)[1..] == a[1..] + b;
      InsideAppend(a[1..], b, d + Opening(a[0]));
    }
  }

  /** As many parentheses close as open, and every OR stands inside some. */
  predicate Nested(ts: seq<Token>, d: int) {
    Depth(ts) == 0 && OrsInside(ts, d)
  }

  lemma NestedAppend(a: seq<Token>, b: seq<Token>, d: int)
    requires Nested(a, d) && Nested(b, d)
    ensures Nested(a + b, d)
  {
    InsideAppend(a, b, d);
  }

  lemma NestedParens(ts: seq<Token>, d: int)
    requires Nested(ts, d + 1)
    ensures Nested([LParen] + ts + [RParen], d)
  {
    InsideAppend([LParen], ts, d);
    InsideAppend([LParen] + ts, [RParen], d);
    assert [LParen][1..] == [] && [RParen][1..] == [];
  }

  lemma NestedOne(t: Token, d: int)
    requires t != LParen && t != RParen && (t == Or ==> d > 0)
    ensures Nested([t], d)
  {
    assert [t][1..] == [];
  }

  lemma {:induction false} NestedJoin(parts: seq<seq<Token>>, d: int)
    requires forall i | 0 <= i < |parts| :: Nested(parts[i], d)
    ensures Nested(JoinTokens(parts, And), d)
  {
    if |parts| > 1 {
      NestedJoin(parts[1..], d);
      NestedOne(And, d);
      NestedAppend(parts[0], [And], d);
      NestedAppend(parts[0] + [And], JoinTokens(parts[1..], And), d);
    }
  }

  lemma {:induction false} QueryNested(q: Query, d: nat)
    ensures Nested(TokensOf(q), d)
    decreases q, 2
  {
    match q
    case BoolQuery(must, should, mustNot) =>
      ClauseNested(Must, must, d);
      ClauseNested(Should, should, d);
      ClauseNested(MustNot, mustNot, d);
      NestedJoin(ClauseTokens(Must, must) + ClauseTokens(Should, should) + ClauseTokens(MustNot, mustNot), d);
    case TermQuery(_, _) => NestedOne(TokensOf(q)[0], d);
    case TermsQuery(_, _) => NestedOne(TokensOf(q)[0], d);
    case RangeQuery(name, from, to) => RangeNested(q, d);
    case NotSet =>
  }

  lemma RangeNested(q: Query, d: nat)
    requires q.RangeQuery?
    ensures Nested(TokensOf(q), d)
  {
    var ts := TokensOf(q);
    if |ts| == 1 {
      NestedOne(ts[0], d);
    } else if |ts| > 1 {
      NestedOne(ts[1], d + 1);
      NestedOne(And, d + 1);
      NestedOne(ts[3], d + 1);
      NestedAppend([ts[1]], [And], d + 1);
      NestedAppend([ts[1]] + [And], [ts[3]], d + 1);
      NestedParens([ts[1]] + [And] + [ts[3]], d);
      assert ts == [LParen] + ([ts[1]] + [And] + [ts[3]]) + [RParen];
    }
  }

  lemma ChildNested(kind: Kind, q: Query, d: nat)
    ensures Nested(Sign(kind) + TokensOf(q), d)
    decreases q, 3
  {
    QueryNested(q, d);
    NestedOne(Not, d);
    NestedAppend(Sign(kind), TokensOf(q), d);
  }

  lemma ClauseNested(kind: Kind, qs: seq<Query>, d: nat)
    ensures forall i | 0 <= i < |ClauseTokens(kind, qs)| :: Nested(ClauseTokens(kind, qs)[i], d)
    decreases qs, 1
  {
    if |qs| == 1 {
      ChildNested(kind, qs[0], d);
    } else if |qs| > 1 {
      ListNested(kind, qs, d + 1);
      NestedParens(ListTokens(kind, qs), d);
    }
  }

  lemma {:induction false} ListNested(kind: Kind, qs: seq<Query>, d: nat)
    requires d > 0
    ensures Nested(ListTokens(kind, qs), d)
    decreases qs, 0
  {
    if qs != [] {
      ChildNested(kind, qs[0], d);
      if |qs| > 1 {
        var head := Sign(kind) + TokensOf(qs[0]);
        ListNested(kind, qs[1..], d);
        NestedOne(Connective(kind), d);
        NestedAppend(head, [Connective(kind)], d);
        NestedAppend(head + [Connective(kind)], ListTokens(kind, qs[1..]), d);
      }
    }
  }

  /** In the text of every tree, more parentheses have been opened than closed before any OR. */
  lemma OrInParentheses(q: Query, i: nat)
    requires i < |TokensOf(q)| && TokensOf(q)[i] == Or
    ensures Depth(TokensOf(q)[..i]) > 0
    ensures Depth(TokensOf(q)) == 0
  {
    var ts := TokensOf(q);
    QueryNested(q, 0);
    assert ts == ts[..i] + ts[i..];
    InsideAppend(ts[..i], ts[i..], 0);
  }
}
