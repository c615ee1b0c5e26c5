/** The builders that append SQL text to a string. */
module SqlBuilder {
  import opened SqlText
  import opened Wrappers
  import opened SqlConditions
  import opened Strings

  method BuildTermValue(value: Primitive, sql: string) returns (r: string)
    ensures r == sql + ValueText(value)
  {
    match value
    case NullValue => r := sql + "NULL";
    case NumberValue(text) => r := sql + text;
    case LongValue(_) => r := sql + "0.000000";
    case BoolValue(b) => r := sql + if b then "1" else "0";
    case StringValue(s) =>
      r := sql + "'";
      var escaped := EscapeSQLText(s);
      r := r + escaped;
      r := r + "'";
    case NoValue => r := sql;
  }

  lemma SpellAtom(text: string)
    ensures Spell([Atom(text)]) == text
  {
    assert Spell([Atom(text)]) == text + Spell([Atom(text)][1..]);
  }

  method BuildTermQuery(name: string, value: Primitive, sql: string) returns (r: string)
    ensures r == sql + Spell(TokensOf(TermQuery(name, value)))
  {
    r := sql + name;
    r := r + " = ";
    r := BuildTermValue(value, r);
    SpellAtom(name + " = " + ValueText(value));
  }

  method BuildTermsQuery(name: string, values: seq<Primitive>, sql: string) returns (r: string)
    ensures r == sql + Spell(TokensOf(TermsQuery(name, values)))
  {
    r := sql + name;
    r := r + " IN (";
    var texts: seq<string> := [];
    for i := 0 to |values|
      invariant |texts| == i && forall j | 0 <= j < i :: texts[j] == ValueText(values[j])
    {
      var v := BuildTermValue(values[i], "");
      texts := texts + [v];
    }
    assert texts == ValueTexts(values);
    var joined := JoinWith(texts, ", ");
    r := r + joined;
    r := r + ")";
    SpellAtom(name + " IN (" + joined + ")");
  }

  /** Integer and double ranges: the two builders differ in how a number prints. */
  method BuildRangeQuery(name: string, from: Option<Bound>, to: Option<Bound>, sql: string) returns (r: string)
    ensures r == sql + Spell(TokensOf(RangeQuery(name, from, to)))
  {
    var ranges: seq<string> := [];
    if from.Some? {
      ranges := ranges + [name + (if from.value.inclusive then " >= " else " > ") + from.value.text];
    }
    if to.Some? {
      ranges := ranges + [name + (if to.value.inclusive then " <= " else " < ") + to.value.text];
    }
    if ranges != [] {
      if |ranges| > 1 {
        assert ranges == [FromText(name, from.value), ToText(name, to.value)];
        r := sql + "(";
        var joined := JoinWith(ranges, " AND ");
        r := r + joined;
        r := r + ")";
        assert r == sql + ("(" + joined + ")");
        SpellRange(FromText(name, from.value), ToText(name, to.value));
      } else {
        r := sql + ranges[0];
        SpellAtom(ranges[0]);
      }
    } else {
      r := sql;
    }
  }

  lemma SpellRange(a: string, b: string)
    ensures Spell([LParen, Atom(a), And, Atom(b), RParen]) == "(" + Joined([a, b], " AND ") + ")"
  {
    var ts := [LParen, Atom(a), And, Atom(b), RParen];
    assert ts[1..] == [Atom(a), And, Atom(b), RParen] && ts[1..][1..] == [And, Atom(b), RParen];
    assert [And, Atom(b), RParen][1..] == [Atom(b), RParen];
    assert [Atom(b), RParen][1..] == [RParen] && [RParen][1..] == [];
    assert Spell([Atom(b), RParen]) == b + ")";
    assert Spell([And, Atom(b), RParen]) == " AND " + (b + ")");
    assert Spell(ts) == "(" + (a + (" AND " + (b + ")")));
    assert [a, b][1..] == [b];
    assert Joined([a, b], " AND ") == a + " AND " + b;
  }

  method BuildSearchQuery(q: Query, sql: string) returns (r: string)
    ensures r == sql + Spell(TokensOf(q))
    decreases q, 3
  {
    match q
    case BoolQuery(must, should, mustNot) => r := BuildBoolQuery(q, sql);
    case TermQuery(name, v) => r := BuildTermQuery(name, v, sql);
    case TermsQuery(name, vs) => r := BuildTermsQuery(name, vs, sql);
    case RangeQuery(name, from, to) => r := BuildRangeQuery(name, from, to, sql);
    case NotSet => r := sql;
  }

  lemma SpellThree(a: seq<Token>, t: Token, b: seq<Token>)
    ensures Spell(a + [t] + b) == Spell(a) + SpellToken(t) + Spell(b)
  {
    SpellConcat(a + [t], b);
    SpellConcat(a, [t]);
    assert Spell([t]) == SpellToken(t) + Spell([t][1..]);
  }

  lemma SpellClause(kind: Kind, qs: seq<Query>, i: nat, sep: string)
    requires i < |qs| && sep == if i == |qs| - 1 then "" else SpellToken(Connective(kind))
    ensures Spell(ListTokens(kind, qs[i..])) ==
            Spell(Sign(kind)) + Spell(TokensOf(qs[i])) + sep + Spell(ListTokens(kind, qs[i + 1..]))
  {
    var rest := qs[i..];
    assert rest[1..] == qs[i + 1..];
    var head, tail := Sign(kind) + TokensOf(qs[i]), ListTokens(kind, rest[1..]);
    assert Spell(head) == Spell(Sign(kind)) + Spell(TokensOf(qs[i])) by { SpellConcat(Sign(kind), TokensOf(qs[i])); }
    if |rest| > 1 {
      assert ListTokens(kind, rest) == head + [Connective(kind)] + tail;
      SpellThree(head, Connective(kind), tail);
    }
  }

  lemma SpellSign(kind: Kind)
    ensures Spell(Sign(kind)) == if kind == MustNot then "NOT " else ""
  {
    assert Spell([Not]) == "NOT " + Spell([Not][1..]);
  }

  /** The children of a clause, each with its sign, joined by the connective. */
  method BuildList(kind: Kind, qs: seq<Query>, start: string) returns (text: string)
    requires qs != []
    ensures text == start + Spell(ListTokens(kind, qs))
    decreases qs, 0
  {
    text := start;
    SpellSign(kind);
    ghost var full, rest := start + Spell(ListTokens(kind, qs)), Spell(ListTokens(kind, qs));
    assert qs[0..] == qs;
    for i := 0 to |qs|
      invariant rest == Spell(ListTokens(kind, qs[i..])) && text + rest == full
    {
      var sign := if kind == MustNot then "NOT " else "";
      var sep := if i == |qs| - 1 then "" else SpellToken(Connective(kind));
      SpellClause(kind, qs, i, sep);
      Regroup(text, sign, Spell(TokensOf(qs[i])), sep, Spell(ListTokens(kind, qs[i + 1..])));
      text := BuildSearchQuery(qs[i], text + sign);
      text := text + sep;
      rest := Spell(ListTokens(kind, qs[i + 1..]));
    }
    assert qs[|qs|..] == [];
  }

  lemma Regroup(a: string, b: string, c: string, d: string, e: string)
    ensures a + (b + c + d + e) == a + b + c + d + e
  {
  }

  /** One clause of a bool query; several children are put inside parentheses. */
  method BuildClause(kind: Kind, qs: seq<Query>) returns (text: string)
    requires qs != []
    ensures text == Spell(ClauseTokens(kind, qs)[0])
    decreases qs, 1
  {
    if |qs| > 1 {
      text := BuildList(kind, qs, "(");
      text := text + ")";
      SpellParens(ListTokens(kind, qs));
    } else {
      text := BuildList(kind, qs, "");
    }
  }

  lemma SpellParens(ts: seq<Token>)
    ensures Spell([LParen] + ts + [RParen]) == "(" + Spell(ts) + ")"
  {
    SpellConcat([LParen] + ts, [RParen]);
    SpellConcat([LParen], ts);
    assert Spell([LParen]) == "(" + Spell([LParen][1..]);
    assert Spell([RParen]) == ")" + Spell([RParen][1..]);
  }

  function SpellEach(parts: seq<seq<Token>>): (r: seq<string>)
    ensures |r| == |parts|
  {
    if parts == [] then [] else [Spell(parts[0])] + SpellEach(parts[1..])
  }

  lemma {:induction false} SpellJoin(parts: seq<seq<Token>>)
    ensures Spell(JoinTokens(parts, And)) == Joined(SpellEach(parts), " AND ")
  {
    if |parts| > 1 {
      var tail := JoinTokens(parts[1..], And);
      SpellJoin(parts[1..]);
      SpellConcat(parts[0] + [And], tail);
      SpellConcat(parts[0], [And]);
      assert Spell([And]) == " AND " + Spell([And][1..]);
      assert SpellEach(parts)[1..] == SpellEach(parts[1..]);
    }
  }

  lemma {:induction false} SpellEachAppend(parts: seq<seq<Token>>, p: seq<Token>)
    ensures SpellEach(parts + [p]) == SpellEach(parts) + [Spell(p)]
  {
    if parts != [] {
      assert (parts + [p])[1..] == parts[1..] + [p];
      SpellEachAppend(parts[1..], p);
    } else {
      assert (parts + [p])[1..] == [];
    }
  }

  method AddClause(kind: Kind, qs: seq<Query>, predicates: seq<string>, ghost parts: seq<seq<Token>>)
    returns (r: seq<string>)
    requires predicates == SpellEach(parts)
    ensures r == SpellEach(parts + ClauseTokens(kind, qs))
    decreases qs, 2
  {
    r := predicates;
    if |qs| > 0 {
      var p := BuildClause(kind, qs);
      SpellEachAppend(parts, ClauseTokens(kind, qs)[0]);
      assert ClauseTokens(kind, qs) == [ClauseTokens(kind, qs)[0]];
      r := r + [p];
    } else {
      assert parts + ClauseTokens(kind, qs) == parts;
    }
  }

  method BuildBoolQuery(q: Query, sql: string) returns (r: string)
    requires q.BoolQuery?
    ensures r == sql + Spell(TokensOf(q))
    decreases q, 2
  {
    var predicates := AddClause(Must, q.must, [], []);
    ghost var parts := [] + ClauseTokens(Must, q.must);
    predicates := AddClause(Should, q.should, predicates, parts);
    parts := parts + ClauseTokens(Should, q.should);
    predicates := AddClause(MustNot, q.mustNot, predicates, parts);
    parts := parts + ClauseTokens(MustNot, q.mustNot);
    var joined := JoinWith(predicates, " AND ");
    SpellJoin(parts);
    assert parts == ClauseTokens(Must, q.must) + ClauseTokens(Should, q.should) + ClauseTokens(MustNot, q.mustNot);
    r := sql + joined;
  }
}
