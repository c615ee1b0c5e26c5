/** The printed text is a search condition exactly when no clause and no range is empty. */
module SqlSyntax {
  import opened SqlText
  import opened Wrappers
  import opened SqlConditions

  predicate Opens(t: Token) {
    t == LParen || t == Not || t.Atom?
  }

  predicate Closes(t: Token) {
    t == RParen || t.Atom?
  }

  /** An operand starts after an operator and an operator after an operand. */
  predicate Fit(x: Token, y: Token) {
    Closes(x) != Opens(y)
  }

  predicate Clean(ts: seq<Token>) {
    && ts != [] && Opens(ts[0]) && Closes(ts[|ts| - 1])
    && forall i | 0 <= i < |ts| - 1 :: Fit(ts[i], ts[i + 1])
  }

  lemma CleanJoin(a: seq<Token>, op: Token, b: seq<Token>)
    requires Clean(a) && Clean(b) && (op == And || op == Or)
    ensures Clean(a + [op] + b)
  {
    var ts := a + [op] + b;
    forall i | 0 <= i < |ts| - 1 ensures Fit(ts[i], ts[i + 1]) {
      if i > |a| {
        assert ts[i] == b[i - |a| - 1] && ts[i + 1] == b[i - |a|];
      }
    }
  }

  lemma CleanNot(a: seq<Token>)
    requires Clean(a)
    ensures Clean([Not] + a)
  {
    var ts := [Not] + a;
    forall i | 0 <= i < |ts| - 1 ensures Fit(ts[i], ts[i + 1]) {
      if i > 0 {
        assert Fit(a[i - 1], a[i]);
      }
    }
  }

  lemma CleanParens(a: seq<Token>)
    requires Clean(a)
    ensures Clean([LParen] + a + [RParen])
  {
    var ts := [LParen] + a + [RParen];
    forall i | 0 <= i < |ts| - 1 ensures Fit(ts[i], ts[i + 1]) {
      if 0 < i < |a| {
        assert Fit(a[i - 1], a[i]);
      }
    }
  }

  /** What was read is clean; `p` is that part of the tokens. */
  ghost predicate CleanPrefix(ts: seq<Token>, r: Reading, p: seq<Token>) {
    r.Some? ==> Clean(p) && ts == p + r.value.1
  }

  lemma {:induction false} FactorClean(ts: seq<Token>, truth: set<string>) returns (p: seq<Token>)
    ensures CleanPrefix(ts, ReadFactor(ts, truth), p)
    decreases |ts|, 0
  {
    p := [];
    var r := ReadFactor(ts, truth);
    if r.Some? {
      assert ts == [ts[0]] + ts[1..];
      match ts[0]
      case Atom(_) =>
        p := [ts[0]];
      case Not =>
        p := FactorClean(ts[1..], truth);
        CleanNot(p);
        p := [Not] + p;
      case LParen =>
        p := ConditionClean(ts[1..], truth);
        var mid := ReadCondition(ts[1..], truth).value.1;
        assert mid == [RParen] + mid[1..];
        CleanParens(p);
        p := [LParen] + p + [RParen];
    }
  }

  lemma {:induction false} TermClean(ts: seq<Token>, truth: set<string>) returns (p: seq<Token>)
    ensures CleanPrefix(ts, ReadTerm(ts, truth), p)
    decreases |ts|, 1
  {
    p := FactorClean(ts, truth);
    var f := ReadFactor(ts, truth);
    if ReadTerm(ts, truth).Some? && StartsWith(f.value.1, And) {
      var q := TermClean(f.value.1[1..], truth);
      p := CleanRest(ts, p, And, q, f.value.1, ReadTerm(ts, truth).value.1);
    }
  }

  lemma {:induction false} ConditionClean(ts: seq<Token>, truth: set<string>) returns (p: seq<Token>)
    ensures CleanPrefix(ts, ReadCondition(ts, truth), p)
    decreases |ts|, 2
  {
    p := TermClean(ts, truth);
    var t := ReadTerm(ts, truth);
    if ReadCondition(ts, truth).Some? && StartsWith(t.value.1, Or) {
      var q := ConditionClean(t.value.1[1..], truth);
      p := CleanRest(ts, p, Or, q, t.value.1, ReadCondition(ts, truth).value.1);
    }
  }

  /** Two clean readings with an operator between them. */
  lemma CleanRest(ts: seq<Token>, p: seq<Token>, op: Token, q: seq<Token>, mid: seq<Token>, rest: seq<Token>)
    returns (r: seq<Token>)
    requires Clean(p) && Clean(q) && (op == And || op == Or)
    requires ts == p + mid && StartsWith(mid, op) && mid[1..] == q + rest
    ensures Clean(r) && ts == r + rest
  {
    r := p + [op] + q;
    CleanJoin(p, op, q);
    assert mid == [op] + (q + rest);
  }

  // ----- from clean tokens back to the tree

  lemma Neighbours(ts: seq<Token>, i: nat)
    requires Clean(ts) && i < |ts| - 1
    ensures Fit(ts[i], ts[i + 1])
  {
  }

  lemma CleanInner(x: seq<Token>, t: seq<Token>, y: seq<Token>)
    requires Clean(x + t + y)
    requires x == [] || !Closes(x[|x| - 1])
    requires y == [] || !Opens(y[0])
    ensures Clean(t)
  {
    var ts := x + t + y;
    if t == [] {
      assert ts == x + y;
      if x != [] && y != [] {
        Neighbours(ts, |x| - 1);
        assert false;
      }
    } else {
      assert x != [] ==> Fit(ts[|x| - 1], ts[|x|]);
      assert y != [] ==> Fit(ts[|x| + |t| - 1], ts[|x| + |t|]);
      forall i | 0 <= i < |t| - 1 ensures Fit(t[i], t[i + 1]) {
        assert ts[|x| + i] == t[i] && ts[|x| + i + 1] == t[i + 1];
      }
    }
  }

  lemma {:induction false} JoinedClean(parts: seq<seq<Token>>, i: nat)
    requires Clean(JoinTokens(parts, And)) && i < |parts|
    ensures Clean(parts[i])
    decreases parts
  {
    if |parts| > 1 {
      var tail := JoinTokens(parts[1..], And);
      if i == 0 {
        assert [] + parts[0] + ([And] + tail) == JoinTokens(parts, And);
        CleanInner([], parts[0], [And] + tail);
      } else {
        assert (parts[0] + [And]) + tail + [] == JoinTokens(parts, And);
        CleanInner(parts[0] + [And], tail, []);
        JoinedClean(parts[1..], i - 1);
      }
    }
  }

  lemma {:induction false} ListClean(kind: Kind, qs: seq<Query>, i: nat)
    requires Clean(ListTokens(kind, qs)) && i < |qs|
    ensures Clean(TokensOf(qs[i]))
    decreases qs
  {
    var ts := ListTokens(kind, qs);
    if |qs| == 1 {
      assert Sign(kind) + TokensOf(qs[0]) + [] == ts;
      CleanInner(Sign(kind), TokensOf(qs[0]), []);
    } else {
      var tail := ListTokens(kind, qs[1..]);
      if i == 0 {
        assert Sign(kind) + TokensOf(qs[0]) + ([Connective(kind)] + tail) == ts;
        CleanInner(Sign(kind), TokensOf(qs[0]), [Connective(kind)] + tail);
      } else {
        assert (Sign(kind) + TokensOf(qs[0]) + [Connective(kind)]) + tail + [] == ts;
        CleanInner(Sign(kind) + TokensOf(qs[0]) + [Connective(kind)], tail, []);
        ListClean(kind, qs[1..], i - 1);
      }
    }
  }

  lemma ClauseClean(kind: Kind, qs: seq<Query>, i: nat)
    requires i < |qs| && Clean(ClauseTokens(kind, qs)[0])
    ensures Clean(TokensOf(qs[i]))
  {
    var ts := ListTokens(kind, qs);
    if |qs| > 1 {
      CleanInner([LParen], ts, [RParen]);
    }
    ListClean(kind, qs, i);
  }

  lemma {:induction false} CleanIsWellFormed(q: Query)
    requires Clean(TokensOf(q))
    ensures WellFormed(q)
    decreases q
  {
    if q.BoolQuery? {
      var c1, c2, c3 := ClauseTokens(Must, q.must), ClauseTokens(Should, q.should), ClauseTokens(MustNot, q.mustNot);
      var parts := c1 + c2 + c3;
      forall i | 0 <= i < |q.must| ensures WellFormed(q.must[i]) {
        JoinedClean(parts, 0);
        ClauseClean(Must, q.must, i);
        CleanIsWellFormed(q.must[i]);
      }
      forall i | 0 <= i < |q.should| ensures WellFormed(q.should[i]) {
        JoinedClean(parts, |c1|);
        ClauseClean(Should, q.should, i);
        CleanIsWellFormed(q.should[i]);
      }
      forall i | 0 <= i < |q.mustNot| ensures WellFormed(q.mustNot[i]) {
        JoinedClean(parts, |c1| + |c2|);
        ClauseClean(MustNot, q.mustNot, i);
        CleanIsWellFormed(q.mustNot[i]);
      }
    }
  }

  /** Whatever holds, the printed text can be read exactly when the tree has no empty part. */
  lemma ReadableExactly(q: Query, truth: set<string>)
    ensures Read(TokensOf(q), truth).Some? <==> WellFormed(q)
  {
    if WellFormed(q) {
      PrintedReads(q, truth);
    }
    if Read(TokensOf(q), truth).Some? {
      var p := ConditionClean(TokensOf(q), truth);
      assert p + [] == p;
      CleanIsWellFormed(q);
    }
  }
}
