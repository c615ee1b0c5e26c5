/** The printed text against rows of a table: what a comparison selects is what the tree asks for. */
module SqlRows {
  import opened SqlText
  import opened SqlConditions
  import opened SqlLexer
  import opened SqlMeaning
  import opened Strings
  import opened Wrappers

  datatype Value = Number(r: real) | Text(s: string)

  /** A row gives every name a value; NULL is left out. */
  type Row = string -> Value

  /** How the text of a number is read. */
  type Reader = string -> real

  ghost predicate Sane(num: Reader) {
    num("1") == 1.0 && num("0") == 0.0 && num("0.000000") == 0.0
  }

  // ----- what a tree asks of a row

  function Meant(v: Primitive, num: Reader): Option<Value> {
    match v
    case NumberValue(text) => Some(Number(num(text)))
    case LongValue(n) => Some(Number(n as real))
    case BoolValue(b) => Some(Number(if b then 1.0 else 0.0))
    case StringValue(s) => Some(Text(s))
    case _ => None
  }

  /** Nothing equals NULL. */
  predicate IsValue(x: Value, v: Primitive, num: Reader) {
    Meant(v, num) == Some(x)
  }

  predicate Above(x: Value, b: Bound, num: Reader) {
    x.Number? && if b.inclusive then x.r >= num(b.text) else x.r > num(b.text)
  }

  predicate Under(x: Value, b: Bound, num: Reader) {
    x.Number? && if b.inclusive then x.r <= num(b.text) else x.r < num(b.text)
  }

  predicate LeafMeans(q: Query, row: Row, num: Reader) {
    match q
    case TermQuery(name, v) => IsValue(row(name), v, num)
    case TermsQuery(name, vs) => exists i | 0 <= i < |vs| :: IsValue(row(name), vs[i], num)
    case RangeQuery(name, from, to) =>
      && (from.Some? ==> Above(row(name), from.value, num))
      && (to.Some? ==> Under(row(name), to.value, num))
    case _ => true
  }

  /** All of must, one of should if there are any, none of mustNot. */
  predicate Means(q: Query, row: Row, num: Reader)
    decreases q
  {
    match q
    case BoolQuery(must, should, mustNot) =>
      && (forall i | 0 <= i < |must| :: Means(must[i], row, num))
      && (should == [] || exists i | 0 <= i < |should| :: Means(should[i], row, num))
      && (forall i | 0 <= i < |mustNot| :: !Means(mustNot[i], row, num))
    case _ => LeafMeans(q, row, num)
  }

  // ----- what the text of a comparison selects

  /** A value read from text; none for NULL. */
  function ReadValue(s: string, num: Reader): (r: Option<(Option<Value>, string)>)
    ensures r.Some? ==> |r.value.1| < |s|
  {
    if StartsWithChar(s, '\'') then
      var lit := LexLiteral(s);
      if lit.None? then None else Some((Some(Text(lit.value.0)), lit.value.1))
    else
      var n := Run(s, NumberChars);
      if n == 0 then None else Some((if s[..n] == "NULL" then None else Some(Number(num(s[..n]))), s[n..]))
  }

  /** The values up to the closing parenthesis. */
  function ReadValues(s: string, num: Reader): Option<seq<Option<Value>>>
    decreases |s|
  {
    var v := ReadValue(s, num);
    if v.None? || v.value.1 == "" then None
    else if v.value.1[0] == ')' then Some([v.value.0])
    else if |v.value.1| > 1 && v.value.1[..2] == ", " then
      var rest := ReadValues(v.value.1[2..], num);
      if rest.None? then None else Some([v.value.0] + rest.value)
    else None
  }

  /** The comparison of two values; numbers and texts are never equal, and only numbers are ordered. */
  predicate Compare(x: Value, sign: string, y: Option<Value>) {
    y.Some? &&
    if sign == "=" then x == y.value
    else
      && x.Number? && y.value.Number?
      && match sign
         case ">" => x.r > y.value.r
         case ">=" => x.r >= y.value.r
         case "<" => x.r < y.value.r
         case "<=" => x.r <= y.value.r
         case _ => false
  }

  predicate EvalTail(x: Value, sign: string, tail: string, num: Reader) {
    if sign == "IN" then
      && StartsWithChar(tail, '(')
      && var list := ReadValues(tail[1..], num);
      list.Some? && exists i | 0 <= i < |list.value| :: Compare(x, "=", list.value[i])
    else
      var v := ReadValue(tail, num);
      v.Some? && Compare(x, sign, v.value.0)
  }

  /** A comparison read as a name, a sign and what follows it. */
  predicate EvalComparison(s: string, row: Row, num: Reader) {
    var n := Run(s, NameChars);
    && StartsWithChar(s[n..], ' ')
    && var m := Run(s[n + 1..], SignChars);
    && m < |s[n + 1..]|
    && EvalTail(row(s[..n]), s[n + 1..][..m], s[n + 1..][m + 1..], num)
  }

  function Selected(ts: seq<Token>, row: Row, num: Reader): set<string> {
    set t | t in ts && t.Atom? && EvalComparison(t.text, row, num) :: t.text
  }

  /** Whether a text selects a row; none when it cannot be read. */
  function EvalText(sql: string, row: Row, num: Reader): Option<bool> {
    var ts := Lex(sql);
    if ts.None? then None else Read(ts.value, Selected(ts.value, row, num))
  }

  // ----- comparisons

  /** The value that is printed. */
  function Printed(v: Primitive, num: Reader): Option<Value> {
    match v
    case LongValue(_) => Some(Number(num("0.000000")))
    case BoolValue(b) => Some(Number(num(if b then "1" else "0")))
    case _ => Meant(v, num)
  }

  function PrintedAll(vs: seq<Primitive>, num: Reader): (r: seq<Option<Value>>)
    ensures |r| == |vs| && forall i | 0 <= i < |r| :: r[i] == Printed(vs[i], num)
  {
    seq(|vs|, i requires 0 <= i < |vs| => Printed(vs[i], num))
  }

  lemma ValueReads(v: Primitive, k: string, num: Reader)
    requires PlainValue(v) && EndsValue(k)
    ensures ReadValue(ValueText(v) + k, num) == Some((Printed(v, num), k))
  {
    if v.StringValue? {
      QuotedRoundTrip(v.s, k);
    } else {
      var text := ValueText(v);
      RunExact(text, k, NumberChars);
      assert (text + k)[..|text|] == text && (text + k)[|text|..] == k;
      assert InKind(text[0], NumberChars);
    }
  }

  lemma ReadsOn(s: string, v: Option<Value>, rest: string, num: Reader)
    requires ReadValue(s, num) == Some((v, ", " + rest))
    ensures var r := ReadValues(rest, num);
      ReadValues(s, num) == if r.None? then None else Some([v] + r.value)
  {
    assert (", " + rest)[..2] == ", " && (", " + rest)[2..] == rest;
  }

  lemma {:induction false} ValuesRead(vs: seq<Primitive>, num: Reader)
    requires vs != [] && forall i | 0 <= i < |vs| :: PlainValue(vs[i])
    ensures ReadValues(Joined(ValueTexts(vs), ", ") + ")", num) == Some(PrintedAll(vs, num))
  {
    var first, texts := ValueText(vs[0]), ValueTexts(vs);
    if |vs| == 1 {
      assert Joined(texts, ", ") + ")" == first + ")";
      ValueReads(vs[0], ")", num);
      assert PrintedAll(vs, num) == [Printed(vs[0], num)];
    } else {
      var rest := Joined(ValueTexts(vs[1..]), ", ") + ")";
      assert texts[1..] == ValueTexts(vs[1..]);
      assert Joined(texts, ", ") + ")" == first + (", " + rest);
      ValueReads(vs[0], ", " + rest, num);
      ReadsOn(first + (", " + rest), Printed(vs[0], num), rest, num);
      ValuesRead(vs[1..], num);
      assert PrintedAll(vs, num) == [Printed(vs[0], num)] + PrintedAll(vs[1..], num);
    }
  }

  lemma ComparisonEvaluates(name: string, sign: string, tail: string, row: Row, num: Reader)
    requires PlainName(name) && AllIn(sign, SignChars)
    ensures EvalComparison(name + " " + sign + " " + tail, row, num) == EvalTail(row(name), sign, tail, num)
  {
    var after := sign + (" " + tail);
    var s := name + (" " + after);
    assert s == name + " " + sign + " " + tail;
    RunExact(name, " " + after, NameChars);
    assert s[..|name|] == name && s[|name|..] == " " + after && s[|name| + 1..] == after;
    RunExact(sign, " " + tail, SignChars);
    assert after[..|sign|] == sign && after[|sign| + 1..] == tail;
  }

  lemma TermEvaluates(name: string, v: Primitive, row: Row, num: Reader)
    requires PlainName(name) && PlainValue(v)
    ensures EvalComparison(name + " = " + ValueText(v), row, num) == (Printed(v, num) == Some(row(name)))
  {
    assert name + " = " + ValueText(v) == name + " " + "=" + " " + ValueText(v);
    ComparisonEvaluates(name, "=", ValueText(v), row, num);
    ValueReads(v, "", num);
    assert ValueText(v) + "" == ValueText(v);
  }

  lemma ListSelects(x: Value, vs: seq<Primitive>, num: Reader)
    requires forall i | 0 <= i < |vs| :: PlainValue(vs[i])
    ensures EvalTail(x, "IN", "(" + (Joined(ValueTexts(vs), ", ") + ")"), num) ==
            exists i | 0 <= i < |vs| :: Printed(vs[i], num) == Some(x)
  {
    var rest := Joined(ValueTexts(vs), ", ") + ")";
    assert ("(" + rest)[1..] == rest;
    if vs == [] {
      assert rest == ")" && Run(")", NumberChars) == 0;
    } else {
      var all := PrintedAll(vs, num);
      ValuesRead(vs, num);
      assert forall i | 0 <= i < |vs| :: Compare(x, "=", all[i]) <==> Printed(vs[i], num) == Some(x);
    }
  }

  lemma TermsEvaluates(name: string, vs: seq<Primitive>, row: Row, num: Reader)
    requires PlainName(name) && forall i | 0 <= i < |vs| :: PlainValue(vs[i])
    ensures EvalComparison(name + " IN (" + Joined(ValueTexts(vs), ", ") + ")", row, num) ==
            exists i | 0 <= i < |vs| :: Printed(vs[i], num) == Some(row(name))
  {
    var list := Joined(ValueTexts(vs), ", ");
    var tail := "(" + (list + ")");
    assert name + " IN (" + list + ")" == name + " " + "IN" + " " + tail;
    ComparisonEvaluates(name, "IN", tail, row, num);
    ListSelects(row(name), vs, num);
  }

  lemma BoundEvaluates(name: string, sign: string, text: string, row: Row, num: Reader)
    requires PlainName(name) && PlainNumber(text) && sign in SIGNS && AllIn(sign, SignChars)
    ensures EvalComparison(name + " " + sign + " " + text, row, num) ==
            Compare(row(name), sign, Some(Number(num(text))))
  {
    ComparisonEvaluates(name, sign, text, row, num);
    ValueReads(NumberValue(text), "", num);
    assert text + "" == text;
  }

  lemma RangeEvaluates(name: string, b: Bound, row: Row, num: Reader)
    requires PlainName(name) && PlainNumber(b.text)
    ensures EvalComparison(FromText(name, b), row, num) == Above(row(name), b, num)
    ensures EvalComparison(ToText(name, b), row, num) == Under(row(name), b, num)
  {
    var from, to := if b.inclusive then ">=" else ">", if b.inclusive then "<=" else "<";
    assert FromText(name, b) == name + " " + from + " " + b.text;
    assert ToText(name, b) == name + " " + to + " " + b.text;
    BoundEvaluates(name, from, b.text, row, num);
    BoundEvaluates(name, to, b.text, row, num);
  }

  // ----- trees

  predicate ValueKept(v: Primitive) {
    v.LongValue? ==> v.n == 0
  }

  /** No 64-bit integer other than 0, because its value is not printed. */
  predicate LongsKept(q: Query)
    decreases q
  {
    match q
    case BoolQuery(must, should, mustNot) =>
      && (forall i | 0 <= i < |must| :: LongsKept(must[i]))
      && (forall i | 0 <= i < |should| :: LongsKept(should[i]))
      && (forall i | 0 <= i < |mustNot| :: LongsKept(mustNot[i]))
    case TermQuery(_, v) => ValueKept(v)
    case TermsQuery(_, vs) => forall i | 0 <= i < |vs| :: ValueKept(vs[i])
    case _ => true
  }

  /** `truth` holds exactly the comparisons of the tree that select the row. */
  ghost predicate TruthOf(q: Query, truth: set<string>, row: Row, num: Reader) {
    forall a | a in Atoms(q) :: a in truth <==> EvalComparison(a, row, num)
  }

  lemma LeafEvaluates(q: Query, truth: set<string>, row: Row, num: Reader)
    requires Plain(q) && LongsKept(q) && Sane(num) && TruthOf(q, truth, row, num) && !q.BoolQuery?
    ensures LeafHolds(q, truth) == LeafMeans(q, row, num)
  {
    match q
    case TermQuery(name, v) => TermEvaluates(name, v, row, num);
    case TermsQuery(name, vs) =>
      TermsEvaluates(name, vs, row, num);
      assert name + " IN (" + Joined(ValueTexts(vs), ", ") + ")" in Atoms(q);
      assert forall i | 0 <= i < |vs| :: Printed(vs[i], num) == Meant(vs[i], num);
    case RangeQuery(name, from, to) =>
      if from.Some? {
        RangeEvaluates(name, from.value, row, num);
      }
      if to.Some? {
        RangeEvaluates(name, to.value, row, num);
      }
    case NotSet =>
  }

  lemma {:induction false} AtomsOfChild(qs: seq<Query>, i: nat)
    requires i < |qs|
    ensures Atoms(qs[i]) <= ListAtoms(qs)
  {
    if i > 0 {
      AtomsOfChild(qs[1..], i - 1);
    }
  }

  lemma ChildTruth(qs: seq<Query>, i: nat, truth: set<string>, row: Row, num: Reader)
    requires i < |qs| && forall a | a in ListAtoms(qs) :: a in truth <==> EvalComparison(a, row, num)
    ensures TruthOf(qs[i], truth, row, num)
  {
    AtomsOfChild(qs, i);
  }

  lemma {:induction false} HoldsIsMeans(q: Query, truth: set<string>, row: Row, num: Reader)
    requires Plain(q) && LongsKept(q) && Sane(num) && TruthOf(q, truth, row, num)
    ensures Holds(q, truth) == Means(q, row, num)
    decreases q, 1
  {
    match q
    case BoolQuery(must, should, mustNot) =>
      ListMeans(must, truth, row, num);
      ListMeans(should, truth, row, num);
      ListMeans(mustNot, truth, row, num);
    case _ => LeafEvaluates(q, truth, row, num);
  }

  lemma ListMeans(qs: seq<Query>, truth: set<string>, row: Row, num: Reader)
    requires forall i | 0 <= i < |qs| :: Plain(qs[i]) && LongsKept(qs[i])
    requires Sane(num) && forall a | a in ListAtoms(qs) :: a in truth <==> EvalComparison(a, row, num)
    ensures forall i | 0 <= i < |qs| :: Holds(qs[i], truth) == Means(qs[i], row, num)
    decreases qs, 0
  {
    forall i | 0 <= i < |qs| ensures Holds(qs[i], truth) == Means(qs[i], row, num) {
      ChildTruth(qs, i, truth, row, num);
      HoldsIsMeans(qs[i], truth, row, num);
    }
  }

  // ----- all comparisons of a tree are printed

  lemma {:induction false} AtomsPrinted(q: Query, a: string)
    requires a in Atoms(q)
    ensures Atom(a) in TokensOf(q)
    decreases q, 2
  {
    match q
    case BoolQuery(must, should, mustNot) =>
      var parts := ClauseTokens(Must, must) + ClauseTokens(Should, should) + ClauseTokens(MustNot, mustNot);
      if a in ListAtoms(must) {
        ClausePrinted(Must, must, a);
        InJoin(parts, 0, Atom(a));
      } else if a in ListAtoms(should) {
        ClausePrinted(Should, should, a);
        assert parts[|ClauseTokens(Must, must)|] == ClauseTokens(Should, should)[0];
        InJoin(parts, |ClauseTokens(Must, must)|, Atom(a));
      } else {
        ClausePrinted(MustNot, mustNot, a);
        InJoin(parts, |parts| - 1, Atom(a));
      }
    case _ =>
  }

  lemma {:induction false} InJoin(parts: seq<seq<Token>>, i: nat, t: Token)
    requires i < |parts| && t in parts[i]
    ensures t in JoinTokens(parts, And)
  {
    if i > 0 {
      InJoin(parts[1..], i - 1, t);
    }
  }

  lemma ClausePrinted(kind: Kind, qs: seq<Query>, a: string)
    requires a in ListAtoms(qs)
    ensures |ClauseTokens(kind, qs)| == 1 && Atom(a) in ClauseTokens(kind, qs)[0]
    decreases qs, 1
  {
    if |qs| == 1 {
      AtomsPrinted(qs[0], a);
    } else {
      ListPrinted(kind, qs, a);
    }
  }

  lemma {:induction false} ListPrinted(kind: Kind, qs: seq<Query>, a: string)
    requires a in ListAtoms(qs)
    ensures Atom(a) in ListTokens(kind, qs)
    decreases qs, 0
  {
    if a in Atoms(qs[0]) {
      AtomsPrinted(qs[0], a);
    } else {
      ListPrinted(kind, qs[1..], a);
    }
  }

  // ----- the emitted text against a row

  /** The emitted text selects exactly the rows that the tree asks for. */
  lemma TextSelectsRows(q: Query, row: Row, num: Reader)
    requires Plain(q) && WellFormed(q) && Faithful(q, false) && LongsKept(q) && Sane(num)
    ensures EvalText(Spell(TokensOf(q)), row, num) == Some(Means(q, row, num))
  {
    var ts := TokensOf(q);
    var truth := Selected(ts, row, num);
    TextLexes(q);
    FaithfulKeepsMeaning(q);
    assert Read(ts, truth) == Some(Holds(q, truth));
    forall a | a in Atoms(q) ensures a in truth <==> EvalComparison(a, row, num) {
      AtomsPrinted(q, a);
      assert Atom(a).text == a;
    }
    HoldsIsMeans(q, truth, row, num);
  }

  /** The text of a 64-bit integer compares with 0. */
  lemma LongSelects(name: string, n: int, row: Row, num: Reader)
    requires PlainName(name) && Sane(num)
    ensures EvalText(Spell(TokensOf(TermQuery(name, LongValue(n)))), row, num) == Some(row(name) == Number(0.0))
  {
    var q, zero := TermQuery(name, LongValue(n)), TermQuery(name, LongValue(0));
    TextSelectsRows(zero, row, num);
    assert TokensOf(q) == TokensOf(zero);
  }

  /** The value of a 64-bit integer is lost: its comparison selects the right rows exactly for 0. */
  lemma LongKeptExactly(name: string, n: int, num: Reader)
    requires PlainName(name) && Sane(num)
    ensures var q := TermQuery(name, LongValue(n));
      (forall row: Row :: EvalText(Spell(TokensOf(q)), row, num) == Some(Means(q, row, num))) <==> n == 0
  {
    var q := TermQuery(name, LongValue(n));
    forall row: Row ensures EvalText(Spell(TokensOf(q)), row, num) == Some(row(name) == Number(0.0)) {
      LongSelects(name, n, row, num);
    }
    assert forall row: Row :: Means(q, row, num) == (row(name) == Number(n as real));
    if n != 0 {
      var row: Row := _ => Number(n as real);
      assert EvalText(Spell(TokensOf(q)), row, num) != Some(Means(q, row, num));
    }
  }
}
