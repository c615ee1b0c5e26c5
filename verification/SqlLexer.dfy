/** Reading the printed text itself: a lexer gives back the tokens that were printed. */
module SqlLexer {
  import opened SqlText
  import opened SqlConditions
  import opened SqlSyntax
  import opened SqlMeaning
  import opened Strings
  import opened Wrappers

  // ----- the lexer

  datatype CharKind = NameChars | NumberChars | SignChars

  predicate IsNameChar(c: char) {
    'a' <= c <= 'z' || 'A' <= c <= 'Z' || '0' <= c <= '9' || c == '_' || c == '.'
  }

  predicate InKind(c: char, kind: CharKind) {
    match kind
    case NameChars => IsNameChar(c)
    case NumberChars => IsNameChar(c) || c == '+' || c == '-'
    case SignChars => c != ' '
  }

  /** How many characters of the kind `s` starts with. */
  function Run(s: string, kind: CharKind): (n: nat)
    ensures n <= |s|
  {
    if s != "" && InKind(s[0], kind) then 1 + Run(s[1..], kind) else 0
  }

  function UpperChar(c: char): char {
    if 'a' <= c <= 'z' then c - 'a' + 'A' else c
  }

  function Upper(s: string): string {
    if s == "" then "" else [UpperChar(s[0])] + Upper(s[1..])
  }

  const KEYWORDS: map<string, Token> := map["AND" := And, "OR" := Or, "NOT" := Not]

  const SIGNS: set<string> := {"=", ">", ">=", "<", "<="}

  predicate StartsWithChar(s: string, c: char) {
    s != "" && s[0] == c
  }

  /** What follows a value: a character literal or a run of number characters. */
  function AfterValue(s: string): (r: Option<string>)
    ensures r.Some? ==> |r.value| < |s|
  {
    if StartsWithChar(s, '\'') then
      var lit := LexLiteral(s);
      if lit.None? then None else Some(lit.value.1)
    else
      var n := Run(s, NumberChars);
      if n == 0 then None else Some(s[n..])
  }

  /** What follows the rest of a list, after its opening parenthesis or a comma. */
  function AfterValues(s: string): (r: Option<string>)
    ensures r.Some? ==> |r.value| < |s|
    decreases |s|
  {
    var v := AfterValue(s);
    if v.None? || v.value == "" then None
    else if v.value[0] == ')' then Some(v.value[1..])
    else if |v.value| > 1 && v.value[..2] == ", " then AfterValues(v.value[2..])
    else None
  }

  function AfterList(s: string): (r: Option<string>)
    ensures r.Some? ==> |r.value| < |s|
  {
    if StartsWithChar(s, ')') then Some(s[1..]) else AfterValues(s)
  }

  /** What follows a comparison, after its name and a blank. */
  function AfterSign(s: string): (r: Option<string>)
    ensures r.Some? ==> |r.value| < |s|
  {
    var n := Run(s, SignChars);
    if n == |s| then None
    else if s[..n] == "IN" then if StartsWithChar(s[n + 1..], '(') then AfterList(s[n + 2..]) else None
    else if s[..n] in SIGNS then AfterValue(s[n + 1..])
    else None
  }

  /** One token at the start of a text that does not start with a blank. */
  function LexToken(s: string): (r: Option<(Token, string)>)
    ensures r.Some? ==> |r.value.1| < |s|
  {
    if s == "" then None
    else if s[0] == '(' then Some((LParen, s[1..]))
    else if s[0] == ')' then Some((RParen, s[1..]))
    else
      var n := Run(s, NameChars);
      if n == 0 then None
      else if Upper(s[..n]) in KEYWORDS then Some((KEYWORDS[Upper(s[..n])], s[n..]))
      else if !StartsWithChar(s[n..], ' ') then None
      else
        var after := AfterSign(s[n + 1..]);
        if after.None? then None else Some((Atom(s[..|s| - |after.value|]), after.value))
  }

  /** The tokens of a text; blanks between them are skipped. */
  function Lex(s: string): Option<seq<Token>>
    decreases |s|
  {
    if s == "" then Some([])
    else if s[0] == ' ' then Lex(s[1..])
    else
      var t := LexToken(s);
      if t.None? then None
      else
        var rest := Lex(t.value.1);
        if rest.None? then None else Some([t.value.0] + rest.value)
  }

  // ----- trees whose names and numbers are plain

  predicate AllIn(s: string, kind: CharKind) {
    forall i | 0 <= i < |s| :: InKind(s[i], kind)
  }

  /** A name made of letters, digits, underscores and dots that is no connective. */
  predicate PlainName(name: string) {
    name != "" && AllIn(name, NameChars) && Upper(name) !in KEYWORDS
  }

  predicate PlainNumber(text: string) {
    text != "" && text != "NULL" && AllIn(text, NumberChars)
  }

  /** A value that prints something; there is no restriction on strings. */
  predicate PlainValue(v: Primitive) {
    match v
    case NumberValue(text) => PlainNumber(text)
    case NoValue => false
    case _ => true
  }

  predicate Plain(q: Query)
    decreases q
  {
    match q
    case BoolQuery(must, should, mustNot) =>
      && (forall i | 0 <= i < |must| :: Plain(must[i]))
      && (forall i | 0 <= i < |should| :: Plain(should[i]))
      && (forall i | 0 <= i < |mustNot| :: Plain(mustNot[i]))
    case TermQuery(name, v) => PlainName(name) && PlainValue(v)
    case TermsQuery(name, vs) => PlainName(name) && forall i | 0 <= i < |vs| :: PlainValue(vs[i])
    case RangeQuery(name, from, to) =>
      PlainName(name) && (from.Some? ==> PlainNumber(from.value.text)) && (to.Some? ==> PlainNumber(to.value.text))
    case NotSet => true
  }

  // ----- lexing one comparison

  lemma {:induction false} RunExact(w: string, k: string, kind: CharKind)
    requires AllIn(w, kind) && (k != "" ==> !InKind(k[0], kind))
    ensures Run(w + k, kind) == |w|
  {
    if w == "" {
      assert w + k == k;
    } else {
      assert (w + k)[1..] == w[1..] + k;
      RunExact(w[1..], k, kind);
    }
  }

  /** Nothing that would lengthen a value. */
  predicate EndsValue(k: string) {
    k != "" ==> k[0] != '\'' && !InKind(k[0], NumberChars)
  }

  lemma ValueLexes(v: Primitive, k: string)
    requires PlainValue(v) && EndsValue(k)
    ensures AfterValue(ValueText(v) + k) == Some(k)
    ensures ValueText(v) != "" && ValueText(v)[0] != ')'
  {
    if v.StringValue? {
      QuotedRoundTrip(v.s, k);
    } else {
      RunExact(ValueText(v), k, NumberChars);
      assert (ValueText(v) + k)[|ValueText(v)|..] == k;
      assert InKind(ValueText(v)[0], NumberChars);
    }
  }

  lemma {:induction false} ValuesLex(vs: seq<Primitive>, k: string)
    requires vs != [] && forall i | 0 <= i < |vs| :: PlainValue(vs[i])
    ensures AfterValues(Joined(ValueTexts(vs), ", ") + ")" + k) == Some(k)
    ensures Joined(ValueTexts(vs), ", ") != "" && Joined(ValueTexts(vs), ", ")[0] != ')'
  {
    var first, texts := ValueText(vs[0]), ValueTexts(vs);
    if |vs| == 1 {
      assert Joined(texts, ", ") + ")" + k == first + (")" + k);
      ValueLexes(vs[0], ")" + k);
    } else {
      var rest := Joined(ValueTexts(vs[1..]), ", ") + ")" + k;
      assert texts[1..] == ValueTexts(vs[1..]);
      assert Joined(texts, ", ") + ")" + k == first + (", " + rest);
      ValueLexes(vs[0], ", " + rest);
      assert (", " + rest)[..2] == ", " && (", " + rest)[2..] == rest;
      ValuesLex(vs[1..], k);
    }
  }

  lemma SignLexes(sign: string, rest: string, k: string)
    requires AllIn(sign, SignChars)
    requires if sign == "IN" then StartsWithChar(rest, '(') && AfterList(rest[1..]) == Some(k)
             else sign in SIGNS && AfterValue(rest) == Some(k)
    ensures AfterSign(sign + (" " + rest)) == Some(k)
  {
    var s := sign + (" " + rest);
    RunExact(sign, " " + rest, SignChars);
    assert s[..|sign|] == sign && s[|sign| + 1..] == rest;
    assert rest != "" ==> s[|sign| + 2..] == rest[1..];
  }

  lemma NameLexes(name: string, after: string, text: string, k: string)
    requires PlainName(name) && AfterSign(after) == Some(k) && name + (" " + after) == text + k
    ensures LexToken(text + k) == Some((Atom(text), k))
  {
    var s := name + (" " + after);
    RunExact(name, " " + after, NameChars);
    assert s[..|name|] == name && s[|name|..] == " " + after && s[|name| + 1..] == after;
    assert InKind(s[0], NameChars);
    assert (text + k)[..|text + k| - |k|] == text;
  }

  lemma Reassociate(name: string, sign: string, tail: string, k: string)
    ensures name + (" " + (sign + (" " + (tail + k)))) == name + " " + sign + " " + tail + k
  {
  }

  /** A comparison is lexed up to where its value or list ends. */
  lemma ComparisonLexes(name: string, sign: string, tail: string, k: string)
    requires PlainName(name) && AllIn(sign, SignChars)
    requires if sign == "IN" then StartsWithChar(tail + k, '(') && AfterList((tail + k)[1..]) == Some(k)
             else sign in SIGNS && AfterValue(tail + k) == Some(k)
    ensures LexToken(name + " " + sign + " " + tail + k) == Some((Atom(name + " " + sign + " " + tail), k))
  {
    var after, text := sign + (" " + (tail + k)), name + " " + sign + " " + tail;
    assert AfterSign(after) == Some(k) by { SignLexes(sign, tail + k, k); }
    assert name + (" " + after) == text + k by { Reassociate(name, sign, tail, k); }
    NameLexes(name, after, text, k);
  }

  /** Nothing that would lengthen a comparison. */
  predicate EndsAtom(k: string) {
    k != "" ==> k[0] == ' ' || k[0] == ')'
  }

  /** The text is one comparison, whatever follows it. */
  ghost predicate Lexes(text: string) {
    text != "" && text[0] != ' ' && forall k | EndsAtom(k) :: LexToken(text + k) == Some((Atom(text), k))
  }

  lemma TermLexes(name: string, v: Primitive)
    requires PlainName(name) && PlainValue(v)
    ensures Lexes(name + " = " + ValueText(v))
  {
    var text := name + " = " + ValueText(v);
    assert text == name + " " + "=" + " " + ValueText(v) && InKind(text[0], NameChars);
    forall k | EndsAtom(k) ensures LexToken(text + k) == Some((Atom(text), k)) {
      ValueLexes(v, k);
      ComparisonLexes(name, "=", ValueText(v), k);
    }
  }

  lemma TermsLexes(name: string, vs: seq<Primitive>)
    requires PlainName(name) && forall i | 0 <= i < |vs| :: PlainValue(vs[i])
    ensures Lexes(name + " IN (" + Joined(ValueTexts(vs), ", ") + ")")
  {
    var list := Joined(ValueTexts(vs), ", ");
    var text := name + " IN (" + list + ")";
    assert text == name + " " + "IN" + " " + ("(" + list + ")") && InKind(text[0], NameChars);
    forall k | EndsAtom(k) ensures LexToken(text + k) == Some((Atom(text), k)) {
      assert ("(" + list + ")" + k)[1..] == list + ")" + k;
      if vs == [] {
        assert (list + ")" + k)[1..] == k;
      } else {
        ValuesLex(vs, k);
      }
      ComparisonLexes(name, "IN", "(" + list + ")", k);
    }
  }

  lemma BoundLexes(name: string, sign: string, number: string)
    requires PlainName(name) && PlainNumber(number) && sign in SIGNS && AllIn(sign, SignChars)
    ensures Lexes(name + " " + sign + " " + number)
  {
    var text := name + " " + sign + " " + number;
    assert InKind(text[0], NameChars);
    forall k | EndsAtom(k) ensures LexToken(text + k) == Some((Atom(text), k)) {
      ValueLexes(NumberValue(number), k);
      ComparisonLexes(name, sign, number, k);
    }
  }

  lemma RangeLexes(name: string, b: Bound)
    requires PlainName(name) && PlainNumber(b.text)
    ensures Lexes(FromText(name, b)) && Lexes(ToText(name, b))
  {
    var from, to := if b.inclusive then ">=" else ">", if b.inclusive then "<=" else "<";
    assert FromText(name, b) == name + " " + from + " " + b.text;
    assert ToText(name, b) == name + " " + to + " " + b.text;
    BoundLexes(name, from, b.text);
    BoundLexes(name, to, b.text);
  }

  // ----- lexing a whole text

  /** Comparisons can be lexed, and what follows one cannot be taken for a part of it. */
  ghost predicate Separated(ts: seq<Token>) {
    ts != [] ==>
      && (ts[0].Atom? ==> Lexes(ts[0].text) && (|ts| > 1 ==> ts[1] == And || ts[1] == Or || ts[1] == RParen))
      && Separated(ts[1..])
  }

  lemma KeywordLexes(word: string, t: Token, k: string)
    requires AllIn(word, NameChars) && word != "" && Upper(word) in KEYWORDS && KEYWORDS[Upper(word)] == t
    ensures LexToken(word + " " + k) == Some((t, " " + k))
    ensures Lex(k).Some? ==> Lex(word + " " + k) == Some([t] + Lex(k).value)
  {
    var s := word + " " + k;
    assert s == word + (" " + k);
    RunExact(word, " " + k, NameChars);
    assert s[..|word|] == word && s[|word|..] == " " + k && (" " + k)[1..] == k;
    assert InKind(s[0], NameChars);
  }

  lemma Keywords()
    ensures Upper("AND") == "AND" && Upper("OR") == "OR" && Upper("NOT") == "NOT"
  {
    assert "AND"[1..] == "ND" && "ND"[1..] == "D" && "D"[1..] == "";
    assert "OR"[1..] == "R" && "R"[1..] == "";
    assert "NOT"[1..] == "OT" && "OT"[1..] == "T" && "T"[1..] == "";
    assert Upper("D") == "D" && Upper("ND") == "ND" && Upper("R") == "R" && Upper("T") == "T" && Upper("OT") == "OT";
  }

  lemma ConnectiveLexes(word: string, t: Token, spelled: string, k: string)
    requires AllIn(word, NameChars) && word != "" && Upper(word) in KEYWORDS && KEYWORDS[Upper(word)] == t
    requires spelled == " " + word + " " && Lex(k).Some?
    ensures Lex(spelled + k) == Some([t] + Lex(k).value)
  {
    KeywordLexes(word, t, k);
    assert (spelled + k)[1..] == word + " " + k;
  }

  lemma AtomLexes(text: string, k: string)
    requires Lexes(text) && EndsAtom(k) && Lex(k).Some?
    ensures Lex(text + k) == Some([Atom(text)] + Lex(k).value)
  {
    assert LexToken(text + k) == Some((Atom(text), k));
    assert (text + k)[0] == text[0];
  }

  lemma ParenLexes(t: Token, spelled: string, k: string)
    requires (t == LParen && spelled == "(") || (t == RParen && spelled == ")")
    requires Lex(k).Some?
    ensures Lex(spelled + k) == Some([t] + Lex(k).value)
  {
    assert (spelled + k)[0] == spelled[0] && (spelled + k)[1..] == k;
  }

  lemma WordLexes(t: Token, k: string)
    requires (t == And || t == Or || t == Not) && Lex(k).Some?
    ensures Lex(SpellToken(t) + k) == Some([t] + Lex(k).value)
  {
    Keywords();
    if t == And {
      ConnectiveLexes("AND", And, " AND ", k);
    } else if t == Or {
      ConnectiveLexes("OR", Or, " OR ", k);
    } else {
      KeywordLexes("NOT", Not, k);
      assert "NOT " + k == "NOT" + " " + k;
    }
  }

  lemma TokenLexes(t: Token, k: string)
    requires Lex(k).Some? && (t.Atom? ==> Lexes(t.text) && EndsAtom(k))
    ensures Lex(SpellToken(t) + k) == Some([t] + Lex(k).value)
  {
    match t
    case LParen => ParenLexes(t, "(", k);
    case RParen => ParenLexes(t, ")", k);
    case Atom(text) => AtomLexes(text, k);
    case _ => WordLexes(t, k);
  }

  /** Separated tokens are lexed back from their spelling. */
  lemma {:induction false} SeparatedLexes(ts: seq<Token>)
    requires Separated(ts)
    ensures Lex(Spell(ts)) == Some(ts)
  {
    if ts != [] {
      var rest := ts[1..];
      SeparatedLexes(rest);
      if ts[0].Atom? && rest != [] {
        assert Spell(rest) == SpellToken(rest[0]) + Spell(rest[1..]);
      }
      TokenLexes(ts[0], Spell(rest));
      assert ts == [ts[0]] + rest;
    }
  }

  // ----- printed tokens are separated

  /** Tokens that may follow a comparison. */
  predicate MayFollow(b: seq<Token>) {
    b != [] ==> b[0] == And || b[0] == Or || b[0] == RParen
  }

  lemma {:induction false} SeparatedAppend(a: seq<Token>, b: seq<Token>)
    requires Separated(a) && Separated(b) && (MayFollow(b) || (a != [] ==> !a[|a| - 1].Atom?))
    ensures Separated(a + b)
  {
    if a == [] {
      assert a + b == b;
    } else {
      assert (a + b)[1..] == a[1..] + b;
      SeparatedAppend(a[1..], b);
    }
  }

  lemma SeparatedOne(t: Token)
    requires t.Atom? ==> Lexes(t.text)
    ensures Separated([t])
  {
    assert [t][1..] == [];
  }

  /** Two texts with a connective between them. */
  lemma SeparatedJoin(a: seq<Token>, op: Token, b: seq<Token>)
    requires Separated(a) && Separated(b) && (op == And || op == Or)
    ensures Separated(a + [op] + b)
  {
    SeparatedOne(op);
    SeparatedAppend(a, [op]);
    SeparatedAppend(a + [op], b);
  }

  lemma SeparatedParens(ts: seq<Token>)
    requires Separated(ts)
    ensures Separated([LParen] + ts + [RParen])
  {
    SeparatedOne(LParen);
    SeparatedOne(RParen);
    SeparatedAppend([LParen], ts);
    SeparatedAppend([LParen] + ts, [RParen]);
  }

  lemma {:induction false} SeparatedParts(parts: seq<seq<Token>>)
    requires forall i | 0 <= i < |parts| :: Separated(parts[i])
    ensures Separated(JoinTokens(parts, And))
  {
    if |parts| > 1 {
      SeparatedParts(parts[1..]);
      SeparatedJoin(parts[0], And, JoinTokens(parts[1..], And));
    }
  }

  lemma LeafSeparated(q: Query)
    requires Plain(q) && !q.BoolQuery?
    ensures Separated(TokensOf(q))
  {
    match q
    case TermQuery(name, v) =>
      TermLexes(name, v);
      SeparatedOne(TokensOf(q)[0]);
    case TermsQuery(name, vs) =>
      TermsLexes(name, vs);
      SeparatedOne(TokensOf(q)[0]);
    case RangeQuery(name, from, to) => RangeSeparated(q);
    case NotSet =>
  }

  lemma RangeSeparated(q: Query)
    requires Plain(q) && q.RangeQuery?
    ensures Separated(TokensOf(q))
  {
    var ts := TokensOf(q);
    if q.from.Some? {
      RangeLexes(q.name, q.from.value);
    }
    if q.to.Some? {
      RangeLexes(q.name, q.to.value);
    }
    if |ts| == 1 {
      SeparatedOne(ts[0]);
    } else if |ts| > 1 {
      SeparatedOne(ts[1]);
      SeparatedOne(ts[3]);
      SeparatedJoin([ts[1]], And, [ts[3]]);
      SeparatedParens([ts[1]] + [And] + [ts[3]]);
      assert ts == [LParen] + ([ts[1]] + [And] + [ts[3]]) + [RParen];
    }
  }

  lemma {:induction false} PrintedSeparated(q: Query)
    requires Plain(q)
    ensures Separated(TokensOf(q))
    decreases q, 2
  {
    if q.BoolQuery? {
      ClauseSeparated(Must, q.must);
      ClauseSeparated(Should, q.should);
      ClauseSeparated(MustNot, q.mustNot);
      SeparatedParts(ClauseTokens(Must, q.must) + ClauseTokens(Should, q.should) + ClauseTokens(MustNot, q.mustNot));
    } else {
      LeafSeparated(q);
    }
  }

  lemma ChildSeparated(kind: Kind, q: Query)
    requires Plain(q)
    ensures Separated(Sign(kind) + TokensOf(q))
    decreases q, 3
  {
    PrintedSeparated(q);
    SeparatedOne(Not);
    SeparatedAppend(Sign(kind), TokensOf(q));
  }

  lemma ClauseSeparated(kind: Kind, qs: seq<Query>)
    requires forall i | 0 <= i < |qs| :: Plain(qs[i])
    ensures forall i | 0 <= i < |ClauseTokens(kind, qs)| :: Separated(ClauseTokens(kind, qs)[i])
    decreases qs, 1
  {
    if |qs| == 1 {
      ChildSeparated(kind, qs[0]);
    } else if |qs| > 1 {
      ListSeparated(kind, qs);
      SeparatedParens(ListTokens(kind, qs));
    }
  }

  lemma {:induction false} ListSeparated(kind: Kind, qs: seq<Query>)
    requires forall i | 0 <= i < |qs| :: Plain(qs[i])
    ensures Separated(ListTokens(kind, qs))
    decreases qs, 0
  {
    if qs != [] {
      ChildSeparated(kind, qs[0]);
      if |qs| > 1 {
        ListSeparated(kind, qs[1..]);
        SeparatedJoin(Sign(kind) + TokensOf(qs[0]), Connective(kind), ListTokens(kind, qs[1..]));
      }
    }
  }

  // ----- meaning of the text

  /** Whatever strings are compared with, the printed text lexes to the printed tokens. */
  lemma TextLexes(q: Query)
    requires Plain(q)
    ensures Lex(Spell(TokensOf(q))) == Some(TokensOf(q))
  {
    PrintedSeparated(q);
    SeparatedLexes(TokensOf(q));
  }

  /** The truth value of a text, given the comparisons that hold. */
  function ReadText(sql: string, truth: set<string>): Option<bool> {
    var ts := Lex(sql);
    if ts.None? then None else Read(ts.value, truth)
  }

  /** The emitted text means what the tree means, under every assignment, for exactly these trees. */
  lemma TextMeaningExactly(q: Query)
    requires Plain(q) && Apart(q)
    ensures (forall truth :: ReadText(Spell(TokensOf(q)), truth) == Some(Holds(q, truth))) <==>
            WellFormed(q) && Faithful(q, false)
  {
    TextLexes(q);
    MeaningKeptExactly(q);
    if MeaningKept(q) {
      forall truth ensures ReadText(Spell(TokensOf(q)), truth) == Some(Holds(q, truth)) {
        assert Read(TokensOf(q), truth) == Some(Holds(q, truth));
      }
    } else {
      var truth: set<string> :| Read(TokensOf(q), truth) != Some(Holds(q, truth));
      assert ReadText(Spell(TokensOf(q)), truth) != Some(Holds(q, truth));
    }
  }
}
