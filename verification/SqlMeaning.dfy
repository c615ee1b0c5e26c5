/** When the printed condition means what the query tree means: exactly. */
module SqlMeaning {
  import opened SqlText
  import opened Wrappers
  import opened SqlConditions
  import opened Strings
  import opened SqlSyntax

  function ClauseCount(q: Query): nat
    requires q.BoolQuery?
  {
    (if q.must == [] then 0 else 1) + (if q.should == [] then 0 else 1) + (if q.mustNot == [] then 0 else 1)
  }

  predicate Negating(kind: Kind) {
    kind == MustNot
  }

  /** The condition on the tree: a NOT never stands in front of several unparenthesised conjuncts.
      `negated` says whether an odd number of NOTs stands directly in front of the query;
      a second NOT directly after the first one undoes it. */
  predicate Faithful(q: Query, negated: bool)
    decreases q, 1
  {
    match q
    case BoolQuery(must, should, mustNot) =>
      if ClauseCount(q) > 1 then
        && !negated && ClauseFaithful(Must, must, false) && ClauseFaithful(Should, should, false)
        && ClauseFaithful(MustNot, mustNot, false)
      else
        && ClauseFaithful(Must, must, negated) && ClauseFaithful(Should, should, negated)
        && ClauseFaithful(MustNot, mustNot, negated)
    case _ => true
  }

  /** Several children are parenthesised, so what stands before the clause does not reach them. */
  predicate ClauseFaithful(kind: Kind, qs: seq<Query>, negated: bool)
    decreases qs, 0
  {
    if |qs| == 1 then Faithful(qs[0], negated != Negating(kind))
    else forall i | 0 <= i < |qs| :: Faithful(qs[i], Negating(kind))
  }

  /** The reading of the factors, with or without a NOT in front. */
  predicate Reads(v: seq<bool>, negated: bool) {
    All(SignVals(if negated then MustNot else Must, v))
  }

  predicate ClauseHolds(kind: Kind, qs: seq<Query>, truth: set<string>) {
    match kind
    case Must => forall i | 0 <= i < |qs| :: Holds(qs[i], truth)
    case Should => qs == [] || exists i | 0 <= i < |qs| :: Holds(qs[i], truth)
    case MustNot => forall i | 0 <= i < |qs| :: !Holds(qs[i], truth)
  }

  lemma AllConcat(a: seq<bool>, b: seq<bool>)
    ensures All(a + b) <==> All(a) && All(b)
  {
    if All(a + b) {
      assert forall i | 0 <= i < |a| :: a[i] == (a + b)[i];
      assert forall i | 0 <= i < |b| :: b[i] == (a + b)[|a| + i];
    }
  }

  /** Two NOTs in a row cancel. */
  lemma SignedReads(kind: Kind, v: seq<bool>, negated: bool)
    ensures Reads(SignVals(kind, v), negated) == Reads(v, negated != Negating(kind))
  {
    assert SignVals(MustNot, SignVals(MustNot, v)) == v;
  }

  /** A single factor is negated as a whole. */
  lemma SingleSign(v: seq<bool>)
    requires |v| == 1
    ensures Reads(v, true) == !Reads(v, false)
  {
    assert SignVals(MustNot, v)[0] == !v[0];
    assert SignVals(Must, v)[0] == v[0];
  }

  // ----- sufficiency

  /** A faithful query reads as what it means, and under a NOT as the opposite. */
  lemma {:induction false} FaithfulReads(q: Query, negated: bool, truth: set<string>)
    requires WellFormed(q) && Faithful(q, negated)
    ensures Reads(Vals(q, truth), negated) == (Holds(q, truth) != negated)
    decreases q, 1
  {
    if q.BoolQuery? {
      var v1, v2 := ClauseVals(Must, q.must, truth), ClauseVals(Should, q.should, truth);
      var v3 := ClauseVals(MustNot, q.mustNot, truth);
      var single := ClauseCount(q) == 1;
      ClauseFaithfulReads(Must, q.must, single && negated, truth);
      ClauseFaithfulReads(Should, q.should, single && negated, truth);
      ClauseFaithfulReads(MustNot, q.mustNot, single && negated, truth);
      if single {
        if q.must != [] {
          assert v1 + v2 + v3 == v1;
        } else if q.should != [] {
          assert v1 + v2 + v3 == v2;
        } else {
          assert v1 + v2 + v3 == v3;
        }
      } else {
        AllConcat(v1 + v2, v3);
        AllConcat(v1, v2);
      }
    }
  }

  lemma ClauseFaithfulReads(kind: Kind, qs: seq<Query>, negated: bool, truth: set<string>)
    requires forall i | 0 <= i < |qs| :: WellFormed(qs[i])
    requires ClauseFaithful(kind, qs, negated)
    ensures qs == [] ==> ClauseVals(kind, qs, truth) == [] && ClauseHolds(kind, qs, truth)
    ensures qs != [] ==> Reads(ClauseVals(kind, qs, truth), negated) == (ClauseHolds(kind, qs, truth) != negated)
    decreases qs, 0
  {
    if |qs| == 1 {
      OnlyChildReads(kind, qs[0], negated, truth);
      assert ClauseHolds(kind, qs, truth) == (Holds(qs[0], truth) != Negating(kind));
    } else if |qs| > 1 {
      forall i | 0 <= i < |qs| ensures ChildVal(kind, qs[i], truth) == (Holds(qs[i], truth) != Negating(kind)) {
        FaithfulReads(qs[i], Negating(kind), truth);
      }
      ListAgrees(kind, qs, truth);
      SingleSign(ClauseVals(kind, qs, truth));
    }
  }

  lemma OnlyChildReads(kind: Kind, q: Query, negated: bool, truth: set<string>)
    requires WellFormed(q) && Faithful(q, negated != Negating(kind))
    ensures Reads(SignVals(kind, Vals(q, truth)), negated) == ((Holds(q, truth) != Negating(kind)) != negated)
    decreases q, 2
  {
    FaithfulReads(q, negated != Negating(kind), truth);
    SignedReads(kind, Vals(q, truth), negated);
  }

  lemma ListAgrees(kind: Kind, qs: seq<Query>, truth: set<string>)
    requires |qs| > 1
    requires forall i | 0 <= i < |qs| :: ChildVal(kind, qs[i], truth) == (Holds(qs[i], truth) != Negating(kind))
    ensures ListVal(kind, qs, truth) == ClauseHolds(kind, qs, truth)
  {
  }

  // ----- necessity, for trees whose comparisons are all different

  /** The comparisons a query mentions. */
  function Atoms(q: Query): set<string>
    decreases q, 1
  {
    match q
    case BoolQuery(must, should, mustNot) => ListAtoms(must) + ListAtoms(should) + ListAtoms(mustNot)
    case TermQuery(name, v) => {name + " = " + ValueText(v)}
    case TermsQuery(name, vs) => {name + " IN (" + Joined(ValueTexts(vs), ", ") + ")"}
    case RangeQuery(name, from, to) =>
      (if from.Some? then {FromText(name, from.value)} else {}) + (if to.Some? then {ToText(name, to.value)} else {})
    case NotSet => {}
  }

  function ListAtoms(qs: seq<Query>): set<string>
    decreases qs, 0
  {
    if qs == [] then {} else Atoms(qs[0]) + ListAtoms(qs[1..])
  }

  /** No comparison occurs twice. */
  ghost predicate Apart(q: Query)
    decreases q, 1
  {
    match q
    case BoolQuery(must, should, mustNot) =>
      && ListApart(must) && ListApart(should) && ListApart(mustNot)
      && ListAtoms(must) !! ListAtoms(should) && ListAtoms(must) + ListAtoms(should) !! ListAtoms(mustNot)
    case _ => true
  }

  ghost predicate ListApart(qs: seq<Query>)
    decreases qs, 0
  {
    qs == [] || (Apart(qs[0]) && ListApart(qs[1..]) && Atoms(qs[0]) !! ListAtoms(qs[1..]))
  }

  /** `truth` restricted to each query of the list is the given set. */
  ghost predicate Agrees(qs: seq<Query>, ws: seq<set<string>>, truth: set<string>) {
    |ws| == |qs| && (qs == [] || (truth * Atoms(qs[0]) == ws[0] && Agrees(qs[1..], ws[1..], truth)))
  }

  ghost predicate Within(qs: seq<Query>, ws: seq<set<string>>) {
    |ws| == |qs| && (qs == [] || (ws[0] <= Atoms(qs[0]) && Within(qs[1..], ws[1..])))
  }

  function Union(ws: seq<set<string>>): set<string> {
    if ws == [] then {} else ws[0] + Union(ws[1..])
  }

  lemma {:induction false} UnionWithin(qs: seq<Query>, ws: seq<set<string>>)
    requires Within(qs, ws)
    ensures Union(ws) <= ListAtoms(qs)
  {
    if qs != [] {
      UnionWithin(qs[1..], ws[1..]);
    }
  }

  lemma {:induction false} UnionAgrees(qs: seq<Query>, ws: seq<set<string>>, truth: set<string>)
    requires ListApart(qs) && Within(qs, ws) && truth * ListAtoms(qs) == Union(ws)
    ensures Agrees(qs, ws, truth)
  {
    if qs != [] {
      UnionWithin(qs[1..], ws[1..]);
      Restrict(truth, Atoms(qs[0]), ListAtoms(qs[1..]), ws[0], Union(ws[1..]));
      UnionAgrees(qs[1..], ws[1..], truth);
    }
  }

  /** A choice over two disjoint sets of comparisons is a choice over each. */
  lemma Restrict(truth: set<string>, a: set<string>, b: set<string>, x: set<string>, y: set<string>)
    requires a !! b && x <= a && y <= b && truth * (a + b) == x + y
    ensures truth * a == x && truth * b == y
  {
    assert truth * a == truth * (a + b) * a;
    assert truth * b == truth * (a + b) * b;
  }

  /** Choices for the children of the three clauses combine into one choice for the query. */
  lemma Assemble(q: Query, w1: seq<set<string>>, w2: seq<set<string>>, w3: seq<set<string>>) returns (w: set<string>)
    requires q.BoolQuery? && Apart(q)
    requires Within(q.must, w1) && Within(q.should, w2) && Within(q.mustNot, w3)
    ensures w <= Atoms(q)
    ensures forall truth | truth * Atoms(q) == w ::
      Agrees(q.must, w1, truth) && Agrees(q.should, w2, truth) && Agrees(q.mustNot, w3, truth)
  {
    UnionWithin(q.must, w1);
    UnionWithin(q.should, w2);
    UnionWithin(q.mustNot, w3);
    var a1, a2, a3 := ListAtoms(q.must), ListAtoms(q.should), ListAtoms(q.mustNot);
    w := Union(w1) + Union(w2) + Union(w3);
    forall truth | truth * Atoms(q) == w
      ensures Agrees(q.must, w1, truth) && Agrees(q.should, w2, truth) && Agrees(q.mustNot, w3, truth)
    {
      Restrict(truth, a1 + a2, a3, Union(w1) + Union(w2), Union(w3));
      Restrict(truth, a1, a2, Union(w1), Union(w2));
      UnionAgrees(q.must, w1, truth);
      UnionAgrees(q.should, w2, truth);
      UnionAgrees(q.mustNot, w3, truth);
    }
  }

  // ----- making a query true or false in tree and text alike

  /** The first factor has value `b`, all others are true. */
  predicate Shape(v: seq<bool>, b: bool) {
    |v| > 0 && v[0] == b && forall i | 0 < i < |v| :: v[i]
  }

  /** Under the choice `w`, tree and text both have value `b`. */
  ghost predicate Extremal(q: Query, b: bool, w: set<string>) {
    && w <= Atoms(q)
    && forall truth | truth * Atoms(q) == w :: Holds(q, truth) == b && Shape(Vals(q, truth), b)
  }

  /** The value each child takes so that its clause has value `b`. */
  function Bit(kind: Kind, i: int, b: bool): bool {
    match kind
    case Must => b || i > 0
    case Should => b
    case MustNot => !(b || i > 0)
  }

  ghost predicate ClauseExtremal(kind: Kind, qs: seq<Query>, b: bool, ws: seq<set<string>>) {
    && Within(qs, ws)
    && forall truth | Agrees(qs, ws, truth) :: ClauseShape(kind, qs, b, truth)
  }

  lemma ClauseValues(kind: Kind, qs: seq<Query>, b: bool, truth: set<string>)
    requires qs != []
    requires forall i | 0 <= i < |qs| ::
               Holds(qs[i], truth) == Bit(kind, i, b) && Shape(Vals(qs[i], truth), Bit(kind, i, b))
    ensures ClauseHolds(kind, qs, truth) == b && Shape(ClauseVals(kind, qs, truth), b)
  {
    assert Holds(qs[0], truth) == Bit(kind, 0, b);
    if |qs| > 1 {
      forall i | 0 <= i < |qs| ensures ChildVal(kind, qs[i], truth) == (Bit(kind, i, b) != Negating(kind)) {
        ShapeReads(Vals(qs[i], truth), Bit(kind, i, b), Negating(kind));
      }
      assert ChildVal(kind, qs[0], truth) == (Bit(kind, 0, b) != Negating(kind));
    }
  }

  lemma ShapeReads(v: seq<bool>, b: bool, negated: bool)
    requires Shape(v, b)
    ensures Reads(v, negated) == (b != negated)
  {
    var s := SignVals(if negated then MustNot else Must, v);
    assert s[0] == (b != negated);
    assert forall i | 0 < i < |v| :: s[i] == v[i];
  }

  lemma {:induction false} AgreesAt(qs: seq<Query>, ws: seq<set<string>>, truth: set<string>, i: nat)
    requires Agrees(qs, ws, truth) && i < |qs|
    ensures truth * Atoms(qs[i]) == ws[i]
  {
    if i > 0 {
      AgreesAt(qs[1..], ws[1..], truth, i - 1);
    }
  }

  lemma ApartChild(qs: seq<Query>, i: nat)
    requires ListApart(qs) && i < |qs|
    ensures Apart(qs[i])
  {
    if i > 0 {
      ApartChild(qs[1..], i - 1);
    }
  }

  /** Any well-formed query can be made true, and false, in tree and text alike. */
  lemma {:induction false} Extreme(q: Query, b: bool) returns (w: set<string>)
    requires WellFormed(q) && Apart(q)
    ensures Extremal(q, b, w)
    decreases q, 2
  {
    if q.BoolQuery? {
      var w1 := ClauseExtreme(Must, q.must, b);
      var w2 := ClauseExtreme(Should, q.should, b || q.must != []);
      var w3 := ClauseExtreme(MustNot, q.mustNot, b || q.must + q.should != []);
      w := Assemble(q, w1, w2, w3);
      forall truth | truth * Atoms(q) == w ensures Holds(q, truth) == b && Shape(Vals(q, truth), b) {
        assert Agrees(q.must, w1, truth) && Agrees(q.should, w2, truth) && Agrees(q.mustNot, w3, truth);
        BoolExtreme(q, b, truth);
      }
    } else {
      w := if b then Atoms(q) else {};
      forall truth | truth * Atoms(q) == w ensures LeafHolds(q, truth) == b {
        LeafExtreme(q, b, truth);
      }
    }
  }

  /** The values a clause takes in tree and text. */
  ghost predicate ClauseShape(kind: Kind, qs: seq<Query>, b: bool, truth: set<string>) {
    && ClauseHolds(kind, qs, truth) == (b || qs == [])
    && (qs == [] ==> ClauseVals(kind, qs, truth) == [])
    && (qs != [] ==> Shape(ClauseVals(kind, qs, truth), b))
  }

  lemma BoolExtreme(q: Query, b: bool, truth: set<string>)
    requires q.BoolQuery? && WellFormed(q)
    requires ClauseShape(Must, q.must, b, truth)
    requires ClauseShape(Should, q.should, b || q.must != [], truth)
    requires ClauseShape(MustNot, q.mustNot, b || q.must + q.should != [], truth)
    ensures Holds(q, truth) == b && Shape(Vals(q, truth), b)
  {
  }

  lemma LeafExtreme(q: Query, b: bool, truth: set<string>)
    requires WellFormed(q) && !q.BoolQuery?
    requires truth * Atoms(q) == if b then Atoms(q) else {}
    ensures LeafHolds(q, truth) == b
  {
    if b {
      assert Atoms(q) <= truth;
    } else {
      assert forall a | a in Atoms(q) && a in truth :: a in truth * Atoms(q);
    }
  }

  lemma ClauseExtreme(kind: Kind, qs: seq<Query>, b: bool) returns (ws: seq<set<string>>)
    requires ListApart(qs) && forall i | 0 <= i < |qs| :: WellFormed(qs[i])
    ensures ClauseExtremal(kind, qs, b, ws)
    decreases qs, 1
  {
    ws := Extremes(kind, qs, b, 0);
    forall truth | Agrees(qs, ws, truth) && qs != []
      ensures ClauseHolds(kind, qs, truth) == b && Shape(ClauseVals(kind, qs, truth), b)
    {
      forall i | 0 <= i < |qs|
        ensures Holds(qs[i], truth) == Bit(kind, i, b) && Shape(Vals(qs[i], truth), Bit(kind, i, b))
      {
        AgreesAt(qs, ws, truth, i);
        assert Extremal(qs[i], Bit(kind, i, b), ws[i]);
      }
      ClauseValues(kind, qs, b, truth);
    }
  }

  /** The choices of the children; `at` is the position of the list in its clause. */
  lemma {:induction false} Extremes(kind: Kind, qs: seq<Query>, b: bool, at: nat) returns (ws: seq<set<string>>)
    requires ListApart(qs) && forall i | 0 <= i < |qs| :: WellFormed(qs[i])
    ensures Within(qs, ws)
    ensures forall i | 0 <= i < |qs| :: Extremal(qs[i], Bit(kind, at + i, b), ws[i])
    decreases qs, 0
  {
    if qs == [] {
      ws := [];
    } else {
      var w := Extreme(qs[0], Bit(kind, at, b));
      var rest := Extremes(kind, qs[1..], b, at + 1);
      ws := [w] + rest;
      assert ws[1..] == rest;
      forall i | 0 <= i < |qs| ensures Extremal(qs[i], Bit(kind, at + i, b), ws[i]) {
        if i > 0 {
          assert Extremal(qs[1..][i - 1], Bit(kind, at + 1 + (i - 1), b), rest[i - 1]);
        }
      }
    }
  }

  // ----- telling tree and text apart

  /** Tree and text disagree. */
  ghost predicate Disagree(q: Query, negated: bool, truth: set<string>) {
    Reads(Vals(q, truth), negated) != (Holds(q, truth) != negated)
  }

  ghost predicate ClauseDisagree(kind: Kind, qs: seq<Query>, negated: bool, truth: set<string>) {
    Reads(ClauseVals(kind, qs, truth), negated) != (ClauseHolds(kind, qs, truth) != negated)
  }

  /** Under the choice `w`, tree and text disagree. */
  ghost predicate Separates(q: Query, negated: bool, w: set<string>) {
    w <= Atoms(q) && forall truth | truth * Atoms(q) == w :: Disagree(q, negated, truth)
  }

  ghost predicate ClauseSeparates(kind: Kind, qs: seq<Query>, negated: bool, ws: seq<set<string>>) {
    Within(qs, ws) && forall truth | Agrees(qs, ws, truth) :: ClauseDisagree(kind, qs, negated, truth)
  }

  /** The value that leaves the rest of a clause decisive. */
  function Neutral(kind: Kind): bool {
    kind == Must
  }

  /** One child disagrees and its siblings are neutral, so the clause disagrees. */
  lemma ClauseDisagrees(kind: Kind, qs: seq<Query>, j: nat, negated: bool, truth: set<string>)
    requires j < |qs|
    requires Disagree(qs[j], if |qs| == 1 then negated != Negating(kind) else Negating(kind), truth)
    requires forall i | 0 <= i < |qs| && i != j ::
      Holds(qs[i], truth) == Neutral(kind) && Shape(Vals(qs[i], truth), Neutral(kind))
    ensures ClauseDisagree(kind, qs, negated, truth)
  {
    if |qs| == 1 {
      SignedReads(kind, Vals(qs[0], truth), negated);
    } else {
      forall i | 0 <= i < |qs| && i != j ensures ChildVal(kind, qs[i], truth) == (Neutral(kind) != Negating(kind)) {
        ShapeReads(Vals(qs[i], truth), Neutral(kind), Negating(kind));
      }
      assert ChildVal(kind, qs[j], truth) != (Holds(qs[j], truth) != Negating(kind));
      SingleSign(ClauseVals(kind, qs, truth));
    }
  }

  /** The other children of a clause, made neutral; position `j` takes `w`. */
  lemma {:induction false} Neutrals(kind: Kind, qs: seq<Query>, j: int, w: set<string>) returns (ws: seq<set<string>>)
    requires ListApart(qs) && forall i | 0 <= i < |qs| :: WellFormed(qs[i])
    requires 0 <= j < |qs| ==> w <= Atoms(qs[j])
    ensures Within(qs, ws) && (0 <= j < |qs| ==> ws[j] == w)
    ensures forall i | 0 <= i < |qs| && i != j :: Extremal(qs[i], Neutral(kind), ws[i])
    decreases qs
  {
    if qs == [] {
      ws := [];
    } else {
      var first := w;
      if j != 0 {
        first := Extreme(qs[0], Neutral(kind));
      }
      var rest := Neutrals(kind, qs[1..], j - 1, w);
      ws := [first] + rest;
      assert ws[1..] == rest;
      forall i | 0 <= i < |qs| && i != j ensures Extremal(qs[i], Neutral(kind), ws[i]) {
        if i > 0 {
          assert Extremal(qs[1..][i - 1], Neutral(kind), rest[i - 1]);
        }
      }
    }
  }

  /** A query that is not faithful has an assignment under which tree and text disagree. */
  lemma {:induction false} Separate(q: Query, negated: bool) returns (w: set<string>)
    requires WellFormed(q) && Apart(q) && !Faithful(q, negated)
    ensures Separates(q, negated, w)
    decreases q, 2
  {
    var single := ClauseCount(q) == 1;
    if !single && negated {
      w := SeparateConjunction(q);
    } else {
      var w1, w2, w3;
      if !ClauseFaithful(Must, q.must, negated) {
        w1 := SeparateClause(Must, q.must, negated);
        w2 := ClauseExtreme(Should, q.should, true);
        w3 := ClauseExtreme(MustNot, q.mustNot, true);
      } else if !ClauseFaithful(Should, q.should, negated) {
        w1 := ClauseExtreme(Must, q.must, true);
        w2 := SeparateClause(Should, q.should, negated);
        w3 := ClauseExtreme(MustNot, q.mustNot, true);
      } else {
        w1 := ClauseExtreme(Must, q.must, true);
        w2 := ClauseExtreme(Should, q.should, true);
        w3 := SeparateClause(MustNot, q.mustNot, negated);
      }
      w := Assemble(q, w1, w2, w3);
      forall truth | truth * Atoms(q) == w ensures Disagree(q, negated, truth) {
        assert Agrees(q.must, w1, truth) && Agrees(q.should, w2, truth) && Agrees(q.mustNot, w3, truth);
        OneClauseDecides(q, negated, truth);
      }
    }
  }

  /** A clause adds nothing: it is absent or holds in tree and text. */
  ghost predicate Inert(kind: Kind, qs: seq<Query>, truth: set<string>) {
    ClauseHolds(kind, qs, truth) && All(ClauseVals(kind, qs, truth)) && (qs == [] ==> ClauseVals(kind, qs, truth) == [])
  }

  lemma OneClauseDecides(q: Query, negated: bool, truth: set<string>)
    requires q.BoolQuery? && (negated ==> ClauseCount(q) == 1)
    requires
      || (ClauseDisagree(Must, q.must, negated, truth) && q.must != [] &&
          Inert(Should, q.should, truth) && Inert(MustNot, q.mustNot, truth))
      || (ClauseDisagree(Should, q.should, negated, truth) && q.should != [] &&
          Inert(Must, q.must, truth) && Inert(MustNot, q.mustNot, truth))
      || (ClauseDisagree(MustNot, q.mustNot, negated, truth) && q.mustNot != [] &&
          Inert(Must, q.must, truth) && Inert(Should, q.should, truth))
    ensures Disagree(q, negated, truth)
  {
    var v1, v2 := ClauseVals(Must, q.must, truth), ClauseVals(Should, q.should, truth);
    var v3 := ClauseVals(MustNot, q.mustNot, truth);
    AllConcat(v1 + v2, v3);
    AllConcat(v1, v2);
    if ClauseCount(q) == 1 {
      if q.must != [] {
        assert v1 + v2 + v3 == v1;
      } else if q.should != [] {
        assert v1 + v2 + v3 == v2;
      } else {
        assert v1 + v2 + v3 == v3;
      }
    }
  }

  /** NOT before several conjuncts: make the first true and the second false. */
  lemma SeparateConjunction(q: Query) returns (w: set<string>)
    requires WellFormed(q) && Apart(q) && q.BoolQuery? && ClauseCount(q) > 1
    ensures Separates(q, true, w)
    decreases q, 1
  {
    var w1 := ClauseExtreme(Must, q.must, true);
    var w2 := ClauseExtreme(Should, q.should, q.must == []);
    var w3 := ClauseExtreme(MustNot, q.mustNot, q.must != [] && q.should != []);
    w := Assemble(q, w1, w2, w3);
    forall truth | truth * Atoms(q) == w ensures Disagree(q, true, truth) {
      assert Agrees(q.must, w1, truth) && Agrees(q.should, w2, truth) && Agrees(q.mustNot, w3, truth);
      var v := Vals(q, truth);
      assert v[0];
      assert !SignVals(MustNot, v)[0];
    }
  }

  lemma SeparateClause(kind: Kind, qs: seq<Query>, negated: bool) returns (ws: seq<set<string>>)
    requires ListApart(qs) && forall i | 0 <= i < |qs| :: WellFormed(qs[i])
    requires !ClauseFaithful(kind, qs, negated)
    ensures qs != [] && ClauseSeparates(kind, qs, negated, ws)
    decreases qs, 1
  {
    var sign := if |qs| == 1 then negated != Negating(kind) else Negating(kind);
    var j :| 0 <= j < |qs| && !Faithful(qs[j], sign);
    ApartChild(qs, j);
    var w := Separate(qs[j], sign);
    ws := Neutrals(kind, qs, j, w);
    forall truth | Agrees(qs, ws, truth) ensures ClauseDisagree(kind, qs, negated, truth) {
      forall i | 0 <= i < |qs| ensures truth * Atoms(qs[i]) == ws[i] {
        AgreesAt(qs, ws, truth, i);
      }
      forall i | 0 <= i < |qs| && i != j
        ensures Holds(qs[i], truth) == Neutral(kind) && Shape(Vals(qs[i], truth), Neutral(kind))
      {
        assert Extremal(qs[i], Neutral(kind), ws[i]);
      }
      ClauseDisagrees(kind, qs, j, negated, truth);
    }
  }

  // ----- the exact condition

  /** Text and tree agree under every assignment. */
  ghost predicate MeaningKept(q: Query) {
    forall truth: set<string> :: Read(TokensOf(q), truth) == Some(Holds(q, truth))
  }

  lemma FaithfulKeepsMeaning(q: Query)
    requires WellFormed(q) && Faithful(q, false)
    ensures MeaningKept(q)
  {
    forall truth: set<string> ensures Read(TokensOf(q), truth) == Some(Holds(q, truth)) {
      PrintedReads(q, truth);
      FaithfulReads(q, false, truth);
    }
  }

  /** For trees without a repeated comparison the condition is also necessary. */
  lemma MeaningKeptExactly(q: Query)
    requires Apart(q)
    ensures MeaningKept(q) <==> WellFormed(q) && Faithful(q, false)
  {
    ReadableExactly(q, {});
    if !WellFormed(q) {
      assert Read(TokensOf(q), {}) != Some(Holds(q, {}));
    } else if Faithful(q, false) {
      FaithfulKeepsMeaning(q);
    } else {
      var w := Separate(q, false);
      assert w * Atoms(q) == w;
      PrintedReads(q, w);
      assert Disagree(q, false, w);
    }
  }

  /** The condition is needed: NOT in front of two clauses negates the first one only. */
  lemma NotOverTwoClauses()
    ensures var a, b := TermQuery("a", NumberValue("1")), TermQuery("b", NumberValue("2"));
            var q := BoolQuery([], [], [BoolQuery([a], [b], [])]);
            && WellFormed(q) && !Faithful(q, false)
            && Read(TokensOf(q), {}) == Some(false) && Holds(q, {})
  {
    var a, b := TermQuery("a", NumberValue("1")), TermQuery("b", NumberValue("2"));
    var inner := BoolQuery([a], [b], []);
    var q := BoolQuery([], [], [inner]);
    assert ClauseCount(inner) == 2 && !Faithful(inner, true);
    assert !ClauseFaithful(MustNot, [inner], false);
    assert ClauseVals(Must, [a], {}) == [false] && ClauseVals(Should, [b], {}) == [false];
    assert ClauseVals(MustNot, [], {}) == ClauseVals(Must, [], {}) == ClauseVals(Should, [], {}) == [];
    assert Vals(inner, {}) == [false, false];
    assert ClauseVals(MustNot, [inner], {}) == [true, false];
    assert Vals(q, {}) == [true, false];
    assert !All([true, false]) by { assert ![true, false][1]; }
    PrintedReads(q, {});
    assert !Holds(a, {});
    assert !Holds(inner, {}) by { assert !Holds(inner.must[0], {}); }
  }
}
