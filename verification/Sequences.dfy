/** Flattening lists of sequences. */
module Sequences {

  function Flatten<T>(parts: seq<seq<T>>): seq<T> {
    if parts == [] then [] else parts[0] + Flatten(parts[1..])
  }

  lemma {:induction false} FlattenAppend<T>(a: seq<seq<T>>, b: seq<seq<T>>)
    ensures Flatten(a + b) == Flatten(a) + Flatten(b)
  {
    if a == [] {
      assert a + b == b;
    } else {
      assert (a + b)[1..] == a[1..] + b;
      FlattenAppend(a[1..], b);
    }
  }

  lemma FlattenOne<T>(s: seq<T>)
    ensures Flatten([s]) == s
  {
    assert Flatten([s]) == s + Flatten([s][1..]);
  }

  lemma FlattenCons<T>(s: seq<T>, parts: seq<seq<T>>)
    ensures Flatten([s] + parts) == s + Flatten(parts)
  {
    assert ([s] + parts)[1..] == parts;
  }

  lemma FlattenSnoc<T>(parts: seq<seq<T>>, s: seq<T>)
    ensures Flatten(parts + [s]) == Flatten(parts) + s
  {
    FlattenAppend(parts, [s]);
    FlattenOne(s);
  }

  lemma FlattenNext<T>(parts: seq<seq<T>>, i: nat)
    requires i < |parts|
    ensures Flatten(parts[..i + 1]) == Flatten(parts[..i]) + parts[i]
  {
    assert parts[..i + 1] == parts[..i] + [parts[i]];
    FlattenSnoc(parts[..i], parts[i]);
  }
}
