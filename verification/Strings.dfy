/** Joining strings and finding one in another. */
module Strings {
  import opened Sequences

  function Joined(parts: seq<string>, sep: string): string {
    if parts == [] then "" else if |parts| == 1 then parts[0] else parts[0] + sep + Joined(parts[1..], sep)
  }

  method JoinWith(parts: seq<string>, sep: string) returns (buf: string)
    ensures buf == Joined(parts, sep)
  {
    buf := "";
    var i := 0;
    while i < |parts|
      invariant 0 <= i <= |parts|
      invariant buf + Joined(parts[i..], sep) == Joined(parts, sep)
    {
      assert parts[i..][1..] == parts[i + 1..];
      buf := buf + parts[i];
      i := i + 1;
      if i < |parts| {
        buf := buf + sep;
      }
    }
  }

  lemma {:induction false} JoinedEmpty(parts: seq<string>)
    ensures Joined(parts, "") == Flatten(parts)
  {
    if |parts| > 1 {
      JoinedEmpty(parts[1..]);
    } else if |parts| == 1 {
      FlattenOne(parts[0]);
    }
  }

  predicate OccursAt(text: string, s: string, i: int) {
    0 <= i <= |text| - |s| && text[i..i + |s|] == s
  }

  predicate Contains(text: string, s: string) {
    exists i | 0 <= i <= |text| - |s| :: OccursAt(text, s, i)
  }

  lemma ContainsAt(text: string, s: string, i: int)
    requires OccursAt(text, s, i)
    ensures Contains(text, s)
  {
  }

  lemma ContainsPart(text: string, a: nat, b: nat)
    requires a <= b <= |text|
    ensures Contains(text, text[a..b])
  {
    ContainsAt(text, text[a..b], a);
  }

  lemma PartOfPart(text: string, a: nat, b: nat, i: nat, j: nat)
    requires a <= b <= |text| && i <= j <= b - a
    ensures text[a..b][i..j] == text[a + i..a + j]
  {
    var x, y := text[a..b][i..j], text[a + i..a + j];
    forall k | 0 <= k < j - i ensures x[k] == y[k] {
      assert x[k] == text[a..b][i + k] && y[k] == text[a + i + k];
    }
  }

  lemma ContainsTransitive(text: string, mid: string, s: string)
    requires Contains(text, mid) && Contains(mid, s)
    ensures Contains(text, s)
  {
    var i :| OccursAt(text, mid, i);
    var j :| OccursAt(mid, s, j);
    assert OccursAt(text, mid, i) && OccursAt(mid, s, j);
    PartOfPart(text, i, i + |mid|, j, j + |s|);
    ContainsAt(text, s, i + j);
  }

  /** The join of some neighbours is a part of the join of all. */
  lemma {:induction false} JoinedContains(parts: seq<string>, a: nat, b: nat, sep: string)
    requires a <= b <= |parts|
    ensures Contains(Joined(parts, sep), Joined(parts[a..b], sep))
  {
    var all := Joined(parts, sep);
    if a == b {
      ContainsAt(all, "", 0);
    } else if a > 0 {
      JoinedContains(parts[1..], a - 1, b - 1, sep);
      assert parts[1..][a - 1..b - 1] == parts[a..b];
      var rest := Joined(parts[1..], sep);
      assert all[|parts[0] + sep|..|all|] == rest;
      ContainsPart(all, |parts[0] + sep|, |all|);
      ContainsTransitive(all, rest, Joined(parts[a..b], sep));
    } else {
      var front := Joined(parts[..b], sep);
      JoinedPrefix(parts, b, sep);
      ContainsPart(all, 0, |front|);
      assert all[0..|front|] == front && parts[0..b] == parts[..b];
    }
  }

  lemma {:induction false} JoinedPrefix(parts: seq<string>, b: nat, sep: string)
    requires b <= |parts|
    ensures Joined(parts[..b], sep) <= Joined(parts, sep)
  {
    if b > 1 {
      JoinedPrefix(parts[1..], b - 1, sep);
      assert parts[..b][1..] == parts[1..][..b - 1];
    }
  }
}
