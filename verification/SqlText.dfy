/** Character literals: escaping a value and lexing it back. */
module SqlText {
  import opened Wrappers

  function Escape(s: string): string {
    if s == "" then "" else (if s[0] == '\'' then "''" else [s[0]]) + Escape(s[1..])
  }

  /** The table of replacements; a double quote is replaced by itself. */
  const REPLACEMENTS: map<char, string> := map['\'' := "''", '"' := "\""]

  method EscapeSQLText(s: string) returns (copied: string)
    ensures copied == Escape(s)
  {
    copied := "";
    for i := 0 to |s|
      invariant copied + Escape(s[i..]) == Escape(s)
    {
      assert s[i..][1..] == s[i + 1..];
      if s[i] in REPLACEMENTS {
        copied := copied + REPLACEMENTS[s[i]];
      } else {
        copied := copied + [s[i]];
      }
    }
  }

  /** The rest of a character literal after its opening quote (section 5.3 of ISO/IEC 9075:1992). */
  function LexBody(s: string): (r: Option<(string, string)>)
    ensures r.Some? ==> |r.value.1| < |s|
  {
    if s == "" then None
    else if s[0] != '\'' then Prepend(s[0], LexBody(s[1..]))
    else if |s| > 1 && s[1] == '\'' then Prepend('\'', LexBody(s[2..]))
    else Some(("", s[1..]))
  }

  function Prepend(c: char, r: Option<(string, string)>): Option<(string, string)> {
    if r.None? then None else Some(([c] + r.value.0, r.value.1))
  }

  /** One character literal at the start of `s`: its value and what follows it. */
  function LexLiteral(s: string): Option<(string, string)> {
    if s != "" && s[0] == '\'' then LexBody(s[1..]) else None
  }

  predicate StartsWithQuote(s: string) {
    s != "" && s[0] == '\''
  }

  lemma {:induction false} LexEscaped(s: string, after: string)
    ensures !StartsWithQuote(after) ==> LexBody(Escape(s) + "'" + after) == Some((s, after))
    ensures StartsWithQuote(after) ==>
      var r := LexBody(Escape(s) + "'" + after); r.Some? ==> |r.value.1| < |after|
  {
    if s == "" {
      assert Escape(s) + "'" + after == "'" + after;
      if StartsWithQuote(after) {
        assert ("'" + after)[2..] == after[1..];
      }
    } else {
      LexEscaped(s[1..], after);
      assert s == [s[0]] + s[1..];
      var tail := Escape(s[1..]) + "'" + after;
      if s[0] == '\'' {
        assert Escape(s) + "'" + after == "''" + tail;
        assert ("''" + tail)[2..] == tail;
      } else {
        assert Escape(s) + "'" + after == [s[0]] + tail;
        assert ([s[0]] + tail)[1..] == tail;
      }
    }
  }

  /** A quoted value lexes back to itself, stopping where it was followed, exactly when no quote follows. */
  lemma QuotedRoundTrip(s: string, after: string)
    ensures LexLiteral("'" + Escape(s) + "'" + after) == Some((s, after)) <==> !StartsWithQuote(after)
  {
    LexEscaped(s, after);
    assert ("'" + Escape(s) + "'" + after)[1..] == Escape(s) + "'" + after;
  }
}
