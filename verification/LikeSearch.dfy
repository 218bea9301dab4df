/**
  Search text compiled to LIKE patterns, and the meaning of LIKE with a
  backslash escape (PostgreSQL documentation, section 9.7.1).
 */
module LikeSearch {

  predicate Special(ch: char) {
    ch == '%' || ch == '_' || ch == '\\'
  }

  /**
    `text LIKE pattern ESCAPE '\'`. A pattern that ends in a lone escape is an
    error in SQL; it matches nothing here.
   */
  predicate Like(pattern: string, text: string)
    decreases |pattern| + |text|
  {
    if pattern == [] then text == []
    else if pattern[0] == '%' then Like(pattern[1..], text) || (text != [] && Like(pattern, text[1..]))
    else if pattern[0] == '_' then text != [] && Like(pattern[1..], text[1..])
    else if pattern[0] == '\\' then
      |pattern| >= 2 && text != [] && text[0] == pattern[1] && Like(pattern[2..], text[1..])
    else text != [] && text[0] == pattern[0] && Like(pattern[1..], text[1..])
  }

  /** Every escape in the pattern is followed by the character it escapes. */
  predicate WellFormed(pattern: string) {
    if pattern == [] then true
    else if pattern[0] == '\\' then |pattern| >= 2 && WellFormed(pattern[2..])
    else WellFormed(pattern[1..])
  }

  function EscapedChar(ch: char): string {
    if Special(ch) then ['\\', ch] else [ch]
  }

  function Escaped(query: string): string {
    if query == [] then [] else EscapedChar(query[0]) + Escaped(query[1..])
  }

  lemma {:induction false} EscapedAppend(a: string, ch: char)
    ensures Escaped(a + [ch]) == Escaped(a) + EscapedChar(ch)
  {
    if a == [] {
      assert Escaped([ch]) == EscapedChar(ch) + Escaped([]);
    } else {
      EscapedAppend(a[1..], ch);
      assert (a + [ch])[1..] == a[1..] + [ch];
    }
  }

  method EscapeLikePattern(query: string) returns (escaped: string)
    ensures escaped == Escaped(query)
  {
    escaped := [];
    for i := 0 to |query|
      invariant escaped == Escaped(query[..i])
    {
      EscapedAppend(query[..i], query[i]);
      assert query[..i + 1] == query[..i] + [query[i]];
      if Special(query[i]) {
        escaped := escaped + ['\\'];
      }
      escaped := escaped + [query[i]];
    }
    assert query[..|query|] == query;
  }

  datatype Patterns = Patterns(query: string, contains: string, prefix: string)

  method NewSearch(query: string) returns (search: Patterns)
    ensures search == Patterns(query, ContainsPattern(query), PrefixPattern(query))
    ensures forall text :: Like(search.contains, text) <==> Contains(query, text)
    ensures forall text :: Like(search.prefix, text) <==> query <= text
  {
    var escaped := EscapeLikePattern(query);
    search := Patterns(query, "%" + escaped + "%", escaped + "%");
    forall text ensures Like(search.contains, text) <==> Contains(query, text) {
      ContainsMeansSubstring(query, text);
    }
    forall text ensures Like(search.prefix, text) <==> query <= text {
      PrefixMeansStartsWith(query, text);
    }
  }

  function ContainsPattern(query: string): string {
    "%" + Escaped(query) + "%"
  }

  function PrefixPattern(query: string): string {
    Escaped(query) + "%"
  }

  /** The query occurs in the text at position `i`. */
  predicate OccursAt(query: string, text: string, i: nat) {
    i + |query| <= |text| && text[i..i + |query|] == query
  }

  predicate Contains(query: string, text: string) {
    exists i | 0 <= i <= |text| :: OccursAt(query, text, i)
  }

  /** The pattern of a query begins with its first character, escaped if it is special. */
  lemma EscapedSplit(query: string, rest: string)
    requires query != []
    ensures var pattern, tail := Escaped(query) + rest, Escaped(query[1..]) + rest;
      if Special(query[0]) then |pattern| >= 2 && pattern[0] == '\\' && pattern[1] == query[0] && pattern[2..] == tail
      else pattern != [] && pattern[0] == query[0] && pattern[1..] == tail
  {
    var tail := Escaped(query[1..]) + rest;
    assert Escaped(query) + rest == EscapedChar(query[0]) + tail;
  }

  /** An escaped character matches exactly itself, whatever pattern follows. */
  lemma EscapedHead(query: string, rest: string, text: string)
    requires query != []
    ensures Like(Escaped(query) + rest, text)
      <==> text != [] && text[0] == query[0] && Like(Escaped(query[1..]) + rest, text[1..])
  {
    EscapedSplit(query, rest);
  }

  lemma PrefixHead(query: string, text: string)
    requires query != [] && text != []
    ensures query <= text <==> query[0] == text[0] && query[1..] <= text[1..]
    ensures query <= text ==> text[1..][|query[1..]|..] == text[|query|..]
  {
  }

  /** An escaped literal matches exactly itself, whatever pattern follows. */
  lemma {:induction false} EscapedMatchesItself(query: string, rest: string, text: string)
    ensures Like(Escaped(query) + rest, text) <==> query <= text && Like(rest, text[|query|..])
    decreases |query|
  {
    if query == [] {
      assert Escaped(query) + rest == rest;
      assert text[0..] == text;
    } else {
      EscapedHead(query, rest, text);
      if text != [] {
        EscapedMatchesItself(query[1..], rest, text[1..]);
        PrefixHead(query, text);
      }
    }
  }

  lemma {:induction false} PercentMatchesAnything(text: string)
    ensures Like("%", text)
  {
    if text != [] {
      PercentMatchesAnything(text[1..]);
    }
  }

  /** An underscore matches any one character. */
  lemma UnderscoreMatchesOne(text: string)
    ensures Like("_", text) <==> |text| == 1
  {
    assert "_"[1..] == [];
    if text != [] {
      assert Like([], text[1..]) <==> text[1..] == [];
    }
  }

  /** A leading percent lets the rest match at some later position. */
  lemma {:induction false} PercentSkips(rest: string, text: string)
    ensures Like("%" + rest, text) <==> exists i | 0 <= i <= |text| :: Like(rest, text[i..])
  {
    var pattern := "%" + rest;
    assert pattern[1..] == rest;
    assert text[0..] == text;
    if text != [] {
      PercentSkips(rest, text[1..]);
      forall i | 0 <= i < |text| ensures text[1..][i..] == text[i + 1..] {
      }
      if i :| 0 <= i <= |text| && Like(rest, text[i..]) {
        if i > 0 {
          assert Like(rest, text[1..][i - 1..]);
        }
      }
      if i :| 0 <= i <= |text| - 1 && Like(rest, text[1..][i..]) {
        assert Like(rest, text[i + 1..]);
      }
    }
  }

  /** The prefix pattern matches exactly the texts that start with the query. */
  lemma PrefixMeansStartsWith(query: string, text: string)
    ensures Like(PrefixPattern(query), text) <==> query <= text
  {
    EscapedMatchesItself(query, "%", text);
    if query <= text {
      PercentMatchesAnything(text[|query|..]);
    }
  }

  /** The contains pattern matches exactly the texts in which the query occurs. */
  lemma ContainsMeansSubstring(query: string, text: string)
    ensures Like(ContainsPattern(query), text) <==> Contains(query, text)
  {
    assert ContainsPattern(query) == "%" + PrefixPattern(query);
    PercentSkips(PrefixPattern(query), text);
    forall i | 0 <= i <= |text| ensures Like(PrefixPattern(query), text[i..]) <==> OccursAt(query, text, i) {
      PrefixMeansStartsWith(query, text[i..]);
      assert query <= text[i..] <==> OccursAt(query, text, i);
    }
  }

  lemma {:induction false} EscapedIsWellFormed(query: string, rest: string)
    requires WellFormed(rest)
    ensures WellFormed(Escaped(query) + rest)
  {
    if query == [] {
      assert Escaped(query) + rest == rest;
    } else {
      EscapedIsWellFormed(query[1..], rest);
      EscapedSplit(query, rest);
    }
  }

  /** Neither pattern can raise the error of a trailing escape. */
  lemma PatternsAreWellFormed(query: string)
    ensures WellFormed(PrefixPattern(query)) && WellFormed(ContainsPattern(query))
  {
    assert WellFormed("%") by { assert "%"[1..] == []; }
    EscapedIsWellFormed(query, "%");
    assert ContainsPattern(query)[1..] == PrefixPattern(query);
  }

  /** Position of the first occurrence, counted from one; zero when there is none. */
  ghost predicate IsPosition(query: string, text: string, position: nat) {
    if Contains(query, text)
    then
      && position > 0 && OccursAt(query, text, position - 1)
      && forall i | 0 <= i < position - 1 :: !OccursAt(query, text, i)
    else position == 0
  }

  /** In the user search the rows ranked first by the prefix pattern are those whose match is at position one. */
  lemma PrefixRankIsPositionOne(query: string, text: string, position: nat)
    requires Like(ContainsPattern(query), text) && IsPosition(query, text, position)
    ensures Like(PrefixPattern(query), text) <==> position == 1
  {
    ContainsMeansSubstring(query, text);
    PrefixMeansStartsWith(query, text);
    assert OccursAt(query, text, 0) <==> query <= text;
  }
}
