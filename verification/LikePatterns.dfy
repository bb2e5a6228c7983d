/** LIKE with and without an escape character (section 8.5 of ISO/IEC 9075-2). */
module LikePatterns {
  import opened Wrappers
  import U = Utf8

  const BACKSLASH := '\\'

  /** Bytes of the first UTF-8 character of `s`, as its lead byte announces them. */
  function CharLen(s: string): (n: nat)
    requires s != ""
    ensures 1 <= n <= |s|
  {
    var lead := s[0] as int;
    var n := if lead < 0xC0 then 1 else if lead < 0xE0 then 2 else if lead < 0xF0 then 3 else 4;
    if n <= |s| then n else |s|
  }

  /** It is the length the decoder finds. */
  lemma CharLenDecodes(s: string)
    requires U.Decode(s).Char?
    ensures CharLen(s) == U.Decode(s).len
  {
  }

  /** DuckDB's `s LIKE p`: no escape character. */
  predicate Matches(s: string, p: string)
    decreases |p|, |s|
  {
    if p == "" then s == ""
    else if p[0] == '%' then Matches(s, p[1..]) || (s != "" && Matches(s[CharLen(s)..], p))
    else if p[0] == '_' then s != "" && Matches(s[CharLen(s)..], p[1..])
    else s != "" && s[0] == p[0] && Matches(s[1..], p[1..])
  }

  /** Every escape character escapes a wildcard or itself. */
  predicate WellFormed(p: string, e: char) {
    if p == "" then true
    else if p[0] == e then
      |p| > 1 && (p[1] == '%' || p[1] == '_' || p[1] == e) && WellFormed(p[2..], e)
    else WellFormed(p[1..], e)
  }

  predicate MatchesEscaped(s: string, p: string, e: char)
    requires WellFormed(p, e)
    decreases |p|, |s|
  {
    if p == "" then s == ""
    else if p[0] == e then s != "" && s[0] == p[1] && MatchesEscaped(s[1..], p[2..], e)
    else if p[0] == '%' then
      MatchesEscaped(s, p[1..], e) || (s != "" && MatchesEscaped(s[CharLen(s)..], p, e))
    else if p[0] == '_' then s != "" && MatchesEscaped(s[CharLen(s)..], p[1..], e)
    else s != "" && s[0] == p[0] && MatchesEscaped(s[1..], p[1..], e)
  }

  /** Firebird's `s LIKE p ESCAPE e`; None is the error for a malformed pattern. */
  function LikeEscape(s: string, p: string, e: char): Option<bool> {
    if WellFormed(p, e) then Some(MatchesEscaped(s, p, e)) else None
  }

  // --- patterns without the escape character ---------------------------------------

  lemma {:induction false} PlainWellFormed(p: string, e: char)
    requires e !in p
    ensures WellFormed(p, e)
  {
    if p == "" {
    } else {
      PlainWellFormed(p[1..], e);
    }
  }

  lemma {:induction false} PlainAgrees(s: string, p: string, e: char)
    requires e !in p && WellFormed(p, e)
    ensures MatchesEscaped(s, p, e) == Matches(s, p)
    decreases |p|, |s|
  {
    if p == "" {
    } else {
      if p[0] == '%' {
        PlainAgrees(s, p[1..], e);
        if s != "" { PlainAgrees(s[CharLen(s)..], p, e); }
      } else if p[0] == '_' {
        if s != "" { PlainAgrees(s[CharLen(s)..], p[1..], e); }
      } else if s != "" {
        PlainAgrees(s[1..], p[1..], e);
      }
    }
  }

  // --- patterns with a backslash -----------------------------------------------------

  function Backslashes(s: string): nat {
    if s == "" then 0 else (if s[0] == BACKSLASH then 1 else 0) + Backslashes(s[1..])
  }

  lemma {:induction false} BackslashesDrop(s: string, n: nat)
    requires n <= |s|
    ensures Backslashes(s[n..]) <= Backslashes(s)
  {
    if n == 0 {
    } else {
      BackslashesDrop(s[1..], n - 1);
      assert s[1..][n - 1..] == s[n..];
    }
  }

  /** Without an escape, each backslash of a pattern needs one in the string. */
  lemma {:induction false} MatchNeedsBackslashes(s: string, p: string)
    requires Matches(s, p)
    ensures Backslashes(p) <= Backslashes(s)
    decreases |p|, |s|
  {
    if p == "" {
    } else {
      if p[0] == '%' {
        if Matches(s, p[1..]) {
          MatchNeedsBackslashes(s, p[1..]);
        } else {
          MatchNeedsBackslashes(s[CharLen(s)..], p);
          BackslashesDrop(s, CharLen(s));
        }
      } else if p[0] == '_' {
        MatchNeedsBackslashes(s[CharLen(s)..], p[1..]);
        BackslashesDrop(s, CharLen(s));
      } else {
        MatchNeedsBackslashes(s[1..], p[1..]);
      }
    }
  }

  lemma {:induction false} SomeBackslash(p: string)
    ensures Backslashes(p) > 0 <==> BACKSLASH in p
  {
    if p == "" {
    } else {
      SomeBackslash(p[1..]);
    }
  }

  /** The shortest string an escaped pattern matches. */
  function Shortest(p: string): string
    requires WellFormed(p, BACKSLASH)
  {
    if p == "" then ""
    else if p[0] == BACKSLASH then [p[1]] + Shortest(p[2..])
    else if p[0] == '%' then Shortest(p[1..])
    else if p[0] == '_' then "x" + Shortest(p[1..])
    else [p[0]] + Shortest(p[1..])
  }

  /** That string matches, and has fewer backslashes than a pattern that has any. */
  lemma {:induction false} ShortestMatches(p: string)
    requires WellFormed(p, BACKSLASH)
    ensures MatchesEscaped(Shortest(p), p, BACKSLASH)
    ensures Backslashes(Shortest(p)) <= Backslashes(p)
    ensures Backslashes(p) > 0 ==> Backslashes(Shortest(p)) < Backslashes(p)
  {
    if p == "" {
    } else {
      var s := Shortest(p);
      var n := if p[0] == BACKSLASH then 2 else 1;
      ShortestMatches(p[n..]);
      if n == 2 {
        assert s[1..] == Shortest(p[2..]);
        assert p[1..][1..] == p[2..];
        assert Backslashes(p) == 1 + (if p[1] == BACKSLASH then 1 else 0) + Backslashes(p[2..]);
      } else if p[0] != '%' {
        assert s[1..] == Shortest(p[1..]);
      }
    }
  }

  /** Emitting `ESCAPE '\'` keeps the meaning of a pattern for every string
      exactly when the pattern has no backslash. */
  lemma BackslashFreeCondition(p: string)
    ensures (forall s :: LikeEscape(s, p, BACKSLASH) == Some(Matches(s, p))) <==> BACKSLASH !in p
  {
    if BACKSLASH !in p {
      PlainWellFormed(p, BACKSLASH);
      forall s ensures LikeEscape(s, p, BACKSLASH) == Some(Matches(s, p)) {
        PlainAgrees(s, p, BACKSLASH);
      }
    } else if WellFormed(p, BACKSLASH) {
      SomeBackslash(p);
      ShortestMatches(p);
      if Matches(Shortest(p), p) { MatchNeedsBackslashes(Shortest(p), p); }
      assert LikeEscape(Shortest(p), p, BACKSLASH) != Some(Matches(Shortest(p), p));
    } else {
      assert LikeEscape("", p, BACKSLASH) == None;
    }
  }
}
