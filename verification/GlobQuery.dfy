/** The glob queries of the index: sanitize_query_param translates them into LIKE patterns. */
module GlobQuery {

  import opened Text

  // ----- SQLite's LIKE -----

  function Lower(c: char): char {
    if 'A' <= c <= 'Z' then (c as int + 32) as char else c
  }

  /** Equal up to the case of ASCII letters. */
  predicate Same(a: char, b: char) {
    Lower(a) == Lower(b)
  }

  const UPPER := "ABCDEFGHIJKLMNOPQRSTUVWXYZ"
  const LOWER := "abcdefghijklmnopqrstuvwxyz"

  /** The two forms of one ASCII letter. */
  predicate Forms(a: char, b: char, i: nat)
    requires i < 26
  {
    a == UPPER[i] && b == LOWER[i]
  }

  /** Two characters are the same up to case exactly when they are equal or the two forms of one
      ASCII letter. */
  lemma SameExactly(a: char, b: char)
    ensures Same(a, b) <==> a == b || exists i: nat :: i < 26 && (Forms(a, b, i) || Forms(b, a, i))
  {
    hide Forms;
    forall i: nat | i < 26
      ensures Forms(a, b, i) <==> a == ('A' as int + i) as char && b == ('a' as int + i) as char
      ensures Forms(b, a, i) <==> b == ('A' as int + i) as char && a == ('a' as int + i) as char
    {
      FormsAt(a, b, i);
      FormsAt(b, a, i);
    }
    if Same(a, b) && a != b {
      var i := if 'A' <= a <= 'Z' then (a - 'A') as int else (b - 'A') as int;
      assert Forms(a, b, i) || Forms(b, a, i);
    }
  }

  lemma FormsAt(a: char, b: char, i: nat)
    requires i < 26
    ensures Forms(a, b, i) <==> a == ('A' as int + i) as char && b == ('a' as int + i) as char
  {
    assert UPPER[i] == ('A' as int + i) as char;
    assert LOWER[i] == ('a' as int + i) as char;
  }

  predicate FoldEqual(s: string, t: string) {
    |s| == |t| && forall i :: 0 <= i < |s| ==> Same(s[i], t[i])
  }

  /** s LIKE p, with ESCAPE '/' when `escaped`: '%' is any run, '_' any one character, an
      escape makes the next character literal, and a pattern ending in one matches nothing. */
  predicate Like(p: string, s: string, escaped: bool)
    decreases |p| + |s|
  {
    if p == "" then s == ""
    else if escaped && p[0] == '/' then
      |p| >= 2 && s != "" && Same(p[1], s[0]) && Like(p[2..], s[1..], escaped)
    else if p[0] == '%' then
      Like(p[1..], s, escaped) || (s != "" && Like(p, s[1..], escaped))
    else
      s != "" && (p[0] == '_' || Same(p[0], s[0])) && Like(p[1..], s[1..], escaped)
  }

  // ----- the meaning of a query -----

  /** '*' is any run, '_' any one character, everything else literal up to case. */
  predicate Glob(q: string, s: string)
    decreases |q| + |s|
  {
    if q == "" then s == ""
    else if q[0] == '*' then Glob(q[1..], s) || (s != "" && Glob(q, s[1..]))
    else s != "" && (q[0] == '_' || Same(q[0], s[0])) && Glob(q[1..], s[1..])
  }

  // ----- the translation -----

  method SanitizeQueryParam(str: string) returns (res: string)
    ensures res == Sanitized(str)
  {
    res := StringReplace(str, "/", "//");
    res := StringReplace(res, "%", "/%");
    res := StringReplace(res, "*", "%");
  }

  /** The three replacements in sequence. */
  function Sanitized(q: string): string {
    Replaced(Replaced(Replaced(q, "/", "//"), "%", "/%"), "*", "%")
  }

  /** What one character of the query becomes. */
  function Encoded(c: char): string {
    if c == '/' then "//" else if c == '%' then "/%" else if c == '*' then "%" else [c]
  }

  lemma ReplacedChar(c: char, rest: string, from: char, to: string)
    ensures Replaced([c] + rest, [from], to) == (if c == from then to else [c]) + Replaced(rest, [from], to)
  {
    var s := [c] + rest;
    assert s[1..] == rest;
    assert s[0..1] == [c];
  }

  lemma ReplacedTwo(c: char, d: char, rest: string, from: char, to: string)
    requires c != from && d != from
    ensures Replaced([c, d] + rest, [from], to) == [c, d] + Replaced(rest, [from], to)
  {
    hide Replaced;
    ReplacedChar(c, [d] + rest, from, to);
    ReplacedChar(d, rest, from, to);
    assert [c, d] + rest == [c] + ([d] + rest);
    assert [c, d] + Replaced(rest, [from], to) == [c] + ([d] + Replaced(rest, [from], to));
  }

  /** The three passes do not interfere: they act as one character-wise translation. */
  lemma SanitizedChar(c: char, q: string)
    ensures Sanitized([c] + q) == Encoded(c) + Sanitized(q)
  {
    hide Replaced;
    var a := Replaced(q, "/", "//");
    var b := Replaced(a, "%", "/%");
    ReplacedChar(c, q, '/', "//");
    if c == '/' {
      ReplacedTwo('/', '/', a, '%', "/%");
      ReplacedTwo('/', '/', b, '*', "%");
    } else {
      ReplacedChar(c, a, '%', "/%");
      if c == '%' {
        ReplacedTwo('/', '%', b, '*', "%");
      } else {
        ReplacedChar(c, b, '*', "%");
      }
    }
  }

  lemma SanitizedEmpty()
    ensures Sanitized("") == ""
  {
  }

  lemma LikeEscaped(c: char, p: string, s: string)
    ensures Like(['/', c] + p, s, true) <==> s != "" && Same(c, s[0]) && Like(p, s[1..], true)
  {
    assert (['/', c] + p)[2..] == p;
  }

  lemma LikePlain(c: char, p: string, s: string)
    requires c != '/' && c != '%'
    ensures Like([c] + p, s, true) <==> s != "" && (c == '_' || Same(c, s[0])) && Like(p, s[1..], true)
  {
    assert ([c] + p)[1..] == p;
  }

  lemma LikeRun(p: string, s: string)
    ensures Like("%" + p, s, true) <==> Like(p, s, true) || (s != "" && Like("%" + p, s[1..], true))
  {
    assert ("%" + p)[1..] == p;
  }

  /** The LIKE pattern built from a query, with anything appended, matches like the query. */
  ghost predicate GlobThen(q: string, rest: string, s: string)
    decreases |q| + |s|
  {
    if q == "" then Like(rest, s, true)
    else if q[0] == '*' then GlobThen(q[1..], rest, s) || (s != "" && GlobThen(q, rest, s[1..]))
    else s != "" && (q[0] == '_' || Same(q[0], s[0])) && GlobThen(q[1..], rest, s[1..])
  }

  lemma {:induction false} TranslationThen(q: string, rest: string, s: string)
    ensures Like(Sanitized(q) + rest, s, true) <==> GlobThen(q, rest, s)
    decreases |q| + |s|
  {
    hide Sanitized, Like, Same;
    if q == "" {
      SanitizedEmpty();
      assert "" + rest == rest;
    } else {
      var c := q[0];
      var p := Sanitized(q[1..]) + rest;
      assert q == [c] + q[1..];
      SanitizedChar(c, q[1..]);
      assert Sanitized(q) + rest == Encoded(c) + p;
      if s != "" {
        TranslationThen(q[1..], rest, s[1..]);
      }
      if c == '*' {
        LikeRun(p, s);
        TranslationThen(q[1..], rest, s);
        if s != "" {
          TranslationThen(q, rest, s[1..]);
        }
      } else if c == '/' || c == '%' {
        LikeEscaped(c, p, s);
      } else {
        LikePlain(c, p, s);
      }
    }
  }

  lemma {:induction false} GlobThenEmpty(q: string, s: string)
    ensures GlobThen(q, "", s) <==> Glob(q, s)
    decreases |q| + |s|
  {
    if q != "" {
      hide Same;
      if s != "" {
        GlobThenEmpty(q[1..], s[1..]);
      }
      if q[0] == '*' {
        GlobThenEmpty(q[1..], s);
        if s != "" {
          GlobThenEmpty(q, s[1..]);
        }
      }
    }
  }

  /** Section 8.5 of ISO/IEC 9075:1992: the translated pattern matches exactly the strings the
      query means, for every query and every string. */
  lemma TranslationExact(q: string, s: string)
    ensures Like(Sanitized(q), s, true) <==> Glob(q, s)
  {
    hide Sanitized, Like, Glob, GlobThen;
    TranslationThen(q, "", s);
    GlobThenEmpty(q, s);
    assert Sanitized(q) + "" == Sanitized(q);
  }

  lemma {:induction false} RunMatchesAll(s: string)
    ensures Like("%", s, true)
  {
    if s == "" {
      LikeRun("", s);
      assert "%" + "" == "%";
    } else {
      RunMatchesAll(s[1..]);
    }
  }

  lemma FolderSuffix(s: string)
    ensures Like("//%", s, true) <==> s != "" && s[0] == '/'
  {
    assert "//%" == ['/', '/'] + "%";
    LikeEscaped('/', "%", s);
    if s != "" {
      RunMatchesAll(s[1..]);
    }
  }

  /** s is a match of the query followed by '/' and anything. */
  ghost predicate Below(q: string, s: string) {
    exists i :: 0 <= i < |s| && s[i] == '/' && Glob(q, s[..i])
  }

  lemma {:induction false} FolderCut(q: string, s: string) returns (i: nat)
    requires GlobThen(q, "//%", s)
    ensures i < |s| && s[i] == '/' && Glob(q, s[..i])
    decreases |q| + |s|
  {
    hide Same, Like;
    if q == "" {
      FolderSuffix(s);
      i := 0;
    } else if q[0] == '*' && GlobThen(q[1..], "//%", s) {
      i := FolderCut(q[1..], s);
    } else {
      var j := FolderCut(if q[0] == '*' then q else q[1..], s[1..]);
      i := j + 1;
      assert s[..i][1..] == s[1..][..j];
    }
  }

  lemma {:induction false} FolderJoin(q: string, s: string, i: nat)
    requires i < |s| && s[i] == '/' && Glob(q, s[..i])
    ensures GlobThen(q, "//%", s)
    decreases |q| + |s|
  {
    hide Same, Like;
    if q == "" {
      FolderSuffix(s);
    } else if q[0] == '*' && Glob(q[1..], s[..i]) {
      FolderJoin(q[1..], s, i);
    } else {
      assert s[..i][1..] == s[1..][..i - 1];
      FolderJoin(if q[0] == '*' then q else q[1..], s[1..], i - 1);
    }
  }

  /** With the folder suffix the pattern matches exactly what lies below a match. */
  lemma FolderExact(q: string, s: string)
    ensures Like(Sanitized(q) + "//%", s, true) <==> Below(q, s)
  {
    hide Sanitized, Like, Glob, GlobThen;
    TranslationThen(q, "//%", s);
    if GlobThen(q, "//%", s) {
      var i := FolderCut(q, s);
    }
    if Below(q, s) {
      var i :| 0 <= i < |s| && s[i] == '/' && Glob(q, s[..i]);
      FolderJoin(q, s, i);
    }
  }

  // ----- when a path, used as a query, means itself -----

  predicate Fits(q: string, s: string) {
    |q| == |s| && forall i :: 0 <= i < |q| ==> q[i] == '*' || q[i] == '_' || Same(q[i], s[i])
  }

  lemma {:induction false} FitsMatches(q: string, s: string)
    requires Fits(q, s)
    ensures Glob(q, s)
    decreases |q|
  {
    if q != "" {
      FitsMatches(q[1..], s[1..]);
      if q[0] == '*' {
        RunSkipsOne(q, s);
      }
    }
  }

  lemma RunSkipsOne(q: string, s: string)
    requires q != "" && q[0] == '*' && s != "" && Glob(q[1..], s[1..])
    ensures Glob(q, s)
  {
    assert Glob(q, s[1..]);
  }

  lemma {:induction false} PlainMatch(q: string, s: string)
    requires '*' !in q && '_' !in q
    ensures Glob(q, s) <==> FoldEqual(q, s)
    decreases |q|
  {
    hide Same;
    if q != "" && s != "" {
      PlainMatch(q[1..], s[1..]);
      if FoldEqual(q[1..], s[1..]) && Same(q[0], s[0]) {
        forall i | 0 <= i < |q|
          ensures Same(q[i], s[i])
        {
          assert i > 0 ==> Same(q[1..][i - 1], s[1..][i - 1]);
        }
      }
    }
  }

  ghost predicate MeansItself(q: string) {
    forall s :: Glob(q, s) <==> FoldEqual(q, s)
  }

  /** Every path matches itself as a query. */
  lemma SelfMatch(q: string)
    ensures Glob(q, q)
  {
    FitsMatches(q, q);
  }

  /** A path used as a query stands for itself, up to case, exactly when it has no '*' and no
      '_': the underscore is not escaped. */
  lemma MeansItselfExactly(q: string)
    ensures MeansItself(q) <==> '*' !in q && '_' !in q
  {
    hide Glob, Same;
    if '*' !in q && '_' !in q {
      forall s
        ensures Glob(q, s) <==> FoldEqual(q, s)
      {
        PlainMatch(q, s);
      }
    } else {
      var i :| 0 <= i < |q| && (q[i] == '*' || q[i] == '_');
      WildcardStrays(q, i);
    }
  }

  lemma WildcardStrays(q: string, i: nat)
    requires i < |q| && (q[i] == '*' || q[i] == '_')
    ensures !MeansItself(q)
  {
    hide Glob;
    var s := q[i := 'x'];
    FitsMatches(q, s);
    assert Glob(q, s) && !Same(q[i], s[i]);
  }
}
