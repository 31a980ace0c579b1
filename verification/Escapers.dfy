/**
 The two escapers and what their output means to the matchers that read it: Redis glob
 patterns and SQL LIKE with a backslash as escape character.
 */
module Escapers {
  // `str::replace` of one character
  function Replace(s: string, c: char, sub: string): string {
    if s == [] then [] else (if s[0] == c then sub else [s[0]]) + Replace(s[1..], c, sub)
  }

  function FlatMap(f: char -> string, s: string): string {
    if s == [] then [] else f(s[0]) + FlatMap(f, s[1..])
  }

  function EscapeScanGlobLiteral(prefix: string): string {
    Replace(Replace(Replace(Replace(Replace(prefix, '\\', "\\\\"), '*', "\\*"), '?', "\\?"), '[', "\\["), ']', "\\]")
  }

  function EscapeLikeQuery(query: string): string {
    Replace(Replace(Replace(query, '\\', "\\\\"), '%', "\\%"), '_', "\\_")
  }

  function GlobEscaped(c: char): string {
    if c in ['\\', '*', '?', '[', ']'] then ['\\', c] else [c]
  }

  function LikeEscaped(c: char): string {
    if c in ['\\', '%', '_'] then ['\\', c] else [c]
  }

  // --- One pass over the characters ---

  lemma {:induction false} ReplaceAppend(a: string, b: string, c: char, sub: string)
    ensures Replace(a + b, c, sub) == Replace(a, c, sub) + Replace(b, c, sub)
  {
    if a == [] {
      assert a + b == b;
    } else {
      assert (a + b)[1..] == a[1..] + b;
      ReplaceAppend(a[1..], b, c, sub);
    }
  }

  lemma ReplaceShort(c: char, sub: string)
    ensures forall d: char :: Replace([d], c, sub) == if d == c then sub else [d]
    ensures forall d, e: char :: d != c && e != c ==> Replace([d, e], c, sub) == [d, e]
  {
    forall d: char ensures Replace([d], c, sub) == if d == c then sub else [d] {
      assert [d][1..] == [];
    }
    forall d, e: char | d != c && e != c ensures Replace([d, e], c, sub) == [d, e] {
      assert [d, e][1..] == [e] && [e][1..] == [];
    }
  }

  // Replacing one more character after a pass that already escaped others
  lemma {:induction false} ReplaceAfterPass(s: string, f: char -> string, g: char -> string, c: char, sub: string)
    requires forall d :: Replace(f(d), c, sub) == g(d)
    ensures Replace(FlatMap(f, s), c, sub) == FlatMap(g, s)
  {
    if s != [] {
      ReplaceAppend(f(s[0]), FlatMap(f, s[1..]), c, sub);
      ReplaceAfterPass(s[1..], f, g, c, sub);
    }
  }

  // The characters escaped once the replacements for `done` have run
  function EscapedSet(done: seq<char>): char -> string {
    c => if c in done then ['\\', c] else [c]
  }

  lemma {:induction false} FlatMapUnescaped(s: string)
    ensures FlatMap(EscapedSet([]), s) == s
  {
    if s != [] {
      FlatMapUnescaped(s[1..]);
      assert s == [s[0]] + s[1..];
    }
  }

  lemma NextReplacement(s: string, t: string, done: seq<char>, c: char, sub: string, after: seq<char>)
    requires t == FlatMap(EscapedSet(done), s)
    requires c !in done && (if done == [] then c == '\\' else c != '\\')
    requires sub == ['\\', c] && after == done + [c]
    ensures Replace(t, c, sub) == FlatMap(EscapedSet(after), s)
  {
    ReplaceShort(c, sub);
    ReplaceAfterPass(s, EscapedSet(done), EscapedSet(after), c, sub);
  }

  lemma {:induction false} SameMap(f: char -> string, g: char -> string, s: string)
    requires forall c :: f(c) == g(c)
    ensures FlatMap(f, s) == FlatMap(g, s)
  {
    if s != [] { SameMap(f, g, s[1..]); }
  }

  // The chained replacements escape each character of the input once.
  lemma GlobChainIsOnePass(s: string)
    ensures EscapeScanGlobLiteral(s) == FlatMap(GlobEscaped, s)
  {
    FlatMapUnescaped(s);
    NextReplacement(s, s, [], '\\', "\\\\", ['\\']);
    var s1 := Replace(s, '\\', "\\\\");
    NextReplacement(s, s1, ['\\'], '*', "\\*", ['\\', '*']);
    var s2 := Replace(s1, '*', "\\*");
    NextReplacement(s, s2, ['\\', '*'], '?', "\\?", ['\\', '*', '?']);
    var s3 := Replace(s2, '?', "\\?");
    NextReplacement(s, s3, ['\\', '*', '?'], '[', "\\[", ['\\', '*', '?', '[']);
    var s4 := Replace(s3, '[', "\\[");
    NextReplacement(s, s4, ['\\', '*', '?', '['], ']', "\\]", ['\\', '*', '?', '[', ']']);
    SameMap(EscapedSet(['\\', '*', '?', '[', ']']), GlobEscaped, s);
  }

  lemma LikeChainIsOnePass(s: string)
    ensures EscapeLikeQuery(s) == FlatMap(LikeEscaped, s)
  {
    FlatMapUnescaped(s);
    NextReplacement(s, s, [], '\\', "\\\\", ['\\']);
    var s1 := Replace(s, '\\', "\\\\");
    NextReplacement(s, s1, ['\\'], '%', "\\%", ['\\', '%']);
    var s2 := Replace(s1, '%', "\\%");
    NextReplacement(s, s2, ['\\', '%'], '_', "\\_", ['\\', '%', '_']);
    SameMap(EscapedSet(['\\', '%', '_']), LikeEscaped, s);
  }

  // --- Redis glob patterns ---

  // A character class after its opening bracket: whether `c` belongs to it, and what follows it
  function GlobClass(p: string, c: char, hit: bool): (r: (bool, string))
    ensures |r.1| <= |p|
    decreases |p|
  {
    if p == [] then (hit, [])
    else if |p| >= 2 && p[0] == '\\' then GlobClass(p[2..], c, hit || p[1] == c)
    else if p[0] == ']' then (hit, p[1..])
    else if |p| >= 3 && p[1] == '-' then
      GlobClass(p[3..], c, hit || p[0] <= c <= p[2] || p[2] <= c <= p[0])
    else GlobClass(p[1..], c, hit || p[0] == c)
  }

  predicate GlobMatch(p: string, s: string)
    decreases |p| + |s|
  {
    if p == [] then s == []
    else if p[0] == '*' then GlobMatch(p[1..], s) || (s != [] && GlobMatch(p, s[1..]))
    else if s == [] then false
    else if p[0] == '?' then GlobMatch(p[1..], s[1..])
    else if p[0] == '[' then
      var negated := |p| > 1 && p[1] == '^';
      var (hit, rest) := GlobClass(if negated then p[2..] else p[1..], s[0], false);
      hit != negated && GlobMatch(rest, s[1..])
    else if p[0] == '\\' && |p| >= 2 then s[0] == p[1] && GlobMatch(p[2..], s[1..])
    else s[0] == p[0] && GlobMatch(p[1..], s[1..])
  }

  lemma {:induction false} StarMatchesAll(s: string)
    ensures GlobMatch("*", s)
    decreases |s|
  {
    assert "*"[1..] == [];
    if s != [] { StarMatchesAll(s[1..]); }
  }

  // The pattern built for a prefix matches exactly the keys that start with it.
  lemma {:induction false} GlobPrefix(prefix: string, s: string)
    ensures GlobMatch(FlatMap(GlobEscaped, prefix) + "*", s) <==> prefix <= s
    decreases |prefix|
  {
    if prefix == [] {
      assert FlatMap(GlobEscaped, prefix) + "*" == "*";
      StarMatchesAll(s);
    } else {
      var c, rest := prefix[0], FlatMap(GlobEscaped, prefix[1..]) + "*";
      var p := FlatMap(GlobEscaped, prefix) + "*";
      assert p == GlobEscaped(c) + rest;
      assert p[|GlobEscaped(c)|..] == rest;
      if s != [] {
        GlobPrefix(prefix[1..], s[1..]);
        assert prefix <= s <==> s[0] == c && prefix[1..] <= s[1..];
      }
    }
  }

  lemma ScanPatternMeansPrefix(prefix: string, s: string)
    ensures GlobMatch(EscapeScanGlobLiteral(prefix) + "*", s) <==> prefix <= s
  {
    GlobChainIsOnePass(prefix);
    GlobPrefix(prefix, s);
  }

  // --- SQL LIKE ---

  // A trailing escape character matches nothing.
  predicate LikeMatch(p: string, s: string)
    decreases |p| + |s|
  {
    if p == [] then s == []
    else if p[0] == '%' then LikeMatch(p[1..], s) || (s != [] && LikeMatch(p, s[1..]))
    else if s == [] then false
    else if p[0] == '_' then LikeMatch(p[1..], s[1..])
    else if p[0] == '\\' then |p| >= 2 && s[0] == p[1] && LikeMatch(p[2..], s[1..])
    else s[0] == p[0] && LikeMatch(p[1..], s[1..])
  }

  lemma {:induction false} PercentMatchesAll(s: string)
    ensures LikeMatch("%", s)
    decreases |s|
  {
    assert "%"[1..] == [];
    if s != [] { PercentMatchesAll(s[1..]); }
  }

  lemma {:induction false} LikePrefix(q: string, s: string)
    ensures LikeMatch(FlatMap(LikeEscaped, q) + "%", s) <==> q <= s
    decreases |q|
  {
    if q == [] {
      assert FlatMap(LikeEscaped, q) + "%" == "%";
      PercentMatchesAll(s);
    } else {
      var c, rest := q[0], FlatMap(LikeEscaped, q[1..]) + "%";
      var p := FlatMap(LikeEscaped, q) + "%";
      assert p == LikeEscaped(c) + rest;
      assert p[|LikeEscaped(c)|..] == rest;
      if s != [] {
        LikePrefix(q[1..], s[1..]);
        assert q <= s <==> s[0] == c && q[1..] <= s[1..];
      }
    }
  }

  predicate Contains(s: string, q: string) {
    exists i :: 0 <= i <= |s| && q <= s[i..]
  }

  lemma {:induction false} LikeAnywhere(q: string, s: string)
    ensures LikeMatch("%" + FlatMap(LikeEscaped, q) + "%", s) <==> Contains(s, q)
    decreases |s|
  {
    var p := "%" + FlatMap(LikeEscaped, q) + "%";
    assert p[1..] == FlatMap(LikeEscaped, q) + "%";
    LikePrefix(q, s);
    assert s[0..] == s;
    if s != [] {
      LikeAnywhere(q, s[1..]);
      if Contains(s[1..], q) {
        var i :| 0 <= i <= |s[1..]| && q <= s[1..][i..];
        assert s[1..][i..] == s[i + 1..];
      }
      if Contains(s, q) && !(q <= s) {
        var i :| 0 <= i <= |s| && q <= s[i..];
        assert i > 0 && s[i..] == s[1..][i - 1..];
      }
    }
  }

  // The pattern built for a query matches exactly the texts that contain it.
  lemma LikePatternMeansContains(q: string, s: string)
    ensures LikeMatch("%" + EscapeLikeQuery(q) + "%", s) <==> Contains(s, q)
  {
    LikeChainIsOnePass(q);
    LikeAnywhere(q, s);
  }

  // --- The case-insensitive condition ---

  // Lower-casing neither creates nor changes LIKE's own characters, as in Unicode.
  predicate KeepsLikeSyntax(lower: char -> string, c: char) {
    if c in ['\\', '%', '_'] then lower(c) == [c]
    else '\\' !in lower(c) && '%' !in lower(c) && '_' !in lower(c)
  }

  lemma {:induction false} FlatMapAppend(f: char -> string, a: string, b: string)
    ensures FlatMap(f, a + b) == FlatMap(f, a) + FlatMap(f, b)
  {
    if a == [] {
      assert a + b == b;
    } else {
      assert (a + b)[1..] == a[1..] + b;
      FlatMapAppend(f, a[1..], b);
    }
  }

  lemma {:induction false} PlainTextUnchanged(s: string)
    requires '\\' !in s && '%' !in s && '_' !in s
    ensures FlatMap(LikeEscaped, s) == s
  {
    if s != [] {
      PlainTextUnchanged(s[1..]);
      assert s == [s[0]] + s[1..];
    }
  }

  lemma EscapedLower(lower: char -> string, c: char)
    requires KeepsLikeSyntax(lower, c)
    ensures FlatMap(LikeEscaped, lower(c)) == if c in ['\\', '%', '_'] then ['\\', c] else lower(c)
  {
    if c in ['\\', '%', '_'] {
      assert lower(c)[1..] == [];
    } else {
      PlainTextUnchanged(lower(c));
    }
  }

  // What the builder pushes for one character
  function Piece(lower: char -> string, c: char): string {
    if c in ['\\', '%', '_'] then ['\\', c] else lower(c)
  }

  // The escaped, lower-cased form of a query
  function EscapedLowerCase(lower: char -> string, query: string): string {
    FlatMap(LikeEscaped, FlatMap(lower, query))
  }

  // The pattern up to the closing percent sign
  function OpenPattern(lower: char -> string, query: string): string { "%" + EscapedLowerCase(lower, query) }

  lemma PatternGrows(lower: char -> string, query: string, i: nat)
    requires i < |query| && KeepsLikeSyntax(lower, query[i])
    ensures OpenPattern(lower, query[..i + 1]) == OpenPattern(lower, query[..i]) + Piece(lower, query[i])
  {
    var c, before := query[i], FlatMap(lower, query[..i]);
    LoweredGrows(lower, query, i);
    FlatMapAppend(LikeEscaped, before, lower(c));
    EscapedLower(lower, c);
    var escaped := FlatMap(LikeEscaped, before);
    assert "%" + (escaped + Piece(lower, c)) == "%" + escaped + Piece(lower, c);
  }

  lemma LoweredGrows(lower: char -> string, query: string, i: nat)
    requires i < |query|
    ensures FlatMap(lower, query[..i + 1]) == FlatMap(lower, query[..i]) + lower(query[i])
  {
    var c := query[i];
    assert query[..i + 1] == query[..i] + [c];
    FlatMapAppend(lower, query[..i], [c]);
    assert [c][1..] == [] && FlatMap(lower, [c]) == lower(c);
  }

  // The one-pass builder escapes and lower-cases together; the result is the escaped
  // lower-cased query.
  method LowerLikePattern(query: string, lower: char -> string) returns (pattern: string)
    requires forall c :: KeepsLikeSyntax(lower, c)
    ensures pattern == "%" + EscapeLikeQuery(FlatMap(lower, query)) + "%"
  {
    pattern := "";
    pattern := pattern + "%";
    assert pattern == OpenPattern(lower, query[..0]);
    for i := 0 to |query|
      invariant pattern == OpenPattern(lower, query[..i])
    {
      PatternGrows(lower, query, i);
      match query[i] {
        case '\\' => pattern := pattern + "\\\\";
        case '%' => pattern := pattern + "\\%";
        case '_' => pattern := pattern + "\\_";
        case _ => pattern := pattern + lower(query[i]);
      }
    }
    assert query[..|query|] == query;
    pattern := pattern + "%";
    LikeChainIsOnePass(FlatMap(lower, query));
  }
}
