/** The path globs of the code-scanning configuration, compiled to regular expressions. */
module Glob {
  import opened Wrappers

  // ..... What a glob means .....

  /** Zero or more whole directories: every component is non-empty and ends with a separator. */
  predicate IsDirs(s: string) {
    s != [] ==>
      && s[0] != '/' && s[|s| - 1] == '/'
      && forall k :: 0 <= k < |s| - 1 ==> s[k] == '/' ==> s[k + 1] != '/'
  }

  /** `**` with a separator stands for whole directories, `**` for anything, `*` and `?` for
      characters of one component, and anything else for itself; the longest wildcard is read first. */
  predicate GlobMatches(p: string, s: string)
    decreases |p|
  {
    if p == [] then s == []
    else if "**/" <= p then exists k :: 0 <= k <= |s| && IsDirs(s[..k]) && GlobMatches(p[3..], s[k..])
    else if "**" <= p then exists k :: 0 <= k <= |s| && GlobMatches(p[2..], s[k..])
    else if p[0] == '*' then exists k :: 0 <= k <= |s| && '/' !in s[..k] && GlobMatches(p[1..], s[k..])
    else if p[0] == '?' then s != [] && s[0] != '/' && GlobMatches(p[1..], s[1..])
    else s != [] && s[0] == p[0] && GlobMatches(p[1..], s[1..])
  }

  // ..... What a regular expression means .....

  datatype Regex = Eps | Chr(c: char) | NotSlash | AnyChar | Cat(a: Regex, b: Regex) | Star(r: Regex)

  /** The whole of a text matches. */
  predicate Matches(r: Regex, s: string)
    decreases r, |s|
  {
    match r
    case Eps => s == []
    case Chr(c) => s == [c]
    case NotSlash => |s| == 1 && s[0] != '/'
    case AnyChar => |s| == 1 && s[0] != '\n'
    case Cat(a, b) => exists k :: 0 <= k <= |s| && Matches(a, s[..k]) && Matches(b, s[k..])
    case Star(a) => s == [] || exists k :: 0 < k <= |s| && Matches(a, s[..k]) && Matches(r, s[k..])
  }

  /** Between `^` and `$`, which also accepts just before a final line break. */
  predicate MatchesAnchored(r: Regex, s: string) {
    Matches(r, s) || (s != [] && s[|s| - 1] == '\n' && Matches(r, s[..|s| - 1]))
  }

  predicate IsQuantifier(c: char) { c == '*' || c == '+' || c == '?' || c == '{' }

  predicate IsMetacharacter(c: char) {
    IsQuantifier(c) || c in ".^$}[]\\|()"
  }

  predicate IsWordChar(c: char) {
    'a' <= c <= 'z' || 'A' <= c <= 'Z' || '0' <= c <= '9' || c >= 128 as char
  }

  /** One item: a group, a negated class, a dot, an escaped or a plain character. */
  function ParseAtom(s: string): (r: Option<(Regex, string)>)
    ensures r.Some? ==> |r.value.1| < |s|
    decreases |s|, 0
  {
    if s == [] then None
    else if "(?:" <= s then
      match ParseSeq(s[3..])
      case None => None
      case Some((body, rest)) => if rest != [] && rest[0] == ')' then Some((body, rest[1..])) else None
    else if "[^/]" <= s then Some((NotSlash, s[4..]))
    else if s[0] == '.' then Some((AnyChar, s[1..]))
    else if s[0] == '\\' then
      if |s| > 1 && !IsWordChar(s[1]) then Some((Chr(s[1]), s[2..])) else None
    else if IsMetacharacter(s[0]) then None
    else Some((Chr(s[0]), s[1..]))
  }

  /** An item with its quantifier, if it has one. */
  function ParsePiece(s: string): (r: Option<(Regex, string)>)
    ensures r.Some? ==> |r.value.1| < |s|
    decreases |s|, 1
  {
    match ParseAtom(s)
    case None => None
    case Some((a, rest)) =>
      if rest == [] || !IsQuantifier(rest[0]) then Some((a, rest))
      else if |rest| > 1 && IsQuantifier(rest[1]) then None
      else if rest[0] == '*' then Some((Star(a), rest[1..]))
      else if rest[0] == '+' then Some((Cat(a, Star(a)), rest[1..]))
      else None
  }

  /** Pieces up to the end or to the parenthesis that closes a group. */
  function ParseSeq(s: string): (r: Option<(Regex, string)>)
    ensures r.Some? ==> |r.value.1| <= |s|
    decreases |s|, 2
  {
    if s == [] || s[0] == ')' then Some((Eps, s))
    else
      match ParsePiece(s)
      case None => None
      case Some((a, rest)) =>
        match ParseSeq(rest)
        case None => None
        case Some((b, end)) => Some((Cat(a, b), end))
  }

  /** The regular expressions of this shape; anything else is refused. */
  function Parse(s: string): Option<Regex> {
    match ParseSeq(s)
    case Some((r, rest)) => if rest == [] then Some(r) else None
    case None => None
  }

  // ..... The compiler .....

  predicate IsSpecial(c: char) {
    c in "()[]{}?*+-|^$\\.&~# \t\n\r" || c == 11 as char || c == 12 as char
  }

  function Escape(c: char): string {
    if IsSpecial(c) then ['\\', c] else [c]
  }

  const DIRS := "(?:[^/]+/)*"
  const ANYTHING := ".*"
  const STAR := "[^/]*"
  const ONE := "[^/]"

  /** The text of a pattern's first token, and the token's width. */
  function Head(p: string): (r: (string, nat))
    requires p != []
    ensures 0 < r.1 <= |p|
  {
    if "**/" <= p then (DIRS, 3)
    else if "**" <= p then (ANYTHING, 2)
    else if p[0] == '*' then (STAR, 1)
    else if p[0] == '?' then (ONE, 1)
    else (Escape(p[0]), 1)
  }

  function RegexText(p: string): string {
    if p == [] then "" else Head(p).0 + RegexText(p[Head(p).1..])
  }

  function Joined(parts: seq<string>): string {
    if parts == [] then "" else Joined(parts[..|parts| - 1]) + parts[|parts| - 1]
  }

  lemma JoinedPush(parts: seq<string>, part: string)
    ensures Joined(parts + [part]) == Joined(parts) + part
  {
    assert (parts + [part])[..|parts|] == parts;
  }

  predicate StartsWith(s: string, prefix: string, i: nat)
    requires i <= |s|
  {
    prefix <= s[i..]
  }

  method GlobToRegex(pattern: string) returns (r: string)
    ensures r == RegexText(pattern)
  {
    hide Escape;
    var out, i: nat := [], 0;
    while i < |pattern|
      invariant i <= |pattern|
      invariant Joined(out) + RegexText(pattern[i..]) == RegexText(pattern)
    {
      var part, width;
      if StartsWith(pattern, "**/", i) {
        part, width := DIRS, 3;
      } else if StartsWith(pattern, "**", i) {
        part, width := ANYTHING, 2;
      } else if pattern[i] == '*' {
        part, width := STAR, 1;
      } else if pattern[i] == '?' {
        part, width := ONE, 1;
      } else {
        part, width := Escape(pattern[i]), 1;
      }
      assert Head(pattern[i..]) == (part, width);
      TextStep(pattern, i, Joined(out));
      JoinedPush(out, part);
      out := out + [part];
      i := i + width;
    }
    r := Joined(out);
    assert r + "" == r;
  }

  lemma TextStep(p: string, i: nat, before: string)
    requires i < |p|
    ensures var (part, width) := Head(p[i..]);
      (before + part) + RegexText(p[i + width..]) == before + RegexText(p[i..])
  {
    hide Head;
    var (part, width) := Head(p[i..]);
    assert p[i..][width..] == p[i + width..];
  }

  // ..... The text parses to what was meant .....

  const DIRS_REGEX := Star(Cat(Cat(NotSlash, Star(NotSlash)), Cat(Chr('/'), Eps)))

  function HeadMeaning(p: string): Regex
    requires p != []
  {
    if "**/" <= p then DIRS_REGEX
    else if "**" <= p then Star(AnyChar)
    else if p[0] == '*' then Star(NotSlash)
    else if p[0] == '?' then NotSlash
    else Chr(p[0])
  }

  function Meaning(p: string): Regex {
    if p == [] then Eps else Cat(HeadMeaning(p), Meaning(p[Head(p).1..]))
  }

  predicate StartsPiece(s: string) { s == [] || (!IsQuantifier(s[0]) && s[0] != ')') }

  /** No token's text starts with a quantifier, so none can attach to what comes before it. */
  lemma TextStartsPiece(p: string)
    ensures StartsPiece(RegexText(p)) && (p != [] ==> RegexText(p) != [])
  {
  }

  lemma ClassParses(rest: string)
    ensures ParseAtom(ONE + rest) == Some((NotSlash, rest))
  {
    hide ParseSeq, ParsePiece, IsMetacharacter;
    var s := ONE + rest;
    assert s[0] == '[' && "(?:"[0] == '(';
    assert ONE <= s && s[4..] == rest;
  }

  lemma CharParses(c: char, rest: string)
    ensures ParseAtom(Escape(c) + rest) == Some((Chr(c), rest))
  {
    hide ParseSeq, ParsePiece;
    var s := Escape(c) + rest;
    assert "(?:"[0] == '(' && ONE[0] == '[';
    if IsSpecial(c) {
      assert s[0] == '\\' && s[2..] == rest;
    } else {
      assert s[0] == c && s[1..] == rest;
    }
  }

  lemma DotParses(rest: string)
    ensures ParseAtom("." + rest) == Some((AnyChar, rest))
  {
    hide ParseSeq, ParsePiece, IsMetacharacter;
    var s := "." + rest;
    assert s[0] == '.' && "(?:"[0] == '(' && ONE[0] == '[';
    assert s[1..] == rest;
  }

  lemma GroupParses(text: string, body: Regex, rest: string)
    requires ParseSeq(text + ")" + rest) == Some((body, ")" + rest))
    ensures ParseAtom("(?:" + text + ")" + rest) == Some((body, rest))
  {
    hide ParseSeq, ParsePiece, IsMetacharacter;
    var s := "(?:" + text + ")" + rest;
    assert s[3..] == text + ")" + rest;
    assert (")" + rest)[1..] == rest;
  }

  lemma PlainPiece(s: string, a: Regex, rest: string)
    requires ParseAtom(s) == Some((a, rest)) && (rest == [] || !IsQuantifier(rest[0]))
    ensures ParsePiece(s) == Some((a, rest))
  {
    hide ParseSeq, ParseAtom;
  }

  lemma StarPiece(s: string, a: Regex, rest: string)
    requires ParseAtom(s) == Some((a, "*" + rest)) && (rest == [] || !IsQuantifier(rest[0]))
    ensures ParsePiece(s) == Some((Star(a), rest))
  {
    hide ParseSeq, ParseAtom;
    assert ("*" + rest)[1..] == rest;
  }

  lemma PlusPiece(s: string, a: Regex, rest: string)
    requires ParseAtom(s) == Some((a, "+" + rest)) && (rest == [] || !IsQuantifier(rest[0]))
    ensures ParsePiece(s) == Some((Cat(a, Star(a)), rest))
  {
    hide ParseSeq, ParseAtom;
    assert ("+" + rest)[1..] == rest;
  }

  lemma SeqStep(s: string, a: Regex, rest: string, b: Regex, end: string)
    requires s != [] && s[0] != ')' && ParsePiece(s) == Some((a, rest)) && ParseSeq(rest) == Some((b, end))
    ensures ParseSeq(s) == Some((Cat(a, b), end))
  {
    hide ParsePiece, ParseAtom;
  }

  lemma DirsParse(rest: string)
    requires StartsPiece(rest)
    ensures ParsePiece(DIRS + rest) == Some((DIRS_REGEX, rest))
  {
    hide ParseSeq, ParsePiece, ParseAtom, IsMetacharacter;
    var end := ")" + ("*" + rest);
    var slash := "/" + end;
    var inner := ONE + ("+" + slash);
    ClassParses("+" + slash);
    PlusPiece(inner, NotSlash, slash);
    CharParses('/', end);
    PlainPiece(slash, Chr('/'), end);
    EndParses(end);
    SeqStep(slash, Chr('/'), end, Eps, end);
    SeqStep(inner, Cat(NotSlash, Star(NotSlash)), slash, Cat(Chr('/'), Eps), end);
    var text := ONE + "+/";
    assert text + ")" + ("*" + rest) == inner;
    GroupParses(text, DIRS_REGEX.r, "*" + rest);
    StarPiece("(?:" + text + ")" + ("*" + rest), DIRS_REGEX.r, rest);
    assert "(?:" + text + ")" + ("*" + rest) == DIRS + rest;
  }

  lemma EndParses(s: string)
    requires s == [] || s[0] == ')'
    ensures ParseSeq(s) == Some((Eps, s))
  {
  }

  lemma HeadParses(p: string, rest: string)
    requires p != [] && StartsPiece(rest)
    ensures ParsePiece(Head(p).0 + rest) == Some((HeadMeaning(p), rest))
  {
    hide ParseSeq, ParsePiece, ParseAtom, IsMetacharacter, Escape;
    if "**/" <= p {
      DirsParse(rest);
    } else if "**" <= p {
      DotParses("*" + rest);
      assert "." + ("*" + rest) == ANYTHING + rest;
      StarPiece(ANYTHING + rest, AnyChar, rest);
    } else if p[0] == '*' {
      ClassParses("*" + rest);
      assert ONE + ("*" + rest) == STAR + rest;
      StarPiece(STAR + rest, NotSlash, rest);
    } else if p[0] == '?' {
      ClassParses(rest);
      PlainPiece(ONE + rest, NotSlash, rest);
    } else {
      CharParses(p[0], rest);
      PlainPiece(Escape(p[0]) + rest, Chr(p[0]), rest);
    }
  }

  lemma {:induction false} TextParses(p: string)
    ensures ParseSeq(RegexText(p)) == Some((Meaning(p), ""))
    decreases |p|
  {
    hide ParseSeq, ParsePiece, ParseAtom, Head, HeadMeaning, IsMetacharacter;
    if p == [] {
      EndParses("");
    } else {
      var rest := RegexText(p[Head(p).1..]);
      TextParses(p[Head(p).1..]);
      TextStartsPiece(p);
      TextStartsPiece(p[Head(p).1..]);
      HeadParses(p, rest);
      SeqStep(RegexText(p), HeadMeaning(p), rest, Meaning(p[Head(p).1..]), "");
    }
  }

  // ..... And what was meant is what the glob means .....

  lemma {:induction false} StarNotSlashIs(s: string)
    ensures Matches(Star(NotSlash), s) <==> '/' !in s
    decreases |s|
  {
    if s != [] {
      StarNotSlashIs(s[1..]);
      assert s == [s[0]] + s[1..];
      if '/' !in s { assert Matches(NotSlash, s[..1]); }
    }
  }

  lemma {:induction false} StarAnyCharIs(s: string)
    ensures Matches(Star(AnyChar), s) <==> '\n' !in s
    decreases |s|
  {
    if s != [] {
      StarAnyCharIs(s[1..]);
      assert s == [s[0]] + s[1..];
      if '\n' !in s { assert Matches(AnyChar, s[..1]); }
    }
  }

  predicate IsComponent(s: string) { |s| >= 2 && s[|s| - 1] == '/' && '/' !in s[..|s| - 1] }

  lemma OneCharacter(s: string)
    ensures Matches(Cat(Chr('/'), Eps), s) <==> s == "/"
  {
    if Matches(Cat(Chr('/'), Eps), s) {
      var k :| 0 <= k <= |s| && Matches(Chr('/'), s[..k]) && Matches(Eps, s[k..]);
      assert s == s[..k] + s[k..];
    }
    assert s == "/" ==> s[..1] == "/" && s[1..] == [];
  }

  lemma PlusNotSlashIs(s: string)
    ensures Matches(Cat(NotSlash, Star(NotSlash)), s) <==> s != [] && '/' !in s
  {
    if s != [] {
      StarNotSlashIs(s[1..]);
      assert s == [s[0]] + s[1..];
      if '/' !in s { assert Matches(NotSlash, s[..1]); }
    }
  }

  lemma ComponentIs(s: string)
    ensures Matches(DIRS_REGEX.r, s) <==> IsComponent(s)
  {
    var plus, slash := Cat(NotSlash, Star(NotSlash)), Cat(Chr('/'), Eps);
    assert DIRS_REGEX.r == Cat(plus, slash);
    forall k | 0 <= k <= |s|
      ensures Matches(plus, s[..k]) <==> s[..k] != [] && '/' !in s[..k]
      ensures Matches(slash, s[k..]) <==> s[k..] == "/"
    {
      PlusNotSlashIs(s[..k]);
      OneCharacter(s[k..]);
    }
    if IsComponent(s) {
      var k := |s| - 1;
      assert s[k..] == "/";
      assert Matches(plus, s[..k]) && Matches(slash, s[k..]);
    }
    if Matches(Cat(plus, slash), s) {
      var k :| 0 <= k <= |s| && Matches(plus, s[..k]) && Matches(slash, s[k..]);
      assert s == s[..k] + "/";
      assert s[..|s| - 1] == s[..k];
    }
  }

  /** The index of the first separator. */
  function FirstSlash(s: string): (k: nat)
    requires '/' in s
    ensures k < |s| && s[k] == '/' && '/' !in s[..k]
  {
    if s[0] == '/' then 0
    else
      assert s == [s[0]] + s[1..];
      var k := FirstSlash(s[1..]);
      assert s[..k + 1] == [s[0]] + s[1..][..k];
      k + 1
  }

  lemma {:induction false} DirsIs(s: string)
    ensures Matches(DIRS_REGEX, s) <==> IsDirs(s)
    decreases |s|
  {
    if s != [] {
      forall k | 0 < k <= |s|
        ensures Matches(DIRS_REGEX.r, s[..k]) <==> IsComponent(s[..k])
        ensures Matches(DIRS_REGEX, s[k..]) <==> IsDirs(s[k..])
      {
        ComponentIs(s[..k]);
        DirsIs(s[k..]);
      }
      if IsDirs(s) {
        var k := FirstSlash(s) + 1;
        assert s[..k][..k - 1] == s[..k - 1];
        assert IsComponent(s[..k]);
        DirsRest(s, k);
      } else if Matches(DIRS_REGEX, s) {
        var k :| 0 < k <= |s| && Matches(DIRS_REGEX.r, s[..k]) && Matches(DIRS_REGEX, s[k..]);
        DirsMore(s, k);
      }
    }
  }

  lemma DirsRest(s: string, k: nat)
    requires IsDirs(s) && 0 < k <= |s| && s[k - 1] == '/'
    ensures IsDirs(s[k..])
  {
    var rest := s[k..];
    if rest != [] {
      assert rest[0] == s[k] && rest[|rest| - 1] == s[|s| - 1];
      assert forall i :: 0 <= i < |rest| ==> rest[i] == s[k + i];
    }
  }

  lemma DirsMore(s: string, k: nat)
    requires 0 < k <= |s| && IsComponent(s[..k]) && IsDirs(s[k..])
    ensures IsDirs(s)
  {
    var first, rest := s[..k], s[k..];
    assert s[k - 1] == '/' && s[0] == first[..k - 1][0];
    assert forall i :: 0 <= i < k - 1 ==> first[..k - 1][i] == s[i];
    forall i | 0 <= i < |s| - 1 && s[i] == '/'
      ensures s[i + 1] != '/'
    {
      if i == k - 1 {
        assert rest[0] == s[k];
      } else if i >= k {
        assert rest[i - k] == s[i] && rest[i - k + 1] == s[i + 1];
      }
    }
    if rest != [] { assert s[|s| - 1] == rest[|rest| - 1]; }
  }

  lemma {:induction false} MeaningMatches(p: string, s: string)
    requires '\n' !in s
    ensures Matches(Meaning(p), s) <==> GlobMatches(p, s)
    decreases |p|
  {
    hide IsDirs;
    if p != [] {
      var rest, head := p[Head(p).1..], HeadMeaning(p);
      forall k | 0 <= k <= |s|
        ensures Matches(Meaning(rest), s[k..]) <==> GlobMatches(rest, s[k..])
      {
        assert forall c :: c in s[k..] ==> c in s;
        MeaningMatches(rest, s[k..]);
      }
      assert Matches(Meaning(p), s) <==>
        exists k :: 0 <= k <= |s| && Matches(head, s[..k]) && Matches(Meaning(rest), s[k..]);
      if p[0] == '*' {
        forall k | 0 <= k <= |s|
          ensures Matches(head, s[..k]) <==>
            if "**/" <= p then IsDirs(s[..k]) else if "**" <= p then true else '/' !in s[..k]
        {
          DirsIs(s[..k]);
          StarNotSlashIs(s[..k]);
          StarAnyCharIs(s[..k]);
        }
      } else if s != [] {
        OneStep(p, s);
      }
    }
  }

  // A token that takes exactly one character.
  lemma OneStep(p: string, s: string)
    requires p != [] && p[0] != '*' && s != []
    ensures Matches(Meaning(p), s) <==>
      (if p[0] == '?' then s[0] != '/' else s[0] == p[0]) && Matches(Meaning(p[1..]), s[1..])
  {
    var head := HeadMeaning(p);
    assert s[..1] == [s[0]];
    forall k | 0 <= k <= |s| && Matches(head, s[..k])
      ensures k == 1
    {
    }
  }

  /** For every pattern, the compiler's text is a regular expression, and for every path without a
      line break that expression, anchored, matches exactly when the glob does. */
  lemma CompiledMeansGlob(pattern: string, path: string)
    requires '\n' !in path
    ensures Parse(RegexText(pattern)).Some?
    ensures MatchesAnchored(Parse(RegexText(pattern)).value, path) <==> GlobMatches(pattern, path)
  {
    TextParses(pattern);
    MeaningMatches(pattern, path);
  }

  // ..... The matcher .....

  function TrimEnd(s: string): string {
    if s != [] && s[|s| - 1] == '/' then TrimEnd(s[..|s| - 1]) else s
  }

  /** A pattern without wildcards names a file or a directory. */
  predicate Accepts(pattern: string, path: string) {
    if '*' !in pattern && '?' !in pattern
    then var prefix := TrimEnd(pattern); path == prefix || prefix + "/" <= path
    else var r := Parse(RegexText(pattern)); r.Some? && MatchesAnchored(r.value, path)
  }

  lemma {:induction false} LiteralThen(literal: string, p: string, s: string)
    requires '*' !in literal && '?' !in literal
    ensures GlobMatches(literal + p, s) <==> literal <= s && GlobMatches(p, s[|literal|..])
    decreases |literal|
  {
    if literal == [] {
      assert literal + p == p && s[0..] == s;
    } else {
      assert (literal + p)[1..] == literal[1..] + p;
      assert literal == [literal[0]] + literal[1..];
      assert (literal + p)[0] == literal[0] && literal[0] != '*' && literal[0] != '?';
      if s != [] {
        var c, rest := literal[0], literal[1..];
        LiteralThen(rest, p, s[1..]);
        assert s == [s[0]] + s[1..];
        assert literal <= s <==> c == s[0] && rest <= s[1..];
        assert GlobMatches(literal + p, s) <==> s[0] == c && GlobMatches(rest + p, s[1..]);
        if literal <= s { assert s[1..][|rest|..] == s[|literal|..]; }
      }
    }
  }

  lemma TrimmedIsPart(s: string)
    ensures TrimEnd(s) <= s
  {
  }

  /** What a configured path excludes: with wildcards, what its glob matches; without, the file of
      that name and everything below the directory of that name, which is what the two globs `name`
      and `name` with a separator and `**` match. */
  lemma AcceptsMeansGlobs(pattern: string, path: string)
    requires '\n' !in path
    ensures Accepts(pattern, path) <==>
      if '*' in pattern || '?' in pattern then GlobMatches(pattern, path)
      else GlobMatches(TrimEnd(pattern), path) || GlobMatches(TrimEnd(pattern) + "/**", path)
  {
    if '*' in pattern || '?' in pattern {
      CompiledMeansGlob(pattern, path);
    } else {
      var prefix := TrimEnd(pattern);
      TrimmedIsPart(pattern);
      assert forall c :: c in prefix ==> c in pattern;
      LiteralThen(prefix, "", path);
      assert prefix + "" == prefix;
      LiteralThen(prefix + "/", "**", path);
      assert prefix + "/" + "**" == prefix + "/**";
      if prefix + "/" <= path {
        var below := path[|prefix| + 1..];
        assert below[|below|..] == [] && GlobMatches("**"[2..], below[|below|..]);
      }
    }
  }
}
