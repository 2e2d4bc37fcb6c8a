/**
 File search: a glob pattern is compiled to a SQL LIKE pattern with `\` as the
 escape character, and file names are selected by it without regard to case.
 */
module Files {
  import opened Prelude

  // ------------------------------------------------------------ translation

  /** Every occurrence of one character replaced by a string. */
  function Replace(s: string, c: char, with: string): string
  {
    if s == [] then [] else (if s[0] == c then with else [s[0]]) + Replace(s[1..], c, with)
  }

  function GlobToLike(glob: string): string
  {
    var p1 := Replace(glob, '\\', "\\\\");
    var p2 := Replace(p1, '%', "\\%");
    var p3 := Replace(p2, '_', "\\_");
    var p4 := Replace(p3, '*', "%");
    Replace(p4, '?', "_")
  }

  function TranslateChar(c: char): string
  {
    if c == '\\' || c == '%' || c == '_' then ['\\', c]
    else if c == '*' then "%"
    else if c == '?' then "_"
    else [c]
  }

  function Translate(glob: string): string
  {
    if glob == [] then [] else TranslateChar(glob[0]) + Translate(glob[1..])
  }

  lemma {:induction false} ReplaceConcat(a: string, b: string, c: char, with: string)
    ensures Replace(a + b, c, with) == Replace(a, c, with) + Replace(b, c, with)
  {
    if a == [] {
      assert a + b == b;
    } else {
      assert (a + b)[0] == a[0] && (a + b)[1..] == a[1..] + b;
      ReplaceConcat(a[1..], b, c, with);
    }
  }

  lemma ReplaceOne(x: char, c: char, with: string)
    ensures Replace([x], c, with) == if x == c then with else [x]
  {
  }

  lemma ReplaceTwo(x: char, y: char, c: char, with: string)
    ensures Replace([x, y], c, with) == (if x == c then with else [x]) + (if y == c then with else [y])
  {
    assert [x, y] == [x] + [y];
    ReplaceConcat([x], [y], c, with);
    ReplaceOne(x, c, with);
    ReplaceOne(y, c, with);
  }

  lemma GlobToLikeConcat(a: string, b: string)
    ensures GlobToLike(a + b) == GlobToLike(a) + GlobToLike(b)
  {
    ReplaceConcat(a, b, '\\', "\\\\");
    var a1, b1 := Replace(a, '\\', "\\\\"), Replace(b, '\\', "\\\\");
    ReplaceConcat(a1, b1, '%', "\\%");
    var a2, b2 := Replace(a1, '%', "\\%"), Replace(b1, '%', "\\%");
    ReplaceConcat(a2, b2, '_', "\\_");
    var a3, b3 := Replace(a2, '_', "\\_"), Replace(b2, '_', "\\_");
    ReplaceConcat(a3, b3, '*', "%");
    ReplaceConcat(Replace(a3, '*', "%"), Replace(b3, '*', "%"), '?', "_");
  }

  lemma GlobToLikeChar(c: char)
    ensures GlobToLike([c]) == TranslateChar(c)
  {
    ReplaceOne(c, '\\', "\\\\");
    if c == '\\' {
      ReplaceTwo('\\', '\\', '%', "\\%");
      ReplaceTwo('\\', '\\', '_', "\\_");
      ReplaceTwo('\\', '\\', '*', "%");
      ReplaceTwo('\\', '\\', '?', "_");
    } else {
      ReplaceOne(c, '%', "\\%");
      ReplaceOne(c, '_', "\\_");
      ReplaceOne(c, '*', "%");
      ReplaceOne(c, '?', "_");
      ReplaceTwo('\\', c, '_', "\\_");
      ReplaceTwo('\\', c, '*', "%");
      ReplaceTwo('\\', c, '?', "_");
      ReplaceOne('%', '?', "_");
    }
  }

  /** The five replacements in sequence translate character by character. */
  lemma {:induction false} GlobToLikeIsTranslate(glob: string)
    ensures GlobToLike(glob) == Translate(glob)
  {
    if glob != [] {
      assert glob == [glob[0]] + glob[1..];
      GlobToLikeConcat([glob[0]], glob[1..]);
      GlobToLikeChar(glob[0]);
      GlobToLikeIsTranslate(glob[1..]);
    }
  }

  // ------------------------------------------------------------- meanings

  /** `*` stands for any string, `?` for any character, anything else for itself. */
  ghost predicate GlobMatch(glob: string, name: string)
    decreases |glob|
  {
    if glob == [] then name == []
    else if glob[0] == '*' then exists k | 0 <= k <= |name| :: GlobMatch(glob[1..], name[k..])
    else name != [] && (glob[0] == '?' || glob[0] == name[0]) && GlobMatch(glob[1..], name[1..])
  }

  datatype Token = AnyString | AnyCharacter | Literal(c: char)

  /** A LIKE pattern read from left to right; an escape must precede `%`, `_` or itself. */
  function Parse(pattern: string): Option<seq<Token>>
  {
    if pattern == [] then Some([])
    else if pattern[0] == '\\' then
      if |pattern| == 1 || pattern[1] !in {'%', '_', '\\'} then None
      else Prepend(Literal(pattern[1]), Parse(pattern[2..]))
    else Prepend(if pattern[0] == '%' then AnyString else if pattern[0] == '_' then AnyCharacter else Literal(pattern[0]),
                 Parse(pattern[1..]))
  }

  function Prepend(t: Token, rest: Option<seq<Token>>): Option<seq<Token>>
  {
    if rest.Some? then Some([t] + rest.value) else None
  }

  predicate TokensMatch(ts: seq<Token>, name: string)
    decreases |ts|, |name|
  {
    if ts == [] then name == []
    else match ts[0]
      case AnyString => TokensMatch(ts[1..], name) || (name != [] && TokensMatch(ts, name[1..]))
      case AnyCharacter => name != [] && TokensMatch(ts[1..], name[1..])
      case Literal(c) => name != [] && name[0] == c && TokensMatch(ts[1..], name[1..])
  }

  /** LIKE: nothing when the pattern is malformed. */
  function Like(name: string, pattern: string): Option<bool>
  {
    match Parse(pattern)
    case None => None
    case Some(ts) => Some(TokensMatch(ts, name))
  }

  // --------------------------------------------------------- case folding

  predicate IsSpecial(c: char)
  {
    c in {'*', '?', '%', '_', '\\'}
  }

  /** A folding of single characters that neither changes nor makes a special one. */
  ghost predicate KeepsSpecials(fold: char -> char)
  {
    forall c :: (IsSpecial(c) ==> fold(c) == c) && (IsSpecial(fold(c)) ==> IsSpecial(c))
  }

  function Fold(s: string, fold: char -> char): (r: string)
    ensures |r| == |s| && forall i | 0 <= i < |s| :: r[i] == fold(s[i])
  {
    if s == [] then [] else [fold(s[0])] + Fold(s[1..], fold)
  }

  /** ILIKE compares both sides folded. */
  function ILike(name: string, pattern: string, fold: char -> char): Option<bool>
  {
    Like(Fold(name, fold), Fold(pattern, fold))
  }

  lemma {:induction false} FoldTranslate(glob: string, fold: char -> char)
    requires KeepsSpecials(fold)
    ensures Fold(Translate(glob), fold) == Translate(Fold(glob, fold))
  {
    if glob != [] {
      var c := glob[0];
      FoldTranslate(glob[1..], fold);
      assert Fold(glob, fold)[1..] == Fold(glob[1..], fold);
      assert IsSpecial(c) <==> IsSpecial(fold(c));
      assert Translate(Fold(glob, fold)) == TranslateChar(fold(c)) + Translate(Fold(glob[1..], fold));
    }
  }

  // ------------------------------------------------------------- the theorem

  function GlobTokens(glob: string): seq<Token>
  {
    if glob == [] then []
    else [if glob[0] == '*' then AnyString else if glob[0] == '?' then AnyCharacter else Literal(glob[0])] + GlobTokens(glob[1..])
  }

  /** A translated pattern is never malformed. */
  lemma {:induction false} TranslateParses(glob: string)
    ensures Parse(Translate(glob)) == Some(GlobTokens(glob))
  {
    if glob != [] {
      TranslateParses(glob[1..]);
      var rest := Translate(glob[1..]);
      var p := TranslateChar(glob[0]) + rest;
      if |TranslateChar(glob[0])| == 2 {
        assert p[2..] == rest;
      } else {
        assert p[1..] == rest;
      }
    }
  }

  lemma {:induction false} AnyStringMatches(ts: seq<Token>, name: string)
    requires ts != [] && ts[0] == AnyString
    ensures TokensMatch(ts, name) <==> exists k | 0 <= k <= |name| :: TokensMatch(ts[1..], name[k..])
    decreases |name|
  {
    if name == [] {
      assert name[0..] == name;
    } else {
      AnyStringMatches(ts, name[1..]);
      assert name[0..] == name;
      forall k | 1 <= k <= |name| ensures name[k..] == name[1..][k - 1..] {
      }
      if exists k | 0 <= k <= |name[1..]| :: TokensMatch(ts[1..], name[1..][k..]) {
        var k :| 0 <= k <= |name[1..]| && TokensMatch(ts[1..], name[1..][k..]);
        assert name[1..][k..] == name[k + 1..];
      }
    }
  }

  lemma {:induction false} TokensMeanGlob(glob: string, name: string)
    ensures TokensMatch(GlobTokens(glob), name) <==> GlobMatch(glob, name)
    decreases |glob|
  {
    if glob != [] {
      var ts := GlobTokens(glob);
      assert ts[1..] == GlobTokens(glob[1..]);
      if glob[0] == '*' {
        AnyStringMatches(ts, name);
        forall k | 0 <= k <= |name| ensures TokensMatch(ts[1..], name[k..]) <==> GlobMatch(glob[1..], name[k..]) {
          TokensMeanGlob(glob[1..], name[k..]);
        }
      } else if name != [] {
        TokensMeanGlob(glob[1..], name[1..]);
      }
    }
  }

  /** For every pattern and name, LIKE on the compiled pattern is defined and decides the glob. */
  lemma CompiledPatternMeansGlob(glob: string, name: string, fold: char -> char)
    requires KeepsSpecials(fold)
    ensures ILike(name, GlobToLike(glob), fold) == Some(GlobMatch(Fold(glob, fold), Fold(name, fold)))
  {
    GlobToLikeIsTranslate(glob);
    FoldTranslate(glob, fold);
    TranslateParses(Fold(glob, fold));
    TokensMeanGlob(Fold(glob, fold), Fold(name, fold));
  }

  /** Whether a search returns a file of this name; a bare `%` skips the filter. */
  function Selects(filename: string, glob: string, fold: char -> char): Option<bool>
  {
    var pattern := GlobToLike(glob);
    if pattern == "%" then Some(true) else ILike(filename, pattern, fold)
  }

  /** The shortcut changes nothing: a file is returned exactly when its name matches the glob. */
  lemma SearchSelectsMatches(filename: string, glob: string, fold: char -> char)
    requires KeepsSpecials(fold)
    ensures Selects(filename, glob, fold) == Some(GlobMatch(Fold(glob, fold), Fold(filename, fold)))
  {
    CompiledPatternMeansGlob(glob, filename, fold);
    var pattern := GlobToLike(glob);
    if pattern == "%" {
      GlobToLikeIsTranslate(glob);
      OnlyStarIsBarePercent(glob);
      assert Fold(glob, fold) == "*";
      var name := Fold(filename, fold);
      assert GlobMatch("*"[1..], name[|name|..]);
    }
  }

  lemma OnlyStarIsBarePercent(glob: string)
    requires Translate(glob) == "%"
    ensures glob == "*"
  {
    assert glob != [];
    assert |TranslateChar(glob[0])| == 1;
    assert TranslateChar(glob[0])[0] == Translate(glob)[0];
    assert glob == [glob[0]] + glob[1..];
  }
}
