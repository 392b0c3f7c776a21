/** The class-file filter of the report generator: include and exclude
    wildcard patterns matched against class-file paths, and the helpers that
    turn JaCoCo's slash-separated names into package and class names. */
module Filter {
  import opened Util

  // ---------------------------------------------------------------------
  // Character replacement

  /** Every occurrence of `c` in `s` replaced by the text `t`, left to right. */
  function ReplaceChar(s: string, c: char, t: string): (r: string)
    ensures c !in t ==> c !in r
  {
    if s == [] then [] else (if s[0] == c then t else [s[0]]) + ReplaceChar(s[1..], c, t)
  }

  lemma {:induction false} ReplaceCharAppend(a: string, b: string, c: char, t: string)
    ensures ReplaceChar(a + b, c, t) == ReplaceChar(a, c, t) + ReplaceChar(b, c, t)
    decreases |a|
  {
    if a != [] {
      var head := if a[0] == c then t else [a[0]];
      assert (a + b)[0] == a[0] && (a + b)[1..] == a[1..] + b;
      assert ReplaceChar(a + b, c, t) == head + ReplaceChar(a[1..] + b, c, t);
      ReplaceCharAppend(a[1..], b, c, t);
      assert ReplaceChar(a, c, t) == head + ReplaceChar(a[1..], c, t);
    } else {
      assert a + b == b;
    }
  }

  /** Replacing a character by one character keeps the length and changes
      exactly the occurrences. */
  lemma {:induction false} ReplaceByChar(s: string, c: char, d: char)
    ensures |ReplaceChar(s, c, [d])| == |s|
    ensures forall i | 0 <= i < |s| :: ReplaceChar(s, c, [d])[i] == if s[i] == c then d else s[i]
    decreases |s|
  {
    if s != [] {
      ReplaceByChar(s[1..], c, d);
    }
  }

  /** A path with every backslash turned into a slash. */
  function NormalizePath(path: string): string {
    ReplaceChar(path, '\\', "/")
  }

  /** Normalising keeps the length, turns each backslash into a slash and
      leaves every other character; a normalised path has no backslash. */
  lemma NormalizePathMeaning(path: string)
    ensures |NormalizePath(path)| == |path|
    ensures forall i | 0 <= i < |path| :: NormalizePath(path)[i] == if path[i] == '\\' then '/' else path[i]
    ensures '\\' !in NormalizePath(path)
  {
    ReplaceByChar(path, '\\', '/');
  }

  /** A path without backslashes is its own normal form. */
  lemma {:induction false} NormalizeWithoutBackslash(path: string)
    requires '\\' !in path
    ensures NormalizePath(path) == path
    decreases |path|
  {
    if path != [] {
      assert '\\' !in path[1..];
      NormalizeWithoutBackslash(path[1..]);
    }
  }

  // ---------------------------------------------------------------------
  // Patterns and the regular expressions built from them

  /** getFileRegexFromPattern: any prefix, then the pattern with '.' turned
      into '/', then '*' into ".*", then '?' into ".". */
  function FileRegexFromPattern(pattern: string): string {
    ".*" + ReplaceChar(ReplaceChar(ReplaceChar(pattern, '.', "/"), '*', ".*"), '?', ".")
  }

  /** The regex text one pattern character stands for. */
  function CharRegex(c: char): string {
    if c == '.' then "/" else if c == '*' then ".*" else if c == '?' then "." else [c]
  }

  /** The pattern translated character by character. */
  function PatternRegex(p: string): string {
    if p == [] then [] else CharRegex(p[0]) + PatternRegex(p[1..])
  }

  lemma ReplaceSingle(x: char, c: char, t: string)
    ensures ReplaceChar([x], c, t) == if x == c then t else [x]
  {
    assert [x][1..] == [];
  }

  lemma OneCharThreePasses(c: char)
    ensures ReplaceChar(ReplaceChar(if c == '.' then "/" else [c], '*', ".*"), '?', ".") == CharRegex(c)
  {
    var first := if c == '.' then '/' else c;
    assert (if c == '.' then "/" else [c]) == [first];
    ReplaceSingle(first, '*', ".*");
    if first == '*' {
      assert ".*" == "." + "*";
      ReplaceCharAppend(".", "*", '?', ".");
      ReplaceSingle('.', '?', ".");
      ReplaceSingle('*', '?', ".");
    } else {
      ReplaceSingle(first, '?', ".");
    }
  }

  /** The three replacement passes do not interfere: the regex is the
      character-by-character translation of the pattern. */
  lemma {:induction false} ThreePassesPerChar(p: string)
    ensures ReplaceChar(ReplaceChar(ReplaceChar(p, '.', "/"), '*', ".*"), '?', ".") == PatternRegex(p)
    decreases |p|
  {
    if p != [] {
      var rest := ReplaceChar(p[1..], '.', "/");
      var head := if p[0] == '.' then "/" else [p[0]];
      assert ReplaceChar(p, '.', "/") == head + rest;
      ReplaceCharAppend(head, rest, '*', ".*");
      var head2 := ReplaceChar(head, '*', ".*");
      var rest2 := ReplaceChar(rest, '*', ".*");
      ReplaceCharAppend(head2, rest2, '?', ".");
      ThreePassesPerChar(p[1..]);
      OneCharThreePasses(p[0]);
    }
  }

  /** The regex text of a pattern never starts with '*'. */
  lemma PatternRegexHead(p: string)
    ensures PatternRegex(p) == [] || PatternRegex(p)[0] != '*'
  {
    if p != [] {
      assert CharRegex(p[0]) != [] && CharRegex(p[0])[0] != '*';
    }
  }

  /** The regex language the filter produces: a literal character, any
      character ('.'), or any run of characters (".*"). */
  datatype Token = AnyRun | AnyChar | Lit(c: char)

  /** Reads regex text whose only metacharacters are '.' and a '*' right
      after a '.'. */
  function ParseRegex(r: string): seq<Token>
    decreases |r|
  {
    if r == [] then []
    else if |r| >= 2 && r[0] == '.' && r[1] == '*' then [AnyRun] + ParseRegex(r[2..])
    else if r[0] == '.' then [AnyChar] + ParseRegex(r[1..])
    else [Lit(r[0])] + ParseRegex(r[1..])
  }

  /** What each pattern character means: '.' a slash, '*' any run, '?' any
      character, anything else itself. */
  function PatternTokens(p: string): (r: seq<Token>)
    ensures |r| == |p|
    ensures forall i | 0 <= i < |p| ::
              r[i] == if p[i] == '.' then Lit('/') else if p[i] == '*' then AnyRun else if p[i] == '?' then AnyChar else Lit(p[i])
  {
    if p == [] then []
    else
      [if p[0] == '.' then Lit('/') else if p[0] == '*' then AnyRun else if p[0] == '?' then AnyChar else Lit(p[0])]
      + PatternTokens(p[1..])
  }

  lemma {:induction false} ParsePatternRegex(p: string)
    ensures ParseRegex(PatternRegex(p)) == PatternTokens(p)
    decreases |p|
  {
    if p != [] {
      var rest := PatternRegex(p[1..]);
      ParsePatternRegex(p[1..]);
      PatternRegexHead(p[1..]);
      var r := CharRegex(p[0]) + rest;
      assert PatternRegex(p) == r;
      if p[0] == '*' {
        assert r[2..] == rest;
      } else {
        assert r[1..] == rest;
      }
    }
  }

  /** The regex built from a pattern reads as "any run" followed by the
      pattern's own tokens. */
  lemma RegexTokens(p: string)
    ensures ParseRegex(FileRegexFromPattern(p)) == [AnyRun] + PatternTokens(p)
  {
    ThreePassesPerChar(p);
    ParsePatternRegex(p);
    var r := FileRegexFromPattern(p);
    assert r[2..] == PatternRegex(p);
  }

  // ---------------------------------------------------------------------
  // Matching

  /** The characters '.' does not match in a Java regex without flags. */
  predicate LineTerminator(c: char) {
    c == '\n' || c == '\r' || c == '\U{85}' || c == '\U{2028}' || c == '\U{2029}'
  }

  ghost predicate NoTerminators(s: string) {
    forall i | 0 <= i < |s| :: !LineTerminator(s[i])
  }

  /** String.matches: the tokens match the whole of `s`. */
  function Match(ts: seq<Token>, s: string): bool
    decreases |ts| + |s|
  {
    if ts == [] then s == []
    else match ts[0]
      case Lit(c) => s != [] && s[0] == c && Match(ts[1..], s[1..])
      case AnyChar => s != [] && !LineTerminator(s[0]) && Match(ts[1..], s[1..])
      case AnyRun => Match(ts[1..], s) || (s != [] && !LineTerminator(s[0]) && Match(ts, s[1..]))
  }

  /** filePath.matches(getFileRegexFromPattern(pattern)). */
  function Matches(path: string, pattern: string): bool {
    Match(ParseRegex(FileRegexFromPattern(pattern)), path)
  }

  /** A leading "any run" matches exactly when the rest matches some suffix
      reached over characters that are not line terminators. */
  lemma {:induction false} LeadingRunMatchesSuffix(ts: seq<Token>, s: string)
    ensures Match([AnyRun] + ts, s) <==> exists i | 0 <= i <= |s| :: NoTerminators(s[..i]) && Match(ts, s[i..])
    decreases |s|
  {
    var run := [AnyRun] + ts;
    assert run[1..] == ts;
    assert s[..0] == [] && s[0..] == s;
    if s != [] {
      LeadingRunMatchesSuffix(ts, s[1..]);
      if Match(run, s[1..]) && !LineTerminator(s[0]) {
        var i :| 0 <= i <= |s[1..]| && NoTerminators(s[1..][..i]) && Match(ts, s[1..][i..]);
        assert s[..i + 1] == [s[0]] + s[1..][..i];
        assert s[i + 1..] == s[1..][i..];
      }
      if exists i | 0 <= i <= |s| :: NoTerminators(s[..i]) && Match(ts, s[i..]) {
        var i :| 0 <= i <= |s| && NoTerminators(s[..i]) && Match(ts, s[i..]);
        if i > 0 {
          assert s[1..][..i - 1] == s[1..i];
          assert s[1..][i - 1..] == s[i..];
          assert s[..i][0] == s[0];
        }
      }
    }
  }

  /** A pattern matches a path exactly when its tokens match a suffix of the
      path that follows a prefix without line terminators. */
  lemma PatternMatchesSuffix(path: string, pattern: string)
    ensures Matches(path, pattern) <==>
              exists i | 0 <= i <= |path| :: NoTerminators(path[..i]) && Match(PatternTokens(pattern), path[i..])
  {
    RegexTokens(pattern);
    LeadingRunMatchesSuffix(PatternTokens(pattern), path);
  }

  /** A pattern without wildcards matches exactly its own text, with dots
      read as slashes. */
  lemma {:induction false} LiteralPatternMatchesItself(p: string, s: string)
    requires '*' !in p && '?' !in p
    ensures Match(PatternTokens(p), s) <==> s == ReplaceChar(p, '.', "/")
    decreases |p|
  {
    if p != [] {
      assert '*' !in p[1..] && '?' !in p[1..];
      LiteralPatternMatchesItself(p[1..], if s == [] then s else s[1..]);
      assert PatternTokens(p)[1..] == PatternTokens(p[1..]);
      var head := if p[0] == '.' then '/' else p[0];
      assert ReplaceChar(p, '.', "/") == [head] + ReplaceChar(p[1..], '.', "/");
    }
  }

  // ---------------------------------------------------------------------
  // The include / exclude filter

  /** The loop over a pattern set: true at the first pattern that matches,
      in the set's iteration order. */
  function AnyPatternMatches(path: string, patterns: seq<string>): bool {
    patterns != [] && (Matches(path, patterns[0]) || AnyPatternMatches(path, patterns[1..]))
  }

  lemma {:induction false} AnyPatternMatchesMeaning(path: string, patterns: seq<string>)
    ensures AnyPatternMatches(path, patterns) <==> exists p | p in patterns :: Matches(path, p)
    decreases |patterns|
  {
    if patterns != [] {
      AnyPatternMatchesMeaning(path, patterns[1..]);
      assert forall p :: p in patterns <==> p == patterns[0] || p in patterns[1..];
    }
  }

  /** includeClassFile(path, includes): no include set, or an empty one,
      admits every path; otherwise some include must match the normalised
      path. The set is given in its iteration order. */
  function IncludeClassFile(pathToClassFile: string, includes: Option<seq<string>>): bool {
    if includes.None? || includes.value == [] then true
    else AnyPatternMatches(NormalizePath(pathToClassFile), includes.value)
  }

  /** excludeClassFile(path, excludes): no exclude set, or an empty one,
      excludes nothing; otherwise some exclude must match. */
  function ExcludeClassFile(pathToClassFile: string, excludes: Option<seq<string>>): bool {
    if excludes.None? || excludes.value == [] then false
    else AnyPatternMatches(NormalizePath(pathToClassFile), excludes.value)
  }

  /** includeClassFile(path, includes, excludes). */
  function PassesFilter(pathToClassFile: string, includes: Option<seq<string>>, excludes: Option<seq<string>>): bool {
    IncludeClassFile(pathToClassFile, includes) && !ExcludeClassFile(pathToClassFile, excludes)
  }

  /** A path is included iff there is no include pattern or one of them
      matches the normalised path. */
  lemma IncludeMeaning(path: string, includes: Option<seq<string>>)
    ensures IncludeClassFile(path, includes) <==>
              includes.None? || includes.value == [] || exists p | p in includes.value :: Matches(NormalizePath(path), p)
  {
    if includes.Some? {
      AnyPatternMatchesMeaning(NormalizePath(path), includes.value);
    }
  }

  /** A path is excluded iff some exclude pattern matches the normalised path. */
  lemma ExcludeMeaning(path: string, excludes: Option<seq<string>>)
    ensures ExcludeClassFile(path, excludes) <==>
              excludes.Some? && exists p | p in excludes.value :: Matches(NormalizePath(path), p)
  {
    if excludes.Some? {
      AnyPatternMatchesMeaning(NormalizePath(path), excludes.value);
    }
  }

  /** A path passes iff it is admitted by the includes (none given, or one
      matches) and no exclude matches. */
  lemma PassesFilterMeaning(path: string, includes: Option<seq<string>>, excludes: Option<seq<string>>)
    ensures PassesFilter(path, includes, excludes) <==>
              (includes.None? || includes.value == [] || exists p | p in includes.value :: Matches(NormalizePath(path), p))
              && !(excludes.Some? && exists p | p in excludes.value :: Matches(NormalizePath(path), p))
  {
    IncludeMeaning(path, includes);
    ExcludeMeaning(path, excludes);
  }

  /** Backslashes and slashes are interchangeable in a filtered path. */
  lemma FilterSeesNormalPath(path: string, includes: Option<seq<string>>, excludes: Option<seq<string>>)
    ensures PassesFilter(NormalizePath(path), includes, excludes) == PassesFilter(path, includes, excludes)
  {
    NormalizePathMeaning(path);
    NormalizeWithoutBackslash(NormalizePath(path));
  }

  // ---------------------------------------------------------------------
  // Names

  /** getPackageName: JaCoCo's slash-separated package name with dots. */
  function PackageName(vmName: string): string {
    ReplaceChar(vmName, '/', ".")
  }

  lemma PackageNameMeaning(vmName: string)
    ensures |PackageName(vmName)| == |vmName|
    ensures forall i | 0 <= i < |vmName| :: PackageName(vmName)[i] == if vmName[i] == '/' then '.' else vmName[i]
    ensures '/' !in PackageName(vmName)
  {
    ReplaceByChar(vmName, '/', '.');
  }

  /** The pieces of `s` between slashes, empty pieces included. */
  function Segments(s: string): (r: seq<string>)
    ensures |r| >= 1
    ensures forall i | 0 <= i < |r| :: '/' !in r[i]
    decreases |s|
  {
    if '/' !in s then [s]
    else
      var j := LastSlash(s);
      Segments(s[..j]) + [s[j + 1..]]
  }

  function LastSlash(s: string): (j: nat)
    requires '/' in s
    ensures j < |s| && s[j] == '/' && '/' !in s[j + 1..]
    decreases |s|
  {
    if s[|s| - 1] == '/' then |s| - 1
    else
      assert s == s[..|s| - 1] + [s[|s| - 1]];
      assert '/' in s[..|s| - 1];
      var j := LastSlash(s[..|s| - 1]);
      assert s[j + 1..] == s[..|s| - 1][j + 1..] + [s[|s| - 1]];
      j
  }

  function DropTrailingEmpty(parts: seq<string>): (r: seq<string>)
    ensures r <= parts
    ensures r == [] || r[|r| - 1] != []
  {
    if parts == [] || parts[|parts| - 1] != [] then parts
    else DropTrailingEmpty(parts[..|parts| - 1])
  }

  /** String.split("/"): the pieces without the trailing empty ones; a string
      without any slash splits into itself. */
  function Split(s: string): seq<string> {
    if '/' !in s then [s] else DropTrailingEmpty(Segments(s))
  }

  /** getClassName: the last piece of the split name. A name made only of
      slashes splits into nothing and the array access fails. */
  function ClassName(vmName: string): Option<string> {
    var parts := Split(vmName);
    if parts == [] then None else Some(parts[|parts| - 1])
  }

  /** For a name that does not end in a slash, the class name is the text
      after the last slash, or the whole name when it has none. */
  lemma ClassNameAfterLastSlash(vmName: string)
    requires vmName == [] || vmName[|vmName| - 1] != '/'
    ensures ClassName(vmName).Some?
    ensures var r := ClassName(vmName).value;
            '/' !in r && |r| <= |vmName| && r == vmName[|vmName| - |r|..]
            && (|r| == |vmName| || vmName[|vmName| - |r| - 1] == '/')
  {
    if '/' in vmName {
      var j := LastSlash(vmName);
      var last := vmName[j + 1..];
      assert j != |vmName| - 1;
      assert Segments(vmName)[|Segments(vmName)| - 1] == last;
      assert vmName[|vmName| - |last|..] == last;
    }
  }

  /** Every piece of a name made only of slashes is empty. */
  lemma {:induction false} SlashesOnlySegments(s: string)
    requires forall i | 0 <= i < |s| :: s[i] == '/'
    ensures forall k | 0 <= k < |Segments(s)| :: Segments(s)[k] == []
    decreases |s|
  {
    if s != [] {
      var n := |s| - 1;
      assert s[n] == '/';
      assert LastSlash(s) == n;
      SlashesOnlySegments(s[..n]);
      assert Segments(s) == Segments(s[..n]) + [[]];
    }
  }

  lemma {:induction false} DropAllEmpty(parts: seq<string>)
    requires forall k | 0 <= k < |parts| :: parts[k] == []
    ensures DropTrailingEmpty(parts) == []
    decreases |parts|
  {
    if parts != [] {
      DropAllEmpty(parts[..|parts| - 1]);
    }
  }

  /** A non-empty name made only of slashes has no class name. */
  lemma ClassNameOfSlashes(vmName: string)
    requires vmName != [] && forall i | 0 <= i < |vmName| :: vmName[i] == '/'
    ensures ClassName(vmName) == None
  {
    assert vmName[0] == '/';
    SlashesOnlySegments(vmName);
    DropAllEmpty(Segments(vmName));
  }
}
