/**
 * The CODEOWNERS glob matcher (apps/dashboard/src/lib/codeowners.ts): patterns compiled to tokens,
 * a bounded memo of compiled patterns, and the row-by-row dynamic program over tokens and text.
 */
module Glob {
  import Utf

  /** Patterns and paths are UTF-16 strings, matched unit by unit. */
  type Unit = Utf.Unit
  type Str = seq<Unit>

  const SLASH: Unit := 0x2F
  const STAR: Unit := 0x2A
  const QUESTION: Unit := 0x3F

  datatype Token = Lit(ch: Unit) | One | Star | Globstar | GlobstarSlash

  // ----- What tokens and patterns mean -----

  predicate TokenMatches(token: Token, w: Str) {
    match token
    case Lit(ch) => w == [ch]
    case One => |w| == 1 && w[0] != SLASH
    case Star => SLASH !in w
    case Globstar => true
    case GlobstarSlash => w == [] || w[|w| - 1] == SLASH
  }

  /** `t` splits into consecutive parts, one matched by each token. */
  ghost predicate InLanguage(tokens: seq<Token>, t: Str) {
    if tokens == [] then t == []
    else exists k :: 0 <= k <= |t| && TokenMatches(tokens[0], t[..k]) && InLanguage(tokens[1..], t[k..])
  }

  /** The language of a pattern, read off the pattern itself: every wildcard and what it may cross. */
  ghost predicate InPattern(p: Str, t: Str)
    decreases |p|
  {
    if p == [] then t == []
    else if [STAR, STAR, SLASH] <= p then
      InPattern(p[3..], t) || exists k :: 0 < k <= |t| && t[k - 1] == SLASH && InPattern(p[3..], t[k..])
    else if [STAR, STAR] <= p then
      exists k :: 0 <= k <= |t| && InPattern(p[2..], t[k..])
    else if p[0] == STAR then
      exists k :: 0 <= k <= |t| && SLASH !in t[..k] && InPattern(p[1..], t[k..])
    else
      t != [] && (if p[0] == QUESTION then t[0] != SLASH else t[0] == p[0]) && InPattern(p[1..], t[1..])
  }

  // ----- Compilation -----

  /** The token a pattern begins with and how many characters it takes. */
  function First(p: Str): (r: (Token, nat))
    requires p != []
    ensures 1 <= r.1 <= |p|
  {
    if p[0] == STAR then
      if |p| > 1 && p[1] == STAR then
        if |p| > 2 && p[2] == SLASH then (GlobstarSlash, 3) else (Globstar, 2)
      else (Star, 1)
    else if p[0] == QUESTION then (One, 1)
    else (Lit(p[0]), 1)
  }

  function Compile(p: Str): seq<Token>
    decreases |p|
  {
    if p == [] then [] else [First(p).0] + Compile(p[First(p).1..])
  }

  function PrintToken(token: Token): Str {
    match token
    case Lit(ch) => [ch]
    case One => [QUESTION]
    case Star => [STAR]
    case Globstar => [STAR, STAR]
    case GlobstarSlash => [STAR, STAR, SLASH]
  }

  function Print(tokens: seq<Token>): Str {
    if tokens == [] then [] else PrintToken(tokens[0]) + Print(tokens[1..])
  }

  lemma FirstLossless(p: Str)
    requires p != []
    ensures PrintToken(First(p).0) == p[..First(p).1]
  {
  }

  lemma PrintPrepend(token: Token, rest: seq<Token>)
    ensures Print([token] + rest) == PrintToken(token) + Print(rest)
  {
    assert ([token] + rest)[1..] == rest;
  }

  /** Tokens lose nothing: they print back to the pattern, so distinct patterns stay distinct. */
  lemma {:induction false} CompileLossless(p: Str)
    ensures Print(Compile(p)) == p
    decreases |p|
  {
    hide First, PrintToken;
    if p != [] {
      var (token, n) := First(p);
      FirstLossless(p);
      CompileLossless(p[n..]);
      PrintPrepend(token, Compile(p[n..]));
      hide Print;
      assert p == p[..n] + p[n..];
    }
  }

  /** What a pattern's language is, by the token it begins with. */
  lemma InPatternHead(p: Str, t: Str)
    requires p != []
    ensures var (first, n) := First(p);
            var rest := p[n..];
            InPattern(p, t) <==>
            if first.GlobstarSlash? then
              InPattern(rest, t) || exists k :: 0 < k <= |t| && t[k - 1] == SLASH && InPattern(rest, t[k..])
            else if first.Globstar? then exists k :: 0 <= k <= |t| && InPattern(rest, t[k..])
            else if first.Star? then exists k :: 0 <= k <= |t| && SLASH !in t[..k] && InPattern(rest, t[k..])
            else t != [] && (if first.One? then t[0] != SLASH else t[0] == first.ch) && InPattern(rest, t[1..])
  {
  }

  /** A token list's language is its pattern's language. */
  lemma {:induction false} CompileCorrect(p: Str, t: Str)
    ensures InLanguage(Compile(p), t) <==> InPattern(p, t)
    decreases |p|
  {
    if p != [] {
      var (first, n) := First(p);
      var rest := Compile(p[n..]);
      assert Compile(p) == [first] + rest;
      hide First, Compile, InLanguage, InPattern;
      forall k | 0 <= k <= |t| ensures InLanguage(rest, t[k..]) <==> InPattern(p[n..], t[k..]) {
        CompileCorrect(p[n..], t[k..]);
      }
      assert t[0..] == t;
      InPatternHead(p, t);
      match first
      case GlobstarSlash => HeadGlobstarSlash(rest, t);
      case Globstar => InLanguageCons(Globstar, rest, t);
      case Star => InLanguageCons(Star, rest, t);
      case One => HeadOneChar(One, rest, t);
      case Lit(_) => HeadOneChar(first, rest, t);
    }
  }

  lemma InLanguageCons(token: Token, rest: seq<Token>, t: Str)
    ensures InLanguage([token] + rest, t) <==>
            exists k :: 0 <= k <= |t| && TokenMatches(token, t[..k]) && InLanguage(rest, t[k..])
  {
    assert ([token] + rest)[1..] == rest;
  }

  lemma HeadOneChar(token: Token, rest: seq<Token>, t: Str)
    requires token.Lit? || token.One?
    ensures InLanguage([token] + rest, t) <==>
            t != [] && (if token.One? then t[0] != SLASH else t[0] == token.ch) && InLanguage(rest, t[1..])
  {
    hide InLanguage;
    InLanguageCons(token, rest, t);
    if t != [] {
      assert t[..1] == [t[0]];
    }
  }

  lemma HeadGlobstarSlash(rest: seq<Token>, t: Str)
    ensures InLanguage([GlobstarSlash] + rest, t) <==>
            InLanguage(rest, t) || exists k :: 0 < k <= |t| && t[k - 1] == SLASH && InLanguage(rest, t[k..])
  {
    hide InLanguage;
    InLanguageCons(GlobstarSlash, rest, t);
    assert t[0..] == t && t[..0] == [];
    assert TokenMatches(GlobstarSlash, t[..0]);
    forall k | 0 < k <= |t|
      ensures TokenMatches(GlobstarSlash, t[..k]) <==> t[k - 1] == SLASH
    {}
  }

  // ----- The dynamic program -----

  /** `t` splits into a part for `a` and a part for `b`. */
  ghost predicate Splits(a: seq<Token>, b: seq<Token>, t: Str) {
    exists k :: 0 <= k <= |t| && InLanguage(a, t[..k]) && InLanguage(b, t[k..])
  }

  lemma {:induction false} InLanguageSplits(a: seq<Token>, b: seq<Token>, t: Str)
    requires InLanguage(a + b, t)
    ensures Splits(a, b, t)
  {
    hide TokenMatches;
    if a == [] {
      assert a + b == b && t[0..] == t && t[..0] == [];
    } else {
      assert (a + b)[0] == a[0] && (a + b)[1..] == a[1..] + b;
      var i :| 0 <= i <= |t| && TokenMatches(a[0], t[..i]) && InLanguage(a[1..] + b, t[i..]);
      InLanguageSplits(a[1..], b, t[i..]);
      var j :| 0 <= j <= |t[i..]| && InLanguage(a[1..], t[i..][..j]) && InLanguage(b, t[i..][j..]);
      var k := i + j;
      assert t[..k][..i] == t[..i] && t[..k][i..] == t[i..][..j] && t[k..] == t[i..][j..];
      assert InLanguage(a, t[..k]);
    }
  }

  lemma {:induction false} InLanguageJoins(a: seq<Token>, b: seq<Token>, t: Str)
    requires Splits(a, b, t)
    ensures InLanguage(a + b, t)
  {
    hide TokenMatches;
    var k :| 0 <= k <= |t| && InLanguage(a, t[..k]) && InLanguage(b, t[k..]);
    if a == [] {
      assert a + b == b && t[0..] == t;
    } else {
      assert (a + b)[0] == a[0] && (a + b)[1..] == a[1..] + b;
      var i :| 0 <= i <= |t[..k]| && TokenMatches(a[0], t[..k][..i]) && InLanguage(a[1..], t[..k][i..]);
      assert t[..k][..i] == t[..i] && t[..k][i..] == t[i..][..k - i] && t[k..] == t[i..][k - i..];
      InLanguageJoins(a[1..], b, t[i..]);
    }
  }

  lemma InLanguageOne(token: Token, w: Str)
    ensures InLanguage([token], w) <==> TokenMatches(token, w)
  {
    assert w[..|w|] == w && w[|w|..] == [];
    if InLanguage([token], w) {
      var k :| 0 <= k <= |w| && TokenMatches(token, w[..k]) && InLanguage([token][1..], w[k..]);
      assert w[k..] == [];
    }
  }

  /** Cell `j` of a row: the token extends some cell `k <= j` of the row before. */
  ghost predicate Reach(prev: seq<bool>, token: Token, text: Str, j: nat)
    requires |prev| == |text| + 1 && j <= |text|
  {
    exists k :: 0 <= k <= j && prev[k] && TokenMatches(token, text[k..j])
  }

  /** A row says, for every prefix of the text, whether the tokens so far match it in full. */
  ghost predicate RowFor(row: seq<bool>, tokens: seq<Token>, text: Str) {
    |row| == |text| + 1
    && forall j :: 0 <= j <= |text| ==> (row[j] <==> InLanguage(tokens, text[..j]))
  }

  lemma NextRow(prev: seq<bool>, row: seq<bool>, tokens: seq<Token>, token: Token, text: Str)
    requires RowFor(prev, tokens, text) && |row| == |text| + 1
    requires forall j :: 0 <= j <= |text| ==> (row[j] <==> Reach(prev, token, text, j))
    ensures RowFor(row, tokens + [token], text)
  {
    forall j | 0 <= j <= |text| ensures row[j] <==> InLanguage(tokens + [token], text[..j]) {
      if InLanguage(tokens + [token], text[..j]) {
        InLanguageSplits(tokens, [token], text[..j]);
      }
      if Splits(tokens, [token], text[..j]) {
        InLanguageJoins(tokens, [token], text[..j]);
      }
      forall k | 0 <= k <= j
        ensures (InLanguage(tokens, text[..j][..k]) <==> prev[k])
             && (InLanguage([token], text[..j][k..]) <==> TokenMatches(token, text[k..j]))
      {
        assert text[..j][..k] == text[..k] && text[..j][k..] == text[k..j];
        InLanguageOne(token, text[k..j]);
      }
      if Reach(prev, token, text, j) {
        var k :| 0 <= k <= j && prev[k] && TokenMatches(token, text[k..j]);
        assert InLanguage(tokens, text[..j][..k]);
      }
    }
  }

  /** How each kind of token fills a cell from the cells already known. */
  lemma ReachStep(prev: seq<bool>, token: Token, text: Str, j: nat)
    requires |prev| == |text| + 1 && 0 < j <= |text|
    ensures token.Lit? ==> (Reach(prev, token, text, j) <==> prev[j - 1] && text[j - 1] == token.ch)
    ensures token.One? ==> (Reach(prev, token, text, j) <==> prev[j - 1] && text[j - 1] != SLASH)
    ensures token.Star? ==>
              (Reach(prev, token, text, j) <==> prev[j] || (Reach(prev, token, text, j - 1) && text[j - 1] != SLASH))
    ensures token.Globstar? ==> (Reach(prev, token, text, j) <==> prev[j] || Reach(prev, token, text, j - 1))
    ensures token.GlobstarSlash? ==>
              (Reach(prev, token, text, j) <==>
               prev[j] || (text[j - 1] == SLASH && exists k :: 0 <= k < j && prev[k]))
  {
    assert text[j..j] == [] && text[j - 1..j] == [text[j - 1]];
    forall k | 0 <= k < j
      ensures text[k..j] == text[k..j - 1] + [text[j - 1]]
    {}
    if Reach(prev, token, text, j) {
      var k :| 0 <= k <= j && prev[k] && TokenMatches(token, text[k..j]);
      if k < j {
        assert text[k..j] == text[k..j - 1] + [text[j - 1]];
      }
    }
  }

  lemma ReachZero(prev: seq<bool>, token: Token, text: Str)
    requires |prev| == |text| + 1
    ensures Reach(prev, token, text, 0) <==> prev[0] && !token.Lit? && !token.One?
  {
    assert text[0..0] == [];
  }

  /** Fills the row of one token; `cells` counts the cells written after the initial fill. */
  method FillRow(token: Token, text: Str, prevRow: array<bool>) returns (row: array<bool>, ghost cells: nat)
    requires prevRow.Length == |text| + 1
    ensures fresh(row) && row.Length == |text| + 1
    ensures forall j :: 0 <= j <= |text| ==> (row[j] <==> Reach(prevRow[..], token, text, j))
    ensures cells <= |text| + 1
  {
    var textLen := |text|;
    row := new bool[textLen + 1](_ => false);
    cells := 0;
    ghost var prev := prevRow[..];
    ReachZero(prev, token, text);
    match token {
      case Lit(ch) =>
        for j := 1 to textLen + 1
          invariant cells == j - 1
          invariant forall i :: 0 <= i < j ==> (row[i] <==> Reach(prev, token, text, i))
        {
          ReachStep(prev, token, text, j);
          row[j] := prevRow[j - 1] && text[j - 1] == ch;
          cells := cells + 1;
        }
      case One =>
        for j := 1 to textLen + 1
          invariant cells == j - 1
          invariant forall i :: 0 <= i < j ==> (row[i] <==> Reach(prev, token, text, i))
        {
          ReachStep(prev, token, text, j);
          row[j] := prevRow[j - 1] && text[j - 1] != SLASH;
          cells := cells + 1;
        }
      case Star =>
        row[0], cells := prevRow[0], 1;
        for j := 1 to textLen + 1
          invariant cells == j
          invariant forall i :: 0 <= i < j ==> (row[i] <==> Reach(prev, token, text, i))
        {
          ReachStep(prev, token, text, j);
          row[j] := prevRow[j] || (row[j - 1] && text[j - 1] != SLASH);
          cells := cells + 1;
        }
      case Globstar =>
        row[0], cells := prevRow[0], 1;
        for j := 1 to textLen + 1
          invariant cells == j
          invariant forall i :: 0 <= i < j ==> (row[i] <==> Reach(prev, token, text, i))
        {
          ReachStep(prev, token, text, j);
          row[j] := prevRow[j] || row[j - 1];
          cells := cells + 1;
        }
      case GlobstarSlash =>
        row[0], cells := prevRow[0], 1;
        var reachable := prevRow[0];
        for j := 1 to textLen + 1
          invariant cells == j
          invariant reachable <==> exists k :: 0 <= k < j && prev[k]
          invariant forall i :: 0 <= i < j ==> (row[i] <==> Reach(prev, token, text, i))
        {
          ReachStep(prev, token, text, j);
          var throughSlash := text[j - 1] == SLASH && reachable;
          row[j] := prevRow[j] || throughSlash;
          reachable := reachable || prevRow[j];
          cells := cells + 1;
        }
    }
  }

  /** No tokens match the empty prefix and nothing else. */
  lemma FirstRow(row: seq<bool>, text: Str)
    requires |row| == |text| + 1 && forall j :: 0 <= j <= |text| ==> row[j] == (j == 0)
    ensures RowFor(row, [], text)
  {
  }

  lemma LastCell(row: seq<bool>, tokens: seq<Token>, text: Str)
    requires RowFor(row, tokens, text)
    ensures |row| == |text| + 1 && (row[|text|] <==> InLanguage(tokens, text))
  {
    assert text[..|text|] == text;
  }

  /** The whole match: no backtracking, and at most one cell per token and prefix of the text. */
  method MatchTokens(tokens: seq<Token>, text: Str) returns (matched: bool, ghost cells: nat)
    ensures matched <==> InLanguage(tokens, text)
    ensures cells <= |tokens| * (|text| + 1)
  {
    hide InLanguage, Reach, RowFor;
    var textLen := |text|;
    var prevRow := new bool[textLen + 1](_ => false);
    prevRow[0] := true;
    cells := 0;
    FirstRow(prevRow[..], text);
    assert tokens[..0] == [];
    for i := 0 to |tokens|
      invariant fresh(prevRow) && prevRow.Length == textLen + 1
      invariant RowFor(prevRow[..], tokens[..i], text)
      invariant cells <= i * (textLen + 1)
    {
      var row, n := FillRow(tokens[i], text, prevRow);
      NextRow(prevRow[..], row[..], tokens[..i], tokens[i], text);
      assert tokens[..i] + [tokens[i]] == tokens[..i + 1];
      cells := cells + n;
      assert (i + 1) * (textLen + 1) == i * (textLen + 1) + (textLen + 1);
      prevRow := row;
    }
    assert tokens[..|tokens|] == tokens;
    LastCell(prevRow[..], tokens, text);
    matched := prevRow[textLen];
  }

  /** The scanning loop of `compileGlob`, past the memo. */
  method Tokenize(pattern: Str) returns (tokens: seq<Token>)
    ensures tokens == Compile(pattern)
  {
    hide Compile;
    CompileNothing();
    tokens := [];
    var i := 0;
    assert pattern[0..] == pattern;
    while i < |pattern|
      invariant i <= |pattern|
      invariant tokens + Compile(pattern[i..]) == Compile(pattern)
    {
      var ch := pattern[i];
      ghost var start, before := i, tokens;
      CompileFrom(pattern, i);
      if ch == STAR {
        if i + 1 < |pattern| && pattern[i + 1] == STAR {
          i := i + 1;
          if i + 1 < |pattern| && pattern[i + 1] == SLASH {
            i := i + 1;
            tokens := tokens + [GlobstarSlash];
          } else {
            tokens := tokens + [Globstar];
          }
        } else {
          tokens := tokens + [Star];
        }
      } else if ch == QUESTION {
        tokens := tokens + [One];
      } else {
        tokens := tokens + [Lit(ch)];
      }
      i := i + 1;
      assert (tokens, i) == (before + [First(pattern[start..]).0], start + First(pattern[start..]).1);
    }
    assert pattern[|pattern|..] == [];
  }

  lemma CompileNothing()
    ensures Compile([]) == []
  {
  }

  lemma CompileFrom(p: Str, i: nat)
    requires i < |p|
    ensures var (token, n) := First(p[i..]); Compile(p[i..]) == [token] + Compile(p[i + n..])
  {
    assert p[i..][First(p[i..]).1..] == p[i + First(p[i..]).1..];
  }

  // ----- The memo -----

  const MAX_GLOB_CACHE_ENTRIES: nat := 2000

  /** The memo after one request: cleared wholesale when full, never evicted one by one. */
  function Remember(cache: map<Str, seq<Token>>, pattern: Str): map<Str, seq<Token>> {
    if pattern in cache then cache
    else (if |cache| >= MAX_GLOB_CACHE_ENTRIES then map[] else cache)[pattern := Compile(pattern)]
  }

  function RememberAll(cache: map<Str, seq<Token>>, patterns: seq<Str>): map<Str, seq<Token>>
    decreases |patterns|
  {
    if patterns == [] then cache else RememberAll(Remember(cache, patterns[0]), patterns[1..])
  }

  /** The memo holds nothing but compiled patterns, within its bound. */
  predicate Faithful(cache: map<Str, seq<Token>>) {
    |cache| <= MAX_GLOB_CACHE_ENTRIES && forall p :: p in cache ==> cache[p] == Compile(p)
  }

  lemma RememberFaithful(cache: map<Str, seq<Token>>, pattern: Str)
    requires Faithful(cache)
    ensures Faithful(Remember(cache, pattern)) && pattern in Remember(cache, pattern)
  {
    hide Compile;
  }

  /** Over any sequence of requests the memo stays within its bound and answers as compiling would. */
  lemma {:induction false} RememberAllFaithful(cache: map<Str, seq<Token>>, patterns: seq<Str>)
    requires Faithful(cache)
    ensures Faithful(RememberAll(cache, patterns))
    ensures patterns != [] ==> patterns[|patterns| - 1] in RememberAll(cache, patterns)
    decreases |patterns|
  {
    if patterns != [] {
      hide Compile, Remember, Faithful;
      RememberFaithful(cache, patterns[0]);
      RememberAllFaithful(Remember(cache, patterns[0]), patterns[1..]);
    }
  }

  class GlobCache {
    var entries: map<Str, seq<Token>>

    constructor ()
      ensures entries == map[] && Valid()
    {
      entries := map[];
    }

    predicate Valid()
      reads this
    {
      Faithful(entries)
    }

    method CompileGlob(pattern: Str) returns (tokens: seq<Token>)
      requires Valid()
      modifies this
      ensures Valid() && entries == Remember(old(entries), pattern)
      ensures tokens == Compile(pattern)
    {
      if pattern in entries {
        return entries[pattern];
      }
      tokens := Tokenize(pattern);
      if |entries| >= MAX_GLOB_CACHE_ENTRIES { entries := map[]; }
      entries := entries[pattern := tokens];
    }

    method GlobMatch(pattern: Str, text: Str) returns (matched: bool)
      requires Valid()
      modifies this
      ensures Valid()
      ensures matched <==> InPattern(pattern, text)
    {
      var tokens := CompileGlob(pattern);
      ghost var cells;
      matched, cells := MatchTokens(tokens, text);
      CompileCorrect(pattern, text);
    }
  }
}
