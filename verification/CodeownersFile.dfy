/**
 * Reading a CODEOWNERS file (parseCodeowners of apps/dashboard/src/lib/codeowners.ts): lines, comments,
 * words, and the bounds on rules and patterns.
 */
module CodeownersFile {
  import opened Prelude
  import opened Glob
  import opened Codeowners

  const LF: Unit := 0x0A
  const CR: Unit := 0x0D
  const BLANK: Unit := 0x20
  const HASH: Unit := 0x23

  const MAX_RULES: nat := 1000
  const MAX_PATTERN_LENGTH: nat := 256

  /** White space and line terminators, as `trim` and `\s` know them. */
  predicate Space(u: Unit) {
    0x09 <= u <= 0x0D || u == 0x20 || u == 0xA0 || u == 0x1680 || 0x2000 <= u <= 0x200A
    || u == 0x2028 || u == 0x2029 || u == 0x202F || u == 0x205F || u == 0x3000 || u == 0xFEFF
  }

  // ----- What a file says -----

  /** The words of a line: its longest stretches without white space. */
  function Words(line: Str): seq<Str>
    decreases |line|
  {
    if line == [] then []
    else if Space(line[0]) then Words(line[1..])
    else
      var n := WordEnd(line);
      [line[..n]] + Words(line[n..])
  }

  /** Where the word at the front ends. */
  function WordEnd(s: Str): (n: nat)
    ensures n <= |s| && (n < |s| ==> Space(s[n])) && forall i :: 0 <= i < n ==> !Space(s[i])
    decreases |s|
  {
    if s == [] || Space(s[0]) then 0 else 1 + WordEnd(s[1..])
  }

  /** The rule on a line: none on a blank or comment line, nor if the pattern is too long. */
  function RuleOn(line: Str): Option<Rule> {
    var words := Words(line);
    if words == [] || words[0] == [] || words[0][0] == HASH || |words[0]| > MAX_PATTERN_LENGTH then None
    else Some(Rule(words[0], words[1..]))
  }

  function RulesOn(lines: seq<Str>): seq<Rule>
    decreases |lines|
  {
    if lines == [] then []
    else (if RuleOn(lines[0]).Some? then [RuleOn(lines[0]).value] else []) + RulesOn(lines[1..])
  }

  /** `text.split(/\r?\n/)`. */
  function Lines(text: Str): (lines: seq<Str>)
    ensures lines != []
    decreases |text|
  {
    var n := LineEnd(text);
    if n == |text| then [text] else [WithoutCr(text[..n])] + Lines(text[n + 1..])
  }

  function LineEnd(s: Str): (n: nat)
    ensures n <= |s| && (n < |s| ==> s[n] == LF) && forall i :: 0 <= i < n ==> s[i] != LF
    decreases |s|
  {
    if s == [] || s[0] == LF then 0 else 1 + LineEnd(s[1..])
  }

  function WithoutCr(s: Str): Str {
    if s != [] && s[|s| - 1] == CR then s[..|s| - 1] else s
  }

  // ----- How the code finds the words -----

  function TrimStart(s: Str): Str
    decreases |s|
  {
    if s != [] && Space(s[0]) then TrimStart(s[1..]) else s
  }

  function TrimEnd(s: Str): Str
    decreases |s|
  {
    if s != [] && Space(s[|s| - 1]) then TrimEnd(s[..|s| - 1]) else s
  }

  /** `s.trim()`. */
  function Trim(s: Str): Str {
    TrimEnd(TrimStart(s))
  }

  /** `s.split(/\s+/)`: what lies between longest stretches of white space, empty at either end if they are there. */
  function SplitSpaces(s: Str): (parts: seq<Str>)
    ensures parts != []
    decreases |s|
  {
    var n := WordEnd(s);
    if n == |s| then [s]
    else
      TrimStartShorter(s[n..]);
      [s[..n]] + SplitSpaces(TrimStart(s[n..]))
  }

  lemma {:induction false} TrimStartShorter(s: Str)
    ensures |TrimStart(s)| <= |s| && (s != [] && Space(s[0]) ==> |TrimStart(s)| < |s|)
    ensures TrimStart(s) != [] ==> !Space(TrimStart(s)[0]) && TrimStart(s)[|TrimStart(s)| - 1] == s[|s| - 1]
    ensures Words(TrimStart(s)) == Words(s)
    decreases |s|
  {
    if s != [] && Space(s[0]) {
      TrimStartShorter(s[1..]);
    }
  }

  /** White space separates words wherever it stands; a blank and a tab are white space. */
  lemma {:induction false} SpaceSeparates(a: Str, u: Unit, b: Str)
    requires Space(u) || u == 0x20 || u == 0x09
    ensures Words(a + [u] + b) == Words(a) + Words(b)
    decreases |a|
  {
    var s := a + [u] + b;
    if a == [] {
      assert s[1..] == b;
    } else if Space(a[0]) {
      assert s[1..] == a[1..] + [u] + b;
      SpaceSeparates(a[1..], u, b);
    } else {
      var n := WordEnd(a);
      WordEndBefore(a, u, b);
      assert s[..n] == a[..n] && s[n..] == a[n..] + [u] + b;
      SpaceSeparates(a[n..], u, b);
      Associative([a[..n]], Words(a[n..]), Words(b));
    }
  }

  lemma {:induction false} WordEndBefore(a: Str, u: Unit, b: Str)
    requires Space(u)
    ensures WordEnd(a + [u] + b) == WordEnd(a)
    decreases |a|
  {
    if a != [] && !Space(a[0]) {
      assert (a + [u] + b)[1..] == a[1..] + [u] + b;
      WordEndBefore(a[1..], u, b);
    }
  }

  lemma {:induction false} TrimEndKeepsWords(s: Str)
    ensures Words(TrimEnd(s)) == Words(s)
    ensures TrimEnd(s) <= s && (TrimEnd(s) != [] ==> !Space(TrimEnd(s)[|TrimEnd(s)| - 1]))
    decreases |s|
  {
    if s != [] && Space(s[|s| - 1]) {
      TrimEndKeepsWords(s[..|s| - 1]);
      assert s == s[..|s| - 1] + [s[|s| - 1]];
      SpaceSeparates(s[..|s| - 1], s[|s| - 1], []);
      assert s[..|s| - 1] + [s[|s| - 1]] + [] == s;
    }
  }

  /** Between trimmed ends, splitting at white space finds exactly the words. */
  lemma {:induction false} SplitFindsWords(s: Str)
    requires s != [] && !Space(s[0]) && !Space(s[|s| - 1])
    ensures SplitSpaces(s) == Words(s)
    decreases |s|
  {
    var n := WordEnd(s);
    if n == |s| {
      assert s[..n] == s && s[n..] == [];
    } else {
      var t := TrimStart(s[n..]);
      TrimStartShorter(s[n..]);
      TrimStartEmpty(s[n..]);
      SplitFindsWords(t);
    }
  }

  lemma {:induction false} TrimStartEmpty(s: Str)
    ensures TrimStart(s) == [] && s != [] ==> Space(s[|s| - 1])
    decreases |s|
  {
    if s != [] && Space(s[0]) {
      TrimStartEmpty(s[1..]);
    }
  }

  /** What trimming and splitting a line amounts to. */
  lemma TrimmedWords(line: Str)
    ensures Trim(line) == [] ==> Words(line) == []
    ensures Trim(line) != [] ==> SplitSpaces(Trim(line)) == Words(line)
    ensures Trim(line) != [] ==> Words(line) != [] && Words(line)[0] != [] && Words(line)[0][0] == Trim(line)[0]
  {
    TrimStartShorter(line);
    TrimEndKeepsWords(TrimStart(line));
    if Trim(line) != [] {
      SplitFindsWords(Trim(line));
    }
  }

  /** The first thousand rules of the file, in order. */
  method ParseCodeowners(text: Str) returns (rules: seq<Rule>)
    ensures rules == RulesOn(Lines(text))[..Min(|RulesOn(Lines(text))|, MAX_RULES)]
    ensures |rules| <= 1000 && forall r :: r in rules ==> 0 < |r.pattern| <= 256
  {
    hide Words, Trim, SplitSpaces, Lines;
    rules := [];
    var lines := Lines(text);
    var i := 0;
    assert lines[0..] == lines;
    while i < |lines|
      invariant i <= |lines| && |rules| <= MAX_RULES
      invariant rules + RulesOn(lines[i..]) == RulesOn(lines)
      invariant forall r :: r in rules ==> 0 < |r.pattern| <= MAX_PATTERN_LENGTH
    {
      if |rules| >= MAX_RULES { break; }
      RulesFrom(lines, i);
      TrimmedWords(lines[i]);
      var line := Trim(lines[i]);
      i := i + 1;
      if line == [] || line[0] == HASH { continue; }
      var parts := SplitSpaces(line);
      var pattern := parts[0];
      if |pattern| > MAX_PATTERN_LENGTH { continue; }
      Associative(rules, [Rule(pattern, parts[1..])], RulesOn(lines[i..]));
      rules := rules + [Rule(pattern, parts[1..])];
    }
  }

  lemma RulesFrom(lines: seq<Str>, i: nat)
    requires i < |lines|
    ensures var rule, rest := RuleOn(lines[i]), RulesOn(lines[i + 1..]);
            RulesOn(lines[i..]) == if rule.Some? then [rule.value] + rest else rest
  {
    hide RuleOn;
    assert lines[i..][1..] == lines[i + 1..];
  }

  // ----- Reading back what was written -----

  function Joined(words: seq<Str>): Str {
    if words == [] then [] else if |words| == 1 then words[0] else words[0] + [BLANK] + Joined(words[1..])
  }

  /** One rule a line, with either line end. */
  function File(rules: seq<Rule>, crlf: bool): Str {
    if rules == [] then []
    else Joined([rules[0].pattern] + rules[0].owners) + (if crlf then [CR, LF] else [LF]) + File(rules[1..], crlf)
  }

  predicate Word(w: Str) {
    w != [] && forall i :: 0 <= i < |w| ==> !Space(w[i])
  }

  /** A rule that a file can hold: words only, the pattern within bounds and not like a comment. */
  predicate Writable(rule: Rule) {
    && Word(rule.pattern) && rule.pattern[0] != HASH && |rule.pattern| <= MAX_PATTERN_LENGTH
    && forall i :: 0 <= i < |rule.owners| ==> Word(rule.owners[i])
  }

  lemma {:induction false} WordEndOf(w: Str, rest: Str)
    requires (forall i :: 0 <= i < |w| ==> !Space(w[i])) && (rest == [] || Space(rest[0]))
    ensures WordEnd(w + rest) == |w|
  {
    if w == [] {
      assert w + rest == rest;
    } else {
      assert (w + rest)[1..] == w[1..] + rest;
      WordEndOf(w[1..], rest);
    }
  }

  lemma WordHasNoBreaks(w: Str)
    requires Word(w)
    ensures Space(BLANK) && forall i :: 0 <= i < |w| ==> w[i] != LF && w[i] != CR
  {
  }

  lemma {:induction false} WordsOfJoined(words: seq<Str>)
    requires forall i :: 0 <= i < |words| ==> Word(words[i])
    ensures Words(Joined(words)) == words
    ensures words != [] ==> Joined(words) != []
    ensures forall i :: 0 <= i < |Joined(words)| ==> Joined(words)[i] != LF
    ensures words != [] ==> Joined(words)[|Joined(words)| - 1] != CR
    decreases |words|
  {
    hide Space;
    if words != [] {
      var w, rest := words[0], words[1..];
      assert Word(w);
      WordHasNoBreaks(w);
      if |words| == 1 {
        WordEndOf(w, []);
        assert w + [] == w && w[..|w|] == w && w[|w|..] == [];
        assert words == [w];
      } else {
        WordsOfJoined(rest);
        var tail := [BLANK] + Joined(rest);
        var s := w + tail;
        assert Joined(words) == s;
        WordEndOf(w, tail);
        assert s[..|w|] == w && s[|w|..] == tail && tail[1..] == Joined(rest);
        assert words == [w] + rest;
      }
    }
  }

  lemma {:induction false} IndentedWords(indent: Str, s: Str)
    requires forall i :: 0 <= i < |indent| ==> Space(indent[i])
    ensures Words(indent + s) == Words(s)
    decreases |indent|
  {
    hide Space;
    if indent == [] {
      assert indent + s == s;
    } else {
      assert (indent + s)[1..] == indent[1..] + s;
      IndentedWords(indent[1..], s);
    }
  }

  /**
   * What a line says, wherever it begins: nothing if it is blank or its first character is `#`, nothing if its
   * pattern is longer than 256, and else its words.
   */
  lemma LineSays(indent: Str, words: seq<Str>, rest: Str)
    requires forall i :: 0 <= i < |indent| ==> Space(indent[i])
    requires forall i :: 0 <= i < |words| ==> Word(words[i])
    ensures RuleOn(indent).None? && RuleOn(indent + [HASH] + rest).None?
    ensures words != [] && Word(words[0]) && words[0][0] != HASH ==>
              RuleOn(indent + Joined(words)) == if |words[0]| > 256 then None else Some(Rule(words[0], words[1..]))
  {
    IndentedWords(indent, []);
    assert indent + [] == indent;
    IndentedWords(indent, [HASH] + rest);
    assert indent + [HASH] + rest == indent + ([HASH] + rest);
    assert WordEnd([HASH] + rest) >= 1;
    IndentedWords(indent, Joined(words));
    WordsOfJoined(words);
    hide Joined, Space;
  }

  lemma {:induction false} LineEndOf(line: Str, rest: Str)
    requires (forall i :: 0 <= i < |line| ==> line[i] != LF) && rest != [] && rest[0] == LF
    ensures LineEnd(line + rest) == |line|
  {
    if line == [] {
      assert line + rest == rest;
    } else {
      assert (line + rest)[1..] == line[1..] + rest;
      LineEndOf(line[1..], rest);
    }
  }

  lemma FirstLine(line: Str, crlf: bool, rest: Str)
    requires forall i :: 0 <= i < |line| ==> line[i] != LF
    requires line != [] && line[|line| - 1] != CR
    ensures Lines(line + (if crlf then [CR, LF] else [LF]) + rest) == [line] + Lines(rest)
  {
    var raw := if crlf then line + [CR] else line;
    var text := line + (if crlf then [CR, LF] else [LF]) + rest;
    assert text == raw + ([LF] + rest);
    LineEndOf(raw, [LF] + rest);
    assert text[..|raw|] == raw && text[|raw| + 1..] == rest;
    assert WithoutCr(raw) == line;
  }

  /** A written file reads back as its rules, in order, up to the bound, with either line end. */
  lemma {:induction false} FileReadsBack(rules: seq<Rule>, crlf: bool)
    requires forall i :: 0 <= i < |rules| ==> Writable(rules[i])
    ensures RulesOn(Lines(File(rules, crlf))) == rules
    decreases |rules|
  {
    hide Words, Joined, Space;
    if rules == [] {
      NoLines();
    } else {
      var rule, rest := rules[0], File(rules[1..], crlf);
      var words := [rule.pattern] + rule.owners;
      assert Writable(rule);
      forall i | 0 <= i < |words| ensures Word(words[i]) {
        assert i > 0 ==> words[i] == rule.owners[i - 1];
      }
      WordsOfJoined(words);
      FirstLine(Joined(words), crlf, rest);
      FileReadsBack(rules[1..], crlf);
      var lines := [Joined(words)] + Lines(rest);
      assert lines[1..] == Lines(rest) && words[1..] == rule.owners;
      assert RuleOn(Joined(words)) == Some(rule);
      assert rules == [rule] + rules[1..];
    }
  }

  lemma NoLines()
    ensures RulesOn(Lines([])) == []
  {
    var lines := Lines([]);
    assert lines == [[]] && lines[1..] == [];
  }
}
