/**
 * `escapeHtml` of the message store (_chat.js): the input is trimmed, then
 * nine regular-expression replacements run in a fixed order, each one
 * skipped when its pattern does not occur.  The first six replace single
 * characters by entities without a trailing semicolon, the seventh
 * replaces every maximal run of newlines by one `<br/>`, and the last two
 * delete carriage returns and tabs.
 *
 * Besides the step-by-step pipeline the module gives a one-pass,
 * character-by-character reference definition (OnePass) and proves the
 * two equal; the properties of the output are proved about the reference.
 */
module Escape {
  import opened Js

  /** `/\c/g` matches each occurrence of `c`; `/\c+/g` matches maximal runs of `c`. */
  datatype Pattern = Each(c: char) | Run(c: char)

  datatype Rule = Rule(pattern: Pattern, replacement: string)

  /** The replacement table, in its iteration order. */
  const EscapeMap: seq<Rule> := [
    Rule(Each('&'), "&amp"),
    Rule(Each('<'), "&lt"),
    Rule(Each('>'), "&gt"),
    Rule(Each('"'), "&quot"),
    Rule(Each('\''), "&#39"),
    Rule(Each('/'), "&#x2F"),
    Rule(Run('\n'), "<br/>"),
    Rule(Run('\r'), ""),
    Rule(Run('\t'), "")
  ]

  /** Every occurrence of `c` replaced by `rep`. */
  function ReplaceEach(s: string, c: char, rep: string): (r: string)
    ensures c !in s ==> r == s
    ensures c !in rep ==> c !in r
  {
    if s == [] then [] else (if s[0] == c then rep else [s[0]]) + ReplaceEach(s[1..], c, rep)
  }

  /** `s` without its leading run of `c`. */
  function DropRun(s: string, c: char): (r: string)
    ensures |r| <= |s| && r == s[|s| - |r|..]
    ensures r == [] || r[0] != c
    ensures forall k :: 0 <= k < |s| - |r| ==> s[k] == c
  {
    if s != [] && s[0] == c then
      var r := DropRun(s[1..], c);
      assert forall k :: 1 <= k < |s| - |r| ==> s[k] == s[1..][k - 1];
      r
    else s
  }

  /** Every maximal run of `c` replaced by one `rep`. */
  function ReplaceRuns(s: string, c: char, rep: string): (r: string)
    ensures c !in rep ==> c !in r
    decreases |s|
  {
    if s == [] then []
    else if s[0] == c then rep + ReplaceRuns(DropRun(s, c), c, rep)
    else [s[0]] + ReplaceRuns(s[1..], c, rep)
  }

  /** `regex.test(str)`: the pattern occurs somewhere in `s`. */
  predicate Test(rule: Rule, s: string): (b: bool)
    ensures b <==> exists i :: 0 <= i < |s| && s[i] == rule.pattern.c
  {
    rule.pattern.c in s
  }

  /** `str.replaceAll(regex, replace)`. */
  function ReplaceAll(rule: Rule, s: string): (r: string)
    ensures rule.pattern.c !in rule.replacement ==> rule.pattern.c !in r
  {
    match rule.pattern
    case Each(c) => ReplaceEach(s, c, rule.replacement)
    case Run(c) => ReplaceRuns(s, c, rule.replacement)
  }

  /** The rules applied one after the other, first rule first. */
  function Pipeline(rules: seq<Rule>, s: string): string {
    if rules == [] then s else Pipeline(rules[1..], ReplaceAll(rules[0], s))
  }

  /** What `escapeHtml(str)` returns. */
  function Escaped(str: string): string {
    Pipeline(EscapeMap, Trim(str))
  }

  /**
   * `escapeHtml`: the loop over the table, skipping a rule whose test
   * fails.  The result is the whole pipeline applied to the trimmed input.
   */
  method EscapeHtml(str: string) returns (r: string)
    ensures r == Escaped(str)
  {
    r := Trim(str);
    for i := 0 to |EscapeMap|
      invariant Pipeline(EscapeMap[i..], r) == Escaped(str)
    {
      var rule := EscapeMap[i];
      PipelineAt(EscapeMap, i, r);
      if !Test(rule, r) {
        FailedTestIsIdentity(rule, r);
        continue;
      }
      r := ReplaceAll(rule, r);
    }
  }

  /** Running the rules from index `i` is rule `i`, then the rules after it. */
  lemma PipelineAt(rules: seq<Rule>, i: nat, s: string)
    requires i < |rules|
    ensures Pipeline(rules[i..], s) == Pipeline(rules[i + 1..], ReplaceAll(rules[i], s))
  {
    assert rules[i..][1..] == rules[i + 1..];
  }

  lemma {:induction false} RunsPassPrefix(a: string, t: string, c: char, rep: string)
    requires c !in a
    ensures ReplaceRuns(a + t, c, rep) == a + ReplaceRuns(t, c, rep)
  {
    if a == [] {
      assert a + t == t;
    } else {
      assert (a + t)[0] == a[0] && (a + t)[1..] == a[1..] + t;
      RunsPassPrefix(a[1..], t, c, rep);
      assert a == [a[0]] + a[1..];
    }
  }

  /**
   * Skipping a rule whose `test` fails changes nothing: when the pattern
   * does not occur, `replaceAll` would have returned the string unchanged.
   */
  lemma FailedTestIsIdentity(rule: Rule, s: string)
    requires !Test(rule, s)
    ensures ReplaceAll(rule, s) == s
  {
    if rule.pattern.Run? {
      RunsPassPrefix(s, [], rule.pattern.c, rule.replacement);
      assert s + [] == s;
    }
  }

  /** The replacement for one character, newlines aside. */
  function EntityOf(c: char): string {
    match c
    case '&' => "&amp"
    case '<' => "&lt"
    case '>' => "&gt"
    case '"' => "&quot"
    case '\'' => "&#39"
    case '/' => "&#x2F"
    case '\r' => ""
    case '\t' => ""
    case _ => [c]
  }

  /**
   * Reference definition: one left-to-right pass that writes one `<br/>`
   * per maximal newline run and the entity of every other character.
   */
  function OnePass(s: string): string
    decreases |s|
  {
    if s == [] then []
    else if s[0] == '\n' then "<br/>" + OnePass(DropRun(s, '\n'))
    else EntityOf(s[0]) + OnePass(s[1..])
  }

  // ---- The pipeline equals the one-pass reference ----

  lemma {:induction false} EachConcat(a: string, b: string, c: char, rep: string)
    ensures ReplaceEach(a + b, c, rep) == ReplaceEach(a, c, rep) + ReplaceEach(b, c, rep)
  {
    if a == [] {
      assert a + b == b;
    } else {
      assert (a + b)[0] == a[0] && (a + b)[1..] == a[1..] + b;
      EachConcat(a[1..], b, c, rep);
    }
  }

  lemma EachSingle(c: char, d: char, rep: string)
    ensures ReplaceEach([c], d, rep) == if c == d then rep else [c]
  {
    assert [c][1..] == [];
  }

  lemma {:induction false} DropRunKeepsRemoval(s: string, c: char)
    ensures ReplaceEach(DropRun(s, c), c, []) == ReplaceEach(s, c, [])
  {
    if s != [] && s[0] == c {
      DropRunKeepsRemoval(s[1..], c);
    }
  }

  /** Replacing runs by nothing deletes every occurrence. */
  lemma {:induction false} RunsToNothing(s: string, c: char)
    ensures ReplaceRuns(s, c, []) == ReplaceEach(s, c, [])
    decreases |s|
  {
    if s != [] {
      if s[0] == c {
        RunsToNothing(DropRun(s, c), c);
        DropRunKeepsRemoval(s, c);
      } else {
        RunsToNothing(s[1..], c);
      }
    }
  }

  /** The first six rules: every special character replaced by its entity. */
  function EntityStage(s: string): string {
    var s1 := ReplaceEach(s, '&', "&amp");
    var s2 := ReplaceEach(s1, '<', "&lt");
    var s3 := ReplaceEach(s2, '>', "&gt");
    var s4 := ReplaceEach(s3, '"', "&quot");
    var s5 := ReplaceEach(s4, '\'', "&#39");
    ReplaceEach(s5, '/', "&#x2F")
  }

  /** The seventh rule. */
  function Newlines(s: string): string {
    ReplaceRuns(s, '\n', "<br/>")
  }

  /** The last two rules. */
  function Strip(s: string): string {
    ReplaceRuns(ReplaceRuns(s, '\r', ""), '\t', "")
  }

  lemma PipelineStages(s: string)
    ensures Pipeline(EscapeMap, s) == Strip(Newlines(EntityStage(s)))
  {
    var m := EscapeMap;
    var s1 := ReplaceAll(m[0], s);
    var s2 := ReplaceAll(m[1], s1);
    var s3 := ReplaceAll(m[2], s2);
    var s4 := ReplaceAll(m[3], s3);
    var s5 := ReplaceAll(m[4], s4);
    var s6 := ReplaceAll(m[5], s5);
    var s7 := ReplaceAll(m[6], s6);
    var s8 := ReplaceAll(m[7], s7);
    var s9 := ReplaceAll(m[8], s8);
    assert m[0..] == m;
    PipelineAt(m, 0, s);
    PipelineAt(m, 1, s1);
    PipelineAt(m, 2, s2);
    PipelineAt(m, 3, s3);
    PipelineAt(m, 4, s4);
    PipelineAt(m, 5, s5);
    PipelineAt(m, 6, s6);
    PipelineAt(m, 7, s7);
    PipelineAt(m, 8, s8);
    assert m[9..] == [];
    assert s6 == EntityStage(s);
  }

  predicate IsSpecial(c: char) {
    c == '&' || c == '<' || c == '>' || c == '"' || c == '\'' || c == '/'
  }

  lemma EntityStageOfSpecial(c: char)
    requires IsSpecial(c)
    ensures EntityStage([c]) == EntityOf(c)
  {
    var e := EntityOf(c);
    assert '<' !in "&amp" && '>' !in "&amp" && '"' !in "&amp" && '\'' !in "&amp" && '/' !in "&amp";
    assert '>' !in "&lt" && '"' !in "&lt" && '\'' !in "&lt" && '/' !in "&lt";
    assert '"' !in "&gt" && '\'' !in "&gt" && '/' !in "&gt";
    assert '\'' !in "&quot" && '/' !in "&quot";
    assert '/' !in "&#39";
    EachSingle(c, '&', "&amp");
    if c != '&' {
      EachSingle(c, '<', "&lt");
      if c != '<' {
        EachSingle(c, '>', "&gt");
        if c != '>' {
          EachSingle(c, '"', "&quot");
          if c != '"' {
            EachSingle(c, '\'', "&#39");
            if c != '\'' {
              EachSingle(c, '/', "&#x2F");
            }
          }
        }
      }
    }
  }

  lemma EntityStageChar(c: char)
    ensures EntityStage([c]) == if IsSpecial(c) then EntityOf(c) else [c]
  {
    if IsSpecial(c) {
      EntityStageOfSpecial(c);
    }
  }

  lemma EntityStageConcat(a: string, b: string)
    ensures EntityStage(a + b) == EntityStage(a) + EntityStage(b)
  {
    var a1, b1 := ReplaceEach(a, '&', "&amp"), ReplaceEach(b, '&', "&amp");
    EachConcat(a, b, '&', "&amp");
    var a2, b2 := ReplaceEach(a1, '<', "&lt"), ReplaceEach(b1, '<', "&lt");
    EachConcat(a1, b1, '<', "&lt");
    var a3, b3 := ReplaceEach(a2, '>', "&gt"), ReplaceEach(b2, '>', "&gt");
    EachConcat(a2, b2, '>', "&gt");
    var a4, b4 := ReplaceEach(a3, '"', "&quot"), ReplaceEach(b3, '"', "&quot");
    EachConcat(a3, b3, '"', "&quot");
    var a5, b5 := ReplaceEach(a4, '\'', "&#39"), ReplaceEach(b4, '\'', "&#39");
    EachConcat(a4, b4, '\'', "&#39");
    EachConcat(a5, b5, '/', "&#x2F");
  }

  /** The entity of any character but a newline is non-empty and holds no newline. */
  lemma EntityStageNoNewline(c: char)
    requires c != '\n'
    ensures EntityStage([c]) != [] && '\n' !in EntityStage([c])
  {
    EntityStageChar(c);
    if IsSpecial(c) {
      assert '\n' !in EntityOf(c);
    }
  }

  lemma EntityStageNewline()
    ensures EntityStage("\n") == "\n"
  {
    EntityStageChar('\n');
  }

  lemma {:induction false} DropRunEntityStage(x: string)
    ensures DropRun(EntityStage(x), '\n') == EntityStage(DropRun(x, '\n'))
    decreases |x|
  {
    if x != [] {
      if x[0] == '\n' {
        DropRunEntityStage(x[1..]);
        DropRunEntityStageNewline(x);
      } else {
        DropRunEntityStageOther(x);
      }
    }
  }

  lemma DropRunEntityStageNewline(x: string)
    requires x != [] && x[0] == '\n'
    requires DropRun(EntityStage(x[1..]), '\n') == EntityStage(DropRun(x[1..], '\n'))
    ensures DropRun(EntityStage(x), '\n') == EntityStage(DropRun(x, '\n'))
  {
    EntityStageNewlineHead(x);
    DropRunOfNewline(EntityStage(x[1..]));
  }

  lemma DropRunOfNewline(y: string)
    ensures DropRun("\n" + y, '\n') == DropRun(y, '\n')
  {
    assert ("\n" + y)[1..] == y;
  }

  lemma DropRunEntityStageOther(x: string)
    requires x != [] && x[0] != '\n'
    ensures DropRun(EntityStage(x), '\n') == EntityStage(DropRun(x, '\n'))
  {
    EntityStageOtherHead(x);
    DropRunOfOther(EntityStage([x[0]]), EntityStage(x[1..]));
  }

  lemma EntityStageOtherHead(x: string)
    requires x != [] && x[0] != '\n'
    ensures EntityStage(x) == EntityStage([x[0]]) + EntityStage(x[1..])
    ensures EntityStage([x[0]]) != [] && EntityStage([x[0]])[0] != '\n'
  {
    assert x == [x[0]] + x[1..];
    EntityStageConcat([x[0]], x[1..]);
    EntityStageNoNewline(x[0]);
  }

  lemma DropRunOfOther(e: string, y: string)
    requires e != [] && e[0] != '\n'
    ensures DropRun(e + y, '\n') == e + y
  {
    assert (e + y)[0] == e[0];
  }

  /** The deleting rules distribute over concatenation. */
  lemma DeletingConcat(a: string, b: string, c: char)
    ensures ReplaceRuns(a + b, c, []) == ReplaceRuns(a, c, []) + ReplaceRuns(b, c, [])
  {
    RunsToNothing(a + b, c);
    RunsToNothing(a, c);
    RunsToNothing(b, c);
    EachConcat(a, b, c, []);
  }

  lemma StripConcat(a: string, b: string)
    ensures Strip(a + b) == Strip(a) + Strip(b)
  {
    DeletingConcat(a, b, '\r');
    DeletingConcat(ReplaceRuns(a, '\r', ""), ReplaceRuns(b, '\r', ""), '\t');
  }

  lemma StripUntouched(a: string)
    requires '\r' !in a && '\t' !in a
    ensures Strip(a) == a
  {
    RunsPassPrefix(a, [], '\r', "");
    assert a + [] == a;
    RunsPassPrefix(a, [], '\t', "");
  }

  lemma StripOfChar(c: char)
    requires c != '\n'
    ensures Strip(EntityStage([c])) == EntityOf(c)
  {
    if c == '\r' || c == '\t' {
      StripOfBlank(c);
    } else if IsSpecial(c) {
      StripOfSpecial(c);
    } else {
      EntityStageChar(c);
      StripUntouched([c]);
    }
  }

  /** The entity of a special character holds no carriage return or tab. */
  lemma StripOfSpecial(c: char)
    requires IsSpecial(c)
    ensures Strip(EntityStage([c])) == EntityOf(c)
  {
    EntityStageOfSpecial(c);
    EntityOfClean(c);
    StripUntouched(EntityOf(c));
  }

  lemma EntityOfClean(c: char)
    requires IsSpecial(c)
    ensures '\r' !in EntityOf(c) && '\t' !in EntityOf(c)
  {
  }

  /** A carriage return or a tab is dropped by the strip stage. */
  lemma StripOfBlank(c: char)
    requires c == '\r' || c == '\t'
    ensures Strip(EntityStage([c])) == EntityOf(c)
  {
    EntityStageChar(c);
    var e := EntityStage([c]);
    RunsToNothing(e, '\r');
    EachSingle(c, '\r', []);
    RunsToNothing(ReplaceRuns(e, '\r', ""), '\t');
    EachSingle(c, '\t', []);
    assert ReplaceEach([], '\t', []) == [];
  }

  /** The three stages, composed. */
  function Staged(s: string): string {
    Strip(Newlines(EntityStage(s)))
  }

  lemma EntityStageNewlineHead(s: string)
    requires s != [] && s[0] == '\n'
    ensures EntityStage(s) == "\n" + EntityStage(s[1..])
  {
    assert s == "\n" + s[1..];
    EntityStageConcat("\n", s[1..]);
    EntityStageNewline();
  }

  lemma StripBreak(n: string)
    ensures Strip("<br/>" + n) == "<br/>" + Strip(n)
  {
    StripConcat("<br/>", n);
    StripUntouched("<br/>");
  }

  /** A newline run at the head becomes one `<br/>`. */
  lemma StagedNewlineHead(s: string)
    requires s != [] && s[0] == '\n'
    ensures Staged(s) == "<br/>" + Staged(DropRun(s, '\n'))
  {
    var x := EntityStage(s);
    EntityStageNewlineHead(s);
    assert x != [] && x[0] == '\n';
    assert Newlines(x) == "<br/>" + Newlines(DropRun(x, '\n'));
    DropRunEntityStage(s);
    StripBreak(Newlines(EntityStage(DropRun(s, '\n'))));
  }

  /** Any other character at the head becomes its entity. */
  lemma StagedOtherHead(s: string)
    requires s != [] && s[0] != '\n'
    ensures Staged(s) == EntityOf(s[0]) + Staged(s[1..])
  {
    var c, t := s[0], s[1..];
    assert s == [c] + t;
    EntityStageConcat([c], t);
    EntityStageNoNewline(c);
    var e := EntityStage([c]);
    RunsPassPrefix(e, EntityStage(t), '\n', "<br/>");
    StripConcat(e, Newlines(EntityStage(t)));
    StripOfChar(c);
  }

  lemma {:induction false} StagedIsOnePass(s: string)
    ensures Staged(s) == OnePass(s)
    decreases |s|
  {
    if s == [] {
      assert EntityStage(s) == [];
    } else if s[0] == '\n' {
      StagedNewlineHead(s);
      StagedIsOnePass(DropRun(s, '\n'));
    } else {
      StagedOtherHead(s);
      StagedIsOnePass(s[1..]);
    }
  }

  /** The nine-step pipeline and the one-pass reference agree on every string. */
  lemma PipelineIsOnePass(s: string)
    ensures Pipeline(EscapeMap, s) == OnePass(s)
  {
    PipelineStages(s);
    StagedIsOnePass(s);
  }

  /** `escapeHtml` is the one-pass reference applied to the trimmed input. */
  lemma EscapedIsOnePass(str: string)
    ensures Escaped(str) == OnePass(Trim(str))
  {
    PipelineIsOnePass(Trim(str));
  }

  // ---- What the output may contain ----

  /** A character that can appear in the output outside a `<br/>`. */
  predicate IsPlain(c: char) {
    c != '<' && c != '>' && c != '/' && c != '"' && c != '\'' && c != '\n' && c != '\r' && c != '\t'
  }

  /** The output read as a sequence of `<br/>` markers and plain characters. */
  predicate Tokenized(out: string)
    decreases |out|
  {
    out == []
    || (|out| >= 5 && out[..5] == "<br/>" && Tokenized(out[5..]))
    || (IsPlain(out[0]) && Tokenized(out[1..]))
  }

  /** No quote, newline, carriage return or tab. */
  predicate NoRawBreaksOrQuotes(out: string) {
    forall i :: 0 <= i < |out| ==>
      out[i] != '"' && out[i] != '\'' && out[i] != '\n' && out[i] != '\r' && out[i] != '\t'
  }

  /** A `<br/>` starts at index `j`. */
  predicate BreakAt(out: string, j: nat) {
    j + 5 <= |out| && out[j..j + 5] == "<br/>"
  }

  /** A `<`, `/` or `>` at index `i` sits at its place inside a `<br/>`. */
  predicate MarkupAt(out: string, i: nat)
    requires i < |out|
  {
    (out[i] == '<' ==> BreakAt(out, i))
    && (out[i] == '/' ==> 3 <= i && BreakAt(out, i - 3))
    && (out[i] == '>' ==> 4 <= i && BreakAt(out, i - 4))
  }

  /** Every `<`, `/` and `>` sits at its place inside a `<br/>`. */
  predicate MarkupOnlyInBreaks(out: string) {
    forall i :: 0 <= i < |out| ==> MarkupAt(out, i)
  }

  lemma {:induction false} PlainPrefix(a: string, y: string)
    requires forall k :: 0 <= k < |a| ==> IsPlain(a[k])
    requires Tokenized(y)
    ensures Tokenized(a + y)
  {
    if a == [] {
      assert a + y == y;
    } else {
      PlainPrefix(a[1..], y);
      assert (a + y)[1..] == a[1..] + y;
    }
  }

  lemma EntityIsPlain(c: char)
    requires c != '\n'
    ensures forall k :: 0 <= k < |EntityOf(c)| ==> IsPlain(EntityOf(c)[k])
  {
  }

  lemma {:induction false} OnePassTokenized(s: string)
    ensures Tokenized(OnePass(s))
    decreases |s|
  {
    if s != [] {
      if s[0] == '\n' {
        OnePassTokenized(DropRun(s, '\n'));
        var out := OnePass(s);
        assert out[..5] == "<br/>" && out[5..] == OnePass(DropRun(s, '\n'));
      } else {
        OnePassTokenized(s[1..]);
        EntityIsPlain(s[0]);
        PlainPrefix(EntityOf(s[0]), OnePass(s[1..]));
      }
    }
  }

  /** A `<br/>` in a suffix is a `<br/>` in the whole string. */
  lemma ShiftedBreak(out: string, y: string, d: nat, j: nat)
    requires d <= |out| && y == out[d..] && BreakAt(y, j)
    ensures BreakAt(out, j + d)
  {
    assert out[j + d..j + d + 5] == y[j..j + 5];
  }

  /** Markup in a suffix stays in place in the whole string. */
  lemma ShiftedMarkupAt(out: string, y: string, d: nat, i: nat)
    requires d <= i < |out| && y == out[d..] && MarkupAt(y, i - d)
    ensures MarkupAt(out, i)
  {
    var j := i - d;
    assert out[i] == y[j];
    if y[j] == '<' {
      ShiftedBreak(out, y, d, j);
    } else if y[j] == '/' {
      ShiftedBreak(out, y, d, j - 3);
    } else if y[j] == '>' {
      ShiftedBreak(out, y, d, j - 4);
    }
  }

  /** A `<br/>` marker in front keeps both output properties. */
  lemma BreakHeadChars(out: string)
    requires |out| >= 5 && out[..5] == "<br/>"
    ensures BreakAt(out, 0)
    ensures out[0] == '<' && out[1] == 'b' && out[2] == 'r' && out[3] == '/' && out[4] == '>'
  {
    assert out[..5] == out[0..5];
    assert forall k :: 0 <= k < 5 ==> out[k] == out[..5][k];
  }

  lemma BreakHeadShape(out: string, y: string)
    requires |out| >= 5 && out[..5] == "<br/>" && y == out[5..]
    requires NoRawBreaksOrQuotes(y) && MarkupOnlyInBreaks(y)
    ensures NoRawBreaksOrQuotes(out) && MarkupOnlyInBreaks(out)
  {
    BreakHeadChars(out);
    forall i | 5 <= i < |out|
      ensures out[i] != '"' && out[i] != '\'' && out[i] != '\n' && out[i] != '\r' && out[i] != '\t'
    {
      assert out[i] == y[i - 5];
    }
    forall i | 0 <= i < |out|
      ensures MarkupAt(out, i)
    {
      if 5 <= i {
        ShiftedMarkupAt(out, y, 5, i);
      }
    }
  }

  /** A plain character in front keeps both output properties. */
  lemma PlainHeadShape(out: string, y: string)
    requires out != [] && IsPlain(out[0]) && y == out[1..]
    requires NoRawBreaksOrQuotes(y) && MarkupOnlyInBreaks(y)
    ensures NoRawBreaksOrQuotes(out) && MarkupOnlyInBreaks(out)
  {
    forall i | 0 <= i < |out|
      ensures out[i] != '"' && out[i] != '\'' && out[i] != '\n' && out[i] != '\r' && out[i] != '\t'
    {
      if i > 0 {
        assert out[i] == y[i - 1];
      }
    }
    forall i | 0 <= i < |out|
      ensures MarkupAt(out, i)
    {
      if i > 0 {
        ShiftedMarkupAt(out, y, 1, i);
      }
    }
  }

  lemma {:induction false} TokenizedShape(out: string)
    requires Tokenized(out)
    ensures NoRawBreaksOrQuotes(out) && MarkupOnlyInBreaks(out)
    decreases |out|
  {
    if out == [] {
    } else if |out| >= 5 && out[..5] == "<br/>" && Tokenized(out[5..]) {
      TokenizedShape(out[5..]);
      BreakHeadShape(out, out[5..]);
    } else {
      TokenizedShape(out[1..]);
      PlainHeadShape(out, out[1..]);
    }
  }

  /**
   * The output of `escapeHtml` holds no quote, newline, carriage return or
   * tab, and its only `<`, `/` and `>` are those of inserted `<br/>` markers.
   */
  lemma EscapedCharacterClasses(str: string)
    ensures NoRawBreaksOrQuotes(Escaped(str))
    ensures MarkupOnlyInBreaks(Escaped(str))
  {
    EscapedIsOnePass(str);
    OnePassTokenized(Trim(str));
    TokenizedShape(Escaped(str));
  }

  /** Whitespace-only input escapes to the empty string. */
  lemma EscapedWhitespaceOnly(str: string)
    requires AllWhitespace(str)
    ensures Escaped(str) == []
  {
    TrimOfWhitespace(str);
    EscapedIsOnePass(str);
  }

  lemma OnePassOther(c: char, t: string)
    requires c != '\n'
    ensures OnePass([c] + t) == EntityOf(c) + OnePass(t)
  {
    assert ([c] + t)[1..] == t;
  }

  lemma OnePassNewline(t: string)
    requires t == [] || t[0] != '\n'
    ensures OnePass("\n" + t) == "<br/>" + OnePass(t)
  {
    assert DropRun("\n" + t, '\n') == DropRun(t, '\n') == t by {
      assert ("\n" + t)[1..] == t;
    }
  }

  lemma EscapedLiteral(s: string)
    requires s != [] && !IsWhitespace(s[0]) && !IsWhitespace(s[|s| - 1])
    ensures Escaped(s) == OnePass(s)
  {
    TrimOfTrimmed(s);
    EscapedIsOnePass(s);
  }

  /**
   * The example `"a\n\r\nb"` is proved in three steps: the one-pass
   * reference over any string of that shape, the escape of any such string,
   * and the literal text of the result.  The suffixes `t1`..`t5` are named
   * rather than written as literals, and the steps are kept apart, because
   * the solver needs far more work for the example as one proof.
   */
  lemma OnePassLineChain(a: char, b: char, t1: string, t2: string, t3: string, t4: string, t5: string)
    requires a != '\n' && b != '\n' && EntityOf(a) == [a] && EntityOf(b) == [b]
    requires t5 == [b] && t4 == ['\n'] + t5 && t3 == ['\r'] + t4 && t2 == ['\n'] + t3 && t1 == [a] + t2
    ensures OnePass(t1) == [a] + ("<br/>" + ("<br/>" + [b]))
  {
    var br := "<br/>";
    assert OnePass(t5) == [b] by {
      OnePassOther(b, []);
      assert t5 == [b] + [];
    }
    assert OnePass(t4) == br + [b] by {
      OnePassNewline(t5);
    }
    assert OnePass(t3) == br + [b] by {
      OnePassOther('\r', t4);
    }
    assert OnePass(t2) == br + (br + [b]) by {
      OnePassNewline(t3);
    }
    OnePassOther(a, t2);
  }

  lemma EscapedLineChain(a: char, b: char, s: string)
    requires a != '\n' && b != '\n' && EntityOf(a) == [a] && EntityOf(b) == [b]
    requires !IsWhitespace(a) && !IsWhitespace(b)
    requires s == [a] + (['\n'] + (['\r'] + (['\n'] + [b])))
    ensures Escaped(s) == [a] + ("<br/>" + ("<br/>" + [b]))
  {
    var t5 := [b];
    var t4 := ['\n'] + t5;
    var t3 := ['\r'] + t4;
    var t2 := ['\n'] + t3;
    assert s[0] == a && s[|s| - 1] == b;
    assert Escaped(s) == OnePass(s) by {
      EscapedLiteral(s);
    }
    OnePassLineChain(a, b, s, t2, t3, t4, t5);
  }

  /** A CR between two newlines still separates the runs: two markers. */
  lemma EscapedCrBetweenNewlines(s: string)
    requires s == "a\n\r\nb"
    ensures Escaped(s) == "a<br/><br/>b"
  {
    var out := ['a'] + ("<br/>" + ("<br/>" + ['b']));
    EscapedLineChain('a', 'b', s);
    LineChainText(out);
  }

  lemma LineChainText(out: string)
    requires out == ['a'] + ("<br/>" + ("<br/>" + ['b']))
    ensures out == "a<br/><br/>b"
  {
  }

  /** Ampersands are escaped before the other entities, so never twice. */
  lemma EscapedNoDoubleEscape(s: string)
    requires s == "&<"
    ensures Escaped(s) == "&amp&lt"
  {
    EscapedLiteral(s);
    OnePassOther('<', []);
    OnePassOther('&', "<");
    assert s == ['&'] + "<";
    assert "<" == ['<'] + [];
  }

  /** Running the `<` rule before the `&` rule would escape `<` as `&amplt`. */
  lemma ReorderedTableDoubleEscapes(swapped: seq<Rule>)
    requires swapped == [EscapeMap[1], EscapeMap[0]]
    ensures Pipeline(swapped, "<") == "&amplt"
  {
    assert swapped[1..][1..] == [];
    EachSingle('<', '<', "&lt");
    var lt := ReplaceAll(swapped[0], "<");
    assert lt == "&lt";
    assert Pipeline(swapped, "<") == Pipeline(swapped[1..], lt);
    assert lt == "&" + "lt";
    EachConcat("&", "lt", '&', "&amp");
    EachSingle('&', '&', "&amp");
    assert ReplaceEach("lt", '&', "&amp") == "lt";
  }
}
