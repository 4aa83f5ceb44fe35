/**
 Files on which erasing a preprocessor branch changes the nesting stack: a class head looks into the
 branch that is erased, and takes what it finds there for a sign of a template argument list.
 */
module ErasureExample {
  import opened Wrappers
  import opened Characters
  import opened LinePatterns
  import opened LineReading
  import opened Nesting
  import opened NestingErasure
  import opened TemplateLookahead

  // ----- lines that say little -----

  predicate HasNone(text: string, c: char) {
    forall i | 0 <= i < |text| :: text[i] != c
  }

  lemma {:induction false} NoneCounted(text: string, c: char)
    requires HasNone(text, c)
    ensures Count(text, c) == 0
  {
    if text != "" {
      NoneCounted(text[1..], c);
    }
  }

  lemma {:induction false} NoMark(text: string)
    requires forall i | 0 <= i < |text| :: !IsMark(text[i])
    ensures FirstMark(text) == None
  {
    if text != "" {
      NoMark(text[1..]);
    }
  }

  lemma {:induction false} NoAccess(text: string, until: nat)
    requires HasNone(text, ':') && until <= |text|
    ensures ReadAccess(text, until) == None
  {
    if until > 0 {
      NoAccess(text, until - 1);
    }
  }

  /** No brace, parenthesis, semicolon or colon stands on the line. */
  predicate IsQuiet(text: string) {
    forall i | 0 <= i < |text| :: !IsMark(text[i]) && text[i] != '(' && text[i] != ':'
  }

  lemma QuietReading(text: string)
    requires IsQuiet(text)
    ensures ReadRest(text) == Rest(None, []) && !HasBareColon(text)
    ensures Count(text, '(') == 0 && Count(text, ')') == 0
  {
    NoMark(text);
    NoAccess(text, |text|);
    NoneCounted(text, '(');
    NoneCounted(text, ')');
  }

  /** Such a line leaves the stack alone, but for a class that it begins. */
  lemma QuietEffect(stack: seq<Block>, line: Line)
    requires line.parentheses == 0 && line.namespaces == [] && !line.bareColon
    requires line.afterClass == line.whole == Rest(None, [])
    requires stack != [] ==> Top(stack).asm == NoAsm
    ensures Effect(stack, line) == PushClass(stack, line)
  {
    if stack != [] {
      var b := Top(stack);
      assert NextAsm(b, 0, line.asmHead) == NoAsm;
      assert SetTop(stack, b) == stack;
    }
    assert CountParentheses(stack, line) == stack;
  }

  predicate IsQuietSymbol(text: string) {
    IsQuiet(text) && text != "" && !IsWordChar(text[0]) && !IsSpace(text[0])
  }

  lemma QuietSymbolLine(src: seq<Source>, stack: seq<Block>)
    requires src != [] && IsQuietSymbol(src[0].text)
    requires stack != [] ==> Top(stack).asm == NoAsm
    ensures Effect(stack, ReadFirst(src, true)) == stack
  {
    SymbolLine(src[0].text);
    QuietReading(src[0].text);
    QuietEffect(stack, ReadFirst(src, true));
  }

  /** A line that holds nothing but a class head, up to end. */
  predicate IsHeadAlone(text: string, end: nat) {
    && ReadNamespaces(text) == ([], text)
    && ReadClassHead(text).Some? && ReadClassHead(text).value.end == end
    && IsQuiet(text)
  }

  lemma HeadReading(src: seq<Source>, end: nat)
    requires src != [] && IsHeadAlone(src[0].text, end)
    ensures var line := ReadFirst(src, true);
            && line.parentheses == 0 && line.namespaces == [] && !line.bareColon
            && line.afterClass == line.whole == Rest(None, [])
            && line.classHead.Some?
            && line.classHead.value.isTemplateArgument == InTemplateArguments(TextsOf(src), 0, end)
  {
    var text := src[0].text;
    assert forall i | end <= i < |text| :: text[end..][i - end] == text[i];
    QuietReading(text);
    QuietReading(text[end..]);
  }

  lemma HeadLine(src: seq<Source>, end: nat)
    requires src != [] && IsHeadAlone(src[0].text, end)
    ensures Effect([], ReadFirst(src, true)) == PushClass([], ReadFirst(src, true))
  {
    HeadReading(src, end);
    QuietEffect([], ReadFirst(src, true));
  }

  /** A line that opens one brace and does nothing else. */
  predicate IsBraceAlone(text: string) {
    && ReadNamespaces(text) == ([], text) && ReadClassHead(text) == None && !HasBareColon(text)
    && Count(text, '(') == Count(text, ')')
    && ReadRest(text).access == None && |ReadRest(text).tokens| == 1 && ReadRest(text).tokens[0].OpenBrace?
    && text != "" && SaysNo(text[0])
  }

  lemma BraceEffect(stack: seq<Block>, line: Line, token: Token)
    requires line.parentheses == 0 && line.namespaces == [] && line.classHead == None && !line.bareColon
    requires line.whole == Rest(None, [token]) && token.OpenBrace?
    requires stack == [] || (|stack| == 1 && Top(stack).asm == NoAsm && !Top(stack).seenOpenBrace)
    ensures var after := Effect(stack, line);
            |after| == 1 && (if stack == [] then !Top(after).kind.Class? else Top(after).kind == Top(stack).kind)
  {
    assert line.whole.tokens[1..] == [];
    assert ConsumeTokens(ConsumeToken(stack, token, line.number), [], line.number) == ConsumeToken(stack, token, line.number);
    if stack != [] {
      var b := Top(stack);
      assert SetTop(stack, b) == stack;
      assert CountParentheses(stack, line) == stack;
    }
  }

  lemma BraceLine(src: seq<Source>, stack: seq<Block>)
    requires src != [] && IsBraceAlone(src[0].text)
    requires stack == [] || (|stack| == 1 && Top(stack).asm == NoAsm && !Top(stack).seenOpenBrace)
    ensures var after := Effect(stack, ReadFirst(src, true));
            |after| == 1 && (if stack == [] then !Top(after).kind.Class? else Top(after).kind == Top(stack).kind)
  {
    var line := ReadFirst(src, true);
    assert line.whole.tokens == [line.whole.tokens[0]];
    BraceEffect(stack, line, line.whole.tokens[0]);
  }

  // ----- the kept lines -----

  lemma RunFour(stack: seq<Block>, a: Line, b: Line, c: Line, d: Line)
    requires a.directive == b.directive == c.directive == d.directive == NoDirective
    ensures Run(State(stack, []), [a, b, c, d]).stack == Effect(Effect(Effect(Effect(stack, a), b), c), d)
  {
    var st := State(stack, []);
    RunConcat(st, [a, b], [c, d]);
    RunConcat(st, [a], [b]);
    RunConcat(Run(st, [a, b]), [c], [d]);
    RunOne(st, a);
    RunOne(Update(st, a), b);
    RunOne(Run(st, [a, b]), c);
    RunOne(Update(Run(st, [a, b]), c), d);
    assert [a, b] + [c, d] == [a, b, c, d] && [a] + [b] == [a, b] && [c] + [d] == [c, d];
  }

  lemma ReadFour(src: seq<Source>)
    requires |src| == 4
    ensures ReadAll(src, true) ==
            [ReadFirst(src, true), ReadFirst(src[1..], true), ReadFirst(src[2..], true), ReadFirst(src[3..], true)]
  {
    ReadAllAt(src, true, 0);
    ReadAllAt(src, true, 1);
    ReadAllAt(src, true, 2);
    ReadAllAt(src, true, 3);
    assert src[0..] == src;
    AreFour(ReadAll(src, true), ReadFirst(src, true), ReadFirst(src[1..], true), ReadFirst(src[2..], true), ReadFirst(src[3..], true));
  }

  lemma AreFour(lines: seq<Line>, a: Line, b: Line, c: Line, d: Line)
    requires |lines| == 4 && lines[0] == a && lines[1] == b && lines[2] == c && lines[3] == d
    ensures lines == [a, b, c, d]
  {
  }

  /** The stack is one class or one plain block. */
  predicate IsOneBlock(stack: seq<Block>, isClass: bool) {
    |stack| == 1 && (Top(stack).kind.Class? <==> isClass)
  }

  /** A class head that is taken if it can be, two lines that do nothing, and a brace. */
  lemma RunHead(a: Line, b: Line, c: Line, d: Line)
    requires a.directive == b.directive == c.directive == d.directive == NoDirective && a.classHead.Some?
    requires Effect([], a) == PushClass([], a)
    requires Effect(PushClass([], a), b) == PushClass([], a) && Effect(PushClass([], a), c) == PushClass([], a)
    requires IsOneBlock(Effect(PushClass([], a), d), PushClass([], a) != [])
    ensures IsOneBlock(Run(State([], []), [a, b, c, d]).stack, !a.classHead.value.isTemplateArgument)
  {
    RunFour([], a, b, c, d);
  }

  lemma StackOfFour(src: seq<Source>, a: Line, b: Line, c: Line, d: Line)
    requires ReadAll(src, true) == [a, b, c, d]
    ensures StackOf(src, true) == Run(State([], []), [a, b, c, d]).stack
  {
  }

  lemma BraceBehindHead(src: seq<Source>, head: Line)
    requires src != [] && IsBraceAlone(src[0].text)
    ensures IsOneBlock(Effect(PushClass([], head), ReadFirst(src, true)), PushClass([], head) != [])
  {
    BraceLine(src, PushClass([], head));
  }

  /** What they lead to is up to the verdict. */
  lemma KeptLines(src: seq<Source>, end: nat)
    requires |src| == 4 && IsHeadAlone(src[0].text, end)
    requires src[0].directive == src[1].directive == src[2].directive == src[3].directive == NoDirective
    requires IsQuietSymbol(src[1].text) && IsQuietSymbol(src[2].text) && IsBraceAlone(src[3].text)
    ensures IsOneBlock(StackOf(src, true), !InTemplateArguments(TextsOf(src), 0, end))
  {
    HeadReading(src, end);
    HeadLine(src, end);
    var a := ReadFirst(src, true);
    QuietSymbolLine(src[1..], PushClass([], a));
    QuietSymbolLine(src[2..], PushClass([], a));
    BraceBehindHead(src[3..], a);
    ReadFour(src);
    RunHead(a, ReadFirst(src[1..], true), ReadFirst(src[2..], true), ReadFirst(src[3..], true));
    StackOfFour(src, a, ReadFirst(src[1..], true), ReadFirst(src[2..], true), ReadFirst(src[3..], true));
  }

  // ----- the whole file -----

  /** No block is on the stack or in a checkpoint. */
  predicate HoldsNothing(st: State) {
    st.stack == [] && forall c | c in st.pp :: c.beforeIf == [] && c.beforeElse == []
  }

  lemma NothingStays(st: State, line: Line)
    requires HoldsNothing(st) && Effect([], line) == []
    ensures HoldsNothing(Update(st, line))
  {
  }

  lemma {:induction false} NothingRuns(st: State, lines: seq<Line>)
    requires HoldsNothing(st) && forall i | 0 <= i < |lines| :: Effect([], lines[i]) == []
    ensures HoldsNothing(Run(st, lines))
    decreases |lines|
  {
    if lines != [] {
      NothingStays(st, lines[0]);
      NothingRuns(Update(st, lines[0]), lines[1..]);
    }
  }

  /** A head that is taken for a template argument, lines that do nothing, and a brace. */
  lemma WholeLines(src: seq<Source>, end: nat)
    requires |src| == 6 && IsHeadAlone(src[0].text, end) && InTemplateArguments(TextsOf(src), 0, end)
    requires forall i | 1 <= i < 5 :: IsQuietSymbol(src[i].text)
    requires IsBraceAlone(src[5].text) && src[5].directive == NoDirective
    ensures IsOneBlock(StackOf(src, true), false)
  {
    var lines := ReadAll(src, true);
    forall i | 0 <= i < 5 ensures Effect([], lines[i]) == [] {
      WholeLine(src, end, i);
    }
    ReadAllAt(src, true, 5);
    assert src[5..][0] == src[5];
    BraceLine(src[5..], []);
    RunSix(lines);
  }

  lemma RunSix(lines: seq<Line>)
    requires |lines| == 6 && lines[5].directive == NoDirective && IsOneBlock(Effect([], lines[5]), false)
    requires forall i | 0 <= i < 5 :: Effect([], lines[i]) == []
    ensures IsOneBlock(Run(State([], []), lines).stack, false)
  {
    var start := State([], []);
    NothingRuns(start, lines[..5]);
    RunConcat(start, lines[..5], [lines[5]]);
    RunOne(Run(start, lines[..5]), lines[5]);
    assert lines == lines[..5] + [lines[5]];
  }

  lemma WholeLine(src: seq<Source>, end: nat, i: nat)
    requires |src| == 6 && IsHeadAlone(src[0].text, end) && InTemplateArguments(TextsOf(src), 0, end) && i < 5
    requires i > 0 ==> IsQuietSymbol(src[i].text)
    ensures Effect([], ReadAll(src, true)[i]) == []
  {
    ReadAllAt(src, true, i);
    assert src[i..][0] == src[i] && src[0..] == src;
    if i == 0 {
      HeadReading(src, end);
      HeadLine(src, end);
    } else {
      QuietSymbolLine(src[i..], []);
    }
  }

  // ----- which lines are kept -----

  lemma FollowOne(open: Conditionals, x: Source, rest: seq<Source>)
    ensures FollowAll(open, DirectivesOf([x] + rest)) == FollowAll(Follow(open, x.directive), DirectivesOf(rest))
  {
    assert ([x] + rest)[1..] == rest;
    assert DirectivesOf([x] + rest)[1..] == DirectivesOf(rest);
  }

  /** A line that is kept, and one that is not, with what is open behind them. */
  lemma KeptFirst(open: Conditionals, open': Conditionals, x: Source, rest: seq<Source>, kept: seq<Source>)
    requires Follow(open, x.directive) == open' && true !in open' && KeptOf(open', rest) == kept
    ensures KeptOf(open, [x] + rest) == [Silent(x)] + kept
    ensures FollowAll(open, DirectivesOf([x] + rest)) == FollowAll(open', DirectivesOf(rest))
  {
    KeptOne(open, x, rest);
    FollowOne(open, x, rest);
  }

  lemma ErasedFirst(open: Conditionals, open': Conditionals, x: Source, rest: seq<Source>, kept: seq<Source>)
    requires Follow(open, x.directive) == open' && true in open' && KeptOf(open', rest) == kept
    ensures KeptOf(open, [x] + rest) == kept
    ensures FollowAll(open, DirectivesOf([x] + rest)) == FollowAll(open', DirectivesOf(rest))
  {
    KeptOne(open, x, rest);
    FollowOne(open, x, rest);
    assert [] + kept == kept;
  }

  lemma KeptOfThree(d: Source, e: Source, f: Source)
    requires d.directive == f.directive == NoDirective && e.directive == Endif
    ensures KeptOf([true], [d, e, f]) == [Silent(e), Silent(f)]
    ensures FollowAll([true], DirectivesOf([d, e, f])) == []
  {
    KeptFirst([], [], f, [], []);
    assert [f] + [] == [f] && [Silent(f)] + [] == [Silent(f)];
    KeptFirst([true], [], e, [f], [Silent(f)]);
    assert [e] + [f] == [e, f] && [Silent(e)] + [Silent(f)] == [Silent(e), Silent(f)];
    ErasedFirst([true], [true], d, [e, f], [Silent(e), Silent(f)]);
    assert [d] + [e, f] == [d, e, f];
  }

  lemma KeptOfElse(c: Source, rest: seq<Source>)
    requires c.directive == Else
    ensures KeptOf([false], [c] + rest) == KeptOf([true], rest)
    ensures FollowAll([false], DirectivesOf([c] + rest)) == FollowAll([true], DirectivesOf(rest))
  {
    assert Follow([false], Else) == [true];
    ErasedFirst([false], [true], c, rest, KeptOf([true], rest));
  }

  lemma KeptOfIf(b: Source, rest: seq<Source>)
    requires b.directive == If
    ensures KeptOf([], [b] + rest) == [Silent(b)] + KeptOf([false], rest)
    ensures FollowAll([], DirectivesOf([b] + rest)) == FollowAll([false], DirectivesOf(rest))
  {
    assert Follow([], If) == [false];
    KeptFirst([], [false], b, rest, KeptOf([false], rest));
  }

  lemma KeptOfPlain(a: Source, rest: seq<Source>)
    requires a.directive == NoDirective
    ensures KeptOf([], [a] + rest) == [Silent(a)] + KeptOf([], rest)
    ensures FollowAll([], DirectivesOf([a] + rest)) == FollowAll([], DirectivesOf(rest))
  {
    KeptFirst([], [], a, rest, KeptOf([], rest));
  }

  // ----- the verdicts -----

  predicate HasNoSign(text: string) {
    text != "" && forall j | 0 <= j < |text| :: !IsSign(text[j])
  }

  lemma SkipsTo(lines: seq<string>, l: nat)
    requires l < |lines| && HasNoSign(lines[l])
    ensures InTemplateArguments(lines, l, 0) == InTemplateArguments(lines, l + 1, 0)
  {
  }

  /** From the end of the first line over two lines without a sign to the one that decides. */
  lemma VerdictOfFourth(lines: seq<string>)
    requires |lines| > 3 && HasNoSign(lines[1]) && HasNoSign(lines[2]) && lines[3] != ""
    requires SaysYes(lines[3][0]) || SaysNo(lines[3][0])
    ensures InTemplateArguments(lines, 0, |lines[0]|) <==> SaysYes(lines[3][0])
  {
    SkipsTo(lines, 1);
    SkipsTo(lines, 2);
    assert SignFrom(lines[3], 0) == 0;
  }

  // ----- the theorem -----

  /** A line, a conditional around nothing and one line, and a line. */
  predicate HasElseBranch(src: seq<Source>) {
    && |src| == 6
    && src[0].directive == src[3].directive == src[5].directive == NoDirective
    && src[1].directive == If && src[2].directive == Else && src[4].directive == Endif
  }

  /** A class head, and a conditional whose other branch begins with a sign that speaks for a list. */
  predicate Misleads(src: seq<Source>) {
    && HasElseBranch(src)
    && IsHeadAlone(src[0].text, |src[0].text|) && IsBraceAlone(src[5].text)
    && (forall i | 1 <= i < 5 :: IsQuietSymbol(src[i].text))
    && HasNoSign(src[1].text) && HasNoSign(src[2].text) && HasNoSign(src[4].text)
    && SaysYes(src[3].text[0])
  }

  lemma KeptOfSix(a: Source, b: Source, c: Source, d: Source, e: Source, f: Source)
    requires a.directive == d.directive == f.directive == NoDirective
    requires b.directive == If && c.directive == Else && e.directive == Endif
    ensures Closed([a, b, c, d, e, f]) && KeptOf([], [a, b, c, d, e, f]) == [Silent(a), Silent(b), Silent(e), Silent(f)]
  {
    KeptOfThree(d, e, f);
    KeptOfElse(c, [d, e, f]);
    assert [c] + [d, e, f] == [c, d, e, f];
    KeptOfIf(b, [c, d, e, f]);
    assert [b] + [c, d, e, f] == [b, c, d, e, f];
    KeptOfPlain(a, [b, c, d, e, f]);
    assert [a] + [b, c, d, e, f] == [a, b, c, d, e, f];
  }

  lemma KeptOfElseBranch(src: seq<Source>)
    requires HasElseBranch(src)
    ensures Closed(src) && KeptOf([], src) == [src[0], Silent(src[1]), Silent(src[4]), src[5]]
  {
    KeptOfSix(src[0], src[1], src[2], src[3], src[4], src[5]);
    assert src == [src[0], src[1], src[2], src[3], src[4], src[5]];
  }

  lemma WholeOfMisleading(src: seq<Source>)
    requires Misleads(src)
    ensures IsOneBlock(StackOf(src, true), false)
  {
    VerdictOfFourth(TextsOf(src));
    WholeLines(src, |src[0].text|);
  }

  lemma KeptOfMisleadingStack(src: seq<Source>, kept: seq<Source>)
    requires Misleads(src) && kept == [src[0], Silent(src[1]), Silent(src[4]), src[5]]
    ensures IsOneBlock(StackOf(kept, true), true)
  {
    VerdictOfFourth(TextsOf(kept));
    KeptLines(kept, |src[0].text|);
  }

  /** On every such file the whole text ends in a plain block, and the kept lines in a class. */
  lemma ErasureChangesTheStack(src: seq<Source>)
    requires Misleads(src)
    ensures Closed(src) && IsOneBlock(StackOf(src, true), false) && IsOneBlock(StackOf(KeptOf([], src), true), true)
  {
    KeptOfElseBranch(src);
    WholeOfMisleading(src);
    KeptOfMisleadingStack(src, KeptOf([], src));
  }

  // ----- such a file -----

  /** A line that begins with something other than a space or a word has no head. */
  lemma SymbolLine(text: string)
    requires text != "" && !IsWordChar(text[0]) && !IsSpace(text[0])
    ensures HeadOn(text) == None && ReadNamespaces(text) == ([], text)
  {
    assert text[0..] == text && FirstWord(text) == "";
    assert |text| >= 8 ==> text[0..8][0] == text[0] != "template"[0];
  }

  lemma WordIs(s: string, n: nat)
    requires n <= |s| && (forall i | 0 <= i < n :: IsWordChar(s[i])) && (n == |s| || !IsWordChar(s[n]))
    ensures FirstWord(s) == s[..n]
  {
    RunIs(s, n);
  }

  lemma {:induction false} RunIs(s: string, n: nat)
    requires n <= |s| && (forall i | 0 <= i < n :: IsWordChar(s[i])) && (n == |s| || !IsWordChar(s[n]))
    ensures WordRun(s) == n
  {
    if n > 0 {
      RunIs(s[1..], n - 1);
    }
  }

  /** A line that begins with this head, and goes on with something that is no part of it. */
  predicate IsFooLine(line: string) {
    && |line| >= 9 && line[..9] == "class Foo"
    && (|line| > 9 ==> !IsWordChar(line[9]) && line[9] != ':')
    && (SpaceEnd(line, 9) < |line| ==> !IsWordChar(line[SpaceEnd(line, 9)]))
  }

  lemma FooParts(line: string)
    requires |line| >= 9 && line[..9] == "class Foo"
    ensures line[0] == 'c' && line[5] == ' ' && line[6] == 'F' && line[7] == 'o' && line[8] == 'o'
    ensures line[0..5] == "class" && line[6..9] == "Foo"
    ensures forall k | 0 <= k < 9 && k != 5 :: IsWordChar(line[k])
  {
    var head := "class Foo";
    assert forall k | 0 <= k < 9 :: line[k] == line[..9][k] == head[k];
    assert line[0..5] == line[..9][0..5] && line[6..9] == line[..9][6..9];
    assert head[0..5] == "class" && head[6..9] == "Foo";
  }

  lemma FooWords(line: string)
    requires IsFooLine(line)
    ensures WordEnd(line, 0) == 5 && WordEnd(line, 6) == 9 && SpaceEnd(line, 0) == 0 && SpaceEnd(line, 5) == 6
    ensures WordRun(line) == 5
  {
    FooParts(line);
    WordEndIs(line, 0, 5);
    WordEndIs(line, 6, 9);
    SpaceEndIs(line, 5, 6);
    RunIs(line, 5);
  }

  lemma FooHead(line: string)
    requires IsFooLine(line)
    ensures ClassAt(line, 0) == Some(FoundHead("Foo", false, 9))
  {
    FooParts(line);
    FooWords(line);
    assert LastWordOf(line, 6) == 6;
    assert !HasAt(line, 9, "::") by {
      if 11 <= |line| {
        assert line[9..11][0] == line[9];
      }
    }
    assert QualifiedEnd(line, 9) == 9;
  }

  /** It is a class line, with this head and no other. */
  lemma FooLine(line: string)
    requires IsFooLine(line)
    ensures DirectiveOf(line) == NoDirective && NamespaceAt(line) == None && ReadNamespaces(line) == ([], line)
    ensures ReadClassHead(line) == Some(FoundHead("Foo", false, 9))
  {
    FooParts(line);
    FooWords(line);
    FooHead(line);
    assert TrimLeft(line) == line;
    assert FirstWord(line) == line[0..5];
    assert !HasAt(line, 0, "template") by {
      if 8 <= |line| {
        assert line[0..8][0] == line[0];
      }
    }
  }

  lemma ExampleHead()
    ensures ReadClassHead("class Foo") == Some(FoundHead("Foo", false, 9))
    ensures ReadNamespaces("class Foo") == ([], "class Foo")
  {
    assert "class Foo"[..9] == "class Foo";
    FooLine("class Foo");
  }

  lemma FooIsHeadAlone(text: string)
    requires text == "class Foo"
    ensures IsHeadAlone(text, 9)
  {
    ExampleHead();
    ExampleIsQuiet(text);
  }

  lemma ExampleIsQuiet(text: string)
    requires text == "class Foo"
    ensures IsQuiet(text)
  {
  }

  lemma BraceIsAlone()
    ensures IsBraceAlone("{")
  {
    SymbolLine("{");
    NoneCounted("{", '(');
    NoneCounted("{", ')');
    NoAccess("{", 1);
    assert "{"[1..] == "";
    assert ReadTokens("{") == [TokenFor("{", '{')];
  }

  lemma DirectiveIs(line: string, n: nat)
    requires 0 < n < |line| && line[0] == '#'
    requires (forall i | 1 <= i <= n :: IsWordChar(line[i])) && (n + 1 == |line| || !IsWordChar(line[n + 1]))
    ensures FirstWord(TrimLeft(TrimLeft(line)[1..])) == line[1..n + 1]
    ensures TrimLeft(line) == line
  {
    assert TrimLeft(line) == line;
    var s := line[1..];
    assert s[0] == line[1] && TrimLeft(s) == s;
    WordIs(s, n);
    assert s[..n] == line[1..n + 1];
  }

  lemma DirectivesFound()
    ensures DirectiveOf("#if A") == If && DirectiveOf("#else") == Else && DirectiveOf("#endif") == Endif
  {
    DirectiveIs("#if A", 2);
    DirectiveIs("#else", 4);
    DirectiveIs("#endif", 5);
    assert "#if A"[1..3] == "if" && "#else"[1..5] == "else" && "#endif"[1..6] == "endif";
  }

  lemma NoDirectives(text: string)
    requires text == "class Foo" || text == "[[x]]" || text == "{"
    ensures DirectiveOf(text) == NoDirective
  {
    assert TrimLeft(text) == text;
  }

  lemma QuietSymbols()
    ensures IsQuietSymbol("#if A") && IsQuietSymbol("#else") && IsQuietSymbol("[[x]]") && IsQuietSymbol("#endif")
    ensures HasNoSign("#if A") && HasNoSign("#else") && HasNoSign("#endif")
  {
  }

  function Example(): seq<Source> {
    [Source(0, "class Foo", NoDirective), Source(1, "#if A", If), Source(2, "#else", Else),
     Source(3, "[[x]]", NoDirective), Source(4, "#endif", Endif), Source(5, "{", NoDirective)]
  }

  lemma ReadSix(a: string, b: string, c: string, d: string, e: string, f: string)
    ensures SourcesOf([a, b, c, d, e, f]) ==
            [Source(0, a, DirectiveOf(a)), Source(1, b, DirectiveOf(b)), Source(2, c, DirectiveOf(c)),
             Source(3, d, DirectiveOf(d)), Source(4, e, DirectiveOf(e)), Source(5, f, DirectiveOf(f))]
  {
  }

  lemma ExampleIsRead()
    ensures SourcesOf(["class Foo", "#if A", "#else", "[[x]]", "#endif", "{"]) == Example()
  {
    DirectivesFound();
    NoDirectives("class Foo");
    NoDirectives("[[x]]");
    NoDirectives("{");
    ReadSix("class Foo", "#if A", "#else", "[[x]]", "#endif", "{");
  }

  lemma MisleadsWith(src: seq<Source>)
    requires HasElseBranch(src)
    requires IsHeadAlone(src[0].text, |src[0].text|) && IsBraceAlone(src[5].text)
    requires IsQuietSymbol(src[1].text) && IsQuietSymbol(src[2].text) && IsQuietSymbol(src[3].text) && IsQuietSymbol(src[4].text)
    requires HasNoSign(src[1].text) && HasNoSign(src[2].text) && HasNoSign(src[4].text) && SaysYes(src[3].text[0])
    ensures Misleads(src)
  {
  }

  lemma ExampleMisleads()
    ensures SourcesOf(["class Foo", "#if A", "#else", "[[x]]", "#endif", "{"]) == Example() && Misleads(Example())
  {
    ExampleIsRead();
    FooIsHeadAlone("class Foo");
    BraceIsAlone();
    QuietSymbols();
    MisleadsWith(Example());
  }
}
