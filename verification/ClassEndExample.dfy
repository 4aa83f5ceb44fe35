/**
 Files on which erasing a preprocessor branch moves the line on which a class seems to end: the
 braces are even only in the branch that is erased.
 */
module ClassEndExample {
  import opened Wrappers
  import opened Characters
  import opened LinePatterns
  import opened LineReading
  import opened Nesting
  import opened NestingErasure
  import opened ErasureExample
  import opened TemplateLookahead

  // ----- a class head with its brace -----

  /** A line that holds nothing but a class head and the brace behind it. */
  predicate IsOpenHead(text: string, end: nat) {
    && ReadNamespaces(text) == ([], text) && !HasBareColon(text)
    && ReadClassHead(text).Some? && ReadClassHead(text).value.end == end <= |text|
    && Count(text, '(') == Count(text, ')')
    && LookAhead([text], 0, end) == Decided(false)
    && IsBraceRest(ReadRest(text[end..]))
  }

  predicate IsBraceRest(rest: Rest) {
    rest.access == None && |rest.tokens| == 1 && rest.tokens[0].OpenBrace?
  }

  lemma {:induction false} HeadIsNoArgument(src: seq<Source>, end: nat)
    requires src != [] && LookAhead([src[0].text], 0, end) == Decided(false)
    ensures !InTemplateArguments(TextsOf(src), 0, end)
  {
    VerdictOfPrefix([src[0].text], TextsOf(src[1..]), 0, end);
    assert TextsOf(src) == [src[0].text] + TextsOf(src[1..]);
  }

  lemma {:induction false} OpenHeadReading(src: seq<Source>, end: nat)
    requires src != [] && IsOpenHead(src[0].text, end)
    ensures var line := ReadFirst(src, true);
            && line.parentheses == 0 && line.namespaces == [] && !line.bareColon && IsBraceRest(line.afterClass)
            && line.classHead.Some? && !line.classHead.value.isTemplateArgument
            && line.classHead.value.lastLine == (if ClassEnd(src, 0).Some? then ClassEnd(src, 0).value else 0)
  {
    HeadIsNoArgument(src, end);
  }

  lemma OpenHeadEffect(line: Line)
    requires line.parentheses == 0 && line.namespaces == [] && !line.bareColon && IsBraceRest(line.afterClass)
    requires line.classHead.Some? && !line.classHead.value.isTemplateArgument
    ensures var block := ClassBlock(line.classHead.value, line.number).(seenOpenBrace := true);
            Effect([], line) == [block]
  {
    var token := line.afterClass.tokens[0];
    assert line.afterClass.tokens == [token] && [token][1..] == [];
    var begun := [ClassBlock(line.classHead.value, line.number)];
    assert PushClass([], line) == begun && CheckBegin(begun, line) == begun;
    assert ConsumeTokens(begun, [token], line.number) == ConsumeToken(begun, token, line.number);
  }

  /** What such a line leads to, with the end that is found for its class. */
  lemma {:induction false} OpenHeadStack(src: seq<Source>, end: nat)
    requires src != [] && IsOpenHead(src[0].text, end)
    ensures var stack := Effect([], ReadFirst(src, true));
            && |stack| == 1 && Top(stack).asm == NoAsm && Top(stack).kind.Class?
            && Top(stack).lastLine == if ClassEnd(src, 0).Some? then ClassEnd(src, 0).value else 0
  {
    OpenHeadReading(src, end);
    OpenHeadEffect(ReadFirst(src, true));
  }

  // ----- the runs -----

  lemma RunFourSteps(st: State, b: Line, c: Line, d: Line, e: Line)
    ensures Run(st, [b, c, d, e]) == Update(Update(Update(Update(st, b), c), d), e)
  {
    RunConcat(st, [b, c], [d, e]);
    RunConcat(st, [b], [c]);
    RunConcat(Run(st, [b, c]), [d], [e]);
    RunOne(st, b);
    RunOne(Update(st, b), c);
    RunOne(Run(st, [b, c]), d);
    RunOne(Update(Run(st, [b, c]), d), e);
    assert [b, c] + [d, e] == [b, c, d, e] && [b] + [c] == [b, c] && [d] + [e] == [d, e];
  }

  lemma QuietUpdate(st: State, line: Line, st': State)
    requires Preprocess(st, line.directive) == st' && Effect(st'.stack, line) == st'.stack
    ensures Update(st, line) == st'
  {
  }

  lemma BranchesPreprocess(stack: seq<Block>)
    ensures Preprocess(State(stack, []), If) == State(stack, [Checkpoint(stack, [], false)])
    ensures Preprocess(State(stack, [Checkpoint(stack, [], false)]), Else) == State(stack, [Checkpoint(stack, stack, true)])
  {
  }

  lemma UpToElse(stack: seq<Block>, b: Line, c: Line)
    requires b.directive == If && c.directive == Else && Effect(stack, b) == Effect(stack, c) == stack
    ensures Update(Update(State(stack, []), b), c) == State(stack, [Checkpoint(stack, stack, true)])
  {
    BranchesPreprocess(stack);
    QuietUpdate(State(stack, []), b, State(stack, [Checkpoint(stack, [], false)]));
    QuietUpdate(State(stack, [Checkpoint(stack, [], false)]), c, State(stack, [Checkpoint(stack, stack, true)]));
  }

  lemma FromElse(stack: seq<Block>, d: Line, e: Line)
    requires d.directive == NoDirective && e.directive == Endif && Effect(stack, e) == stack
    ensures Update(Update(State(stack, [Checkpoint(stack, stack, true)]), d), e).stack == stack
  {
    var saved := Checkpoint(stack, stack, true);
    assert Update(State(stack, [saved]), d).pp == [saved];
    assert [saved][0] == saved;
  }

  /** A conditional whose own lines do nothing leads back to where it began, whatever its other branch does. */
  lemma RunBranch(stack: seq<Block>, b: Line, c: Line, d: Line, e: Line)
    requires b.directive == If && c.directive == Else && d.directive == NoDirective && e.directive == Endif
    requires Effect(stack, b) == Effect(stack, c) == Effect(stack, e) == stack
    ensures Run(State(stack, []), [b, c, d, e]).stack == stack
  {
    RunFourSteps(State(stack, []), b, c, d, e);
    UpToElse(stack, b, c);
    FromElse(stack, d, e);
  }

  lemma RunHeadFirst(a: Line, lines: seq<Line>)
    requires a.directive == NoDirective
    ensures Run(State([], []), [a] + lines) == Run(State(Effect([], a), []), lines)
  {
    RunConcat(State([], []), [a], lines);
    RunOne(State([], []), a);
  }

  lemma RunTwo(stack: seq<Block>, b: Line, e: Line)
    requires b.directive == e.directive == NoDirective && Effect(stack, b) == Effect(stack, e) == stack
    ensures Run(State(stack, []), [b, e]).stack == stack
  {
    var st := State(stack, []);
    RunConcat(st, [b], [e]);
    RunOne(st, b);
    RunOne(Update(st, b), e);
    assert [b] + [e] == [b, e];
  }

  // ----- the ends -----

  lemma QuietCounts(text: string)
    requires IsQuiet(text)
    ensures Count(text, '{') == Count(text, '}') == 0
  {
    NoneCounted(text, '{');
    NoneCounted(text, '}');
  }

  lemma EndOne(x: Source, rest: seq<Source>, depth: int)
    ensures var depth' := depth + Count(x.text, '{') - Count(x.text, '}');
            ClassEnd([x] + rest, depth) == if depth' == 0 then Some(x.number) else ClassEnd(rest, depth')
  {
    assert ([x] + rest)[1..] == rest;
  }

  /** The braces are first even behind line d. */
  lemma EndAt(a: Source, b: Source, c: Source, d: Source, rest: seq<Source>)
    requires Opens(a.text) && IsQuiet(b.text) && IsQuiet(c.text) && Closes(d.text)
    ensures ClassEnd([a] + ([b] + ([c] + ([d] + rest))), 0) == Some(d.number)
  {
    QuietCounts(b.text);
    QuietCounts(c.text);
    EndOne(d, rest, 1);
    EndOne(c, [d] + rest, 1);
    EndOne(b, [c] + ([d] + rest), 1);
    EndOne(a, [b] + ([c] + ([d] + rest)), 0);
  }

  lemma EndOfFive(a: Source, b: Source, c: Source, d: Source, e: Source)
    requires Opens(a.text) && IsQuiet(b.text) && IsQuiet(c.text) && Closes(d.text)
    ensures ClassEnd([a, b, c, d, e], 0) == Some(d.number)
  {
    EndAt(a, b, c, d, [e]);
    assert [a, b, c, d, e] == [a] + ([b] + ([c] + ([d] + [e])));
  }

  lemma NoEnd(a: Source, b: Source, e: Source)
    requires Opens(a.text) && IsQuiet(b.text) && IsQuiet(e.text)
    ensures ClassEnd([a, b, e], 0) == None
  {
    QuietCounts(b.text);
    QuietCounts(e.text);
    EndOne(e, [], 1);
    EndOne(b, [e] + [], 1);
    EndOne(a, [b] + ([e] + []), 0);
    assert [a, b, e] == [a] + ([b] + ([e] + []));
  }

  predicate Opens(text: string) {
    Count(text, '{') == Count(text, '}') + 1
  }

  predicate Closes(text: string) {
    Count(text, '}') == Count(text, '{') + 1
  }

  // ----- the theorem -----

  /** The lines of a conditional whose branches hold nothing and one line, behind another line. */
  predicate HasShortBranch(a: Source, b: Source, c: Source, d: Source, e: Source) {
    a.directive == d.directive == NoDirective && b.directive == If && c.directive == Else && e.directive == Endif
  }

  /** A class head with its brace, and a conditional whose other branch closes it. */
  predicate Misplaces(a: Source, b: Source, c: Source, d: Source, e: Source, end: nat) {
    && HasShortBranch(a, b, c, d, e)
    && IsOpenHead(a.text, end) && Opens(a.text)
    && IsQuietSymbol(b.text) && IsQuietSymbol(c.text) && IsQuietSymbol(e.text)
    && Closes(d.text)
  }

  lemma KeptOfFive(a: Source, b: Source, c: Source, d: Source, e: Source)
    requires HasShortBranch(a, b, c, d, e)
    ensures Closed([a, b, c, d, e]) && KeptOf([], [a, b, c, d, e]) == [Silent(a), Silent(b), Silent(e)]
  {
    KeptOfTwo(d, e);
    KeptOfElse(c, [d, e]);
    assert [c] + [d, e] == [c, d, e];
    KeptOfIf(b, [c, d, e]);
    assert [b] + [c, d, e] == [b, c, d, e];
    KeptOfPlain(a, [b, c, d, e]);
    assert [a] + [b, c, d, e] == [a, b, c, d, e];
  }

  lemma KeptOfTwo(d: Source, e: Source)
    requires d.directive == NoDirective && e.directive == Endif
    ensures KeptOf([true], [d, e]) == [Silent(e)] && FollowAll([true], DirectivesOf([d, e])) == []
  {
    KeptFirst([true], [], e, [], []);
    assert [e] + [] == [e] && [Silent(e)] + [] == [Silent(e)];
    ErasedFirst([true], [true], d, [e], [Silent(e)]);
    assert [d] + [e] == [d, e];
  }

  /** A stack of one class that seems to end on line n. */
  predicate IsClassUpTo(stack: seq<Block>, n: nat) {
    |stack| == 1 && Top(stack).kind.Class? && Top(stack).asm == NoAsm && Top(stack).lastLine == n
  }

  lemma {:induction false} QuietLineStays(src: seq<Source>, i: nat, stack: seq<Block>)
    requires i < |src| && IsQuietSymbol(src[i].text) && stack != [] && Top(stack).asm == NoAsm
    ensures Effect(stack, ReadAll(src, true)[i]) == stack
  {
    ReadAllAt(src, true, i);
    assert src[i..][0] == src[i];
    QuietSymbolLine(src[i..], stack);
  }

  lemma {:induction false} WholeSeemsToEnd(src: seq<Source>, end: nat)
    requires |src| == 5 && HasShortBranch(src[0], src[1], src[2], src[3], src[4]) && IsOpenHead(src[0].text, end)
    requires IsQuietSymbol(src[1].text) && IsQuietSymbol(src[2].text) && IsQuietSymbol(src[4].text)
    requires ClassEnd(src, 0) == Some(src[3].number)
    ensures IsClassUpTo(StackOf(src, true), src[3].number)
  {
    var lines := ReadAll(src, true);
    var stack := Effect([], lines[0]);
    OpenHeadStack(src, end);
    QuietLineStays(src, 1, stack);
    QuietLineStays(src, 2, stack);
    QuietLineStays(src, 4, stack);
    DirectivesInLines(src, lines);
    AreFive(lines);
    RunFive(lines[0], lines[1], lines[2], lines[3], lines[4], stack);
  }

  lemma {:induction false} DirectivesInLines(src: seq<Source>, lines: seq<Line>)
    requires lines == ReadAll(src, true)
    ensures forall i | 0 <= i < |src| :: lines[i].directive == src[i].directive
  {
    forall i | 0 <= i < |src| ensures lines[i].directive == src[i].directive {
      ReadAllAt(src, true, i);
    }
  }

  lemma RunFive(a: Line, b: Line, c: Line, d: Line, e: Line, stack: seq<Block>)
    requires a.directive == d.directive == NoDirective && b.directive == If && c.directive == Else && e.directive == Endif
    requires stack == Effect([], a) && Effect(stack, b) == Effect(stack, c) == Effect(stack, e) == stack
    ensures Run(State([], []), [a, b, c, d, e]).stack == stack
  {
    RunBranch(stack, b, c, d, e);
    RunHeadFirst(a, [b, c, d, e]);
    assert [a, b, c, d, e] == [a] + [b, c, d, e];
  }

  lemma {:induction false} AreFive(lines: seq<Line>)
    requires |lines| == 5
    ensures lines == [lines[0], lines[1], lines[2], lines[3], lines[4]]
  {
  }

  lemma {:induction false} RunThree(lines: seq<Line>, stack: seq<Block>)
    requires |lines| == 3 && lines[0].directive == lines[1].directive == lines[2].directive == NoDirective
    requires stack == Effect([], lines[0]) && Effect(stack, lines[1]) == Effect(stack, lines[2]) == stack
    ensures Run(State([], []), lines).stack == stack
  {
    RunTwo(stack, lines[1], lines[2]);
    RunHeadFirst(lines[0], [lines[1], lines[2]]);
    assert lines == [lines[0]] + [lines[1], lines[2]];
  }

  lemma {:induction false} KeptSeemsToEnd(a: Source, b: Source, e: Source, end: nat)
    requires a.directive == b.directive == e.directive == NoDirective
    requires IsOpenHead(a.text, end) && Opens(a.text) && IsQuietSymbol(b.text) && IsQuietSymbol(e.text)
    ensures IsClassUpTo(StackOf([a, b, e], true), 0)
  {
    var src := [a, b, e];
    var lines := ReadAll(src, true);
    var stack := Effect([], lines[0]);
    NoEnd(a, b, e);
    OpenHeadStack(src, end);
    QuietLineStays(src, 1, stack);
    QuietLineStays(src, 2, stack);
    DirectivesInLines(src, lines);
    RunThree(lines, stack);
  }

  /** On every such file the class seems to end in the erased branch, and in the kept lines nowhere. */
  lemma {:induction false} ErasureMovesTheEnd(a: Source, b: Source, c: Source, d: Source, e: Source, end: nat)
    requires Misplaces(a, b, c, d, e, end)
    ensures var src := [a, b, c, d, e];
            && Closed(src)
            && IsClassUpTo(StackOf(src, true), d.number) && IsClassUpTo(StackOf(KeptOf([], src), true), 0)
  {
    EndOfFive(a, b, c, d, e);
    WholeSeemsToEnd([a, b, c, d, e], end);
    KeptOfFive(a, b, c, d, e);
    KeptSeemsToEnd(Silent(a), Silent(b), Silent(e), end);
  }

  // ----- such a file -----

  lemma BraceBehind(line: string)
    requires |line| == 11 && line[9..] == " {"
    ensures LookAhead([line], 0, 9) == Decided(false)
  {
    assert line[9] == line[9..][0] && line[10] == line[9..][1];
    assert SignFrom(line, 10) == 10 && SignFrom(line, 9) == 10;
  }

  lemma BraceIsRest(s: string)
    requires s == " {"
    ensures IsBraceRest(ReadRest(s))
  {
    NoAccess(s, 2);
    assert s[1..] == "{" && s[2..] == "";
    assert FirstMark("{") == Some(0);
    assert ReadTokens(s) == [TokenFor(s, '{')];
  }

  lemma OpenFooHead(line: string)
    requires |line| == 11 && line[..9] == "class Foo" && line[9..] == " {"
    ensures ReadNamespaces(line) == ([], line) && ReadClassHead(line) == Some(FoundHead("Foo", false, 9))
  {
    assert line[9] == line[9..][0] && line[10] == line[9..][1];
    SpaceEndIs(line, 9, 10);
    FooLine(line);
  }

  lemma FooIsQuietButForBrace(line: string)
    requires |line| == 11 && line[..9] == "class Foo" && line[9..] == " {"
    ensures !HasBareColon(line) && Count(line, '(') == Count(line, ')') == Count(line, '}') == 0 && Count(line, '{') == 1
  {
    assert forall i | 0 <= i < 9 :: line[i] == line[..9][i];
    assert line[9] == line[9..][0] && line[10] == line[9..][1];
    NoneCounted(line, '(');
    NoneCounted(line, ')');
    NoneCounted(line, '}');
    CountLast(line, '{');
  }

  lemma {:induction false} CountLast(s: string, c: char)
    requires s != "" && s[|s| - 1] == c && forall i | 0 <= i < |s| - 1 :: s[i] != c
    ensures Count(s, c) == 1
  {
    if |s| == 1 {
      assert s[1..] == "";
    } else {
      CountLast(s[1..], c);
    }
  }

  lemma FooOpens(line: string)
    requires |line| == 11 && line[..9] == "class Foo" && line[9..] == " {"
    ensures IsOpenHead(line, 9) && Opens(line)
  {
    OpenFooHead(line);
    FooIsQuietButForBrace(line);
    BraceBehind(line);
    BraceIsRest(line[9..]);
  }

  lemma MisplacesWith(a: Source, b: Source, c: Source, d: Source, e: Source)
    requires HasShortBranch(a, b, c, d, e) && IsOpenHead(a.text, 9) && Opens(a.text) && Closes(d.text)
    requires IsQuietSymbol(b.text) && IsQuietSymbol(c.text) && IsQuietSymbol(e.text)
    ensures Misplaces(a, b, c, d, e, 9)
  {
  }

  lemma FooIsOpen(text: string)
    requires text == "class Foo {"
    ensures IsOpenHead(text, 9) && Opens(text)
  {
    assert text[..9] == "class Foo" && text[9..] == " {";
    FooOpens(text);
  }

  lemma BraceCloses(text: string)
    requires text == "}"
    ensures Closes(text)
  {
    CountLast(text, '}');
    NoneCounted(text, '{');
  }

  lemma ExampleMisplaces()
    ensures Misplaces(Source(0, "class Foo {", NoDirective), Source(1, "#if A", If), Source(2, "#else", Else),
                      Source(3, "}", NoDirective), Source(4, "#endif", Endif), 9)
  {
    FooIsOpen("class Foo {");
    QuietSymbols();
    BraceCloses("}");
    MisplacesWith(Source(0, "class Foo {", NoDirective), Source(1, "#if A", If), Source(2, "#else", Else),
                  Source(3, "}", NoDirective), Source(4, "#endif", Endif));
  }

  /** The directives are those that the pattern finds. */
  lemma ExampleIsFile()
    ensures SourcesOf(["class Foo {", "#if A", "#else", "}", "#endif"]) ==
            [Source(0, "class Foo {", NoDirective), Source(1, "#if A", If), Source(2, "#else", Else),
             Source(3, "}", NoDirective), Source(4, "#endif", Endif)]
  {
    DirectivesFound();
    NotADirective("class Foo {");
    NotADirective("}");
    ReadFive("class Foo {", "#if A", "#else", "}", "#endif");
  }

  lemma NotADirective(text: string)
    requires text != "" && text[0] != '#' && !IsSpace(text[0])
    ensures DirectiveOf(text) == NoDirective
  {
  }

  lemma ReadFive(a: string, b: string, c: string, d: string, e: string)
    ensures SourcesOf([a, b, c, d, e]) ==
            [Source(0, a, DirectiveOf(a)), Source(1, b, DirectiveOf(b)), Source(2, c, DirectiveOf(c)),
             Source(3, d, DirectiveOf(d)), Source(4, e, DirectiveOf(e))]
  {
  }
}
