/**
 What the text of a line does to the other parts of a block: its access, whether it is derived, and
 its assembly state; and an instance, a forward declaration.
 */
module BlockFields {
  import opened Wrappers
  import opened Characters
  import opened LinePatterns
  import opened LineReading
  import opened Nesting
  import opened TemplateLookahead
  import opened BlockWalk
  import opened BlockLaws
  import opened ErasureExample

  // ----- lines that open and close nothing -----

  /** b as it is behind a line without heads and braces that it stood on top for. */
  predicate FollowsOnLine(b: Block, after: Block, text: string) {
    var change := Count(text, '(') - Count(text, ')');
    && after.kind == b.kind && after.line == b.line && after.lastLine == b.lastLine
    && after.seenOpenBrace == b.seenOpenBrace && after.isDerived == b.isDerived
    && after.openParentheses == b.openParentheses + change
    && after.access == (if b.kind.Class? && ReadAccess(text, |text|).Some? then ReadAccess(text, |text|).value else b.access)
    && (match b.asm
        case InsideAsm => after.asm == if after.openParentheses == 0 then EndAsm else InsideAsm
        case BlockAsm => after.asm == BlockAsm
        case _ => after.asm == if change != 0 && after.openParentheses == 1 && IsAsmHead(text) then InsideAsm else NoAsm)
  }

  lemma {:induction false} TerminatorsOnly(stack: seq<Block>, tokens: seq<Token>, line: nat)
    requires SeenOpenBrace(stack) && forall k | 0 <= k < |tokens| :: tokens[k] == Terminator
    ensures ConsumeTokens(stack, tokens, line) == stack
    decreases |tokens|
  {
    if tokens != [] {
      TerminatorsOnly(stack, tokens[1..], line);
    }
  }

  lemma {:induction false} NoBraceTokens(s: string)
    requires HasNoBrace(s)
    ensures forall k | 0 <= k < |ReadTokens(s)| :: ReadTokens(s)[k] == Terminator
    decreases |s|
  {
    match FirstMark(s)
    case None =>
    case Some(k) => NoBraceTokens(s[k + 1..]);
  }

  lemma QuietEffectOnTop(stack: seq<Block>, line: Line, text: string)
    requires stack != [] && Top(stack).seenOpenBrace
    requires line.parentheses == Count(text, '(') - Count(text, ')') && line.asmHead == IsAsmHead(text)
    requires line.namespaces == [] && line.classHead == None && line.whole == ReadRest(text) && HasNoBrace(text)
    ensures var after := Effect(stack, line);
            |after| == |stack| && Pop(after) == Pop(stack) && FollowsOnLine(Top(stack), Top(after), text)
  {
    NoBraceTokens(text);
    var counted := CountParentheses(stack, line);
    var begun := UpdateAccess(CheckBegin(counted, line), line.whole.access);
    TerminatorsOnly(begun, line.whole.tokens, line.number);
  }

  lemma SaidByTextLine(lines: seq<string>, i: nat)
    requires IsTextLine(lines, i)
    ensures var said := ReadFile(lines)[i];
            && said.parentheses == Count(lines[i], '(') - Count(lines[i], ')') && said.asmHead == IsAsmHead(lines[i])
            && said.namespaces == [] && said.classHead == None && said.whole == ReadRest(lines[i])
  {
    SaidAt(lines, i);
    ReadAllAt(SourcesOf(lines), true, i);
    assert SourcesOf(lines)[i..][0] == Source(i, lines[i], DirectiveOf(lines[i]));
    assert ReadNamespaces(lines[i]) == ([], lines[i]);
  }

  /** Inside a block that has begun, such a line touches that block only. */
  lemma QuietLineOnTop(lines: seq<string>, i: nat)
    requires IsTextLine(lines, i) && HasNoBrace(lines[i])
    requires StackAt(lines, i) != [] && Top(StackAt(lines, i)).seenOpenBrace
    ensures var before, after := StackAt(lines, i), StackAt(lines, i + 1);
            |after| == |before| && Pop(after) == Pop(before) && FollowsOnLine(Top(before), Top(after), lines[i])
  {
    StackStep(lines, i);
    SaidByTextLine(lines, i);
    QuietEffectOnTop(StackAt(lines, i), ReadFile(lines)[i], lines[i]);
  }

  // ----- blocks that begin -----

  /** A new class: private or public, unless the line says otherwise, and derived if a bare colon stands on it. */
  predicate IsNewClass(b: Block, h: FoundHead, i: nat, text: string, rest: string) {
    && b.kind == Class(h.name, h.isStruct) && b.line == i && !b.seenOpenBrace && b.openParentheses == 0 && b.asm == NoAsm
    && (b.isDerived <==> HasBareColon(text))
    && b.access == match ReadAccess(rest, |rest|)
                   case Some(access) => access
                   case None => if h.isStruct then "public" else "private"
  }

  lemma NewClassOnTop(stack: seq<Block>, line: Line, h: FoundHead, text: string, rest: string)
    requires line.classHead.Some? && line.classHead.value.name == h.name && line.classHead.value.isStruct == h.isStruct
    requires !line.classHead.value.isTemplateArgument && (stack == [] || Top(stack).openParentheses == 0)
    requires line.bareColon == HasBareColon(text)
    ensures var after := UpdateAccess(CheckBegin(PushClass(stack, line), line), ReadAccess(rest, |rest|));
            |after| == |stack| + 1 && Pop(after) == stack && IsNewClass(Top(after), h, line.number, text, rest)
            && Top(after).lastLine == line.classHead.value.lastLine
  {
    var pushed := PushClass(stack, line);
    assert Pop(pushed) == stack;
  }

  /** How deep in braces the text is from line i to the beginning of line j. */
  function DepthFrom(lines: seq<string>, i: nat, j: nat): int
    requires i <= j <= |lines|
  {
    var text := Joined(lines[i..j]);
    Count(text, '{') - Count(text, '}')
  }

  /** Line e is the first one behind which the braces from line i on are even. */
  predicate EndsFirst(lines: seq<string>, i: nat, e: nat)
    requires i <= |lines|
  {
    i <= e < |lines| && DepthFrom(lines, i, e + 1) == 0 && forall k | i < k <= e :: DepthFrom(lines, i, k) != 0
  }

  predicate NeverEnds(lines: seq<string>, i: nat)
    requires i <= |lines|
  {
    forall k | i < k <= |lines| :: DepthFrom(lines, i, k) != 0
  }

  lemma DepthGrows(lines: seq<string>, i: nat, j: nat)
    requires i <= j < |lines|
    ensures DepthFrom(lines, i, j + 1) == DepthFrom(lines, i, j) + Count(lines[j], '{') - Count(lines[j], '}')
  {
    var text := lines[i..j + 1];
    assert text[..|text| - 1] == lines[i..j] && text[|text| - 1] == lines[j];
    BraceNetCounts(Joined(text));
    BraceNetCounts(Joined(lines[i..j]));
    BraceNetCounts(lines[j]);
    BraceNetConcat(Joined(lines[i..j]), lines[j]);
  }

  lemma {:induction false} EndFrom(lines: seq<string>, i: nat, j: nat, e: nat)
    requires i <= j <= |lines| && EndsFirst(lines, i, e) && j <= e
    ensures ClassEnd(SourcesOf(lines)[j..], DepthFrom(lines, i, j)) == Some(e)
    decreases e - j
  {
    DepthGrows(lines, i, j);
    var src := SourcesOf(lines)[j..];
    assert src[0] == Source(j, lines[j], DirectiveOf(lines[j]));
    assert src[1..] == SourcesOf(lines)[j + 1..];
    if j < e {
      EndFrom(lines, i, j + 1, e);
    }
  }

  lemma {:induction false} NoEndFrom(lines: seq<string>, i: nat, j: nat)
    requires i <= j <= |lines| && NeverEnds(lines, i)
    ensures ClassEnd(SourcesOf(lines)[j..], DepthFrom(lines, i, j)) == None
    decreases |lines| - j
  {
    if j < |lines| {
      DepthGrows(lines, i, j);
      var src := SourcesOf(lines)[j..];
      assert src[0] == Source(j, lines[j], DirectiveOf(lines[j]));
      assert src[1..] == SourcesOf(lines)[j + 1..];
      NoEndFrom(lines, i, j + 1);
    }
  }

  /** The class seems to end on the first line behind which its braces are even, or on line 0. */
  lemma ClassEndIs(lines: seq<string>, i: nat, e: nat)
    requires i < |lines|
    requires EndsFirst(lines, i, e) || (e == 0 && NeverEnds(lines, i))
    ensures (match ClassEnd(SourcesOf(lines)[i..], 0) case Some(n) => n case None => 0) == e
  {
    assert lines[i..i] == [];
    assert DepthFrom(lines, i, i) == 0;
    if EndsFirst(lines, i, e) {
      EndFrom(lines, i, i, e);
    } else {
      NoEndFrom(lines, i, i);
    }
  }

  /** A head whose brace stands on a later line, where nothing marks the line. */
  lemma ClassWaits(lines: seq<string>, i: nat, h: FoundHead, e: nat)
    requires IsClassLine(lines, i, h) && IsTaken(Counted(BonesAt(lines, i), lines[i]), lines, i, h)
    requires HasNoMark(lines[i][h.end..])
    requires EndsFirst(lines, i, e) || (e == 0 && NeverEnds(lines, i))
    ensures var after := StackAt(lines, i + 1);
            |after| == |StackAt(lines, i)| + 1 && IsNewClass(Top(after), h, i, lines[i], lines[i][h.end..])
            && Top(after).lastLine == e
  {
    var stack, said, rest := StackAt(lines, i), ReadFile(lines)[i], lines[i][h.end..];
    StackStep(lines, i);
    SaidAt(lines, i);
    SaidColon(lines, i);
    assert ReadNamespaces(lines[i]) == ([], lines[i]);
    var inner := BeforeHead(stack, said);
    CountBones(stack, said, lines[i]);
    TakenIs(inner, said, lines, i, h);
    FirstMarkIs(rest);
    NewClassOnTop(inner, said, h, lines[i], rest);
    SaidEnd(lines, i, h, e);
    assert ReadTokens(rest) == [];
  }

  lemma SaidEnd(lines: seq<string>, i: nat, h: FoundHead, e: nat)
    requires IsClassLine(lines, i, h)
    requires EndsFirst(lines, i, e) || (e == 0 && NeverEnds(lines, i))
    ensures var head := ReadFile(lines)[i].classHead;
            head.Some? && head.value.lastLine == e
  {
    ReadAllAt(SourcesOf(lines), true, i);
    assert SourcesOf(lines)[i..][0] == Source(i, lines[i], DirectiveOf(lines[i]));
    assert ReadNamespaces(lines[i]) == ([], lines[i]);
    ClassEndIs(lines, i, e);
  }

  lemma SaidColon(lines: seq<string>, i: nat)
    requires i < |lines|
    ensures ReadFile(lines)[i].bareColon == HasBareColon(lines[i])
  {
    ReadAllAt(SourcesOf(lines), true, i);
    assert SourcesOf(lines)[i..][0] == Source(i, lines[i], DirectiveOf(lines[i]));
  }

  /** A brace where no head waits begins an extern "C" block, an assembly block or a plain one. */
  lemma BraceBegins(lines: seq<string>, i: nat, u: string, v: string)
    requires IsTextLine(lines, i) && lines[i] == u + ['{'] + v && HasNoMark(u) && HasNoMark(v)
    requires !Waits(BonesAt(lines, i))
    ensures var after := StackAt(lines, i + 1);
            && |after| == |StackAt(lines, i)| + 1
            && Top(after) == Block(if IsExternC(lines[i]) then ExternC else PlainBlock, i, true, 0,
                                   if !IsExternC(lines[i]) && IsAsmHead(lines[i]) then BlockAsm else NoAsm, "", false, 0)
  {
    var stack, said := StackAt(lines, i), ReadFile(lines)[i];
    StackStep(lines, i);
    SaidAt(lines, i);
    SaidByTextLine(lines, i);
    OneToken(lines[i], u, v);
    var begun := UpdateAccess(CheckBegin(CountParentheses(stack, said), said), said.whole.access);
    assert SeenOpenBrace(stack) by {
      if stack != [] {
        BonesOff(stack);
      }
    }
    BraceOnStack(begun, TokenFor(lines[i], '{'), i);
  }

  lemma BraceOnStack(stack: seq<Block>, token: Token, i: nat)
    requires SeenOpenBrace(stack) && token.OpenBrace?
    ensures var after := ConsumeTokens(stack, [token], i);
            && |after| == |stack| + 1
            && Top(after) == Block(if token.externC then ExternC else PlainBlock, i, true, 0,
                                   if !token.externC && token.asm then BlockAsm else NoAsm, "", false, 0)
  {
    assert [token][1..] == [];
    assert ConsumeTokens(ConsumeToken(stack, token, i), [], i) == ConsumeToken(stack, token, i);
  }

  lemma {:induction false} FirstMarkAfter(u: string, c: char, v: string)
    requires HasNoMark(u) && IsMark(c)
    ensures FirstMark(u + [c] + v) == Some(|u|)
  {
    var s := u + [c] + v;
    if u == "" {
      assert s[0] == c;
    } else {
      FirstMarkAfter(u[1..], c, v);
      assert s[1..] == u[1..] + [c] + v;
    }
  }

  lemma OneToken(text: string, u: string, v: string)
    requires text == u + ['{'] + v && HasNoMark(u) && HasNoMark(v)
    ensures ReadTokens(text) == [TokenFor(text, '{')]
  {
    FirstMarkAfter(u, '{', v);
    assert text[|u| + 1..] == v && text[|u|] == '{';
    FirstMarkIs(v);
    assert ReadTokens(v) == [];
  }

  // ----- an instance -----

  /** A forward declaration leaves no block behind. */
  lemma ForwardDeclaration(line: string)
    requires |line| == 10 && line[..9] == "class Foo" && line[9] == ';'
    ensures StackAt([line], 1) == []
  {
    var h := FoundHead("Foo", false, 9);
    FooLine(line);
    assert ReadFile([line])[..0] == [];
    assert BonesAt([line], 0) == [];
    assert SignFrom(line, 9) == 9;
    assert line[9..] == "" + [';'] + "";
    DeclarationGoes([line], 0, h, "", ';', "");
    assert BonesAt([line], 1) == [];
  }

  lemma ClassFooLeavesNothing()
    ensures Run(State([], []), ReadFile(["class Foo;"])).stack == []
  {
    assert "class Foo;"[..9] == "class Foo";
    ForwardDeclaration("class Foo;");
    assert ReadFile(["class Foo;"])[..1] == ReadFile(["class Foo;"]);
  }
}
