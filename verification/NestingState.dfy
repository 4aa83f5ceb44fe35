/**
 The nesting state as the linter keeps it: mutable block objects on a stack, and checkpoints that
 hold deep copies of whole stacks.

 Only the block on top is ever written.  Because every checkpoint owns its copies, writing it leaves
 the checkpoints' values alone, and the objects behave like the values in Nesting.
 */
module NestingState {
  import opened Wrappers
  import opened Characters
  import opened LinePatterns
  import opened LineReading
  import opened Nesting
  import opened TemplateLookahead

  class BlockInfo {
    const kind: Kind
    const startingLinenum: nat
    const lastLine: nat
    var seenOpenBrace: bool
    var openParentheses: int
    var inlineAsm: Asm
    var access: string
    var isDerived: bool

    constructor (b: Block)
      ensures View() == b
    {
      kind, startingLinenum, lastLine := b.kind, b.line, b.lastLine;
      seenOpenBrace, openParentheses, inlineAsm := b.seenOpenBrace, b.openParentheses, b.asm;
      access, isDerived := b.access, b.isDerived;
    }

    function View(): Block
      reads this
    {
      Block(kind, startingLinenum, seenOpenBrace, openParentheses, inlineAsm, access, isDerived, lastLine)
    }
  }

  ghost function Views(stack: seq<BlockInfo>): (r: seq<Block>)
    reads stack
    ensures |r| == |stack|
  {
    seq(|stack|, i requires 0 <= i < |stack| reads stack => stack[i].View())
  }

  ghost predicate Distinct<T>(s: seq<T>) {
    forall i, j | 0 <= i < j < |s| :: s[i] != s[j]
  }

  ghost function Elements(stack: seq<BlockInfo>): set<BlockInfo> {
    set b | b in stack
  }

  /** `copy.deepcopy` of a stack. */
  method DeepCopy(stack: seq<BlockInfo>) returns (r: seq<BlockInfo>)
    ensures Views(r) == Views(stack) && Distinct(r)
    ensures forall b | b in r :: fresh(b)
  {
    r := [];
    for i := 0 to |stack|
      invariant |r| == i && Distinct(r)
      invariant forall b | b in r :: fresh(b)
      invariant forall k | 0 <= k < i :: r[k].View() == stack[k].View()
      invariant forall k | 0 <= k < |stack| :: stack[k].View() == old(stack[k].View())
    {
      var b := new BlockInfo(stack[i].View());
      r := r + [b];
    }
  }

  class PreprocessorInfo {
    var stackBeforeIf: seq<BlockInfo>
    var stackBeforeElse: seq<BlockInfo>
    var seenElse: bool

    constructor (stackBeforeIf: seq<BlockInfo>)
      ensures this.stackBeforeIf == stackBeforeIf && stackBeforeElse == [] && !seenElse
    {
      this.stackBeforeIf, stackBeforeElse, seenElse := stackBeforeIf, [], false;
    }

    ghost function Owned(): set<BlockInfo>
      reads this
    {
      Elements(stackBeforeIf) + Elements(stackBeforeElse)
    }

    ghost predicate Valid()
      reads this
    {
      && Distinct(stackBeforeIf)
      && Distinct(stackBeforeElse)
      && Elements(stackBeforeIf) !! Elements(stackBeforeElse)
    }

    ghost function View(): Checkpoint
      reads this, Owned()
    {
      Checkpoint(Views(stackBeforeIf), Views(stackBeforeElse), seenElse)
    }
  }

  /** The checkpoints when the first #else or #elif is seen, with the stack up to it. */
  function WithElse(pp: seq<Checkpoint>, stack: seq<Block>): seq<Checkpoint>
    requires pp != []
  {
    pp[..|pp| - 1] + [Checkpoint(pp[|pp| - 1].beforeIf, stack, true)]
  }

  lemma ElseInSteps(st: State)
    requires st.pp != []
    ensures var pp := if st.pp[|st.pp| - 1].seenElse then st.pp else WithElse(st.pp, st.stack);
            Preprocess(st, Else) == State(pp[|st.pp| - 1].beforeIf, pp)
  {
  }

  class NestingState {
    var stack: seq<BlockInfo>
    var ppStack: seq<PreprocessorInfo>
    ghost var blocks: set<BlockInfo>

    /** All blocks are among those that the state owns, and none is in two places. */
    ghost predicate Valid()
      reads this, ppStack
    {
      && Elements(stack) <= blocks
      && (forall p | p in ppStack :: p.Owned() <= blocks)
      && Distinct(stack)
      && Distinct(ppStack)
      && (forall p | p in ppStack :: p.Valid() && Elements(stack) !! p.Owned())
      && (forall p, q | p in ppStack && q in ppStack && p != q :: p.Owned() !! q.Owned())
    }

    ghost function Blocks(): set<BlockInfo>
      reads this, ppStack
    {
      Elements(stack) + set p, b | p in ppStack && b in p.Owned() :: b
    }

    ghost function Infos(): set<PreprocessorInfo>
      reads this
    {
      set p | p in ppStack
    }

    ghost function Checkpoints(): seq<Checkpoint>
      reads this, ppStack, Blocks()
    {
      seq(|ppStack|, i requires 0 <= i < |ppStack| reads this, ppStack, Blocks() => ppStack[i].View())
    }

    ghost function View(): State
      reads this, ppStack, Blocks()
    {
      State(Views(stack), Checkpoints())
    }

    constructor ()
      ensures Valid() && View() == State([], [])
    {
      stack, ppStack, blocks := [], [], {};
    }

    method PushCheckpoint(copy: seq<BlockInfo>)
      requires Valid() && Distinct(copy) && Elements(copy) !! blocks
      modifies this`ppStack, this`blocks
      ensures Valid() && fresh(Infos() - old(Infos())) && blocks == old(blocks) + Elements(copy)
      ensures Checkpoints() == old(Checkpoints()) + [Checkpoint(Views(copy), [], false)]
    {
      ghost var before := Checkpoints();
      var info := new PreprocessorInfo(copy);
      ppStack := ppStack + [info];
      blocks := blocks + Elements(copy);
      assert info.Owned() == Elements(copy) && info in ppStack;
      assert forall p | p in old(ppStack) :: p.Owned() == old(p.Owned()) && p.Owned() <= old(blocks);
      assert info.View() == Checkpoint(Views(copy), [], false);
      assert Checkpoints() == before + [info.View()];
    }

    method BeginIf()
      requires Valid()
      modifies this`ppStack, this`blocks
      ensures Valid() && View() == Preprocess(old(View()), If)
      ensures fresh(Infos() - old(Infos()))
      ensures fresh(blocks - old(blocks))
    {
      var copy := DeepCopy(stack);
      PushCheckpoint(copy);
    }

    method StoreBeforeElse(copy: seq<BlockInfo>)
      requires Valid() && Distinct(copy) && Elements(copy) !! blocks
      requires ppStack != [] && !ppStack[|ppStack| - 1].seenElse
      modifies ppStack[|ppStack| - 1], this`blocks
      ensures Valid() && blocks == old(blocks) + Elements(copy)
      ensures Checkpoints() == WithElse(old(Checkpoints()), Views(copy))
    {
      ghost var before := Checkpoints();
      var last := ppStack[|ppStack| - 1];
      assert last in ppStack;
      last.seenElse := true;
      last.stackBeforeElse := copy;
      blocks := blocks + Elements(copy);
      assert last.Owned() == Elements(last.stackBeforeIf) + Elements(copy);
      assert Checkpoints()[|ppStack| - 1] == last.View() && before[|ppStack| - 1].beforeIf == Views(last.stackBeforeIf);
      assert Checkpoints() == before[..|ppStack| - 1] + [last.View()];
    }

    /** The first #else or #elif: remember the stack up to this point. */
    method SaveBeforeElse()
      requires Valid() && ppStack != [] && !ppStack[|ppStack| - 1].seenElse
      modifies ppStack[|ppStack| - 1], this`blocks
      ensures Valid() && Views(stack) == old(Views(stack))
      ensures Checkpoints() == WithElse(old(Checkpoints()), old(Views(stack)))
      ensures fresh(blocks - old(blocks))
    {
      var copy := DeepCopy(stack);
      StoreBeforeElse(copy);
    }

    /** Go back to a copy of what the last checkpoint saved first. */
    method RestoreBeforeIf()
      requires Valid() && ppStack != []
      modifies this`stack, this`blocks
      ensures Valid() && Checkpoints() == old(Checkpoints())
      ensures Views(stack) == Checkpoints()[|ppStack| - 1].beforeIf
      ensures fresh(blocks - old(blocks))
    {
      ghost var before := Checkpoints();
      var last := ppStack[|ppStack| - 1];
      assert last in ppStack && before[|ppStack| - 1] == last.View();
      stack := DeepCopy(last.stackBeforeIf);
      blocks := blocks + Elements(stack);
      assert Checkpoints() == before;
    }

    method EndIf()
      requires Valid() && ppStack != []
      modifies this
      ensures Valid() && View() == Preprocess(old(View()), Endif)
      ensures ppStack == old(ppStack[..|ppStack| - 1])
      ensures blocks == old(blocks)
    {
      ghost var before := Checkpoints();
      var last := ppStack[|ppStack| - 1];
      assert last in ppStack && before[|before| - 1] == last.View();
      if last.seenElse {
        stack := last.stackBeforeElse;
      }
      ghost var was := ppStack;
      ppStack := ppStack[..|ppStack| - 1];
      assert forall p | p in ppStack :: p in was && p != last;
      assert Checkpoints() == before[..|ppStack|];
    }

    method NextBranch()
      requires Valid() && ppStack != []
      modifies this`stack, this`blocks, ppStack[|ppStack| - 1]
      ensures Valid() && ppStack == old(ppStack) && View() == Preprocess(old(View()), Else)
      ensures fresh(blocks - old(blocks))
    {
      ElseInSteps(View());
      SeenElseInView();
      if !ppStack[|ppStack| - 1].seenElse {
        SaveBeforeElse();
      }
      RestoreBeforeIf();
    }

    lemma SeenElseInView()
      requires ppStack != []
      ensures Checkpoints()[|ppStack| - 1].seenElse == ppStack[|ppStack| - 1].seenElse
    {
      assert Checkpoints()[|ppStack| - 1] == ppStack[|ppStack| - 1].View();
    }

    method UpdatePreprocessor(directive: Directive)
      requires Valid()
      modifies this, Infos()
      ensures Valid() && View() == Preprocess(old(View()), directive)
      ensures fresh(Infos() - old(Infos()))
      ensures fresh(blocks - old(blocks))
    {
      if directive == If {
        BeginIf();
      } else if directive == Else {
        if ppStack != [] {
          NextBranch();
        }
      } else if directive == Endif {
        if ppStack != [] {
          EndIf();
        }
      }
    }

    // ----- what the text of a line does; only the block on top is ever written -----

    /** The stack as it is after b on its top has been written. */
    twostate lemma OnlyTopWritten(b: Block)
      requires stack == old(stack) != [] && Distinct(stack)
      requires forall i | 0 <= i < |stack| - 1 :: unchanged(stack[i])
      requires stack[|stack| - 1].View() == b
      ensures Views(stack) == SetTop(old(Views(stack)), b)
    {
    }

    method WriteSeenOpenBrace()
      requires Distinct(stack) && stack != []
      modifies stack[|stack| - 1]
      ensures Views(stack) == SetTop(old(Views(stack)), Top(old(Views(stack))).(seenOpenBrace := true))
    {
      stack[|stack| - 1].seenOpenBrace := true;
      OnlyTopWritten(stack[|stack| - 1].View());
    }

    method WriteInlineAsm(asm: Asm)
      requires Distinct(stack) && stack != []
      modifies stack[|stack| - 1]
      ensures Views(stack) == SetTop(old(Views(stack)), Top(old(Views(stack))).(asm := asm))
    {
      stack[|stack| - 1].inlineAsm := asm;
      OnlyTopWritten(stack[|stack| - 1].View());
    }

    method WriteIsDerived()
      requires Distinct(stack) && stack != []
      modifies stack[|stack| - 1]
      ensures Views(stack) == SetTop(old(Views(stack)), Top(old(Views(stack))).(isDerived := true))
    {
      stack[|stack| - 1].isDerived := true;
      OnlyTopWritten(stack[|stack| - 1].View());
    }

    method WriteAccess(access: string)
      requires Distinct(stack) && stack != []
      modifies stack[|stack| - 1]
      ensures Views(stack) == SetTop(old(Views(stack)), Top(old(Views(stack))).(access := access))
    {
      stack[|stack| - 1].access := access;
      OnlyTopWritten(stack[|stack| - 1].View());
    }

    method CountParenthesesOf(line: string, ghost said: Line)
      requires Distinct(stack)
      requires said.parentheses == Count(line, '(') - Count(line, ')') && said.asmHead == IsAsmHead(line)
      modifies Elements(stack)
      ensures Views(stack) == CountParentheses(old(Views(stack)), said)
    {
      if stack != [] {
        var inner := stack[|stack| - 1];
        var depthChange := Count(line, '(') - Count(line, ')');
        inner.openParentheses := inner.openParentheses + depthChange;
        if inner.inlineAsm == NoAsm || inner.inlineAsm == EndAsm {
          if depthChange != 0 && inner.openParentheses == 1 && IsAsmHead(line) {
            inner.inlineAsm := InsideAsm;
          } else {
            inner.inlineAsm := NoAsm;
          }
        } else if inner.inlineAsm == InsideAsm && inner.openParentheses == 0 {
          inner.inlineAsm := EndAsm;
        }
        OnlyTopWritten(inner.View());
      }
    }

    method Push(b: Block) returns (block: BlockInfo)
      requires Distinct(stack)
      modifies this`stack
      ensures Distinct(stack) && stack == old(stack) + [block] && fresh(block)
      ensures Views(stack) == old(Views(stack)) + [b]
    {
      block := new BlockInfo(b);
      stack := stack + [block];
    }

    /** The namespace heads at the beginning of the line; rest is what is left of it. */
    method ConsumeNamespaces(line: string, linenum: nat) returns (rest: string)
      requires Distinct(stack)
      modifies this`stack
      ensures Distinct(stack)
      ensures fresh(Elements(stack) - old(Elements(stack)))
      ensures rest == ReadNamespaces(line).1
      ensures Views(stack) == PushNamespaces(old(Views(stack)), ReadNamespaces(line).0, linenum)
    {
      rest := line;
      var decl := NamespaceAt(rest);
      while decl.Some?
        invariant decl == NamespaceAt(rest)
        invariant Distinct(stack)
        invariant fresh(Elements(stack) - old(Elements(stack)))
        invariant ReadNamespaces(rest).1 == ReadNamespaces(line).1
        invariant PushNamespaces(Views(stack), ReadNamespaces(rest).0, linenum) ==
                  PushNamespaces(old(Views(stack)), ReadNamespaces(line).0, linenum)
        decreases |rest|
      {
        ReadOneNamespace(Views(stack), rest, linenum);
        var (name, behind) := decl.value;
        var brace := IndexOf(behind, '{');
        PushNamespace(name, brace.Some?, linenum);
        rest := if brace.Some? then behind[brace.value + 1..] else behind;
        decl := NamespaceAt(rest);
      }
    }

    method PushNamespace(name: string, braceFollows: bool, linenum: nat)
      requires Distinct(stack)
      modifies this`stack
      ensures Distinct(stack)
      ensures fresh(Elements(stack) - old(Elements(stack)))
      ensures Views(stack) == old(Views(stack)) + [NewBlock(Namespace(name), linenum, braceFollows, NoAsm)]
    {
      var info := Push(NewBlock(Namespace(name), linenum, false, NoAsm));
      if braceFollows {
        WriteSeenOpenBrace();
      }
    }

    /** The class head on what is left of the line, if it is not a template argument. */
    method ConsumeClassHead(lines: seq<string>, linenum: nat, line: string, ghost said: Line) returns (rest: string)
      requires Distinct(stack) && linenum < |lines|
      requires said.classHead == HeadFor(lines, linenum, ReadClassHead(line)) && said.number == linenum
      modifies this`stack
      ensures Distinct(stack)
      ensures fresh(Elements(stack) - old(Elements(stack)))
      ensures Views(stack) == PushClass(old(Views(stack)), said)
      ensures rest == if TakesClass(old(Views(stack)), said) then BehindClass(line) else line
    {
      rest := line;
      var decl := ReadClassHead(line);
      if decl.Some? && (stack == [] || stack[|stack| - 1].openParentheses == 0) {
        var isArgument := InTemplateArgumentList(lines, linenum, decl.value.end);
        if !isArgument {
          PushClassInfo(lines, linenum, decl.value);
          rest := line[decl.value.end..];
        }
      }
    }

    method PushClassInfo(lines: seq<string>, linenum: nat, head: FoundHead)
      requires Distinct(stack) && linenum < |lines|
      modifies this`stack
      ensures Distinct(stack)
      ensures fresh(Elements(stack) - old(Elements(stack)))
      ensures Views(stack) == old(Views(stack)) +
              [ClassBlock(ClassHead(head.name, head.isStruct, false, SeemingEnd(lines, linenum)), linenum)]
    {
      var lastLine := FindLastLine(lines, linenum);
      var info := Push(ClassBlock(ClassHead(head.name, head.isStruct, false, lastLine), linenum));
    }

    method CheckBeginOf(line: string, ghost said: Line)
      requires Distinct(stack) && said.bareColon == HasBareColon(line)
      modifies Elements(stack)
      ensures Views(stack) == CheckBegin(old(Views(stack)), said)
    {
      if stack != [] && !stack[|stack| - 1].seenOpenBrace && stack[|stack| - 1].kind.Class? && HasBareColon(line) {
        WriteIsDerived();
      }
    }

    method UpdateAccessOf(access: Option<string>)
      requires Distinct(stack)
      modifies Elements(stack)
      ensures Views(stack) == UpdateAccess(old(Views(stack)), access)
    {
      if stack != [] && stack[|stack| - 1].kind.Class? && access.Some? {
        WriteAccess(access.value);
      }
    }

    /** The class head, the check of its beginning, and the access specifier. */
    method ConsumeClass(lines: seq<string>, linenum: nat, line: string, ghost said: Line) returns (rest: string)
      requires Distinct(stack) && linenum < |lines|
      requires said.classHead == HeadFor(lines, linenum, ReadClassHead(line)) && said.number == linenum
      requires said.bareColon == HasBareColon(lines[linenum])
      modifies this`stack, Elements(stack)
      ensures Distinct(stack)
      ensures fresh(Elements(stack) - old(Elements(stack)))
      ensures rest == if TakesClass(old(Views(stack)), said) then BehindClass(line) else line
      ensures Views(stack) ==
              UpdateAccess(CheckBegin(PushClass(old(Views(stack)), said), said), ReadAccess(rest, |rest|))
    {
      rest := ConsumeClassHead(lines, linenum, line, said);
      CheckBeginOf(lines[linenum], said);
      UpdateAccessOf(ReadAccess(rest, |rest|));
    }

    /** At a `{`: either the head on top is complete, or a new block begins. */
    method OpenBlock(externC: bool, asm: bool, number: nat)
      requires Distinct(stack)
      modifies this`stack, Elements(stack)
      ensures Distinct(stack)
      ensures fresh(Elements(stack) - old(Elements(stack)))
      ensures Views(stack) == ConsumeToken(old(Views(stack)), OpenBrace(externC, asm), number)
    {
      if stack != [] && !stack[|stack| - 1].seenOpenBrace {
        WriteSeenOpenBrace();
      } else if externC {
        var info := Push(NewBlock(ExternC, number, true, NoAsm));
      } else {
        PushPlainBlock(asm, number);
      }
    }

    method PushPlainBlock(asm: bool, number: nat)
      requires Distinct(stack)
      modifies this`stack
      ensures Distinct(stack)
      ensures fresh(Elements(stack) - old(Elements(stack)))
      ensures Views(stack) == old(Views(stack)) + [NewBlock(PlainBlock, number, true, if asm then BlockAsm else NoAsm)]
    {
      var info := Push(NewBlock(PlainBlock, number, true, NoAsm));
      if asm {
        WriteInlineAsm(BlockAsm);
      }
    }

    method ConsumeOneToken(token: Token, number: nat)
      requires Distinct(stack)
      modifies this`stack, Elements(stack)
      ensures Distinct(stack)
      ensures fresh(Elements(stack) - old(Elements(stack)))
      ensures Views(stack) == ConsumeToken(old(Views(stack)), token, number)
    {
      match token
      case OpenBrace(externC, asm) =>
        OpenBlock(externC, asm, number);
      case Terminator =>
        if stack != [] && !stack[|stack| - 1].seenOpenBrace {
          stack := stack[..|stack| - 1];
        }
      case CloseBrace =>
        if stack != [] {
          stack := stack[..|stack| - 1];
        }
    }

    /** The braces, semicolons and closing parentheses of what is left of the line. */
    method ConsumeRest(line: string, linenum: nat)
      requires Distinct(stack)
      modifies this`stack, Elements(stack)
      ensures Distinct(stack)
      ensures fresh(Elements(stack) - old(Elements(stack)))
      ensures Views(stack) == ConsumeTokens(old(Views(stack)), ReadTokens(line), linenum)
    {
      var rest := line;
      var mark := FirstMark(rest);
      while mark.Some?
        invariant mark == FirstMark(rest)
        invariant Distinct(stack)
        invariant fresh(Elements(stack) - old(Elements(stack)))
        invariant ConsumeTokens(Views(stack), ReadTokens(rest), linenum) ==
                  ConsumeTokens(old(Views(stack)), ReadTokens(line), linenum)
        decreases |rest|
      {
        ConsumeFirst(Views(stack), rest, linenum);
        ConsumeOneToken(TokenFor(rest, rest[mark.value]), linenum);
        rest := rest[mark.value + 1..];
        mark := FirstMark(rest);
      }
    }

    /** Parentheses, and the heads at the beginning of the line; rest is what is left of it. */
    method ConsumeHeads(lines: seq<string>, linenum: nat, ghost said: Line) returns (rest: string)
      requires Distinct(stack) && IsSaidBy(said, lines, linenum)
      modifies this`stack, Elements(stack)
      ensures Distinct(stack)
      ensures fresh(Elements(stack) - old(Elements(stack)))
      ensures rest == LeftOf(lines[linenum], TakesClass(BeforeHead(old(Views(stack)), said), said))
      ensures Views(stack) ==
              UpdateAccess(CheckBegin(PushClass(BeforeHead(old(Views(stack)), said), said), said), ReadAccess(rest, |rest|))
    {
      var line := ConsumeBeforeHead(lines[linenum], linenum, said);
      rest := ConsumeClass(lines, linenum, line, said);
    }

    /** Parentheses and namespace heads. */
    method ConsumeBeforeHead(line: string, linenum: nat, ghost said: Line) returns (rest: string)
      requires Distinct(stack) && said.number == linenum
      requires said.parentheses == Count(line, '(') - Count(line, ')') && said.asmHead == IsAsmHead(line)
      requires said.namespaces == ReadNamespaces(line).0
      modifies this`stack, Elements(stack)
      ensures Distinct(stack)
      ensures fresh(Elements(stack) - old(Elements(stack)))
      ensures rest == ReadNamespaces(line).1
      ensures Views(stack) == BeforeHead(old(Views(stack)), said)
    {
      CountParenthesesOf(line, said);
      rest := ConsumeNamespaces(line, linenum);
    }

    /** What the text of a line does to the stack, once its directive has been dealt with. */
    method ActOnStack(lines: seq<string>, linenum: nat, ghost said: Line)
      requires Distinct(stack) && IsSaidBy(said, lines, linenum)
      modifies this`stack, Elements(stack)
      ensures Distinct(stack)
      ensures fresh(Elements(stack) - old(Elements(stack)))
      ensures Views(stack) == Effect(old(Views(stack)), said)
    {
      ghost var before := Views(stack);
      var rest := ConsumeHeads(lines, linenum, said);
      EffectInSteps(before, said, lines, linenum, rest);
      ConsumeRest(rest, linenum);
    }

    /** Writing blocks of the stack leaves every checkpoint as it is. */
    method ActBesideCheckpoints(lines: seq<string>, linenum: nat, ghost said: Line)
      requires Valid() && IsSaidBy(said, lines, linenum)
      modifies this`stack, this`blocks, Elements(stack)
      ensures Valid() && ppStack == old(ppStack) && Checkpoints() == old(Checkpoints())
      ensures Views(stack) == Effect(old(Views(stack)), said)
      ensures fresh(blocks - old(blocks))
    {
      ghost var kept := set p, b | p in ppStack && b in p.Owned() :: b;
      assert kept !! Elements(stack);
      ActOnStack(lines, linenum, said);
      assert forall b | b in kept :: unchanged(b);
      blocks := blocks + Elements(stack);
      OnlyStackWritten(kept);
    }

    /** Blocks of the stack have been written and new ones put on it. */
    twostate lemma OnlyStackWritten(kept: set<BlockInfo>)
      requires old(Valid()) && ppStack == old(ppStack) && Distinct(stack)
      requires blocks == old(blocks) + Elements(stack) && fresh(Elements(stack) - old(Elements(stack)))
      requires kept == old(set p, b | p in ppStack && b in p.Owned() :: b)
      requires (forall p | p in ppStack :: unchanged(p)) && forall b | b in kept :: unchanged(b)
      ensures Valid() && Checkpoints() == old(Checkpoints())
    {
      assert forall p | p in ppStack :: p.Owned() <= kept;
      assert forall p | p in ppStack :: Elements(stack) !! p.Owned();
      assert forall i | 0 <= i < |ppStack| :: ppStack[i] in ppStack;
      assert Checkpoints() == old(Checkpoints());
    }

    /** One line of a file: the state of the objects changes as the state of the values does. */
    method Update(lines: seq<string>, linenum: nat, ghost said: Line)
      requires Valid() && IsSaidBy(said, lines, linenum)
      modifies this, Infos(), blocks
      ensures Valid() && View() == Nesting.Update(old(View()), said)
      ensures fresh(Infos() - old(Infos()))
      ensures fresh(blocks - old(blocks))
    {
      UpdatePreprocessor(DirectiveOf(lines[linenum]));
      ActBesideCheckpoints(lines, linenum, said);
    }

    /** The lines of a file, one after the other. */
    method ProcessLines(lines: seq<string>)
      requires Valid()
      modifies this, Infos(), blocks
      ensures Valid() && View() == Run(old(View()), ReadFile(lines))
    {
      ghost var said := FileIsSaid(lines);
      ProcessSaid(lines, said);
    }

    method ProcessNext(lines: seq<string>, linenum: nat, ghost said: seq<Line>, ghost start: State)
      requires Valid() && linenum < |lines| && AreSaidBy(said, lines) && View() == Run(start, said[..linenum])
      modifies this, Infos(), blocks
      ensures Valid() && View() == Run(start, said[..linenum + 1])
      ensures fresh(Infos() - old(Infos())) && fresh(blocks - old(blocks))
    {
      RunNext(start, said, linenum);
      Update(lines, linenum, said[linenum]);
    }

    method ProcessSaid(lines: seq<string>, ghost said: seq<Line>)
      requires Valid() && AreSaidBy(said, lines)
      modifies this, Infos(), blocks
      ensures Valid() && View() == Run(old(View()), said)
    {
      ghost var start := View();
      for linenum := 0 to |lines|
        invariant Valid() && View() == Run(start, said[..linenum])
        invariant fresh(Infos() - old(Infos())) && fresh(blocks - old(blocks))
      {
        ProcessNext(lines, linenum, said, start);
      }
      assert said[..|lines|] == said;
    }
  }

  // ----- the lines of a file, each with those that follow it -----

  /** The class head that is found on a line, with what the lines behind it make of it. */
  ghost function HeadFor(lines: seq<string>, linenum: nat, found: Option<FoundHead>): Option<ClassHead>
    requires linenum < |lines|
  {
    match found
    case None => None
    case Some(h) =>
      Some(ClassHead(h.name, h.isStruct, InTemplateArguments(lines, linenum, h.end), SeemingEnd(lines, linenum)))
  }

  /** It is what the line says. */
  ghost predicate IsSaidBy(said: Line, lines: seq<string>, linenum: nat) {
    && linenum < |lines|
    && var line := lines[linenum];
       var (namespaces, rest) := ReadNamespaces(line);
       && said.number == linenum && said.directive == DirectiveOf(line)
       && said.parentheses == Count(line, '(') - Count(line, ')') && said.asmHead == IsAsmHead(line)
       && said.namespaces == namespaces && said.bareColon == HasBareColon(line)
       && said.classHead == HeadFor(lines, linenum, ReadClassHead(rest))
       && said.whole == ReadRest(rest) && said.afterClass == ReadRest(BehindClass(rest))
  }

  ghost predicate AreSaidBy(said: seq<Line>, lines: seq<string>) {
    |said| == |lines| && forall i | 0 <= i < |lines| :: IsSaidBy(said[i], lines, i)
  }

  /** The scan over the lines of the file is the scan over a line and those behind it. */
  lemma VerdictInFile(lines: seq<string>, linenum: nat, pos: nat)
    requires linenum < |lines|
    ensures InTemplateArguments(lines, linenum, pos) == InTemplateArguments(TextsOf(SourcesOf(lines)[linenum..]), 0, pos)
  {
    assert TextsOf(SourcesOf(lines)[linenum..]) == lines[linenum..];
    assert lines[..linenum] + lines[linenum..] == lines;
    LookShifts(lines[..linenum], lines[linenum..], 0, pos);
    VerdictIsLook(lines, linenum, pos);
    VerdictIsLook(lines[linenum..], 0, pos);
  }

  lemma HeadInFile(lines: seq<string>, linenum: nat)
    requires linenum < |lines|
    ensures ReadHead(SourcesOf(lines)[linenum..], true) == HeadFor(lines, linenum, HeadOn(lines[linenum]))
  {
    assert SourcesOf(lines)[linenum..][0].text == lines[linenum];
    match HeadOn(lines[linenum])
    case None =>
    case Some(h) => VerdictInFile(lines, linenum, h.end);
  }

  /** The lines of a file as they are read say what the methods find on them. */
  lemma FileIsSaid(lines: seq<string>) returns (said: seq<Line>)
    ensures said == ReadFile(lines) && AreSaidBy(said, lines)
  {
    said := ReadFile(lines);
    forall i | 0 <= i < |lines| ensures IsSaidBy(ReadFile(lines)[i], lines, i) {
      ReadAllAt(SourcesOf(lines), true, i);
      ReadIsSaid(lines, i);
    }
  }

  /** A line of the file, read with those behind it. */
  lemma ReadIsSaid(lines: seq<string>, linenum: nat)
    requires linenum < |lines|
    ensures IsSaidBy(ReadFirst(SourcesOf(lines)[linenum..], true), lines, linenum)
  {
    assert SourcesOf(lines)[linenum..][0] == Source(linenum, lines[linenum], DirectiveOf(lines[linenum]));
    HeadInFile(lines, linenum);
  }

  /** Where a class that begins on the line seems to end, or 0. */
  ghost function SeemingEnd(lines: seq<string>, linenum: nat): nat
    requires linenum < |lines|
  {
    match ClassEnd(SourcesOf(lines)[linenum..], 0)
    case None => 0
    case Some(i) => i
  }

  method FindLastLine(lines: seq<string>, linenum: nat) returns (lastLine: nat)
    requires linenum < |lines|
    ensures lastLine == SeemingEnd(lines, linenum)
  {
    lastLine := 0;
    var depth := 0;
    for i := linenum to |lines|
      invariant ClassEnd(SourcesOf(lines)[i..], depth) == ClassEnd(SourcesOf(lines)[linenum..], 0)
    {
      assert SourcesOf(lines)[i..][0] == SourcesOf(lines)[i] && SourcesOf(lines)[i..][1..] == SourcesOf(lines)[i + 1..];
      depth := depth + Count(lines[i], '{') - Count(lines[i], '}');
      if depth == 0 {
        lastLine := i;
        return;
      }
    }
    assert SourcesOf(lines)[|lines|..] == [];
  }

  // ----- turns of the loops -----

  /** What is left of a line behind its namespace heads, and behind its class head if that is taken. */
  function LeftOf(line: string, takesClass: bool): string {
    var rest := ReadNamespaces(line).1;
    if takesClass then BehindClass(rest) else rest
  }

  lemma EffectInSteps(stack: seq<Block>, said: Line, lines: seq<string>, linenum: nat, rest: string)
    requires IsSaidBy(said, lines, linenum) && rest == LeftOf(lines[linenum], TakesClass(BeforeHead(stack, said), said))
    ensures var begun := UpdateAccess(CheckBegin(PushClass(BeforeHead(stack, said), said), said), ReadAccess(rest, |rest|));
            Effect(stack, said) == ConsumeTokens(begun, ReadTokens(rest), linenum)
  {
  }

  lemma ReadOneNamespace(stack: seq<Block>, line: string, linenum: nat)
    requires NamespaceAt(line).Some?
    ensures var (name, behind) := NamespaceAt(line).value;
            var block := NewBlock(Namespace(name), linenum, IndexOf(behind, '{').Some?, NoAsm);
            && ReadNamespaces(line).1 == ReadNamespaces(BehindHead(behind)).1
            && PushNamespaces(stack, ReadNamespaces(line).0, linenum) ==
               PushNamespaces(stack + [block], ReadNamespaces(BehindHead(behind)).0, linenum)
  {
    var (name, behind) := NamespaceAt(line).value;
    var heads := ReadNamespaces(line).0;
    assert heads[0] == NamespaceHead(name, IndexOf(behind, '{').Some?);
    assert heads[1..] == ReadNamespaces(BehindHead(behind)).0;
  }

  lemma ConsumeFirst(stack: seq<Block>, line: string, linenum: nat)
    requires FirstMark(line).Some?
    ensures var k := FirstMark(line).value;
            ConsumeTokens(stack, ReadTokens(line), linenum) ==
            ConsumeTokens(ConsumeToken(stack, TokenFor(line, line[k]), linenum), ReadTokens(line[k + 1..]), linenum)
  {
    var k, tokens := FirstMark(line).value, ReadTokens(line);
    assert tokens[0] == TokenFor(line, line[k]) && tokens[1..] == ReadTokens(line[k + 1..]);
  }

  lemma RunNext(st: State, lines: seq<Line>, i: nat)
    requires i < |lines|
    ensures Run(st, lines[..i + 1]) == Nesting.Update(Run(st, lines[..i]), lines[i])
  {
    assert lines[..i + 1][..i] == lines[..i];
    LastLine(st, lines[..i + 1]);
  }
}
