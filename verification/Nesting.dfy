/**
 The nesting of blocks, as values.

 A line is given by what the linter's patterns say about it.  Update first handles a preprocessor
 directive, with checkpoints of the whole stack, and then lets the line's text act on the stack.
 */
module Nesting {
  import opened Wrappers

  datatype Kind = PlainBlock | ExternC | Class(name: string, isStruct: bool) | Namespace(name: string)

  datatype Asm = NoAsm | InsideAsm | EndAsm | BlockAsm

  datatype Block = Block(kind: Kind, line: nat, seenOpenBrace: bool, openParentheses: int, asm: Asm,
                         access: string, isDerived: bool, lastLine: nat)

  // ----- what the patterns say about a line -----

  datatype Directive = NoDirective | If | Else | Endif

  /** What the token loop finds: `{`, a semicolon or a closing parenthesis, `}`. */
  datatype Token = OpenBrace(externC: bool, asm: bool) | Terminator | CloseBrace

  datatype NamespaceHead = NamespaceHead(name: string, braceFollows: bool)

  /** Two of its parts depend on the lines that follow: the verdict on it, and where the class seems to end. */
  datatype ClassHead = ClassHead(name: string, isStruct: bool, isTemplateArgument: bool, lastLine: nat)

  /** The part of a line behind its namespace and class heads. */
  datatype Rest = Rest(access: Option<string>, tokens: seq<Token>)

  datatype Line = Line(number: nat, directive: Directive, parentheses: int, asmHead: bool,
                       namespaces: seq<NamespaceHead>, classHead: Option<ClassHead>, bareColon: bool,
                       afterClass: Rest, whole: Rest)

  // ----- what the text of a line does to the stack -----

  function Top(stack: seq<Block>): Block
    requires stack != []
  {
    stack[|stack| - 1]
  }

  function Pop(stack: seq<Block>): seq<Block>
    requires stack != []
  {
    stack[..|stack| - 1]
  }

  function SetTop(stack: seq<Block>, b: Block): seq<Block>
    requires stack != []
  {
    Pop(stack) + [b]
  }

  predicate SeenOpenBrace(stack: seq<Block>) {
    stack == [] || Top(stack).seenOpenBrace
  }

  function NewBlock(kind: Kind, line: nat, seenOpenBrace: bool, asm: Asm): Block {
    var access := if !kind.Class? then "" else if kind.isStruct then "public" else "private";
    Block(kind, line, seenOpenBrace, 0, asm, access, false, 0)
  }

  function NextAsm(b: Block, change: int, asmHead: bool): Asm {
    var open := b.openParentheses + change;
    if b.asm == NoAsm || b.asm == EndAsm then
      if change != 0 && open == 1 && asmHead then InsideAsm else NoAsm
    else if b.asm == InsideAsm && open == 0 then EndAsm
    else b.asm
  }

  function CountParentheses(stack: seq<Block>, line: Line): seq<Block> {
    if stack == [] then stack
    else
      var b := Top(stack);
      SetTop(stack, b.(openParentheses := b.openParentheses + line.parentheses,
                       asm := NextAsm(b, line.parentheses, line.asmHead)))
  }

  function PushNamespaces(stack: seq<Block>, heads: seq<NamespaceHead>, line: nat): seq<Block>
    decreases |heads|
  {
    if heads == [] then stack
    else PushNamespaces(stack + [NewBlock(Namespace(heads[0].name), line, heads[0].braceFollows, NoAsm)], heads[1..], line)
  }

  predicate TakesClass(stack: seq<Block>, line: Line) {
    && line.classHead.Some?
    && (stack == [] || Top(stack).openParentheses == 0)
    && !line.classHead.value.isTemplateArgument
  }

  function ClassBlock(head: ClassHead, line: nat): Block {
    NewBlock(Class(head.name, head.isStruct), line, false, NoAsm).(lastLine := head.lastLine)
  }

  function PushClass(stack: seq<Block>, line: Line): seq<Block> {
    if TakesClass(stack, line) then stack + [ClassBlock(line.classHead.value, line.number)] else stack
  }

  function CheckBegin(stack: seq<Block>, line: Line): seq<Block> {
    if !SeenOpenBrace(stack) && Top(stack).kind.Class? && line.bareColon
    then SetTop(stack, Top(stack).(isDerived := true))
    else stack
  }

  function UpdateAccess(stack: seq<Block>, access: Option<string>): seq<Block> {
    if stack != [] && Top(stack).kind.Class? && access.Some?
    then SetTop(stack, Top(stack).(access := access.value))
    else stack
  }

  function ConsumeToken(stack: seq<Block>, token: Token, line: nat): seq<Block> {
    match token
    case OpenBrace(externC, asm) =>
      if !SeenOpenBrace(stack) then SetTop(stack, Top(stack).(seenOpenBrace := true))
      else if externC then stack + [NewBlock(ExternC, line, true, NoAsm)]
      else stack + [NewBlock(PlainBlock, line, true, if asm then BlockAsm else NoAsm)]
    case Terminator => if SeenOpenBrace(stack) then stack else Pop(stack)
    case CloseBrace => if stack == [] then stack else Pop(stack)
  }

  function ConsumeTokens(stack: seq<Block>, tokens: seq<Token>, line: nat): seq<Block>
    decreases |tokens|
  {
    if tokens == [] then stack
    else ConsumeTokens(ConsumeToken(stack, tokens[0], line), tokens[1..], line)
  }

  /** The stack when the class head of the line is looked at. */
  function BeforeHead(stack: seq<Block>, line: Line): seq<Block> {
    PushNamespaces(CountParentheses(stack, line), line.namespaces, line.number)
  }

  function Effect(stack: seq<Block>, line: Line): seq<Block> {
    var inner := BeforeHead(stack, line);
    var rest := if TakesClass(inner, line) then line.afterClass else line.whole;
    var begun := UpdateAccess(CheckBegin(PushClass(inner, line), line), rest.access);
    ConsumeTokens(begun, rest.tokens, line.number)
  }

  // ----- the preprocessor -----

  datatype Checkpoint = Checkpoint(beforeIf: seq<Block>, beforeElse: seq<Block>, seenElse: bool)

  datatype State = State(stack: seq<Block>, pp: seq<Checkpoint>)

  function Preprocess(st: State, directive: Directive): State {
    if directive == If then State(st.stack, st.pp + [Checkpoint(st.stack, [], false)])
    else if directive == NoDirective || st.pp == [] then st
    else
      var last := st.pp[|st.pp| - 1];
      var outer := st.pp[..|st.pp| - 1];
      if directive == Else then
        State(last.beforeIf, outer + [if last.seenElse then last else Checkpoint(last.beforeIf, st.stack, true)])
      else
        State(if last.seenElse then last.beforeElse else st.stack, outer)
  }

  function Update(st: State, line: Line): State {
    var st' := Preprocess(st, line.directive);
    State(Effect(st'.stack, line), st'.pp)
  }

  function Run(st: State, lines: seq<Line>): State
    decreases |lines|
  {
    if lines == [] then st else Run(Update(st, lines[0]), lines[1..])
  }

  lemma {:induction false} RunConcat(st: State, a: seq<Line>, b: seq<Line>)
    ensures Run(st, a + b) == Run(Run(st, a), b)
    decreases |a|
  {
    if a == [] {
      assert a + b == b;
    } else {
      assert (a + b)[1..] == a[1..] + b;
      RunConcat(Update(st, a[0]), a[1..], b);
    }
  }

  // ----- erasing the branches that are not kept -----

  /** For every conditional that is open, whether its #else has been seen. */
  type Conditionals = seq<bool>

  function Follow(open: Conditionals, directive: Directive): Conditionals {
    if directive == If then open + [false]
    else if directive == NoDirective || open == [] then open
    else if directive == Else then open[..|open| - 1] + [true]
    else open[..|open| - 1]
  }

  function FollowAll(open: Conditionals, directives: seq<Directive>): Conditionals
    decreases |directives|
  {
    if directives == [] then open else FollowAll(Follow(open, directives[0]), directives[1..])
  }

  /** For each line, whether it stands in a branch that is not the first of its conditional. */
  function Erased(open: Conditionals, directives: seq<Directive>): (r: seq<bool>)
    ensures |r| == |directives|
    decreases |directives|
  {
    if directives == [] then []
    else
      var open' := Follow(open, directives[0]);
      [true in open'] + Erased(open', directives[1..])
  }

  function Unmarked<T>(xs: seq<T>, marks: seq<bool>): seq<T>
    requires |xs| == |marks|
  {
    if xs == [] then []
    else (if marks[0] then [] else [xs[0]]) + Unmarked(xs[1..], marks[1..])
  }

  function Directives(lines: seq<Line>): (r: seq<Directive>)
    ensures |r| == |lines|
  {
    if lines == [] then [] else [lines[0].directive] + Directives(lines[1..])
  }

  /** The lines with their directives taken for ordinary text. */
  function Plain(lines: seq<Line>): (r: seq<Line>)
    ensures |r| == |lines|
  {
    if lines == [] then [] else [lines[0].(directive := NoDirective)] + Plain(lines[1..])
  }

  function Kept(open: Conditionals, lines: seq<Line>): seq<Line> {
    Plain(Unmarked(lines, Erased(open, Directives(lines))))
  }

  /** Where the outermost #else has been seen. */
  function FirstElse(open: Conditionals): (k: nat)
    requires true in open
    ensures k < |open| && open[k] && forall j | 0 <= j < k :: !open[j]
  {
    if open[0] then 0 else 1 + FirstElse(open[1..])
  }

  /** The run over all lines is in st, the run over the kept lines has reached the stack kept. */
  ghost predicate Simulates(st: State, open: Conditionals, kept: seq<Block>) {
    && |st.pp| == |open|
    && (forall k | 0 <= k < |open| :: st.pp[k].seenElse == open[k])
    && kept == if true in open then st.pp[FirstElse(open)].beforeElse else st.stack
  }

  lemma FirstElseIs(open: Conditionals, k: nat)
    requires k < |open| && open[k] && forall j | 0 <= j < k :: !open[j]
    ensures true in open && FirstElse(open) == k
  {
  }

  lemma FirstElseOfPrefix(open: Conditionals, last: bool)
    requires true in open
    ensures true in open + [last] && FirstElse(open + [last]) == FirstElse(open)
  {
    var k := FirstElse(open);
    assert (open + [last])[k];
    FirstElseIs(open + [last], k);
  }

  lemma IfSimulates(st: State, open: Conditionals, kept: seq<Block>)
    requires Simulates(st, open, kept)
    ensures Simulates(Preprocess(st, If), Follow(open, If), kept)
  {
    if true in open {
      FirstElseOfPrefix(open, false);
    }
  }

  /** The first open #else, when the last conditional is set to seen or not. */
  lemma FirstElseWithLast(open: Conditionals, last: bool)
    requires open != [] && (true in open[..|open| - 1] || last)
    ensures var outer := open[..|open| - 1];
            && true in outer + [last]
            && FirstElse(outer + [last]) == (if true in outer then FirstElse(outer) else |outer|)
  {
    var outer := open[..|open| - 1];
    if true in outer {
      FirstElseOfPrefix(outer, last);
    } else {
      FirstElseIs(outer + [last], |outer|);
    }
  }

  lemma ElseSimulates(st: State, open: Conditionals, kept: seq<Block>)
    requires Simulates(st, open, kept)
    ensures Simulates(Preprocess(st, Else), Follow(open, Else), kept)
  {
    if open != [] {
      var n := |open| - 1;
      assert open == open[..n] + [open[n]];
      FirstElseWithLast(open, true);
      if true in open[..n] || open[n] {
        FirstElseWithLast(open, open[n]);
      }
    }
  }

  lemma EndifSimulates(st: State, open: Conditionals, kept: seq<Block>)
    requires Simulates(st, open, kept)
    ensures Simulates(Preprocess(st, Endif), Follow(open, Endif), kept)
  {
    if open != [] {
      var n := |open| - 1;
      assert open == open[..n] + [open[n]];
      if true in open[..n] || open[n] {
        FirstElseWithLast(open, open[n]);
      }
    }
  }

  lemma PreprocessSimulates(st: State, open: Conditionals, kept: seq<Block>, directive: Directive)
    requires Simulates(st, open, kept)
    ensures Simulates(Preprocess(st, directive), Follow(open, directive), kept)
  {
    match directive
    case NoDirective =>
    case If => IfSimulates(st, open, kept);
    case Else => ElseSimulates(st, open, kept);
    case Endif => EndifSimulates(st, open, kept);
  }

  lemma EffectIgnoresDirective(stack: seq<Block>, line: Line)
    ensures Effect(stack, line.(directive := NoDirective)) == Effect(stack, line)
  {
  }

  /** What a line does to the stack of the kept lines. */
  function KeptEffect(open: Conditionals, kept: seq<Block>, line: Line): seq<Block> {
    if true in Follow(open, line.directive) then kept else Effect(kept, line)
  }

  lemma StepSimulates(st: State, open: Conditionals, kept: seq<Block>, line: Line)
    requires Simulates(st, open, kept)
    ensures Simulates(Update(st, line), Follow(open, line.directive), KeptEffect(open, kept, line))
  {
    PreprocessSimulates(st, open, kept, line.directive);
  }

  lemma KeptStep(open: Conditionals, line: Line, rest: seq<Line>)
    ensures var open' := Follow(open, line.directive);
            Kept(open, [line] + rest) ==
            (if true in open' then [] else [line.(directive := NoDirective)]) + Kept(open', rest)
  {
    var open' := Follow(open, line.directive);
    assert ([line] + rest)[1..] == rest;
    var marks := Erased(open, Directives([line] + rest));
    assert Directives([line] + rest) == [line.directive] + Directives(rest);
    assert marks == [true in open'] + Erased(open', Directives(rest));
    assert marks[1..] == Erased(open', Directives(rest));
    if true !in open' {
      assert Unmarked([line] + rest, marks) == [line] + Unmarked(rest, marks[1..]);
    } else {
      assert Unmarked([line] + rest, marks) == Unmarked(rest, marks[1..]);
    }
  }

  lemma KeptRunStep(open: Conditionals, kept: seq<Block>, line: Line, rest: seq<Line>)
    ensures Run(State(kept, []), Kept(open, [line] + rest)) ==
            Run(State(KeptEffect(open, kept, line), []), Kept(Follow(open, line.directive), rest))
  {
    var more := Kept(Follow(open, line.directive), rest);
    KeptStep(open, line, rest);
    if true in Follow(open, line.directive) {
      assert [] + more == more;
    } else {
      var plain := line.(directive := NoDirective);
      assert ([plain] + more)[1..] == more;
      EffectIgnoresDirective(kept, line);
    }
  }

  /**
   For any lines: wherever no #else is open, the stack is the one that the kept lines alone lead to,
   whatever the other branches do; and inside a branch that is not kept, the outermost checkpoint
   holds that stack.
   */
  lemma {:induction false} ErasingBranchesPreservesStack(st: State, open: Conditionals, kept: seq<Block>, lines: seq<Line>)
    requires Simulates(st, open, kept)
    ensures Simulates(Run(st, lines), FollowAll(open, Directives(lines)), Run(State(kept, []), Kept(open, lines)).stack)
    decreases |lines|
  {
    if lines != [] {
      var line, rest := lines[0], lines[1..];
      StepSimulates(st, open, kept, line);
      KeptRunStep(open, kept, line, rest);
      assert lines == [line] + rest;
      ErasingBranchesPreservesStack(Update(st, line), Follow(open, line.directive), KeptEffect(open, kept, line), rest);
    }
  }

  // ----- the depth of blocks in closed form -----

  function Net(tokens: seq<Token>): int {
    if tokens == [] then 0
    else
      var last := tokens[|tokens| - 1];
      Net(tokens[..|tokens| - 1]) + if last.OpenBrace? then 1 else if last == CloseBrace then -1 else 0
  }

  /** The least net over all prefixes. */
  function LeastNet(tokens: seq<Token>): int {
    if tokens == [] then 0
    else
      var before := LeastNet(tokens[..|tokens| - 1]);
      if Net(tokens) < before then Net(tokens) else before
  }

  lemma {:induction false} LeastNetIsLeast(tokens: seq<Token>, n: nat) returns (m: nat)
    requires n <= |tokens|
    ensures LeastNet(tokens) <= Net(tokens[..n]) && LeastNet(tokens) <= 0
    ensures m <= |tokens| && LeastNet(tokens) == Net(tokens[..m])
  {
    if tokens == [] {
      m := 0;
    } else {
      var front := tokens[..|tokens| - 1];
      m := LeastNetIsLeast(front, if n < |tokens| then n else 0);
      assert n < |tokens| ==> front[..n] == tokens[..n];
      assert front[..m] == tokens[..m] && tokens[..|tokens|] == tokens;
      if Net(tokens) < LeastNet(front) {
        m := |tokens|;
      }
    }
  }

  predicate OnlyBraces(line: Line) {
    line.directive == NoDirective && line.namespaces == [] && line.classHead == None
  }

  function TokensOf(lines: seq<Line>): seq<Token> {
    if lines == [] then [] else TokensOf(lines[..|lines| - 1]) + lines[|lines| - 1].whole.tokens
  }

  predicate AllBegun(stack: seq<Block>) {
    forall b | b in stack :: b.seenOpenBrace
  }

  lemma {:induction false} TokensChangeDepth(stack: seq<Block>, before: seq<Token>, tokens: seq<Token>, line: nat)
    requires AllBegun(stack) && |stack| == Net(before) - LeastNet(before)
    ensures AllBegun(ConsumeTokens(stack, tokens, line))
    ensures |ConsumeTokens(stack, tokens, line)| == Net(before + tokens) - LeastNet(before + tokens)
    decreases |tokens|
  {
    if tokens == [] {
      assert before + tokens == before;
    } else {
      var before' := before + [tokens[0]];
      assert before'[..|before|] == before;
      assert before + tokens == before' + tokens[1..];
      TokensChangeDepth(ConsumeToken(stack, tokens[0], line), before', tokens[1..], line);
    }
  }

  lemma LineChangesDepth(stack: seq<Block>, before: seq<Token>, line: Line)
    requires OnlyBraces(line) && AllBegun(stack) && |stack| == Net(before) - LeastNet(before)
    ensures AllBegun(Effect(stack, line))
    ensures |Effect(stack, line)| == Net(before + line.whole.tokens) - LeastNet(before + line.whole.tokens)
  {
    var counted := CountParentheses(stack, line);
    assert AllBegun(counted) && |counted| == |stack|;
    assert SeenOpenBrace(counted) by {
      assert counted == [] || Top(counted) in counted;
    }
    var begun := UpdateAccess(counted, line.whole.access);
    assert AllBegun(begun);
    TokensChangeDepth(begun, before, line.whole.tokens, line.number);
  }

  lemma RunOne(st: State, line: Line)
    ensures Run(st, [line]) == Update(st, line)
  {
    assert [line][1..] == [];
  }

  lemma LastLine(st: State, lines: seq<Line>)
    requires lines != []
    ensures Run(st, lines) == Update(Run(st, lines[..|lines| - 1]), lines[|lines| - 1])
  {
    var front, last := lines[..|lines| - 1], lines[|lines| - 1];
    assert lines == front + [last];
    RunConcat(st, front, [last]);
    RunOne(Run(st, front), last);
  }

  /**
   On text without namespaces, classes and directives the depth is the net number of braces above
   its lowest point, so stray closing braces are absorbed.
   */
  lemma {:induction false} DepthIsNetAboveLeast(lines: seq<Line>)
    requires forall l | l in lines :: OnlyBraces(l)
    ensures var st := Run(State([], []), lines);
            && st.pp == []
            && AllBegun(st.stack)
            && |st.stack| == Net(TokensOf(lines)) - LeastNet(TokensOf(lines))
  {
    if lines != [] {
      var front, last := lines[..|lines| - 1], lines[|lines| - 1];
      DepthIsNetAboveLeast(front);
      LastLine(State([], []), lines);
      LineChangesDepth(Run(State([], []), front).stack, TokensOf(front), last);
    }
  }
}
