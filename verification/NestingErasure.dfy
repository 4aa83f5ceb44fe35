/**
 Erasing preprocessor branches from the lines of a file, when does it preserve the nesting stack?

 What a line does to the stack is kept by the checkpoints, as Nesting shows.  But a class head looks
 ahead, and what it sees may lie in a branch that is erased.  So the law holds where no class head
 looks so far before it is decided, and it fails on some texts where one does.
 */
module NestingErasure {
  import opened Wrappers
  import opened Characters
  import opened LinePatterns
  import opened LineReading
  import opened Nesting
  import opened TemplateLookahead

  // ----- the kept lines of a file -----

  function DirectivesOf(src: seq<Source>): (r: seq<Directive>)
    ensures |r| == |src|
  {
    if src == [] then [] else [src[0].directive] + DirectivesOf(src[1..])
  }

  function Silent(s: Source): Source {
    s.(directive := NoDirective)
  }

  /** The lines that stand in no branch but the first of its conditional; #if and #endif stay as text. */
  function KeptOf(open: Conditionals, src: seq<Source>): seq<Source>
    decreases |src|
  {
    if src == [] then []
    else
      var open' := Follow(open, src[0].directive);
      (if true in open' then [] else [Silent(src[0])]) + KeptOf(open', src[1..])
  }

  lemma KeptOne(open: Conditionals, first: Source, rest: seq<Source>)
    ensures KeptOf(open, [first] + rest) ==
            (if true in Follow(open, first.directive) then [] else [Silent(first)]) +
            KeptOf(Follow(open, first.directive), rest)
  {
    assert ([first] + rest)[1..] == rest;
  }

  /** How many lines are kept before the first one that is not. */
  function KeptRun(open: Conditionals, src: seq<Source>): (n: nat)
    ensures n <= |src|
    decreases |src|
  {
    if src == [] || true in Follow(open, src[0].directive) then 0
    else 1 + KeptRun(Follow(open, src[0].directive), src[1..])
  }

  lemma {:induction false} KeptRunIsKept(open: Conditionals, src: seq<Source>)
    ensures var n, kept := KeptRun(open, src), KeptOf(open, src);
            && n <= |kept|
            && (forall i | 0 <= i < n :: kept[i] == Silent(src[i]))
            && (n == |src| ==> |kept| == n)
    decreases |src|
  {
    if src != [] && true !in Follow(open, src[0].directive) {
      KeptRunIsKept(Follow(open, src[0].directive), src[1..]);
    }
  }

  // ----- the condition -----

  /** The first line holds no class head, or its verdict does not depend on lines behind the next n. */
  predicate HeadIsSafe(src: seq<Source>, n: nat)
    requires n < |src|
  {
    match HeadOn(src[0].text)
    case None => true
    case Some(h) => n + 1 == |src| || LookAhead(TextsOf(src[..n + 1]), 0, h.end).Decided?
  }

  /** Nor does the end of the class. */
  predicate EndIsSafe(src: seq<Source>, n: nat)
    requires n < |src|
  {
    HeadOn(src[0].text) == None || n + 1 == |src| || ClassEnd(src[..n + 1], 0).Some?
  }

  /**
   No class head on a kept line looks ahead into a branch that is erased before it is decided; ends
   says whether the search for the end of the class counts as well.
   */
  predicate Safe(open: Conditionals, src: seq<Source>, ends: bool)
    decreases |src|
  {
    src == [] ||
    (var open' := Follow(open, src[0].directive);
     && (true in open' ||
         (var n := KeptRun(open', src[1..]);
          HeadIsSafe(src, n) && (ends ==> EndIsSafe(src, n))))
     && Safe(open', src[1..], ends))
  }

  // ----- the kept lines are read alike -----

  /** Up to its line n the text of b is that of a, and there is no more of either if n is all of a. */
  predicate SameUpTo(a: seq<Source>, b: seq<Source>, n: nat) {
    && n < |a| && n < |b|
    && (forall i | 0 <= i <= n :: b[i].text == a[i].text && b[i].number == a[i].number)
    && (n + 1 == |a| ==> |b| == |a|)
  }

  lemma VerdictIsSame(a: seq<Source>, b: seq<Source>, n: nat, pos: nat)
    requires SameUpTo(a, b, n) && (n + 1 == |a| || LookAhead(TextsOf(a[..n + 1]), 0, pos).Decided?)
    ensures InTemplateArguments(TextsOf(a), 0, pos) == InTemplateArguments(TextsOf(b), 0, pos)
  {
    if n + 1 == |a| {
      assert TextsOf(a) == TextsOf(b);
    } else {
      var front := TextsOf(a[..n + 1]);
      assert TextsOf(a) == front + TextsOf(a[n + 1..]);
      assert TextsOf(b) == front + TextsOf(b[n + 1..]);
      VerdictOfPrefix(front, TextsOf(a[n + 1..]), 0, pos);
      VerdictOfPrefix(front, TextsOf(b[n + 1..]), 0, pos);
    }
  }

  lemma {:induction false} EndOfSame(a: seq<Source>, b: seq<Source>, depth: int)
    requires |a| == |b| && forall i | 0 <= i < |a| :: b[i].text == a[i].text && b[i].number == a[i].number
    ensures ClassEnd(a, depth) == ClassEnd(b, depth)
  {
    if a != [] {
      EndOfSame(a[1..], b[1..], depth + Count(a[0].text, '{') - Count(a[0].text, '}'));
    }
  }

  lemma {:induction false} EndOfPrefix(a: seq<Source>, more: seq<Source>, depth: int)
    requires ClassEnd(a, depth).Some?
    ensures ClassEnd(a + more, depth) == ClassEnd(a, depth)
  {
    assert (a + more)[1..] == a[1..] + more;
    var depth' := depth + Count(a[0].text, '{') - Count(a[0].text, '}');
    if depth' != 0 {
      EndOfPrefix(a[1..], more, depth');
    }
  }

  lemma EndIsSame(a: seq<Source>, b: seq<Source>, n: nat)
    requires SameUpTo(a, b, n) && (n + 1 == |a| || ClassEnd(a[..n + 1], 0).Some?)
    ensures ClassEnd(a, 0) == ClassEnd(b, 0)
  {
    if n + 1 == |a| {
      EndOfSame(a, b, 0);
    } else {
      EndOfSame(a[..n + 1], b[..n + 1], 0);
      EndOfPrefix(a[..n + 1], a[n + 1..], 0);
      EndOfPrefix(b[..n + 1], b[n + 1..], 0);
      assert a == a[..n + 1] + a[n + 1..] && b == b[..n + 1] + b[n + 1..];
    }
  }

  lemma HeadIsSame(a: seq<Source>, b: seq<Source>, n: nat, ends: bool)
    requires SameUpTo(a, b, n) && HeadIsSafe(a, n) && (ends ==> EndIsSafe(a, n))
    ensures ReadHead(a, ends) == ReadHead(b, ends)
  {
    match HeadOn(a[0].text)
    case None =>
    case Some(h) =>
      VerdictIsSame(a, b, n, h.end);
      if ends {
        EndIsSame(a, b, n);
      }
  }

  lemma FirstIsSame(a: seq<Source>, b: seq<Source>, ends: bool)
    requires a != [] && b != [] && b[0] == Silent(a[0]) && ReadHead(a, ends) == ReadHead(b, ends)
    ensures ReadFirst(b, ends) == ReadFirst(a, ends).(directive := NoDirective)
  {
  }

  lemma {:induction false} DirectivesAreRead(src: seq<Source>, ends: bool)
    ensures Directives(ReadAll(src, ends)) == DirectivesOf(src)
  {
    if src != [] {
      DirectivesAreRead(src[1..], ends);
      assert ReadAll(src, ends)[1..] == ReadAll(src[1..], ends);
    }
  }

  lemma FirstIsReadAlike(open: Conditionals, src: seq<Source>, ends: bool)
    requires src != [] && HeadIsSafe(src, KeptRun(open, src[1..])) && (ends ==> EndIsSafe(src, KeptRun(open, src[1..])))
    ensures ReadFirst([Silent(src[0])] + KeptOf(open, src[1..]), ends) == ReadFirst(src, ends).(directive := NoDirective)
  {
    var kept := [Silent(src[0])] + KeptOf(open, src[1..]);
    var n := KeptRun(open, src[1..]);
    KeptRunIsKept(open, src[1..]);
    assert SameUpTo(src, kept, n);
    HeadIsSame(src, kept, n, ends);
    FirstIsSame(src, kept, ends);
  }

  lemma ReadOne(first: Source, rest: seq<Source>, ends: bool)
    ensures ReadAll([first] + rest, ends) == [ReadFirst([first] + rest, ends)] + ReadAll(rest, ends)
  {
    assert ([first] + rest)[1..] == rest;
  }

  lemma KeptReading(open: Conditionals, first: Source, rest: seq<Source>, ends: bool)
    ensures var line, src, open' := ReadFirst([first] + rest, ends), [first] + rest, Follow(open, first.directive);
            Kept(open, ReadAll(src, ends)) ==
            (if true in open' then [] else [line.(directive := NoDirective)]) + Kept(open', ReadAll(rest, ends))
  {
    ReadOne(first, rest, ends);
    KeptStep(open, ReadFirst([first] + rest, ends), ReadAll(rest, ends));
  }

  lemma ErasedReading(open: Conditionals, first: Source, rest: seq<Source>, ends: bool)
    requires true in Follow(open, first.directive)
    ensures Kept(open, ReadAll([first] + rest, ends)) == Kept(Follow(open, first.directive), ReadAll(rest, ends))
    ensures KeptOf(open, [first] + rest) == KeptOf(Follow(open, first.directive), rest)
  {
    KeptReading(open, first, rest, ends);
    KeptOne(open, first, rest);
    assert [] + KeptOf(Follow(open, first.directive), rest) == KeptOf(Follow(open, first.directive), rest);
  }

  lemma KeptLineReading(open: Conditionals, first: Source, rest: seq<Source>, ends: bool)
    requires true !in Follow(open, first.directive)
    ensures var open' := Follow(open, first.directive);
            && ReadAll(KeptOf(open, [first] + rest), ends) ==
               [ReadFirst([Silent(first)] + KeptOf(open', rest), ends)] + ReadAll(KeptOf(open', rest), ends)
            && Kept(open, ReadAll([first] + rest, ends)) ==
               [ReadFirst([first] + rest, ends).(directive := NoDirective)] + Kept(open', ReadAll(rest, ends))
  {
    KeptReading(open, first, rest, ends);
    KeptOne(open, first, rest);
    ReadOne(Silent(first), KeptOf(Follow(open, first.directive), rest), ends);
  }

  lemma KeptLineAlike(open: Conditionals, first: Source, rest: seq<Source>, ends: bool)
    requires true !in Follow(open, first.directive)
    requires var n := KeptRun(Follow(open, first.directive), rest);
             HeadIsSafe([first] + rest, n) && (ends ==> EndIsSafe([first] + rest, n))
    requires var open' := Follow(open, first.directive);
             Kept(open', ReadAll(rest, ends)) == ReadAll(KeptOf(open', rest), ends)
    ensures Kept(open, ReadAll([first] + rest, ends)) == ReadAll(KeptOf(open, [first] + rest), ends)
  {
    assert ([first] + rest)[1..] == rest;
    FirstIsReadAlike(Follow(open, first.directive), [first] + rest, ends);
    KeptLineReading(open, first, rest, ends);
  }

  lemma FirstIsSafe(open: Conditionals, src: seq<Source>, ends: bool)
    requires src != [] && Safe(open, src, ends)
    ensures Safe(Follow(open, src[0].directive), src[1..], ends)
    ensures true !in Follow(open, src[0].directive) ==>
              var n := KeptRun(Follow(open, src[0].directive), src[1..]);
              HeadIsSafe(src, n) && (ends ==> EndIsSafe(src, n))
  {
  }

  lemma LineAlike(open: Conditionals, first: Source, rest: seq<Source>, ends: bool)
    requires true !in Follow(open, first.directive) ==>
               var n := KeptRun(Follow(open, first.directive), rest);
               HeadIsSafe([first] + rest, n) && (ends ==> EndIsSafe([first] + rest, n))
    requires var open' := Follow(open, first.directive);
             Kept(open', ReadAll(rest, ends)) == ReadAll(KeptOf(open', rest), ends)
    ensures Kept(open, ReadAll([first] + rest, ends)) == ReadAll(KeptOf(open, [first] + rest), ends)
  {
    if true in Follow(open, first.directive) {
      ErasedReading(open, first, rest, ends);
    } else {
      KeptLineAlike(open, first, rest, ends);
    }
  }

  lemma FirstAlike(open: Conditionals, src: seq<Source>, ends: bool)
    requires src != []
    requires var open' := Follow(open, src[0].directive);
             && (true !in open' ==> HeadIsSafe(src, KeptRun(open', src[1..])) && (ends ==> EndIsSafe(src, KeptRun(open', src[1..]))))
             && Kept(open', ReadAll(src[1..], ends)) == ReadAll(KeptOf(open', src[1..]), ends)
    ensures Kept(open, ReadAll(src, ends)) == ReadAll(KeptOf(open, src), ends)
  {
    assert [src[0]] + src[1..] == src;
    LineAlike(open, src[0], src[1..], ends);
  }

  /** The kept lines, read in the whole text, say what they say in the text of kept lines. */
  lemma {:induction false} KeptAreReadAlike(open: Conditionals, src: seq<Source>, ends: bool)
    requires Safe(open, src, ends)
    ensures Kept(open, ReadAll(src, ends)) == ReadAll(KeptOf(open, src), ends)
    decreases |src|
  {
    if src != [] {
      FirstIsSafe(open, src, ends);
      KeptAreReadAlike(Follow(open, src[0].directive), src[1..], ends);
      FirstAlike(open, src, ends);
    }
  }

  // ----- the ends of classes do not act on the stack -----

  function Forget(b: Block): Block {
    b.(lastLine := 0)
  }

  function ForgetAll(stack: seq<Block>): (r: seq<Block>)
    ensures |r| == |stack|
  {
    seq(|stack|, i requires 0 <= i < |stack| => Forget(stack[i]))
  }

  function ForgetCheckpoint(c: Checkpoint): Checkpoint {
    Checkpoint(ForgetAll(c.beforeIf), ForgetAll(c.beforeElse), c.seenElse)
  }

  function ForgetState(st: State): State {
    State(ForgetAll(st.stack), seq(|st.pp|, i requires 0 <= i < |st.pp| => ForgetCheckpoint(st.pp[i])))
  }

  /** The same line, read without looking for the ends of classes. */
  predicate Blinded(line: Line, blind: Line) {
    && blind.classHead == (if line.classHead.Some? then Some(line.classHead.value.(lastLine := 0)) else None)
    && blind == line.(classHead := blind.classHead)
  }

  lemma ForgetPush(stack: seq<Block>, b: Block)
    ensures ForgetAll(stack + [b]) == ForgetAll(stack) + [Forget(b)]
  {
  }

  lemma ForgetPop(stack: seq<Block>)
    requires stack != []
    ensures ForgetAll(Pop(stack)) == Pop(ForgetAll(stack)) && Top(ForgetAll(stack)) == Forget(Top(stack))
  {
  }

  lemma ForgetSetTop(stack: seq<Block>, b: Block)
    requires stack != []
    ensures ForgetAll(SetTop(stack, b)) == SetTop(ForgetAll(stack), Forget(b))
  {
    ForgetPop(stack);
    ForgetPush(Pop(stack), b);
  }

  lemma ForgetCount(stack: seq<Block>, line: Line, blind: Line)
    requires Blinded(line, blind)
    ensures CountParentheses(ForgetAll(stack), blind) == ForgetAll(CountParentheses(stack, line))
  {
    if stack != [] {
      var b := Top(stack);
      ForgetPop(stack);
      ForgetSetTop(stack, b.(openParentheses := b.openParentheses + line.parentheses,
                             asm := NextAsm(b, line.parentheses, line.asmHead)));
    }
  }

  lemma {:induction false} ForgetNamespaces(stack: seq<Block>, heads: seq<NamespaceHead>, line: nat)
    ensures PushNamespaces(ForgetAll(stack), heads, line) == ForgetAll(PushNamespaces(stack, heads, line))
    decreases |heads|
  {
    if heads != [] {
      var b := NewBlock(Namespace(heads[0].name), line, heads[0].braceFollows, NoAsm);
      ForgetPush(stack, b);
      ForgetNamespaces(stack + [b], heads[1..], line);
    }
  }

  lemma ForgetClass(stack: seq<Block>, line: Line, blind: Line)
    requires Blinded(line, blind)
    ensures TakesClass(ForgetAll(stack), blind) == TakesClass(stack, line)
    ensures PushClass(ForgetAll(stack), blind) == ForgetAll(PushClass(stack, line))
  {
    if stack != [] {
      ForgetPop(stack);
    }
    if TakesClass(stack, line) {
      ForgetPush(stack, ClassBlock(line.classHead.value, line.number));
    }
  }

  lemma ForgetBegin(stack: seq<Block>, line: Line, blind: Line, access: Option<string>)
    requires Blinded(line, blind)
    ensures CheckBegin(ForgetAll(stack), blind) == ForgetAll(CheckBegin(stack, line))
    ensures UpdateAccess(ForgetAll(stack), access) == ForgetAll(UpdateAccess(stack, access))
  {
    if stack != [] {
      ForgetPop(stack);
      ForgetSetTop(stack, Top(stack).(isDerived := true));
      if access.Some? {
        ForgetSetTop(stack, Top(stack).(access := access.value));
      }
    }
  }

  lemma ForgetToken(stack: seq<Block>, token: Token, line: nat)
    ensures ConsumeToken(ForgetAll(stack), token, line) == ForgetAll(ConsumeToken(stack, token, line))
  {
    if stack != [] {
      ForgetPop(stack);
      ForgetSetTop(stack, Top(stack).(seenOpenBrace := true));
    }
    match token
    case OpenBrace(externC, asm) =>
      ForgetPush(stack, NewBlock(ExternC, line, true, NoAsm));
      ForgetPush(stack, NewBlock(PlainBlock, line, true, if asm then BlockAsm else NoAsm));
    case _ =>
  }

  lemma {:induction false} ForgetTokens(stack: seq<Block>, tokens: seq<Token>, line: nat)
    ensures ConsumeTokens(ForgetAll(stack), tokens, line) == ForgetAll(ConsumeTokens(stack, tokens, line))
    decreases |tokens|
  {
    if tokens != [] {
      ForgetToken(stack, tokens[0], line);
      ForgetTokens(ConsumeToken(stack, tokens[0], line), tokens[1..], line);
    }
  }

  lemma ForgetEffect(stack: seq<Block>, line: Line, blind: Line)
    requires Blinded(line, blind)
    ensures Effect(ForgetAll(stack), blind) == ForgetAll(Effect(stack, line))
  {
    var counted := CountParentheses(stack, line);
    var inner := PushNamespaces(counted, line.namespaces, line.number);
    var rest := if TakesClass(inner, line) then line.afterClass else line.whole;
    ForgetCount(stack, line, blind);
    ForgetNamespaces(counted, line.namespaces, line.number);
    ForgetClass(inner, line, blind);
    ForgetBegin(PushClass(inner, line), line, blind, rest.access);
    ForgetBegin(CheckBegin(PushClass(inner, line), line), line, blind, rest.access);
    ForgetTokens(UpdateAccess(CheckBegin(PushClass(inner, line), line), rest.access), rest.tokens, line.number);
  }

  lemma ForgetPreprocess(st: State, directive: Directive)
    ensures Preprocess(ForgetState(st), directive) == ForgetState(Preprocess(st, directive))
  {
    assert ForgetAll([]) == [];
  }

  lemma {:induction false} ForgetRun(st: State, lines: seq<Line>, blind: seq<Line>)
    requires |lines| == |blind| && forall i | 0 <= i < |lines| :: Blinded(lines[i], blind[i])
    ensures Run(ForgetState(st), blind) == ForgetState(Run(st, lines))
    decreases |lines|
  {
    if lines != [] {
      var st' := Preprocess(st, lines[0].directive);
      ForgetPreprocess(st, lines[0].directive);
      ForgetEffect(st'.stack, lines[0], blind[0]);
      ForgetRun(Update(st, lines[0]), lines[1..], blind[1..]);
    }
  }

  lemma BlindFirst(src: seq<Source>)
    requires src != []
    ensures Blinded(ReadFirst(src, true), ReadFirst(src, false))
  {
  }

  lemma BlindReading(src: seq<Source>)
    ensures forall i | 0 <= i < |src| :: Blinded(ReadAll(src, true)[i], ReadAll(src, false)[i])
  {
    forall i | 0 <= i < |src| ensures Blinded(ReadAll(src, true)[i], ReadAll(src, false)[i]) {
      ReadAllAt(src, true, i);
      ReadAllAt(src, false, i);
      BlindFirst(src[i..]);
    }
  }

  // ----- the theorems -----

  /** The stack that the lines lead to. */
  function StackOf(src: seq<Source>, ends: bool): seq<Block> {
    Run(State([], []), ReadAll(src, ends)).stack
  }

  /** No #else is open after the lines. */
  predicate Closed(src: seq<Source>) {
    true !in FollowAll([], DirectivesOf(src))
  }

  lemma StackOfKept(src: seq<Source>, ends: bool)
    requires Safe([], src, ends) && Closed(src)
    ensures StackOf(src, ends) == StackOf(KeptOf([], src), ends)
  {
    WholeIsInWhole(src, ends);
    KeptAreReadAlike([], src, ends);
  }

  lemma StackWithoutEnds(src: seq<Source>)
    ensures StackOf(src, false) == ForgetAll(StackOf(src, true))
  {
    BlindReading(src);
    ForgetRun(State([], []), ReadAll(src, true), ReadAll(src, false));
    assert ForgetState(State([], [])) == State([], []);
  }

  /**
   If no class head on a kept line looks into an erased branch before its verdict is decided, erasing
   the branches preserves the stack, but for where its classes seem to end; and that too if no such
   search looks so far.
   */
  lemma ErasureIsSafe(src: seq<Source>)
    requires Safe([], src, false) && Closed(src)
    ensures ForgetAll(StackOf(src, true)) == ForgetAll(StackOf(KeptOf([], src), true))
    ensures Safe([], src, true) ==> StackOf(src, true) == StackOf(KeptOf([], src), true)
  {
    StackOfKept(src, false);
    StackWithoutEnds(src);
    StackWithoutEnds(KeptOf([], src));
    if Safe([], src, true) {
      StackOfKept(src, true);
    }
  }

  // ----- exactly when the stacks agree -----

  /** The same line, but perhaps for what the lines behind it make of its class head. */
  predicate SameButHead(a: Line, b: Line) {
    && (a.classHead.Some? <==> b.classHead.Some?)
    && (a.classHead.Some? ==>
          var h := b.classHead.value;
          h == a.classHead.value.(isTemplateArgument := h.isTemplateArgument, lastLine := h.lastLine))
    && b == a.(classHead := b.classHead)
  }

  predicate AllSameButHeads(a: seq<Line>, b: seq<Line>) {
    |a| == |b| && forall i | 0 <= i < |a| :: SameButHead(a[i], b[i])
  }

  /** The stack when the class head of the line has been looked at. */
  function BehindHead(stack: seq<Block>, line: Line): seq<Block> {
    PushClass(BeforeHead(stack, line), line)
  }

  /** Line after line, the stack behind the place of a class head. */
  function BehindHeads(stack: seq<Block>, lines: seq<Line>): (r: seq<seq<Block>>)
    ensures |r| == |lines|
    decreases |lines|
  {
    if lines == [] then [] else [BehindHead(stack, lines[0])] + BehindHeads(Effect(stack, lines[0]), lines[1..])
  }

  /** Where a class head is found outside parentheses, the verdict is the same, and the end of a class that is taken. */
  predicate HeadAgrees(stack: seq<Block>, a: Line, b: Line)
    requires SameButHead(a, b)
  {
    a.classHead.Some? && (stack == [] || Top(stack).openParentheses == 0) ==>
      var h, h' := a.classHead.value, b.classHead.value;
      h.isTemplateArgument == h'.isTemplateArgument && (!h.isTemplateArgument ==> h.lastLine == h'.lastLine)
  }

  predicate HeadsAgree(stack: seq<Block>, a: seq<Line>, b: seq<Line>)
    requires AllSameButHeads(a, b)
    decreases |a|
  {
    a == [] || (HeadAgrees(BeforeHead(stack, a[0]), a[0], b[0]) && HeadsAgree(Effect(stack, a[0]), a[1..], b[1..]))
  }

  lemma PushClassIff(inner: seq<Block>, a: Line, b: Line)
    requires SameButHead(a, b)
    ensures PushClass(inner, a) == PushClass(inner, b) <==> HeadAgrees(inner, a, b)
    ensures HeadAgrees(inner, a, b) ==> TakesClass(inner, a) == TakesClass(inner, b)
  {
    if TakesClass(inner, a) && TakesClass(inner, b) {
      assert Top(PushClass(inner, a)) == ClassBlock(a.classHead.value, a.number);
      assert Top(PushClass(inner, b)) == ClassBlock(b.classHead.value, b.number);
    } else if TakesClass(inner, a) != TakesClass(inner, b) {
      VerdictShows(inner, a, b);
    }
  }

  lemma SameBeforeHead(stack: seq<Block>, a: Line, b: Line)
    requires SameButHead(a, b)
    ensures BeforeHead(stack, b) == BeforeHead(stack, a)
  {
    assert CountParentheses(stack, a) == CountParentheses(stack, b);
  }

  lemma HeadOnLine(stack: seq<Block>, a: Line, b: Line)
    requires SameButHead(a, b)
    ensures BehindHead(stack, a) == BehindHead(stack, b) <==> HeadAgrees(BeforeHead(stack, a), a, b)
    ensures HeadAgrees(BeforeHead(stack, a), a, b) ==> Effect(stack, a) == Effect(stack, b)
  {
    SameBeforeHead(stack, a, b);
    PushClassIff(BeforeHead(stack, a), a, b);
  }

  lemma ConsIff<T>(x: T, xs: seq<T>, y: T, ys: seq<T>)
    ensures [x] + xs == [y] + ys <==> x == y && xs == ys
  {
    assert ([x] + xs)[0] == x && ([x] + xs)[1..] == xs;
    assert ([y] + ys)[0] == y && ([y] + ys)[1..] == ys;
  }

  /** Up to the first head on which they differ, and no further, the stacks are the same. */
  lemma {:induction false} StacksAgreeIff(stack: seq<Block>, a: seq<Line>, b: seq<Line>)
    requires AllSameButHeads(a, b)
    ensures BehindHeads(stack, a) == BehindHeads(stack, b) <==> HeadsAgree(stack, a, b)
    decreases |a|
  {
    if a != [] {
      var next, next' := Effect(stack, a[0]), Effect(stack, b[0]);
      HeadOnLine(stack, a[0], b[0]);
      ConsIff(BehindHead(stack, a[0]), BehindHeads(next, a[1..]), BehindHead(stack, b[0]), BehindHeads(next', b[1..]));
      if BehindHead(stack, a[0]) == BehindHead(stack, b[0]) {
        StacksAgreeIff(next, a[1..], b[1..]);
      }
    }
  }

  lemma {:induction false} AgreeingRuns(stack: seq<Block>, a: seq<Line>, b: seq<Line>)
    requires AllSameButHeads(a, b) && HeadsAgree(stack, a, b)
    requires forall i | 0 <= i < |a| :: a[i].directive == NoDirective
    ensures Run(State(stack, []), a) == Run(State(stack, []), b)
    decreases |a|
  {
    if a != [] {
      HeadOnLine(stack, a[0], b[0]);
      AgreeingRuns(Effect(stack, a[0]), a[1..], b[1..]);
    }
  }

  lemma HeadDiffers(a: seq<Source>, b: seq<Source>, ends: bool)
    requires a != [] && b != [] && b[0] == Silent(a[0])
    ensures ReadHead(a, ends).Some? <==> ReadHead(b, ends).Some?
    ensures ReadHead(a, ends).Some? ==>
              var h := ReadHead(b, ends).value;
              h == ReadHead(a, ends).value.(isTemplateArgument := h.isTemplateArgument, lastLine := h.lastLine)
  {
  }

  lemma FirstDiffers(a: seq<Source>, b: seq<Source>, ends: bool)
    requires a != [] && b != [] && b[0] == Silent(a[0])
    ensures ReadFirst(b, ends) == ReadFirst(a, ends).(directive := NoDirective, classHead := ReadHead(b, ends))
    ensures ReadFirst(a, ends).classHead == ReadHead(a, ends)
  {
  }

  lemma FirstDiffersInHead(a: seq<Source>, b: seq<Source>, ends: bool)
    requires a != [] && b != [] && b[0] == Silent(a[0])
    ensures SameButHead(ReadFirst(a, ends).(directive := NoDirective), ReadFirst(b, ends))
  {
    HeadDiffers(a, b, ends);
    FirstDiffers(a, b, ends);
  }

  lemma JoinDiffering(a: Line, more: seq<Line>, b: Line, more': seq<Line>)
    requires SameButHead(a, b) && AllSameButHeads(more, more')
    ensures AllSameButHeads([a] + more, [b] + more')
  {
  }

  lemma KeptLineDiffers(open: Conditionals, first: Source, rest: seq<Source>, ends: bool)
    requires true !in Follow(open, first.directive)
    requires var open' := Follow(open, first.directive);
             AllSameButHeads(Kept(open', ReadAll(rest, ends)), ReadAll(KeptOf(open', rest), ends))
    ensures AllSameButHeads(Kept(open, ReadAll([first] + rest, ends)), ReadAll(KeptOf(open, [first] + rest), ends))
  {
    var open' := Follow(open, first.directive);
    var kept := [Silent(first)] + KeptOf(open', rest);
    KeptLineReading(open, first, rest, ends);
    FirstDiffersInHead([first] + rest, kept, ends);
    JoinDiffering(ReadFirst([first] + rest, ends).(directive := NoDirective), Kept(open', ReadAll(rest, ends)),
                  ReadFirst(kept, ends), ReadAll(KeptOf(open', rest), ends));
  }

  /** The kept lines, read in the whole text and alone, are the same but for what is made of class heads. */
  lemma {:induction false} KeptDifferInHeads(open: Conditionals, src: seq<Source>, ends: bool)
    ensures AllSameButHeads(Kept(open, ReadAll(src, ends)), ReadAll(KeptOf(open, src), ends))
    decreases |src|
  {
    if src != [] {
      var first, rest := src[0], src[1..];
      var open' := Follow(open, first.directive);
      assert src == [first] + rest;
      KeptDifferInHeads(open', rest, ends);
      if true in open' {
        ErasedReading(open, first, rest, ends);
      } else {
        KeptLineDiffers(open, first, rest, ends);
      }
    }
  }

  lemma {:induction false} PlainIsSilent(lines: seq<Line>)
    ensures forall i | 0 <= i < |lines| :: Plain(lines)[i].directive == NoDirective
  {
    if lines != [] {
      PlainIsSilent(lines[1..]);
    }
  }

  /** The lines that are kept, as the whole text and as they alone tell them. */
  function InWhole(src: seq<Source>, ends: bool): seq<Line> {
    Kept([], ReadAll(src, ends))
  }

  function Alone(src: seq<Source>, ends: bool): seq<Line> {
    ReadAll(KeptOf([], src), ends)
  }

  /**
   The exact condition: on all kept lines the stacks behind class heads are the same, if and only if
   on every class head that is found outside parentheses the scan gives the same verdict in the whole
   text as in the kept lines, and, where the ends of classes count, finds the same end if the class is
   taken.  Then the stack at the end is the same too.
   */
  lemma ErasurePreservesIff(src: seq<Source>, ends: bool)
    ensures AllSameButHeads(InWhole(src, ends), Alone(src, ends))
    ensures BehindHeads([], InWhole(src, ends)) == BehindHeads([], Alone(src, ends)) <==>
            HeadsAgree([], InWhole(src, ends), Alone(src, ends))
    ensures Closed(src) && HeadsAgree([], InWhole(src, ends), Alone(src, ends)) ==>
              StackOf(src, ends) == StackOf(KeptOf([], src), ends)
  {
    KeptDifferInHeads([], src, ends);
    StacksAgreeIff([], InWhole(src, ends), Alone(src, ends));
    if Closed(src) && HeadsAgree([], InWhole(src, ends), Alone(src, ends)) {
      PlainIsSilent(Unmarked(ReadAll(src, ends), Erased([], Directives(ReadAll(src, ends)))));
      AgreeingRuns([], InWhole(src, ends), Alone(src, ends));
      WholeIsInWhole(src, ends);
    }
  }

  lemma WholeIsInWhole(src: seq<Source>, ends: bool)
    requires Closed(src)
    ensures StackOf(src, ends) == Run(State([], []), InWhole(src, ends)).stack
  {
    ErasingBranchesPreservesStack(State([], []), [], [], ReadAll(src, ends));
    DirectivesAreRead(src, ends);
  }

  /** Where class heads are taken, a verdict that changes shows in the stack at once. */
  lemma VerdictShows(stack: seq<Block>, line: Line, line': Line)
    requires line.classHead.Some? && line'.classHead.Some? && (stack == [] || Top(stack).openParentheses == 0)
    requires line.classHead.value.isTemplateArgument != line'.classHead.value.isTemplateArgument
    ensures |PushClass(stack, line)| != |PushClass(stack, line')|
  {
  }

  /**
   The condition on a head is exact: with the lines front up to the first erased one, the verdict is
   the same whatever the erased lines and the lines behind them say, if and only if the look-ahead is
   decided inside front.
   */
  lemma HeadIsSafeIff(front: seq<Source>, h: FoundHead)
    requires front != [] && HeadOn(front[0].text) == Some(h)
    ensures (forall erased: seq<string>, behind: seq<string> ::
               SameVerdict(TextsOf(front), erased, behind, 0, h.end)) <==>
            LookAhead(TextsOf(front), 0, h.end).Decided?
  {
    VerdictIsSafeIff(TextsOf(front), 0, h.end);
  }

  /** The lines erased, standing between front and behind, do not move the end of the class. */
  ghost predicate SameEnd(front: seq<Source>, erased: seq<Source>, behind: seq<Source>) {
    ClassEnd(front + erased + behind, 0) == ClassEnd(front + behind, 0)
  }

  /** As many closing or opening braces as it takes to come from depth to even. */
  function Evening(depth: int): string {
    seq(if depth < 0 then -depth else depth, _ => if depth < 0 then '{' else '}')
  }

  lemma {:induction false} CountSame(n: nat, c: char, d: char)
    ensures Count(seq(n, _ => c), d) == if c == d then n else 0
  {
    if n > 0 {
      assert seq(n, _ => c)[1..] == seq(n - 1, _ => c);
      CountSame(n - 1, c, d);
    }
  }

  lemma EveningEvens(depth: int)
    ensures depth + Count(Evening(depth), '{') - Count(Evening(depth), '}') == 0
  {
    var n, c := if depth < 0 then -depth else depth, if depth < 0 then '{' else '}';
    assert Evening(depth) == seq(n, _ => c);
    CountSame(n, c, '{');
    CountSame(n, c, '}');
  }

  /** An end that is not found in the lines front is found on one more line. */
  lemma {:induction false} EndIsFound(front: seq<Source>, depth: int, number: nat) returns (x: Source)
    requires ClassEnd(front, depth) == None
    ensures ClassEnd(front + [x], depth) == Some(number)
  {
    if front == [] {
      x := Source(number, Evening(depth), NoDirective);
      EveningEvens(depth);
      assert [] + [x] == [x];
    } else {
      x := EndIsFound(front[1..], depth + Count(front[0].text, '{') - Count(front[0].text, '}'), number);
      assert (front + [x])[1..] == front[1..] + [x];
    }
  }

  /** This condition is exact too: nothing moves the end if and only if it is found inside front. */
  lemma EndIsSafeIff(front: seq<Source>)
    requires front != []
    ensures (forall erased: seq<Source>, behind: seq<Source> :: SameEnd(front, erased, behind)) <==>
            ClassEnd(front, 0).Some?
  {
    if ClassEnd(front, 0).Some? {
      forall erased: seq<Source>, behind: seq<Source> ensures SameEnd(front, erased, behind) {
        EndOfPrefix(front, erased + behind, 0);
        EndOfPrefix(front, behind, 0);
        assert front + erased + behind == front + (erased + behind);
      }
    } else {
      var x := EndIsFound(front, 0, 0);
      assert front + [x] + [] == front + [x] && front + [] == front;
      assert !SameEnd(front, [x], []);
    }
  }

  lemma VerdictWith(front: seq<Source>, h: FoundHead, more: seq<Source>)
    requires front != [] && HeadOn(front[0].text) == Some(h) && LookAhead(TextsOf(front) + TextsOf(more), 0, h.end).Decided?
    ensures ReadHead(front + more, true).Some?
    ensures ReadHead(front + more, true).value.isTemplateArgument ==
            LookAhead(TextsOf(front) + TextsOf(more), 0, h.end).verdict
  {
    TextsJoin(front, more);
    VerdictIsLook(TextsOf(front + more), 0, h.end);
    assert (front + more)[0] == front[0];
  }

  lemma TextsJoin(a: seq<Source>, b: seq<Source>)
    ensures TextsOf(a + b) == TextsOf(a) + TextsOf(b)
  {
  }

  /** What the class head does to the stack if the branch behind #else is the line x. */
  lemma HeadWithBranch(front: seq<Source>, h: FoundHead, stack: seq<Block>, x: string, v: bool)
    requires front != [] && HeadOn(front[0].text) == Some(h)
    requires LookAhead(TextsOf(front) + [ELSE, x], 0, h.end) == Decided(v)
    requires stack == [] || Top(stack).openParentheses == 0
    ensures var branch := [Source(0, ELSE, Else), Source(0, x, NoDirective)];
            |PushClass(stack, ReadFirst(front + branch, true))| == |stack| + if v then 0 else 1
  {
    var branch := [Source(0, ELSE, Else), Source(0, x, NoDirective)];
    assert TextsOf(branch) == [ELSE, x];
    VerdictWith(front, h, branch);
  }

  /** So if it is not, two erased branches make the stack different as soon as the class head is read. */
  lemma UnsafeHeadShows(front: seq<Source>, h: FoundHead, stack: seq<Block>) returns (x: Source, y: Source)
    requires front != [] && HeadOn(front[0].text) == Some(h)
    requires LookAhead(TextsOf(front), 0, h.end) == Undecided
    requires stack == [] || Top(stack).openParentheses == 0
    ensures var e := Source(0, ELSE, Else);
            |PushClass(stack, ReadFirst(front + [e, x], true))| != |PushClass(stack, ReadFirst(front + [e, y], true))|
  {
    var yes := UndecidedGoesEitherWay(TextsOf(front), 0, h.end, true);
    var no := UndecidedGoesEitherWay(TextsOf(front), 0, h.end, false);
    x, y := Source(0, yes, NoDirective), Source(0, no, NoDirective);
    HeadWithBranch(front, h, stack, yes, true);
    HeadWithBranch(front, h, stack, no, false);
  }
}
