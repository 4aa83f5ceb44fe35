/**
 The nesting of blocks, read character by character.

 Of a block only its head, its line, whether its brace has been seen and its count of parentheses are
 looked at.  A `{` begins the head that waits for it, or else a block; a `;` or `)` takes a waiting
 head away; a `}` takes the innermost block or head away.  That is all that the text of a line does,
 once its own heads have been put on.
 */
module BlockWalk {
  import opened Wrappers
  import opened Characters
  import opened LinePatterns
  import opened LineReading
  import opened Nesting
  import opened TemplateLookahead

  // ----- the walk -----

  /** The head of a block; the braces of a block without one tell nothing more. */
  datatype Head = NoHead | ClassNamed(name: string, isStruct: bool) | NamespaceNamed(name: string)

  datatype Bone = Bone(head: Head, line: nat, begun: bool, parentheses: int)

  predicate Waits(bones: seq<Bone>) {
    bones != [] && !bones[|bones| - 1].begun
  }

  function Off(bones: seq<Bone>): seq<Bone> {
    if bones == [] then [] else bones[..|bones| - 1]
  }

  function Step(bones: seq<Bone>, c: char, line: nat): seq<Bone> {
    if c == '{' then
      if Waits(bones) then Off(bones) + [bones[|bones| - 1].(begun := true)]
      else bones + [Bone(NoHead, line, true, 0)]
    else if c == '}' then Off(bones)
    else if (c == ';' || c == ')') && Waits(bones) then Off(bones)
    else bones
  }

  function Walk(bones: seq<Bone>, s: string, line: nat): seq<Bone>
    decreases |s|
  {
    if s == "" then bones else Walk(Step(bones, s[0], line), s[1..], line)
  }

  /** The parentheses of the line count for the block that is innermost before it. */
  function Counted(bones: seq<Bone>, text: string): seq<Bone> {
    if bones == [] then []
    else
      var b := bones[|bones| - 1];
      Off(bones) + [b.(parentheses := b.parentheses + Count(text, '(') - Count(text, ')'))]
  }

  function Named(heads: seq<NamespaceHead>, line: nat): seq<Bone> {
    seq(|heads|, i requires 0 <= i < |heads| => Bone(NamespaceNamed(heads[i].name), line, heads[i].braceFollows, 0))
  }

  /** A class head counts outside parentheses, and if the scan over the lines does not take it for an argument. */
  predicate IsTaken(bones: seq<Bone>, lines: seq<string>, i: nat, h: FoundHead) {
    (bones == [] || bones[|bones| - 1].parentheses == 0) && !InTemplateArguments(lines, i, h.end)
  }

  /** One line of a file. */
  function WalkLine(bones: seq<Bone>, lines: seq<string>, i: nat): seq<Bone>
    requires i < |lines|
  {
    var (heads, text) := ReadNamespaces(lines[i]);
    var named := Counted(bones, lines[i]) + Named(heads, i);
    match ReadClassHead(text)
    case None => Walk(named, text, i)
    case Some(h) =>
      if IsTaken(named, lines, i, h)
      then Walk(named + [Bone(ClassNamed(h.name, h.isStruct), i, false, 0)], text[h.end..], i)
      else Walk(named, text, i)
  }

  // ----- the stack walks -----

  function HeadOf(kind: Kind): Head {
    match kind
    case Class(name, isStruct) => ClassNamed(name, isStruct)
    case Namespace(name) => NamespaceNamed(name)
    case _ => NoHead
  }

  function BoneOf(b: Block): Bone {
    Bone(HeadOf(b.kind), b.line, b.seenOpenBrace, b.openParentheses)
  }

  function BonesOf(stack: seq<Block>): (r: seq<Bone>)
    ensures |r| == |stack|
  {
    seq(|stack|, i requires 0 <= i < |stack| => BoneOf(stack[i]))
  }

  lemma BonesPush(stack: seq<Block>, b: Block)
    ensures BonesOf(stack + [b]) == BonesOf(stack) + [BoneOf(b)]
  {
  }

  lemma BonesOff(stack: seq<Block>)
    requires stack != []
    ensures BonesOf(Pop(stack)) == Off(BonesOf(stack)) && BonesOf(stack)[|stack| - 1] == BoneOf(Top(stack))
  {
  }

  lemma BonesSetTop(stack: seq<Block>, b: Block)
    requires stack != []
    ensures BonesOf(SetTop(stack, b)) == Off(BonesOf(stack)) + [BoneOf(b)]
  {
    BonesOff(stack);
    BonesPush(Pop(stack), b);
  }

  lemma {:induction false} WalkConcat(bones: seq<Bone>, a: string, b: string, line: nat)
    ensures Walk(bones, a + b, line) == Walk(Walk(bones, a, line), b, line)
    decreases |a|
  {
    if a == "" {
      assert a + b == b;
    } else {
      assert (a + b)[1..] == a[1..] + b;
      WalkConcat(Step(bones, a[0], line), a[1..], b, line);
    }
  }

  predicate HasNoMark(s: string) {
    forall i | 0 <= i < |s| :: s[i] != '{' && s[i] != '}' && s[i] != ';' && s[i] != ')'
  }

  lemma {:induction false} WalkOver(bones: seq<Bone>, s: string, line: nat)
    requires HasNoMark(s)
    ensures Walk(bones, s, line) == bones
  {
    if s != "" {
      WalkOver(bones, s[1..], line);
    }
  }

  lemma {:induction false} FirstMarkIs(s: string)
    ensures match FirstMark(s)
            case None => HasNoMark(s)
            case Some(k) => HasNoMark(s[..k]) && IsMark(s[k])
  {
    if s != "" && !IsMark(s[0]) {
      FirstMarkIs(s[1..]);
      match FirstMark(s[1..])
      case None =>
        assert forall i | 1 <= i < |s| :: s[i] == s[1..][i - 1];
      case Some(k) =>
        var front, rest := s[..k + 1], s[1..][..k];
        forall i | 0 <= i < k + 1 ensures !IsMark(front[i]) {
          assert i > 0 ==> front[i] == rest[i - 1];
        }
    }
  }

  /** A token does what its character does. */
  lemma TokenSteps(stack: seq<Block>, s: string, c: char, line: nat)
    requires IsMark(c)
    ensures BonesOf(ConsumeToken(stack, TokenFor(s, c), line)) == Step(BonesOf(stack), c, line)
  {
    if stack != [] {
      BonesOff(stack);
      BonesSetTop(stack, Top(stack).(seenOpenBrace := true));
    }
    BonesPush(stack, NewBlock(ExternC, line, true, NoAsm));
    BonesPush(stack, NewBlock(PlainBlock, line, true, NoAsm));
    BonesPush(stack, NewBlock(PlainBlock, line, true, BlockAsm));
  }

  /** The token loop walks over the text. */
  lemma {:induction false} TokensWalk(stack: seq<Block>, s: string, line: nat)
    ensures BonesOf(ConsumeTokens(stack, ReadTokens(s), line)) == Walk(BonesOf(stack), s, line)
    decreases |s|
  {
    FirstMarkIs(s);
    match FirstMark(s)
    case None => WalkOver(BonesOf(stack), s, line);
    case Some(k) =>
      var next := ConsumeToken(stack, TokenFor(s, s[k]), line);
      TokenSteps(stack, s, s[k], line);
      TokensWalk(next, s[k + 1..], line);
      WalkToMark(BonesOf(stack), s, k, line);
      assert ReadTokens(s)[1..] == ReadTokens(s[k + 1..]);
  }

  lemma WalkToMark(bones: seq<Bone>, s: string, k: nat, line: nat)
    requires k < |s| && HasNoMark(s[..k])
    ensures Walk(bones, s, line) == Walk(Step(bones, s[k], line), s[k + 1..], line)
  {
    WalkOver(bones, s[..k], line);
    WalkConcat(bones, s[..k], s[k..], line);
    assert s == s[..k] + s[k..] && s[k..][1..] == s[k + 1..];
  }

  lemma CountBones(stack: seq<Block>, line: Line, text: string)
    requires line.parentheses == Count(text, '(') - Count(text, ')')
    ensures BonesOf(CountParentheses(stack, line)) == Counted(BonesOf(stack), text)
  {
    if stack != [] {
      var b := Top(stack);
      BonesOff(stack);
      BonesSetTop(stack, b.(openParentheses := b.openParentheses + line.parentheses,
                            asm := NextAsm(b, line.parentheses, line.asmHead)));
    }
  }

  lemma {:induction false} NamespaceBones(stack: seq<Block>, heads: seq<NamespaceHead>, line: nat)
    ensures BonesOf(PushNamespaces(stack, heads, line)) == BonesOf(stack) + Named(heads, line)
    decreases |heads|
  {
    if heads == [] {
      assert BonesOf(stack) + Named(heads, line) == BonesOf(stack);
    } else {
      var b := NewBlock(Namespace(heads[0].name), line, heads[0].braceFollows, NoAsm);
      NamespaceBones(stack + [b], heads[1..], line);
      BonesPush(stack, b);
      assert Named(heads, line) == [BoneOf(b)] + Named(heads[1..], line);
      assert BonesOf(stack) + [BoneOf(b)] + Named(heads[1..], line) == BonesOf(stack) + ([BoneOf(b)] + Named(heads[1..], line));
    }
  }

  lemma BeginBones(stack: seq<Block>, line: Line, access: Option<string>)
    ensures BonesOf(UpdateAccess(CheckBegin(stack, line), access)) == BonesOf(stack)
  {
    if stack != [] {
      BonesOff(stack);
      var checked := CheckBegin(stack, line);
      BonesSetTop(stack, Top(stack).(isDerived := true));
      assert BonesOf(checked) == BonesOf(stack);
      if access.Some? {
        BonesSetTop(checked, Top(checked).(access := access.value));
        BonesOff(checked);
      }
    }
  }

  lemma ClassBones(stack: seq<Block>, line: Line)
    requires TakesClass(stack, line)
    ensures BonesOf(PushClass(stack, line)) ==
            BonesOf(stack) + [Bone(ClassNamed(line.classHead.value.name, line.classHead.value.isStruct), line.number, false, 0)]
  {
    BonesPush(stack, ClassBlock(line.classHead.value, line.number));
  }

  lemma EffectBones(stack: seq<Block>, line: Line, text: string, rest: string)
    requires line.parentheses == Count(text, '(') - Count(text, ')')
    requires ReadRest(rest) == if TakesClass(BeforeHead(stack, line), line) then line.afterClass else line.whole
    ensures var named := Counted(BonesOf(stack), text) + Named(line.namespaces, line.number);
            && BonesOf(BeforeHead(stack, line)) == named
            && BonesOf(Effect(stack, line)) ==
               Walk(if TakesClass(BeforeHead(stack, line), line)
                    then named + [Bone(ClassNamed(line.classHead.value.name, line.classHead.value.isStruct), line.number, false, 0)]
                    else named,
                    rest, line.number)
  {
    var inner := BeforeHead(stack, line);
    CountBones(stack, line, text);
    NamespaceBones(CountParentheses(stack, line), line.namespaces, line.number);
    if TakesClass(inner, line) {
      ClassBones(inner, line);
    }
    var pushed := PushClass(inner, line);
    BeginBones(pushed, line, ReadRest(rest).access);
    TokensWalk(UpdateAccess(CheckBegin(pushed, line), ReadRest(rest).access), rest, line.number);
  }

  /** What line i of the file says, in the parts that matter here. */
  lemma SaidAt(lines: seq<string>, i: nat)
    requires i < |lines|
    ensures var said, heads, text := ReadFile(lines)[i], ReadNamespaces(lines[i]).0, ReadNamespaces(lines[i]).1;
            && said.number == i && said.directive == DirectiveOf(lines[i])
            && said.parentheses == Count(lines[i], '(') - Count(lines[i], ')')
            && said.namespaces == heads
            && said.whole == ReadRest(text) && said.afterClass == ReadRest(BehindClass(text))
            && (said.classHead.Some? <==> ReadClassHead(text).Some?)
            && (said.classHead.Some? ==>
                  var h, h' := ReadClassHead(text).value, said.classHead.value;
                  && h'.name == h.name && h'.isStruct == h.isStruct
                  && (h'.isTemplateArgument <==> InTemplateArguments(lines, i, h.end)))
  {
    var src := SourcesOf(lines)[i..];
    ReadAllAt(SourcesOf(lines), true, i);
    assert src[0] == Source(i, lines[i], DirectiveOf(lines[i]));
    if ReadClassHead(ReadNamespaces(lines[i]).1).Some? {
      ScanInFile(lines, i, ReadClassHead(ReadNamespaces(lines[i]).1).value.end);
    }
  }

  lemma ScanInFile(lines: seq<string>, i: nat, pos: nat)
    requires i < |lines|
    ensures InTemplateArguments(lines, i, pos) == InTemplateArguments(TextsOf(SourcesOf(lines)[i..]), 0, pos)
  {
    assert TextsOf(SourcesOf(lines)[i..]) == lines[i..];
    assert lines[..i] + lines[i..] == lines;
    LookShifts(lines[..i], lines[i..], 0, pos);
    VerdictIsLook(lines, i, pos);
    VerdictIsLook(lines[i..], 0, pos);
  }

  lemma TakenIs(stack: seq<Block>, line: Line, lines: seq<string>, i: nat, h: FoundHead)
    requires line.classHead.Some? && (line.classHead.value.isTemplateArgument <==> InTemplateArguments(lines, i, h.end))
    ensures TakesClass(stack, line) <==> IsTaken(BonesOf(stack), lines, i, h)
  {
    if stack != [] {
      BonesOff(stack);
    }
  }

  /** A line of a file does to the bones of any stack what the walk does. */
  lemma EffectWalks(stack: seq<Block>, lines: seq<string>, i: nat)
    requires i < |lines|
    ensures BonesOf(Effect(stack, ReadFile(lines)[i])) == WalkLine(BonesOf(stack), lines, i)
  {
    var said, text := ReadFile(lines)[i], ReadNamespaces(lines[i]).1;
    SaidAt(lines, i);
    var inner := BeforeHead(stack, said);
    match ReadClassHead(text)
    case None =>
      EffectBones(stack, said, lines[i], text);
    case Some(h) =>
      TakenIs(inner, said, lines, i, h);
      EffectBones(stack, said, lines[i], if TakesClass(inner, said) then text[h.end..] else text);
  }

  /** The stack before line i of a file. */
  function StackAt(lines: seq<string>, i: nat): seq<Block>
    requires i <= |lines|
  {
    Run(State([], []), ReadFile(lines)[..i]).stack
  }

  function BonesAt(lines: seq<string>, i: nat): seq<Bone>
    requires i <= |lines|
  {
    BonesOf(StackAt(lines, i))
  }

  lemma StackStep(lines: seq<string>, i: nat)
    requires i < |lines| && DirectiveOf(lines[i]) == NoDirective
    ensures StackAt(lines, i + 1) == Effect(StackAt(lines, i), ReadFile(lines)[i])
  {
    var read := ReadFile(lines);
    SaidAt(lines, i);
    LastLine(State([], []), read[..i + 1]);
    assert read[..i + 1][..i] == read[..i];
  }

  /** So it is at every line of a file that is no directive. */
  lemma LineWalks(lines: seq<string>, i: nat)
    requires i < |lines| && DirectiveOf(lines[i]) == NoDirective
    ensures BonesAt(lines, i + 1) == WalkLine(BonesAt(lines, i), lines, i)
  {
    StackStep(lines, i);
    EffectWalks(StackAt(lines, i), lines, i);
  }

  /** And a whole file without directives is walked over from its first line to its last. */
  function WalkFile(lines: seq<string>, i: nat): seq<Bone>
    requires i <= |lines|
  {
    if i == 0 then [] else WalkLine(WalkFile(lines, i - 1), lines, i - 1)
  }

  lemma NothingRead(lines: seq<string>)
    ensures StackAt(lines, 0) == [] && BonesAt(lines, 0) == []
  {
    assert ReadFile(lines)[..0] == [];
  }

  lemma WalksOn(lines: seq<string>, i: nat)
    requires i < |lines| && DirectiveOf(lines[i]) == NoDirective && BonesAt(lines, i) == WalkFile(lines, i)
    ensures BonesAt(lines, i + 1) == WalkFile(lines, i + 1)
  {
    LineWalks(lines, i);
  }

  lemma {:induction false} FileWalks(lines: seq<string>, i: nat)
    requires i <= |lines| && forall j | 0 <= j < i :: DirectiveOf(lines[j]) == NoDirective
    ensures BonesAt(lines, i) == WalkFile(lines, i)
  {
    if i > 0 {
      FileWalks(lines, i - 1);
      WalksOn(lines, i - 1);
    } else {
      NothingRead(lines);
    }
  }
}
