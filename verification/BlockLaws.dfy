/**
 What heads, braces, semicolons and parentheses do to the blocks of a file.

 A head that is taken waits for its brace.  A `;` or `)` that comes first takes it away again, and a
 `{` makes a block of it; inside a block that has begun, semicolons and parentheses change nothing.
 So the blocks that have begun are counted by the braces of the text, whatever heads stand in it.
 */
module BlockLaws {
  import opened Wrappers
  import opened Characters
  import opened LinePatterns
  import opened LineReading
  import opened Nesting
  import opened BlockWalk

  // ----- what a text does, on its parts -----

  predicate HasNoBrace(s: string) {
    forall i | 0 <= i < |s| :: s[i] != '{' && s[i] != '}'
  }

  /** A waiting head is decided by the first mark behind it. */
  lemma HeadIsDecided(bones: seq<Bone>, b: Bone, u: string, c: char, v: string, line: nat)
    requires !b.begun && HasNoMark(u) && (c == '{' || c == '}' || c == ';' || c == ')')
    ensures Walk(bones + [b], u + [c] + v, line) ==
            Walk(if c == '{' then bones + [b.(begun := true)] else bones, v, line)
  {
    var s := u + [c] + v;
    assert s[..|u|] == u && s[|u|] == c && s[|u| + 1..] == v;
    WalkToMark(bones + [b], s, |u|, line);
    assert Off(bones + [b]) == bones;
  }

  /** Where no head waits, text without braces changes nothing. */
  lemma {:induction false} NothingWaits(bones: seq<Bone>, s: string, line: nat)
    requires HasNoBrace(s) && !Waits(bones)
    ensures Walk(bones, s, line) == bones
  {
    if s != "" {
      NothingWaits(bones, s[1..], line);
    }
  }

  /** Blocks that have begun and have no heads. */
  predicate AreBodies(bones: seq<Bone>) {
    forall i | 0 <= i < |bones| :: bones[i].begun && bones[i].head == NoHead
  }

  /** Text that closes no more than it opens leaves the bones alone and puts as many bodies on as it leaves open. */
  lemma {:induction false} BodiesOpen(bones: seq<Bone>, bodies: seq<Bone>, s: string, line: nat) returns (more: seq<Bone>)
    requires !Waits(bones) && AreBodies(bodies) && |bodies| + LeastBraceNet(s) >= 0
    ensures Walk(bones + bodies, s, line) == bones + more && AreBodies(more) && |more| == |bodies| + BraceNet(s)
    decreases |s|
  {
    if s == "" {
      more := bodies;
    } else {
      var next := if s[0] == '{' then bodies + [Bone(NoHead, line, true, 0)]
                  else if s[0] == '}' then Off(bodies) else bodies;
      assert s[0] == '}' ==> bodies != [];
      BodyStep(bones, bodies, s[0], line);
      more := BodiesOpen(bones, next, s[1..], line);
    }
  }

  lemma BodyStep(bones: seq<Bone>, bodies: seq<Bone>, c: char, line: nat)
    requires !Waits(bones) && AreBodies(bodies) && (c == '}' ==> bodies != [])
    ensures Step(bones + bodies, c, line) ==
            bones + if c == '{' then bodies + [Bone(NoHead, line, true, 0)] else if c == '}' then Off(bodies) else bodies
  {
    var all := bones + bodies;
    assert !Waits(all) by {
      if bodies == [] {
        assert all == bones;
      } else {
        assert all[|all| - 1] == bodies[|bodies| - 1];
      }
    }
    if c == '{' {
      assert all + [Bone(NoHead, line, true, 0)] == bones + (bodies + [Bone(NoHead, line, true, 0)]);
    } else if c == '}' {
      assert Off(all) == bones + Off(bodies);
    }
  }

  /** A block's body whose braces match leaves no trace. */
  lemma BodyLeavesNothing(bones: seq<Bone>, s: string, line: nat)
    requires !Waits(bones) && LeastBraceNet(s) == 0 && BraceNet(s) == 0
    ensures Walk(bones, s, line) == bones
  {
    var more := BodiesOpen(bones, [], s, line);
    assert bones + [] == bones && more == [];
  }

  // ----- lines of a file -----

  /** Line i holds a class head, and neither a directive nor a namespace head. */
  predicate IsClassLine(lines: seq<string>, i: nat, h: FoundHead) {
    && i < |lines|
    && DirectiveOf(lines[i]) == NoDirective && NamespaceAt(lines[i]) == None && ReadClassHead(lines[i]) == Some(h)
  }

  /** It holds none of them. */
  predicate IsTextLine(lines: seq<string>, i: nat) {
    && i < |lines|
    && DirectiveOf(lines[i]) == NoDirective && NamespaceAt(lines[i]) == None && ReadClassHead(lines[i]) == None
  }

  lemma TextLineWalks(lines: seq<string>, i: nat)
    requires IsTextLine(lines, i)
    ensures BonesAt(lines, i + 1) == Walk(Counted(BonesAt(lines, i), lines[i]), lines[i], i)
  {
    LineWalks(lines, i);
    var counted := Counted(BonesAt(lines, i), lines[i]);
    assert ReadNamespaces(lines[i]) == ([], lines[i]);
    assert counted + Named([], i) == counted;
  }

  lemma ClassLineWalks(lines: seq<string>, i: nat, h: FoundHead)
    requires IsClassLine(lines, i, h)
    ensures var counted := Counted(BonesAt(lines, i), lines[i]);
            BonesAt(lines, i + 1) ==
            if IsTaken(counted, lines, i, h)
            then Walk(counted + [Bone(ClassNamed(h.name, h.isStruct), i, false, 0)], lines[i][h.end..], i)
            else Walk(counted, lines[i], i)
  {
    LineWalks(lines, i);
    var counted := Counted(BonesAt(lines, i), lines[i]);
    assert ReadNamespaces(lines[i]) == ([], lines[i]);
    assert counted + Named([], i) == counted;
  }

  lemma CountedWaits(bones: seq<Bone>, text: string)
    ensures Waits(Counted(bones, text)) <==> Waits(bones)
  {
  }

  /** A forward declaration, or a class that is a parameter, leaves nothing but its parentheses. */
  lemma DeclarationGoes(lines: seq<string>, i: nat, h: FoundHead, u: string, c: char, v: string)
    requires IsClassLine(lines, i, h) && IsTaken(Counted(BonesAt(lines, i), lines[i]), lines, i, h)
    requires lines[i][h.end..] == u + [c] + v && HasNoMark(u) && (c == ';' || c == ')') && HasNoBrace(v)
    requires !Waits(BonesAt(lines, i))
    ensures BonesAt(lines, i + 1) == Counted(BonesAt(lines, i), lines[i])
  {
    var counted := Counted(BonesAt(lines, i), lines[i]);
    ClassLineWalks(lines, i, h);
    HeadIsDecided(counted, Bone(ClassNamed(h.name, h.isStruct), i, false, 0), u, c, v, i);
    CountedWaits(BonesAt(lines, i), lines[i]);
    NothingWaits(counted, v, i);
  }

  /** A definition that goes on behind the line leaves one block with its head, and its brace seen. */
  lemma DefinitionBegins(lines: seq<string>, i: nat, h: FoundHead, u: string, v: string)
    requires IsClassLine(lines, i, h) && IsTaken(Counted(BonesAt(lines, i), lines[i]), lines, i, h)
    requires lines[i][h.end..] == u + ['{'] + v && HasNoMark(u) && LeastBraceNet(v) == 0 && BraceNet(v) == 0
    ensures BonesAt(lines, i + 1) ==
            Counted(BonesAt(lines, i), lines[i]) + [Bone(ClassNamed(h.name, h.isStruct), i, true, 0)]
  {
    var counted, b := Counted(BonesAt(lines, i), lines[i]), Bone(ClassNamed(h.name, h.isStruct), i, false, 0);
    ClassLineWalks(lines, i, h);
    HeadIsDecided(counted, b, u, '{', v, i);
    BodyLeavesNothing(counted + [b.(begun := true)], v, i);
  }

  /** A definition that ends on its line leaves nothing but its parentheses. */
  lemma DefinitionOnOneLine(lines: seq<string>, i: nat, h: FoundHead, u: string, body: string, v: string)
    requires IsClassLine(lines, i, h) && IsTaken(Counted(BonesAt(lines, i), lines[i]), lines, i, h)
    requires lines[i][h.end..] == u + ['{'] + (body + ['}'] + v) && HasNoMark(u)
    requires LeastBraceNet(body) == 0 && BraceNet(body) == 0 && HasNoBrace(v) && !Waits(BonesAt(lines, i))
    ensures BonesAt(lines, i + 1) == Counted(BonesAt(lines, i), lines[i])
  {
    var counted, b := Counted(BonesAt(lines, i), lines[i]), Bone(ClassNamed(h.name, h.isStruct), i, false, 0);
    var begun := counted + [b.(begun := true)];
    ClassLineWalks(lines, i, h);
    HeadIsDecided(counted, b, u, '{', body + ['}'] + v, i);
    BodyThenEnd(begun, body, v, i);
    assert Off(begun) == counted;
    CountedWaits(BonesAt(lines, i), lines[i]);
    NothingWaits(counted, v, i);
  }

  lemma BodyThenEnd(begun: seq<Bone>, body: string, v: string, line: nat)
    requires !Waits(begun) && LeastBraceNet(body) == 0 && BraceNet(body) == 0
    ensures Walk(begun, body + ['}'] + v, line) == Walk(Off(begun), v, line)
  {
    BodyLeavesNothing(begun, body, line);
    WalkConcat(begun, body, ['}'] + v, line);
    assert body + ['}'] + v == body + (['}'] + v) && (['}'] + v)[1..] == v;
  }

  /** A head that waits from an earlier line is decided in the same way. */
  lemma WaitingHeadIsDecided(lines: seq<string>, i: nat, u: string, c: char, v: string)
    requires IsTextLine(lines, i) && Waits(BonesAt(lines, i))
    requires lines[i] == u + [c] + v && HasNoMark(u) && (c == '{' || c == '}' || c == ';' || c == ')')
    ensures var counted := Counted(BonesAt(lines, i), lines[i]);
            BonesAt(lines, i + 1) ==
            Walk(Off(counted) + if c == '{' then [counted[|counted| - 1].(begun := true)] else [], v, i)
  {
    var counted := Counted(BonesAt(lines, i), lines[i]);
    TextLineWalks(lines, i);
    assert counted == Off(counted) + [counted[|counted| - 1]];
    HeadIsDecided(Off(counted), counted[|counted| - 1], u, c, v, i);
    assert Off(counted) + [] == Off(counted);
  }

  /** Inside a block that has begun, semicolons and closing parentheses change nothing but the count. */
  lemma TextStays(lines: seq<string>, i: nat)
    requires IsTextLine(lines, i) && HasNoBrace(lines[i]) && !Waits(BonesAt(lines, i))
    ensures BonesAt(lines, i + 1) == Counted(BonesAt(lines, i), lines[i])
  {
    TextLineWalks(lines, i);
    CountedWaits(BonesAt(lines, i), lines[i]);
    NothingWaits(Counted(BonesAt(lines, i), lines[i]), lines[i], i);
  }

  /** Namespace heads with their braces become blocks, one in the other. */
  lemma NamespacesBegin(lines: seq<string>, i: nat, heads: seq<NamespaceHead>, text: string)
    requires i < |lines| && DirectiveOf(lines[i]) == NoDirective && ReadNamespaces(lines[i]) == (heads, text)
    requires forall k | 0 <= k < |heads| :: heads[k].braceFollows
    requires ReadClassHead(text) == None && LeastBraceNet(text) == 0 && BraceNet(text) == 0
    requires !Waits(BonesAt(lines, i))
    ensures BonesAt(lines, i + 1) ==
            Counted(BonesAt(lines, i), lines[i]) +
            seq(|heads|, k requires 0 <= k < |heads| => Bone(NamespaceNamed(heads[k].name), i, true, 0))
  {
    var counted, named := Counted(BonesAt(lines, i), lines[i]), Named(heads, i);
    LineWalks(lines, i);
    CountedWaits(BonesAt(lines, i), lines[i]);
    NoneWaits(counted, named);
    BodyLeavesNothing(counted + named, text, i);
    NamedBegin(heads, i);
  }

  lemma NamedBegin(heads: seq<NamespaceHead>, i: nat)
    requires forall k | 0 <= k < |heads| :: heads[k].braceFollows
    ensures Named(heads, i) == seq(|heads|, k requires 0 <= k < |heads| => Bone(NamespaceNamed(heads[k].name), i, true, 0))
  {
  }

  lemma NoneWaits(a: seq<Bone>, b: seq<Bone>)
    requires !Waits(a) && !Waits(b)
    ensures !Waits(a + b)
  {
    if b == [] {
      assert a + b == a;
    }
  }

  // ----- blocks counted by braces, with any heads among them -----

  function Begun(bones: seq<Bone>): nat {
    if bones == [] then 0 else Begun(Off(bones)) + if bones[|bones| - 1].begun then 1 else 0
  }

  /** No `}` of the text comes where a head still waits. */
  predicate ClosesNoHead(bones: seq<Bone>, s: string, line: nat)
    decreases |s|
  {
    s == "" || (!(s[0] == '}' && Waits(bones)) && ClosesNoHead(Step(bones, s[0], line), s[1..], line))
  }

  lemma {:induction false} BegunConcat(a: seq<Bone>, b: seq<Bone>)
    ensures Begun(a + b) == Begun(a) + Begun(b)
  {
    if b == [] {
      assert a + b == a;
    } else {
      assert Off(a + b) == a + Off(b) && (a + b)[|a + b| - 1] == b[|b| - 1];
      BegunConcat(a, Off(b));
    }
  }

  /** The braces of before, above the least that they come to. */
  predicate CountsAs(bones: seq<Bone>, before: string) {
    Begun(bones) == BraceNet(before) - LeastBraceNet(before)
  }

  lemma StepCounts(bones: seq<Bone>, before: string, c: char, line: nat)
    requires CountsAs(bones, before) && !(c == '}' && Waits(bones))
    ensures CountsAs(Step(bones, c, line), before + [c])
  {
    BraceNetConcat(before, [c]);
    assert [c][1..] == "";
    var next := Step(bones, c, line);
    if c == '{' {
      if Waits(bones) {
        assert Off(next) == Off(bones);
      } else {
        assert Off(next) == bones;
      }
    }
  }

  lemma {:induction false} WalkCounts(bones: seq<Bone>, before: string, s: string, line: nat)
    requires CountsAs(bones, before) && ClosesNoHead(bones, s, line)
    ensures CountsAs(Walk(bones, s, line), before + s)
    decreases |s|
  {
    if s == "" {
      assert before + s == before;
    } else {
      StepCounts(bones, before, s[0], line);
      WalkCounts(Step(bones, s[0], line), before + [s[0]], s[1..], line);
      assert before + [s[0]] + s[1..] == before + s;
    }
  }

  lemma BegunCounted(bones: seq<Bone>, text: string)
    ensures Begun(Counted(bones, text)) == Begun(bones)
  {
    if bones != [] {
      assert Off(Counted(bones, text)) == Off(bones);
    }
  }

  lemma {:induction false} NoBraceNet(s: string)
    requires HasNoBrace(s)
    ensures BraceNet(s) == LeastBraceNet(s) == 0
  {
    if s != "" {
      NoBraceNet(s[1..]);
    }
  }

  lemma {:induction false} NetIsAboveLeast(s: string)
    ensures LeastBraceNet(s) <= BraceNet(s)
  {
    if s != "" {
      NetIsAboveLeast(s[1..]);
    }
  }

  lemma SkipNoBrace(bones: seq<Bone>, before: string, s: string)
    requires CountsAs(bones, before) && HasNoBrace(s)
    ensures CountsAs(bones, before + s)
  {
    BraceNetConcat(before, s);
    NoBraceNet(s);
    NetIsAboveLeast(before);
  }

  /** Line i of the file closes no waiting head; what is put on by its own head is taken into account. */
  predicate ClosesNoHeadAt(lines: seq<string>, i: nat)
    requires i < |lines|
  {
    var counted := Counted(BonesAt(lines, i), lines[i]);
    var h := ReadClassHead(lines[i]);
    if h.Some? && IsTaken(counted, lines, i, h.value)
    then ClosesNoHead(counted + [Bone(ClassNamed(h.value.name, h.value.isStruct), i, false, 0)], lines[i][h.value.end..], i)
    else ClosesNoHead(counted, lines[i], i)
  }

  lemma TakenCounts(counted: seq<Bone>, b: Bone, before: string, head: string, rest: string, line: nat)
    requires CountsAs(counted, before) && !b.begun && HasNoBrace(head) && ClosesNoHead(counted + [b], rest, line)
    ensures CountsAs(Walk(counted + [b], rest, line), before + (head + rest))
  {
    assert Off(counted + [b]) == counted;
    SkipNoBrace(counted + [b], before, head);
    WalkCounts(counted + [b], before + head, rest, line);
    assert before + head + rest == before + (head + rest);
  }

  lemma TakenLineCounts(lines: seq<string>, i: nat, before: string, h: FoundHead, counted: seq<Bone>, b: Bone)
    requires IsClassLine(lines, i, h) && CountsAs(counted, before) && !b.begun && ClosesNoHead(counted + [b], lines[i][h.end..], i)
    ensures CountsAs(Walk(counted + [b], lines[i][h.end..], i), before + lines[i])
  {
    HeadHasNoBrace(lines[i], h);
    TakenCounts(counted, b, before, lines[i][..h.end], lines[i][h.end..], i);
    assert lines[i] == lines[i][..h.end] + lines[i][h.end..];
  }

  lemma ClassLineCounts(lines: seq<string>, i: nat, before: string, h: FoundHead)
    requires IsClassLine(lines, i, h) && CountsAs(BonesAt(lines, i), before) && ClosesNoHeadAt(lines, i)
    ensures CountsAs(BonesAt(lines, i + 1), before + lines[i])
  {
    var counted := Counted(BonesAt(lines, i), lines[i]);
    ClassLineWalks(lines, i, h);
    BegunCounted(BonesAt(lines, i), lines[i]);
    if IsTaken(counted, lines, i, h) {
      TakenLineCounts(lines, i, before, h, counted, Bone(ClassNamed(h.name, h.isStruct), i, false, 0));
    } else {
      WalkCounts(counted, before, lines[i], i);
    }
  }

  lemma TextLineCounts(lines: seq<string>, i: nat, before: string)
    requires IsTextLine(lines, i) && CountsAs(BonesAt(lines, i), before) && ClosesNoHeadAt(lines, i)
    ensures CountsAs(BonesAt(lines, i + 1), before + lines[i])
  {
    TextLineWalks(lines, i);
    BegunCounted(BonesAt(lines, i), lines[i]);
    WalkCounts(Counted(BonesAt(lines, i), lines[i]), before, lines[i], i);
  }

  /** Neither a directive nor a namespace head stands on line i, and it closes no waiting head. */
  predicate IsCountable(lines: seq<string>, i: nat)
    requires i < |lines|
  {
    DirectiveOf(lines[i]) == NoDirective && NamespaceAt(lines[i]) == None && ClosesNoHeadAt(lines, i)
  }

  /**
   On a file with any class heads, but without directives and namespaces, the number of blocks that
   have begun is the number of `{` minus the number of `}`, above the least that this comes to over all
   beginnings; if no `}` comes where a head still waits.
   */
  lemma BegunCountsBraces(lines: seq<string>, i: nat)
    requires i <= |lines| && forall j | 0 <= j < i :: IsCountable(lines, j)
    ensures var all := Joined(lines[..i]);
            Begun(BonesAt(lines, i)) == Count(all, '{') - Count(all, '}') - LeastBraceNet(all)
  {
    BegunIsNet(lines, i);
    BraceNetCounts(Joined(lines[..i]));
  }

  lemma {:induction false} BegunIsNet(lines: seq<string>, i: nat)
    requires i <= |lines| && forall j | 0 <= j < i :: IsCountable(lines, j)
    ensures CountsAs(BonesAt(lines, i), Joined(lines[..i]))
  {
    if i == 0 {
      NothingCounts(lines);
    } else {
      BegunIsNet(lines, i - 1);
      OneMoreLine(lines, i - 1);
    }
  }

  lemma OneMoreLine(lines: seq<string>, i: nat)
    requires i < |lines| && IsCountable(lines, i) && CountsAs(BonesAt(lines, i), Joined(lines[..i]))
    ensures CountsAs(BonesAt(lines, i + 1), Joined(lines[..i + 1]))
  {
    OneLineCounts(lines, i, Joined(lines[..i]));
    JoinsLine(lines, i);
  }

  lemma JoinsLine(lines: seq<string>, i: nat)
    requires i < |lines|
    ensures Joined(lines[..i + 1]) == Joined(lines[..i]) + lines[i]
  {
    assert lines[..i + 1][..i] == lines[..i];
  }

  lemma NothingCounts(lines: seq<string>)
    ensures CountsAs(BonesAt(lines, 0), Joined(lines[..0]))
  {
    NothingRead(lines);
    assert lines[..0] == [];
  }

  lemma OneLineCounts(lines: seq<string>, i: nat, before: string)
    requires i < |lines| && IsCountable(lines, i) && CountsAs(BonesAt(lines, i), before)
    ensures CountsAs(BonesAt(lines, i + 1), before + lines[i])
  {
    match ReadClassHead(lines[i])
    case Some(h) => ClassLineCounts(lines, i, before, h);
    case None => TextLineCounts(lines, i, before);
  }

  // ----- a class head holds no braces -----

  predicate BraceFree(line: string, i: nat, j: nat) {
    i <= j <= |line| && forall k | i <= k < j :: line[k] != '{' && line[k] != '}'
  }

  lemma FreeJoins(line: string, i: nat, j: nat, k: nat)
    requires BraceFree(line, i, j) && BraceFree(line, j, k)
    ensures BraceFree(line, i, k)
  {
  }

  /** From the word at p to the next one, if the pattern goes on to it. */
  lemma NextWord(line: string, p: nat) returns (next: nat)
    requires p < |line| && IsWordChar(line[p])
    ensures p < next && BraceFree(line, p, next)
    ensures LastWordOf(line, p) == p || (next < |line| && IsWordChar(line[next]) && LastWordOf(line, p) == LastWordOf(line, next))
  {
    var w := WordEnd(line, p);
    next := SpaceEnd(line, w);
    FreeJoins(line, p, w, next);
  }

  lemma {:induction false} LastWordIsFree(line: string, p: nat)
    requires p < |line| && IsWordChar(line[p])
    ensures BraceFree(line, p, LastWordOf(line, p))
    decreases |line| - p
  {
    var next := NextWord(line, p);
    if LastWordOf(line, p) != p {
      LastWordIsFree(line, next);
    }
  }

  lemma {:induction false} QualifiedIsFree(line: string, e: nat)
    requires e <= |line|
    ensures BraceFree(line, e, QualifiedEnd(line, e))
    decreases |line| - e
  {
    if HasAt(line, e, "::") && e + 2 < |line| && IsWordChar(line[e + 2]) {
      assert line[e] == line[e..e + 2][0] && line[e + 1] == line[e..e + 2][1];
      QualifiedIsFree(line, WordEnd(line, e + 2));
    }
  }

  lemma NameIsFree(line: string, q: nat, isStruct: bool)
    requires q < |line| && IsWordChar(line[q])
    ensures BraceFree(line, q, NameAt(line, q, isStruct).end)
  {
    var e := LastWordOf(line, q);
    LastWordIsFree(line, q);
    QualifiedIsFree(line, WordEnd(line, e));
    FreeJoins(line, q, e, WordEnd(line, e));
    FreeJoins(line, q, WordEnd(line, e), NameAt(line, q, isStruct).end);
  }

  lemma ClassIsFree(line: string, p: nat)
    requires p <= |line| && ClassAt(line, p).Some?
    ensures BraceFree(line, p, ClassAt(line, p).value.end)
  {
    var w := WordEnd(line, p);
    var q := SpaceEnd(line, w);
    FreeJoins(line, p, w, q);
    NameIsFree(line, q, line[p..w] == "struct");
    FreeJoins(line, p, q, ClassAt(line, p).value.end);
  }

  lemma {:induction false} BehindTemplateIsFree(line: string, from: nat, until: nat)
    requires BraceFree(line, from, until) && ClassBehindTemplate(line, from, until).Some?
    ensures BraceFree(line, from, ClassBehindTemplate(line, from, until).value.end)
    decreases until - from
  {
    if from < until {
      var p := SpaceEnd(line, until);
      if line[until - 1] == '>' && ClassAt(line, p).Some? {
        FreeJoins(line, from, until, p);
        ClassIsFree(line, p);
        FreeJoins(line, from, p, ClassAt(line, p).value.end);
      } else {
        BehindTemplateIsFree(line, from, until - 1);
      }
    }
  }

  lemma HeadHasNoBrace(line: string, h: FoundHead)
    requires ReadClassHead(line) == Some(h)
    ensures HasNoBrace(line[..h.end])
  {
    var p := SpaceEnd(line, 0);
    if HasAt(line, p, "template") {
      TemplateHeadIsFree(line, p, h);
    } else {
      ClassIsFree(line, p);
    }
    FreeJoins(line, 0, p, h.end);
  }

  lemma TemplateWordIsFree(line: string, p: nat)
    requires HasAt(line, p, "template")
    ensures BraceFree(line, p, p + 8)
  {
    var word := line[p..p + 8];
    assert forall k | 0 <= k < 8 :: word[k] != '{' && word[k] != '}';
    assert forall k | p <= k < p + 8 :: line[k] == word[k - p];
  }

  lemma TemplateHeadIsFree(line: string, p: nat, h: FoundHead)
    requires p == SpaceEnd(line, 0) && HasAt(line, p, "template") && ReadClassHead(line) == Some(h)
    ensures BraceFree(line, p, h.end)
  {
    var t := SpaceEnd(line, p + 8);
    TemplateWordIsFree(line, p);
    FreeJoins(line, p, p + 8, t);
    FreeJoins(line, p, t, t + 1);
    BehindTemplateIsFree(line, t + 1, TemplateEnd(line, t + 1));
    FreeJoins(line, p, t + 1, h.end);
  }
}
