/**
 From the lines of a file to what the nesting state is told about them.

 A line is read by itself, but for a class head: whether it is a template argument, and where the
 class seems to end, are found by looking at the lines that follow.
 */
module LineReading {
  import opened Wrappers
  import opened Characters
  import opened LinePatterns
  import opened Nesting
  import opened TemplateLookahead

  datatype Source = Source(number: nat, text: string, directive: Directive)

  function SourcesOf(lines: seq<string>): (r: seq<Source>)
    ensures |r| == |lines|
  {
    seq(|lines|, i requires 0 <= i < |lines| => Source(i, lines[i], DirectiveOf(lines[i])))
  }

  function TextsOf(src: seq<Source>): (r: seq<string>)
    ensures |r| == |src|
  {
    seq(|src|, i requires 0 <= i < |src| => src[i].text)
  }

  /** The number of the first line after which the braces are even, counted from the first line on. */
  function ClassEnd(src: seq<Source>, depth: int): Option<nat> {
    if src == [] then None
    else
      var depth' := depth + Count(src[0].text, '{') - Count(src[0].text, '}');
      if depth' == 0 then Some(src[0].number) else ClassEnd(src[1..], depth')
  }

  /** The class head on a line, behind its namespace heads. */
  function HeadOn(text: string): Option<FoundHead> {
    ReadClassHead(ReadNamespaces(text).1)
  }

  /** What follows the class head, if there is one. */
  function BehindClass(rest: string): string {
    match ReadClassHead(rest)
    case None => rest
    case Some(h) => rest[h.end..]
  }

  /** ends says whether the end of a class is looked for; the linter does. */
  function ReadHead(src: seq<Source>, ends: bool): Option<ClassHead>
    requires src != []
  {
    match HeadOn(src[0].text)
    case None => None
    case Some(h) =>
      Some(ClassHead(h.name, h.isStruct, InTemplateArguments(TextsOf(src), 0, h.end),
                     if ends && ClassEnd(src, 0).Some? then ClassEnd(src, 0).value else 0))
  }

  /** What a line says by itself. */
  function ReadText(s: Source): Line {
    var (namespaces, rest) := ReadNamespaces(s.text);
    Line(s.number, s.directive, Count(s.text, '(') - Count(s.text, ')'), IsAsmHead(s.text),
         namespaces, None, HasBareColon(s.text), ReadRest(BehindClass(rest)), ReadRest(rest))
  }

  /** What the first line says, the others being the ones that follow it. */
  function ReadFirst(src: seq<Source>, ends: bool): Line
    requires src != []
  {
    ReadText(src[0]).(classHead := ReadHead(src, ends))
  }

  function ReadAll(src: seq<Source>, ends: bool): (r: seq<Line>)
    ensures |r| == |src|
  {
    if src == [] then [] else [ReadFirst(src, ends)] + ReadAll(src[1..], ends)
  }

  lemma ReadAllFirst(src: seq<Source>, ends: bool)
    requires src != []
    ensures ReadAll(src, ends)[0] == ReadFirst(src, ends)
    ensures ReadAll(src, ends)[1..] == ReadAll(src[1..], ends)
  {
  }

  lemma {:induction false} ReadAllAt(src: seq<Source>, ends: bool, i: nat)
    requires i < |src|
    ensures ReadAll(src, ends)[i] == ReadFirst(src[i..], ends)
  {
    ReadAllFirst(src, ends);
    if i == 0 {
      assert src[0..] == src;
    } else {
      ReadAllAt(src[1..], ends, i - 1);
      assert src[1..][i - 1..] == src[i..];
      assert ReadAll(src, ends)[i] == ReadAll(src, ends)[1..][i - 1];
    }
  }

  /** The lines of a file, as the nesting state takes them. */
  function ReadFile(lines: seq<string>): (r: seq<Line>)
    ensures |r| == |lines|
  {
    ReadAll(SourcesOf(lines), true)
  }

  // ----- the depth of blocks by counting braces -----

  /** All lines end to end. */
  function Joined(lines: seq<string>): string {
    if lines == [] then "" else Joined(lines[..|lines| - 1]) + lines[|lines| - 1]
  }

  /** No directive, no namespace and no class head stands on the line. */
  predicate HoldsOnlyBraces(text: string) {
    DirectiveOf(text) == NoDirective && NamespaceAt(text) == None && ReadClassHead(text) == None
  }

  lemma ReadOnlyBraces(src: seq<Source>, ends: bool)
    requires src != [] && HoldsOnlyBraces(src[0].text) && src[0].directive == DirectiveOf(src[0].text)
    ensures OnlyBraces(ReadFirst(src, ends)) && ReadFirst(src, ends).whole.tokens == ReadTokens(src[0].text)
  {
    assert ReadNamespaces(src[0].text) == ([], src[0].text);
  }

  /** The tokens have the net and the least net of the braces in the text. */
  predicate CountsAgree(tokens: seq<Token>, text: string) {
    Net(tokens) == BraceNet(text) && LeastNet(tokens) == LeastBraceNet(text)
  }

  lemma CountsJoin(a: seq<Token>, b: seq<Token>, s: string, t: string)
    requires CountsAgree(a, s) && CountsAgree(b, t)
    ensures CountsAgree(a + b, s + t)
  {
    NetConcat(a, b);
    BraceNetConcat(s, t);
  }

  lemma {:induction false} TokensOfLines(lines: seq<Line>, texts: seq<string>)
    requires |lines| == |texts| && forall i | 0 <= i < |lines| :: lines[i].whole.tokens == ReadTokens(texts[i])
    ensures CountsAgree(TokensOf(lines), Joined(texts))
  {
    if lines != [] {
      var n := |lines| - 1;
      TokensOfLines(lines[..n], texts[..n]);
      TokensCountBraces(texts[n]);
      CountsJoin(TokensOf(lines[..n]), lines[n].whole.tokens, Joined(texts[..n]), texts[n]);
    }
  }

  /**
   On a file whose lines hold no directive, namespace or class head, the depth of blocks is the
   number of `{` minus the number of `}`, above the least that this comes to over all beginnings.
   */
  lemma DepthCountsBraces(lines: seq<string>)
    requires forall t | t in lines :: HoldsOnlyBraces(t)
    ensures var all := Joined(lines);
            |Run(State([], []), ReadFile(lines)).stack| == Count(all, '{') - Count(all, '}') - LeastBraceNet(all)
  {
    var src, read := SourcesOf(lines), ReadFile(lines);
    forall i | 0 <= i < |read|
      ensures OnlyBraces(read[i]) && read[i].whole.tokens == ReadTokens(lines[i])
    {
      ReadAllAt(src, true, i);
      assert lines[i] in lines && src[i..][0] == src[i];
      ReadOnlyBraces(src[i..], true);
    }
    forall l | l in read ensures OnlyBraces(l) {
      var i :| 0 <= i < |read| && read[i] == l;
    }
    DepthIsNetAboveLeast(read);
    TokensOfLines(read, lines);
    BraceNetCounts(Joined(lines));
  }
}
