/**
 What the linter's patterns say about the text of one line, where the nesting state is concerned.

 Every reader here stands for one pattern; names and positions are those of the leftmost, longest
 match that the pattern finds.
 */
module LinePatterns {
  import opened Wrappers
  import opened Characters
  import opened Nesting

  /** How many word characters the text starts with. */
  function WordRun(s: string): (n: nat)
    ensures n <= |s|
  {
    if s != "" && IsWordChar(s[0]) then 1 + WordRun(s[1..]) else 0
  }

  function FirstWord(s: string): string {
    s[..WordRun(s)]
  }

  function BehindWord(s: string): string {
    s[WordRun(s)..]
  }

  predicate StartsWith(s: string, c: char) {
    s != "" && s[0] == c
  }

  // ----- directives -----

  /** `^\s*#\s*(if|ifdef|ifndef)\b`, `^\s*#\s*(else|elif)\b` and `^\s*#\s*endif\b` */
  function DirectiveOf(line: string): Directive {
    var s := TrimLeft(line);
    if !StartsWith(s, '#') then NoDirective
    else
      var word := FirstWord(TrimLeft(s[1..]));
      if word == "if" || word == "ifdef" || word == "ifndef" then If
      else if word == "else" || word == "elif" then Else
      else if word == "endif" then Endif
      else NoDirective
  }

  // ----- assembly blocks -----

  predicate OpensGroup(s: string) {
    var t := TrimLeft(s);
    StartsWith(t, '{') || StartsWith(t, '(')
  }

  /** `^\s*(?:asm|_asm|__asm|__asm__)(?:\s+(volatile|__volatile__))?\s*[{(]` */
  predicate IsAsmHead(line: string) {
    var s := TrimLeft(line);
    var word, rest := FirstWord(s), BehindWord(s);
    && (word == "asm" || word == "_asm" || word == "__asm" || word == "__asm__")
    && (|| OpensGroup(rest)
        || (rest != "" && IsSpace(rest[0]) &&
            var next := TrimLeft(rest);
            && (FirstWord(next) == "volatile" || FirstWord(next) == "__volatile__")
            && OpensGroup(BehindWord(next))))
  }

  // ----- namespaces -----

  /** How many word characters and colons the text starts with. */
  function NameRun(s: string): (n: nat)
    ensures n <= |s|
  {
    if s != "" && (IsWordChar(s[0]) || s[0] == ':') then 1 + NameRun(s[1..]) else 0
  }

  lemma {:induction false} TrimShortens(s: string)
    ensures |TrimLeft(s)| <= |s|
  {
    if s != "" && IsSpace(s[0]) {
      TrimShortens(s[1..]);
    }
  }

  /** `^\s*namespace\b\s*([:\w]+)?(.*)$`: the name, or "", and what follows it. */
  function NamespaceAt(line: string): (r: Option<(string, string)>)
    ensures r.Some? ==> |r.value.1| < |line|
  {
    var s := TrimLeft(line);
    if FirstWord(s) == "namespace" then
      TrimShortens(line);
      TrimShortens(BehindWord(s));
      var t := TrimLeft(BehindWord(s));
      Some((t[..NameRun(t)], t[NameRun(t)..]))
    else None
  }

  /** The text behind a namespace head, and behind its brace if there is one. */
  function BehindHead(rest: string): (r: string)
    ensures |r| <= |rest|
  {
    var k := IndexOf(rest, '{');
    if k.Some? then rest[k.value + 1..] else rest
  }

  /** The namespace heads at the beginning of the line, and what is left of it. */
  function ReadNamespaces(line: string): (r: (seq<NamespaceHead>, string))
    ensures |r.1| <= |line|
    decreases |line|
  {
    match NamespaceAt(line)
    case None => ([], line)
    case Some((name, rest)) =>
      var (heads, last) := ReadNamespaces(BehindHead(rest));
      ([NamespaceHead(name, IndexOf(rest, '{').Some?)] + heads, last)
  }

  // ----- class heads -----

  /** Where the run of word characters that starts at i ends. */
  function WordEnd(line: string, i: nat): (r: nat)
    requires i <= |line|
    ensures i <= r <= |line| && (forall k | i <= k < r :: IsWordChar(line[k])) && (r < |line| ==> !IsWordChar(line[r]))
    decreases |line| - i
  {
    if i < |line| && IsWordChar(line[i]) then WordEnd(line, i + 1) else i
  }

  /** Where the run of space that starts at i ends. */
  function SpaceEnd(line: string, i: nat): (r: nat)
    requires i <= |line|
    ensures i <= r <= |line| && (forall k | i <= k < r :: IsSpace(line[k])) && (r < |line| ==> !IsSpace(line[r]))
    decreases |line| - i
  {
    if i < |line| && IsSpace(line[i]) then SpaceEnd(line, i + 1) else i
  }

  lemma WordEndIs(line: string, i: nat, j: nat)
    requires i <= j <= |line| && (forall k | i <= k < j :: IsWordChar(line[k])) && (j < |line| ==> !IsWordChar(line[j]))
    ensures WordEnd(line, i) == j
  {
    assert !(WordEnd(line, i) < j) && !(j < WordEnd(line, i));
  }

  lemma SpaceEndIs(line: string, i: nat, j: nat)
    requires i <= j <= |line| && (forall k | i <= k < j :: IsSpace(line[k])) && (j < |line| ==> !IsSpace(line[j]))
    ensures SpaceEnd(line, i) == j
  {
    assert !(SpaceEnd(line, i) < j) && !(j < SpaceEnd(line, i));
  }

  /** From a word at p, over words that are set apart by spaces, to the last of them: where it begins. */
  function LastWordOf(line: string, p: nat): (q: nat)
    requires p < |line| && IsWordChar(line[p])
    ensures p <= q < |line| && IsWordChar(line[q])
    decreases |line| - p
  {
    var w := WordEnd(line, p);
    var next := SpaceEnd(line, w);
    if next > w && next < |line| && IsWordChar(line[next]) then LastWordOf(line, next) else p
  }

  /** From e on, over any number of `::` with a word behind it. */
  function QualifiedEnd(line: string, e: nat): (r: nat)
    requires e <= |line|
    ensures e <= r <= |line|
    decreases |line| - e
  {
    if HasAt(line, e, "::") && e + 2 < |line| && IsWordChar(line[e + 2])
    then QualifiedEnd(line, WordEnd(line, e + 2))
    else e
  }

  /** A class head as the pattern finds it: the name, and where it ends on the line. */
  datatype FoundHead = FoundHead(name: string, isStruct: bool, end: nat)

  /** `(?:[a-zA-Z0-9_]+\s+)*(\w+(?:::\w+)*)` at q */
  function NameAt(line: string, q: nat, isStruct: bool): (h: FoundHead)
    requires q < |line| && IsWordChar(line[q])
    ensures q < h.end <= |line|
  {
    var name := LastWordOf(line, q);
    var end := QualifiedEnd(line, WordEnd(line, name));
    FoundHead(line[name..end], isStruct, end)
  }

  /** The same with the word `class` or `struct` from p to w, and space up to q. */
  function ClassFrom(line: string, p: nat, w: nat, q: nat): (r: Option<FoundHead>)
    requires p <= w <= q <= |line|
    ensures r.Some? ==> q < |line| && IsWordChar(line[q]) && r.value == NameAt(line, q, line[p..w] == "struct")
  {
    if (line[p..w] == "class" || line[p..w] == "struct") && w < q < |line| && IsWordChar(line[q])
    then Some(NameAt(line, q, line[p..w] == "struct"))
    else None
  }

  /** `(class|struct)\s+` and such a name at p */
  function ClassAt(line: string, p: nat): (r: Option<FoundHead>)
    requires p <= |line|
    ensures r.Some? ==> r.value.end <= |line|
  {
    ClassFrom(line, p, WordEnd(line, p), SpaceEnd(line, WordEnd(line, p)))
  }

  /** `[\w\s<>,:=]` */
  predicate IsTemplateChar(c: char) {
    IsWordChar(c) || IsSpace(c) || c == '<' || c == '>' || c == ',' || c == ':' || c == '='
  }

  /** Where the run of such characters that starts at i ends. */
  function TemplateEnd(line: string, i: nat): (r: nat)
    requires i <= |line|
    ensures i <= r <= |line| && (forall k | i <= k < r :: IsTemplateChar(line[k])) && (r < |line| ==> !IsTemplateChar(line[r]))
    decreases |line| - i
  {
    if i < |line| && IsTemplateChar(line[i]) then TemplateEnd(line, i + 1) else i
  }

  /** The class head behind the last `>` in line[from..until] that has one behind it. */
  function ClassBehindTemplate(line: string, from: nat, until: nat): (r: Option<FoundHead>)
    requires from <= until <= |line|
    ensures r.Some? ==> r.value.end <= |line|
    decreases until - from
  {
    if from == until then None
    else
      var g := until - 1;
      var head := if line[g] == '>' then ClassAt(line, SpaceEnd(line, until)) else None;
      if head.Some? then head else ClassBehindTemplate(line, from, g)
  }

  /** `^(\s*(?:template\s*<[\w\s<>,:=]*>\s*)?(class|struct)\s+(?:[a-zA-Z0-9_]+\s+)*(\w+(?:::\w+)*))(.*)$` */
  function ReadClassHead(line: string): (r: Option<FoundHead>)
    ensures r.Some? ==> r.value.end <= |line|
  {
    var p := SpaceEnd(line, 0);
    if HasAt(line, p, "template") then
      var t := SpaceEnd(line, p + 8);
      if t < |line| && line[t] == '<'
      then ClassBehindTemplate(line, t + 1, TemplateEnd(line, t + 1))
      else None
    else ClassAt(line, p)
  }

  /** A colon stands at i, and none behind it. */
  predicate SingleColonAt(line: string, i: nat) {
    i < |line| && line[i] == ':' && (i + 1 == |line| || line[i + 1] != ':')
  }

  /** `(^|[^:]):($|[^:])` */
  predicate HasBareColon(line: string) {
    exists i | 0 <= i < |line| :: SingleColonAt(line, i) && (i == 0 || line[i - 1] != ':')
  }

  // ----- access specifiers -----

  /** `public|private|protected|signals` at p, or "" */
  function AccessWord(line: string, p: nat): (word: string)
    ensures p + |word| <= |line| || word == ""
  {
    if HasAt(line, p, "public") then "public"
    else if HasAt(line, p, "private") then "private"
    else if HasAt(line, p, "protected") then "protected"
    else if HasAt(line, p, "signals") then "signals"
    else ""
  }

  /** `(\s+(?:slots\s*)?)?:(?:[^:]|$)` at k */
  predicate ColonFollows(line: string, k: nat)
    requires k <= |line|
  {
    var t := SpaceEnd(line, k);
    SingleColonAt(line, t) || (t > k && HasAt(line, t, "slots") && SingleColonAt(line, SpaceEnd(line, t + 5)))
  }

  /** `\b(public|private|protected|signals)` and that at p */
  function AccessAt(line: string, p: nat): Option<string>
    requires p <= |line|
  {
    var word := AccessWord(line, p);
    if word != "" && WordStartsAt(line, p) && ColonFollows(line, p + |word|) then Some(word) else None
  }

  /** The last access specifier on the line. */
  function ReadAccess(line: string, until: nat): Option<string>
    requires until <= |line|
  {
    if AccessAt(line, until).Some? then AccessAt(line, until)
    else if until == 0 then None
    else ReadAccess(line, until - 1)
  }

  // ----- braces, semicolons and closing parentheses -----

  predicate IsMark(c: char) {
    c == '{' || c == ';' || c == ')' || c == '}'
  }

  /** `^[^{;)}]*([{;)}])`: where the first of them stands. */
  function FirstMark(s: string): (r: Option<nat>)
    ensures r.Some? ==> r.value < |s| && IsMark(s[r.value])
  {
    if s == "" then None
    else if IsMark(s[0]) then Some(0)
    else
      match FirstMark(s[1..])
      case Some(k) => Some(k + 1)
      case None => None
  }

  /** `^extern\s*"[^"]*"\s*\{` */
  predicate IsExternC(s: string) {
    && HasAt(s, 0, "extern")
    && var t := TrimLeft(s[6..]);
       && StartsWith(t, '"')
       && var k := IndexOf(t[1..], '"');
          k.Some? && StartsWith(TrimLeft(t[1..][k.value + 1..]), '{')
  }

  /** The token for the mark c, where s is the rest of the line that c is the first mark of. */
  function TokenFor(s: string, c: char): Token {
    if c == '{' then OpenBrace(IsExternC(s), IsAsmHead(s)) else if c == '}' then CloseBrace else Terminator
  }

  function ReadTokens(s: string): seq<Token>
    decreases |s|
  {
    match FirstMark(s)
    case None => []
    case Some(k) => [TokenFor(s, s[k])] + ReadTokens(s[k + 1..])
  }

  function ReadRest(s: string): Rest {
    Rest(ReadAccess(s, |s|), ReadTokens(s))
  }

  // ----- the braces of a line, counted -----

  /** How many more `{` than `}`. */
  function BraceNet(s: string): int {
    if s == "" then 0 else (if s[0] == '{' then 1 else if s[0] == '}' then -1 else 0) + BraceNet(s[1..])
  }

  /** The least of that over all beginnings of the text. */
  function LeastBraceNet(s: string): (r: int)
    ensures r <= 0
  {
    if s == "" then 0
    else
      var r := (if s[0] == '{' then 1 else if s[0] == '}' then -1 else 0) + LeastBraceNet(s[1..]);
      if r < 0 then r else 0
  }

  lemma {:induction false} BraceNetCounts(s: string)
    ensures BraceNet(s) == Count(s, '{') - Count(s, '}')
  {
    if s != "" {
      BraceNetCounts(s[1..]);
    }
  }

  /** It is the least, and some beginning attains it. */
  lemma {:induction false} LeastBraceNetIsLeast(s: string, n: nat) returns (m: nat)
    requires n <= |s|
    ensures LeastBraceNet(s) <= BraceNet(s[..n])
    ensures m <= |s| && LeastBraceNet(s) == BraceNet(s[..m])
  {
    if s == "" || LeastBraceNet(s) == 0 {
      m := 0;
    }
    if s != "" {
      var k := LeastBraceNetIsLeast(s[1..], if n == 0 then 0 else n - 1);
      assert n > 0 ==> s[..n][1..] == s[1..][..n - 1];
      assert s[..k + 1][1..] == s[1..][..k];
      if LeastBraceNet(s) < 0 {
        m := k + 1;
      }
    }
  }

  lemma {:induction false} BraceNetConcat(a: string, b: string)
    ensures BraceNet(a + b) == BraceNet(a) + BraceNet(b)
    ensures var c := BraceNet(a) + LeastBraceNet(b);
            LeastBraceNet(a + b) == if c < LeastBraceNet(a) then c else LeastBraceNet(a)
  {
    if a == "" {
      assert a + b == b;
    } else {
      BraceNetConcat(a[1..], b);
      assert (a + b)[1..] == a[1..] + b;
    }
  }

  lemma {:induction false} NetConcat(a: seq<Token>, b: seq<Token>)
    ensures Net(a + b) == Net(a) + Net(b)
    ensures var c := Net(a) + LeastNet(b);
            LeastNet(a + b) == if c < LeastNet(a) then c else LeastNet(a)
  {
    if b == [] {
      assert a + b == a;
    } else {
      NetConcat(a, b[..|b| - 1]);
      assert (a + b)[..|a + b| - 1] == a + b[..|b| - 1];
    }
  }

  lemma {:induction false} NoMarkNoBrace(s: string)
    requires FirstMark(s) == None
    ensures BraceNet(s) == 0 && LeastBraceNet(s) == 0
  {
    if s != "" {
      NoMarkNoBrace(s[1..]);
    }
  }

  lemma {:induction false} BeforeMarkNoBrace(s: string, k: nat)
    requires FirstMark(s) == Some(k)
    ensures BraceNet(s[..k]) == 0 && LeastBraceNet(s[..k]) == 0
  {
    if k > 0 {
      BeforeMarkNoBrace(s[1..], k - 1);
      assert s[..k][1..] == s[1..][..k - 1];
    }
  }

  lemma OneMark(s: string, c: char)
    ensures var t := TokenFor(s, c);
            && Net([t]) == BraceNet([c])
            && LeastNet([t]) == LeastBraceNet([c])
  {
    assert [TokenFor(s, c)][..0] == [];
    assert Net([]) == 0;
  }

  /** Up to a mark at k and behind it, put together. */
  lemma CountsAtMark(s: string, k: nat)
    requires FirstMark(s) == Some(k)
    ensures BraceNet(s) == BraceNet([s[k]]) + BraceNet(s[k + 1..])
    ensures var c := BraceNet([s[k]]) + LeastBraceNet(s[k + 1..]);
            LeastBraceNet(s) == if c < LeastBraceNet([s[k]]) then c else LeastBraceNet([s[k]])
  {
    BeforeMarkNoBrace(s, k);
    BraceNetConcat([s[k]], s[k + 1..]);
    BraceNetConcat(s[..k], [s[k]] + s[k + 1..]);
    assert s == s[..k] + ([s[k]] + s[k + 1..]);
  }

  /** The tokens of a line have the net and the least net of its braces. */
  lemma {:induction false} TokensCountBraces(s: string)
    ensures Net(ReadTokens(s)) == BraceNet(s) && LeastNet(ReadTokens(s)) == LeastBraceNet(s)
    decreases |s|
  {
    match FirstMark(s)
    case None => NoMarkNoBrace(s);
    case Some(k) =>
      TokensCountBraces(s[k + 1..]);
      OneMark(s, s[k]);
      NetConcat([TokenFor(s, s[k])], ReadTokens(s[k + 1..]));
      CountsAtMark(s, k);
  }
}
