/**
 What the backward matcher computes for a template argument list.

 Read from right to left with every bracket and angle mirrored, the backward scan is the forward
 token machine, over tokens of its own.  So the `<` it reports for a `>` is the one that the
 independent reading of AngleMatching gives in the mirrored text.
 */
module BackwardAngles {
  import opened Wrappers
  import opened Brackets
  import opened ExpressionMatcher
  import opened BracketMatching
  import opened AngleMatching
  import opened FlatText

  // ----- mirrored text -----

  function MirrorChar(c: char): char {
    match c
    case '(' => ')'
    case ')' => '('
    case '[' => ']'
    case ']' => '['
    case '{' => '}'
    case '}' => '{'
    case '<' => '>'
    case '>' => '<'
    case _ => c
  }

  /** Read from right to left, with every bracket and angle turned around. */
  function Mirror(s: string): string {
    seq(|s|, k requires 0 <= k < |s| => MirrorChar(s[|s| - 1 - k]))
  }

  lemma MirrorCharTwice(c: char)
    ensures MirrorChar(MirrorChar(c)) == c
  {
  }

  lemma MirrorTwice(s: string)
    ensures Mirror(Mirror(s)) == s
  {
    forall k | 0 <= k < |s| ensures Mirror(Mirror(s))[k] == s[k] {
      var m := |s| - 1 - k;
      assert Mirror(s)[m] == MirrorChar(s[|s| - 1 - m]);
      MirrorCharTwice(s[k]);
    }
  }

  lemma MirrorConcat(a: string, b: string)
    ensures Mirror(a + b) == Mirror(b) + Mirror(a)
  {
  }

  lemma MirrorSlice(s: string, a: nat, b: nat)
    requires a <= b <= |s|
    ensures Mirror(s)[|s| - b..|s| - a] == Mirror(s[a..b])
  {
    var m, part := Mirror(s)[|s| - b..|s| - a], s[a..b];
    forall k | 0 <= k < b - a ensures m[k] == MirrorChar(part[b - a - 1 - k]) {
      assert m[k] == Mirror(s)[|s| - b + k];
      assert part[b - a - 1 - k] == s[b - 1 - k];
    }
  }

  lemma {:induction false} MirrorTree(t: Tree)
    requires t.Valid()
    ensures Balanced(Mirror(t.Yield()))
  {
    match t
    case Empty =>
      BalancedEmpty();
      assert Mirror("") == "";
    case Plain(c, rest) =>
      MirrorTree(rest);
      MirrorConcat([c], rest.Yield());
      BalancedPlain(MirrorChar(c));
      BalancedConcat(Mirror(rest.Yield()), [MirrorChar(c)]);
      assert Mirror([c]) == [MirrorChar(c)];
    case Nested(o, inner, c, rest) =>
      MirrorTree(inner);
      MirrorTree(rest);
      MirrorNested(o, inner.Yield(), c, rest.Yield());
      BalancedNested(MirrorChar(c), Mirror(inner.Yield()), MirrorChar(o));
      BalancedConcat(Mirror(rest.Yield()), [MirrorChar(c)] + Mirror(inner.Yield()) + [MirrorChar(o)]);
  }

  lemma MirrorNested(o: char, inner: string, c: char, rest: string)
    ensures Mirror([o] + inner + [c] + rest) == Mirror(rest) + ([MirrorChar(c)] + Mirror(inner) + [MirrorChar(o)])
  {
    MirrorConcat([o] + inner + [c], rest);
    MirrorConcat([o] + inner, [c]);
    MirrorConcat([o], inner);
    assert Mirror([o]) == [MirrorChar(o)] && Mirror([c]) == [MirrorChar(c)];
  }

  /** The mirror image of a balanced word is balanced, and of no other. */
  lemma MirrorBalanced(s: string)
    ensures Balanced(Mirror(s)) <==> Balanced(s)
  {
    if Balanced(s) {
      var t :| Derives(t, s);
      MirrorTree(t);
    }
    if Balanced(Mirror(s)) {
      var t :| Derives(t, Mirror(s));
      MirrorTree(t);
      MirrorTwice(s);
    }
  }

  // ----- the tokens that the backward scan sees -----

  predicate StepsOverTwo(line: string, i: nat)
    requires i < |line|
  {
    (line[i] == '>' && SkipsGreater(line, i)) || (line[i] == '<' && i > 0 && line[i - 1] == '<')
  }

  function BackToken(c: char): Token {
    if IsBracket(c) then Bracket(MirrorChar(c))
    else if c == '>' then Less
    else if c == '<' then Greater
    else if c == ';' then Semicolon
    else Other
  }

  function BackTokens(line: string, i: int): (r: seq<Token>)
    requires -1 <= i < |line|
    ensures |r| == i + 1
    decreases i + 1
  {
    if i == -1 then []
    else if StepsOverTwo(line, i) then [Other, Other] + BackTokens(line, i - 2)
    else [BackToken(line[i])] + BackTokens(line, i - 1)
  }

  /** From column i of line l, and on through the lines above. */
  function BackFlat(lines: seq<string>, l: nat, i: int): (r: seq<Token>)
    requires l < |lines| && -1 <= i < |lines[l]|
    ensures |r| == Offset(lines, l) + i + 1
    decreases l, 1
  {
    BackTokens(lines[l], i) + BackAbove(lines, l)
  }

  function BackAbove(lines: seq<string>, l: nat): (r: seq<Token>)
    requires l < |lines|
    ensures |r| == Offset(lines, l)
    decreases l, 0
  {
    if l == 0 then [] else BackFlat(lines, l - 1, |lines[l - 1]| - 1)
  }

  /** The text up to column i of line l. */
  function Before(lines: seq<string>, l: nat, i: int): (r: string)
    requires l < |lines| && -1 <= i < |lines[l]|
    ensures |r| == Offset(lines, l) + i + 1
    decreases l, 1
  {
    Above(lines, l) + lines[l][..i + 1]
  }

  function Above(lines: seq<string>, l: nat): (r: string)
    requires l < |lines|
    ensures |r| == Offset(lines, l)
    decreases l, 0
  {
    if l == 0 then "" else Before(lines, l - 1, |lines[l - 1]| - 1)
  }

  /** The tokens show the brackets and the semicolons of the text, and a closing angle is one. */
  ghost predicate TrueTo(toks: seq<Token>, s: string) {
    && Shows(toks, s)
    && forall j | 0 <= j < |s| :: (toks[j] == Greater ==> s[j] == '>') && (toks[j] == Semicolon <==> s[j] == ';')
  }

  lemma TrueConcat(toks: seq<Token>, s: string, toks': seq<Token>, s': string)
    requires TrueTo(toks, s) && TrueTo(toks', s')
    ensures TrueTo(toks + toks', s + s')
  {
  }

  lemma TrueOne(c: char)
    ensures TrueTo([BackToken(c)], [MirrorChar(c)])
  {
  }

  /** What is stepped over is neither a bracket nor a semicolon. */
  lemma TrueTwo(line: string, i: nat)
    requires i < |line| && StepsOverTwo(line, i)
    ensures TrueTo([Other, Other], [MirrorChar(line[i]), MirrorChar(line[i - 1])])
  {
    if line[i] == '>' {
      SteppedOver(line, i);
    }
  }

  lemma {:induction false} BackTokensAreTrue(line: string, i: int)
    requires -1 <= i < |line|
    ensures TrueTo(BackTokens(line, i), Mirror(line[..i + 1]))
    decreases i + 1
  {
    if i >= 0 {
      if StepsOverTwo(line, i) {
        BackTokensAreTrue(line, i - 2);
        TrueTwo(line, i);
        TrueConcat([Other, Other], [MirrorChar(line[i]), MirrorChar(line[i - 1])],
                   BackTokens(line, i - 2), Mirror(line[..i - 1]));
        assert Mirror(line[..i + 1]) == [MirrorChar(line[i]), MirrorChar(line[i - 1])] + Mirror(line[..i - 1]);
      } else {
        BackTokensAreTrue(line, i - 1);
        TrueOne(line[i]);
        TrueConcat([BackToken(line[i])], [MirrorChar(line[i])], BackTokens(line, i - 1), Mirror(line[..i]));
        assert Mirror(line[..i + 1]) == [MirrorChar(line[i])] + Mirror(line[..i]);
      }
    }
  }

  lemma {:induction false} BeforeIsPrefix(lines: seq<string>, l: nat, i: int)
    requires l < |lines| && -1 <= i < |lines[l]|
    ensures Before(lines, l, i) <= Flatten(lines)
    decreases l
  {
    if l > 0 {
      BeforeIsPrefix(lines, l - 1, |lines[l - 1]| - 1);
    }
    LineInFlat(lines, l);
    var o := Offset(lines, l);
    assert Flatten(lines)[o..o + i + 1] == Flatten(lines)[o..o + |lines[l]|][..i + 1];
    assert Flatten(lines)[..o + i + 1] == Flatten(lines)[..o] + Flatten(lines)[o..o + i + 1];
  }

  lemma {:induction false} BackFlatIsTrue(lines: seq<string>, l: nat, i: int)
    requires l < |lines| && -1 <= i < |lines[l]|
    ensures TrueTo(BackFlat(lines, l, i), Mirror(Before(lines, l, i)))
    decreases l, 1
  {
    BackTokensAreTrue(lines[l], i);
    BackAboveIsTrue(lines, l);
    MirrorConcat(Above(lines, l), lines[l][..i + 1]);
    TrueConcat(BackTokens(lines[l], i), Mirror(lines[l][..i + 1]), BackAbove(lines, l), Mirror(Above(lines, l)));
  }

  lemma {:induction false} BackAboveIsTrue(lines: seq<string>, l: nat)
    requires l < |lines|
    ensures TrueTo(BackAbove(lines, l), Mirror(Above(lines, l)))
    decreases l, 0
  {
    if l > 0 {
      BackFlatIsTrue(lines, l - 1, |lines[l - 1]| - 1);
    }
  }

  // ----- the backward scan is the forward machine -----

  function MirrorStack(st: string): string {
    seq(|st|, k requires 0 <= k < |st| => MirrorChar(st[k]))
  }

  lemma {:induction false} MirrorDrop(st: string)
    ensures MirrorStack(DropTop(st, '>')) == DropTop(MirrorStack(st), '<')
  {
    if st != "" && st[|st| - 1] == '>' {
      MirrorDrop(Pop(st));
      assert Pop(MirrorStack(st)) == MirrorStack(Pop(st));
    }
  }

  lemma MirrorPush(st: string, c: char)
    ensures MirrorStack(st + [c]) == MirrorStack(st) + [MirrorChar(c)]
  {
  }

  lemma MirrorPop(st: string)
    requires st != ""
    ensures MirrorStack(Pop(st)) == Pop(MirrorStack(st))
  {
  }

  /** What the backward scan does with the character c, where it looks at it. */
  function BackAdvance(st: string, c: char): Verdict {
    if IsCloser(c) then Continue(st + [c])
    else if c == '>' then Continue(st + ">")
    else if c == '<' then
      if st == "" || st[|st| - 1] != '>' then Continue(st)
      else if |st| == 1 then Close
      else Continue(Pop(st))
    else if IsOpener(c) then
      var s := DropTop(st, '>');
      if s == "" || !Matches(c, s[|s| - 1]) then Fail
      else if |s| == 1 then Close
      else Continue(Pop(s))
    else if c == ';' then
      var s := DropTop(st, '>');
      if s == "" then Fail else Continue(s)
    else Continue(st)
  }

  lemma BackAdvanceMirrors(st: string, c: char)
    ensures Advance(MirrorStack(st), BackToken(c)) ==
            match BackAdvance(st, c)
            case Continue(st') => Continue(MirrorStack(st'))
            case Fail => Fail
            case Close => Close
  {
    if IsCloser(c) || c == '>' {
      MirrorPush(st, c);
    } else if c == '<' {
      if st != "" {
        MirrorPop(st);
      }
    } else if IsOpener(c) {
      OpenerMirrors(st, c);
    } else if c == ';' {
      MirrorDrop(st);
    }
  }

  lemma OpenerMirrors(st: string, c: char)
    requires IsOpener(c)
    ensures Advance(MirrorStack(st), Bracket(MirrorChar(c))) ==
            match BackAdvance(st, c)
            case Continue(st') => Continue(MirrorStack(st'))
            case Fail => Fail
            case Close => Close
  {
    MirrorDrop(st);
    var s := DropTop(st, '>');
    if s != "" {
      MirrorPop(s);
      assert MirrorStack(s)[|s| - 1] == MirrorChar(s[|s| - 1]);
      assert Matches(MirrorChar(s[|s| - 1]), MirrorChar(c)) <==> Matches(c, s[|s| - 1]);
    }
  }

  lemma ScanBackStep(line: string, i: nat, st: string)
    requires i < |line|
    ensures ScanBack(line, i, st) ==
            if StepsOverTwo(line, i) then ScanBack(line, i - 2, st)
            else
              match BackAdvance(st, line[i])
              case Continue(st') => ScanBack(line, i - 1, st')
              case Fail => Broken
              case Close => Found(i)
  {
  }

  /** The end of a scan over n tokens more, seen from where the tokens start. */
  function Later(r: Scan, n: nat): Scan {
    match r
    case Found(e) => Found(e + n)
    case _ => r
  }

  lemma ScanBehind(first: seq<Token>, rest: seq<Token>, st: string)
    ensures ScanTokens(first + rest, |first|, st) == Later(ScanTokens(rest, 0, st), |first|)
  {
    assert (first + rest)[|first|..|first| + |rest|] == rest;
    ScanPiece(first + rest, |first|, rest, 0, st);
  }

  function MirrorScan(r: Scan, i: int): Scan
    requires i >= -1 && (r.Found? ==> r.pos <= i)
  {
    match r
    case Found(p) => Found(i - p + 1)
    case Broken => Broken
    case Pending(st) => Pending(MirrorStack(st))
  }

  lemma {:induction false} ScanBackIsTokens(line: string, i: int, st: string)
    requires -1 <= i < |line|
    ensures ScanTokens(BackTokens(line, i), 0, MirrorStack(st)) == MirrorScan(ScanBack(line, i, st), i)
    decreases i + 1
  {
    if i >= 0 {
      ScanBackStep(line, i, st);
      var toks := BackTokens(line, i);
      if StepsOverTwo(line, i) {
        ScanBackIsTokens(line, i - 2, st);
        ScanBehind([Other, Other], BackTokens(line, i - 2), MirrorStack(st));
        assert ScanTokens(toks, 0, MirrorStack(st)) == ScanTokens(toks, 2, MirrorStack(st));
      } else {
        BackAdvanceMirrors(st, line[i]);
        match BackAdvance(st, line[i])
        case Continue(st') =>
          ScanBackIsTokens(line, i - 1, st');
          ScanBehind([BackToken(line[i])], BackTokens(line, i - 1), MirrorStack(st'));
        case _ =>
      }
    }
  }

  /** The scan that stands at flat position n and the line-by-line result say the same. */
  predicate SameStartBack(lines: seq<string>, n: int, flat: Scan, r: Option<(nat, nat)>) {
    match r
    case Some((l, p)) => l < |lines| && flat.Found? && Pos(lines, l, p) == n + 1 - flat.pos
    case None => !flat.Found?
  }

  lemma ScanFirst(first: seq<Token>, rest: seq<Token>, st: string)
    requires st != ""
    ensures var r := ScanTokens(first, 0, st);
            && (r.Pending? ==> r.stack != "")
            && ScanTokens(first + rest, 0, st) == if r.Pending? then Later(ScanTokens(rest, 0, r.stack), |first|) else r
  {
    ScanKeepsStack(first, 0, st);
    assert (first + rest)[0..0 + |first|] == first;
    ScanPiece(first + rest, 0, first, 0, st);
    match ScanTokens(first, 0, st)
    case Pending(st') => ScanBehind(first, rest, st');
    case _ =>
  }

  lemma {:induction false} OpenFromIsTokens(lines: seq<string>, l: nat, i: int, st: string)
    requires l < |lines| && -1 <= i < |lines[l]| && st != ""
    ensures SameStartBack(lines, Offset(lines, l) + i, ScanTokens(BackFlat(lines, l, i), 0, MirrorStack(st)),
                          OpenFrom(lines, l, i, st))
    decreases l
  {
    var r := ScanBack(lines[l], i, st);
    FlatScanBack(lines, l, i, st);
    if r.Pending? && l > 0 {
      OpenFromIsTokens(lines, l - 1, |lines[l - 1]| - 1, r.stack);
    }
  }

  /** The flat scan, taken up on the line above. */
  lemma FlatScanBack(lines: seq<string>, l: nat, i: int, st: string)
    requires l < |lines| && -1 <= i < |lines[l]| && st != ""
    ensures var r := ScanBack(lines[l], i, st);
            && (r.Pending? ==> r.stack != "")
            && ScanTokens(BackFlat(lines, l, i), 0, MirrorStack(st)) ==
               if r.Pending? then Later(ScanTokens(BackAbove(lines, l), 0, MirrorStack(r.stack)), i + 1) else MirrorScan(r, i)
  {
    ScanBackIsTokens(lines[l], i, st);
    ScanFirst(BackTokens(lines[l], i), BackAbove(lines, l), MirrorStack(st));
  }

  // ----- the theorem -----

  /** The first step only pushes the `>`. */
  lemma BackAngleStarts(lines: seq<string>, m: nat, q: nat)
    requires ValidAt(lines, m, q) && lines[m][q] == '>' && !SkipsGreater(lines[m], q)
    ensures OpenOf(lines, m, q) == OpenFrom(lines, m, q - 1, ">")
  {
    assert "" + ">" == ">";
  }

  /**
   A pushed `>` is reported to start at p on line l exactly when the `<` there closes the list in the
   mirrored text that begins just left of the `>`.
   */
  lemma OpenFindsAngle(lines: seq<string>, m: nat, q: nat, l: nat, p: nat)
    requires ValidAt(lines, m, q) && lines[m][q] == '>' && !SkipsGreater(lines[m], q)
    ensures OpenOf(lines, m, q) == Some((l, p)) <==>
            && ValidAt(lines, l, p)
            && Pos(lines, l, p) < Pos(lines, m, q)
            && ClosesAngle(BackFlat(lines, m, q - 1), Mirror(Before(lines, m, q - 1)), 0,
                           Pos(lines, m, q) - 1 - Pos(lines, l, p))
  {
    var toks, n := BackFlat(lines, m, q - 1), Pos(lines, m, q) - 1;
    BackScan(lines, m, q);
    if ValidAt(lines, l, p) && Pos(lines, l, p) <= n {
      ScanFromStart(toks, Mirror(Before(lines, m, q - 1)), n + 1 - Pos(lines, l, p));
      SameStartIff(lines, n, ScanTokens(toks, 0, Angles(1)), OpenOf(lines, m, q), l, p);
    }
  }

  lemma BackScan(lines: seq<string>, m: nat, q: nat)
    requires ValidAt(lines, m, q) && lines[m][q] == '>' && !SkipsGreater(lines[m], q)
    ensures Shows(BackFlat(lines, m, q - 1), Mirror(Before(lines, m, q - 1)))
    ensures SameStartBack(lines, Pos(lines, m, q) - 1, ScanTokens(BackFlat(lines, m, q - 1), 0, Angles(1)), OpenOf(lines, m, q))
  {
    BackAngleStarts(lines, m, q);
    OpenFromIsTokens(lines, m, q - 1, ">");
    assert MirrorStack(">") == Angles(1);
    BackFlatIsTrue(lines, m, q - 1);
  }

  lemma ScanFromStart(toks: seq<Token>, s: string, e: nat)
    requires Shows(toks, s)
    ensures ScanTokens(toks, 0, Angles(1)) == Found(e) <==> 0 < e && ClosesAngle(toks, s, 0, e - 1)
  {
    AngleFromStart(toks, s, 0, e);
    assert Angles(1) == "<";
  }

  lemma SameStartIff(lines: seq<string>, n: int, flat: Scan, r: Option<(nat, nat)>, l: nat, p: nat)
    requires SameStartBack(lines, n, flat, r) && ValidAt(lines, l, p) && Pos(lines, l, p) <= n
    requires r.Some? ==> ValidAt(lines, r.value.0, r.value.1)
    ensures r == Some((l, p)) <==> flat == Found(n + 1 - Pos(lines, l, p))
  {
    if flat == Found(n + 1 - Pos(lines, l, p)) {
      PositionsAreDistinct(lines, l, p, r.value.0, r.value.1);
    }
  }

  // ----- a `>` that is skipped -----

  /** What a backward scan with an empty stack does not pass over. */
  predicate WeighsBack(c: char) {
    IsBracket(c) || c == '>' || c == ';'
  }

  /** From i down, stepping over doubles, the first place with such a character. */
  function LastWeight(line: string, i: int): (r: Option<nat>)
    requires -1 <= i < |line|
    ensures r.Some? ==> r.value <= i && WeighsBack(line[r.value]) && !StepsOverTwo(line, r.value)
    decreases i + 1
  {
    if i == -1 then None
    else if StepsOverTwo(line, i) then LastWeight(line, i - 2)
    else if WeighsBack(line[i]) then Some(i)
    else LastWeight(line, i - 1)
  }

  predicate OpensBack(c: char) {
    IsCloser(c) || c == '>'
  }

  /** With an empty stack the scan starts afresh at that place, or ends on this line. */
  lemma {:induction false} EmptyStackSkipsBack(lines: seq<string>, l: nat, i: int)
    requires l < |lines| && -1 <= i < |lines[l]|
    ensures OpenFrom(lines, l, i, "") ==
            match LastWeight(lines[l], i)
            case None => None
            case Some(k) => if OpensBack(lines[l][k]) then OpenFrom(lines, l, k, "") else None
    decreases i + 1
  {
    if i >= 0 {
      ScanBackStep(lines[l], i, "");
      if StepsOverTwo(lines[l], i) {
        EmptyStackSkipsBack(lines, l, i - 2);
      } else if !WeighsBack(lines[l][i]) {
        EmptyStackSkipsBack(lines, l, i - 1);
      }
    }
  }

  /**
   The match of any `>` is that of the first closer or counted `>` that a scan with an empty stack
   comes to from there on, on the line, if no opener and no semicolon comes before.  For a counted
   `>` this is the `>` itself; one that is skipped is passed over.
   */
  lemma SkippedGreaterPassesOver(lines: seq<string>, m: nat, q: nat)
    requires ValidAt(lines, m, q) && lines[m][q] == '>'
    ensures OpenOf(lines, m, q) ==
            match LastWeight(lines[m], q)
            case None => None
            case Some(k) => if OpensBack(lines[m][k]) then OpenOf(lines, m, k) else None
    ensures !SkipsGreater(lines[m], q) ==> LastWeight(lines[m], q) == Some(q)
    ensures SkipsGreater(lines[m], q) ==> LastWeight(lines[m], q) == LastWeight(lines[m], q - 2)
  {
    EmptyStackSkipsBack(lines, m, q);
  }

  /** So a reported start is a `<`, its list holds balanced brackets, and no semicolon outside them. */
  lemma BackwardTemplateMatchIsSound(lines: seq<string>, m: nat, q: nat)
    requires ValidAt(lines, m, q) && lines[m][q] == '>' && !SkipsGreater(lines[m], q)
    requires OpenOf(lines, m, q).Some?
    ensures var (l, p) := OpenOf(lines, m, q).value;
            && ValidAt(lines, l, p)
            && lines[l][p] == '<'
            && Pos(lines, l, p) < Pos(lines, m, q) < |Flatten(lines)|
            && Balanced(Flatten(lines)[Pos(lines, l, p) + 1..Pos(lines, m, q)])
            && (forall j | Pos(lines, l, p) < j < Pos(lines, m, q) && Balanced(Flatten(lines)[j + 1..Pos(lines, m, q)]) ::
                  Flatten(lines)[j] != ';')
  {
    var (l, p) := OpenOf(lines, m, q).value;
    OpenFindsAngle(lines, m, q, l, p);
    BeforeIsPrefix(lines, m, q - 1);
    BackFlatIsTrue(lines, m, q - 1);
    assert |Before(lines, m, q - 1)| == Pos(lines, m, q);
    MirroredListIsSound(BackFlat(lines, m, q - 1), Before(lines, m, q - 1), Flatten(lines), Pos(lines, l, p));
    FlatTokenAt(lines, m, q);
    FlatTokenAt(lines, l, p);
  }

  /** The same in flat positions: the list that closes at a in the mirror image of text. */
  lemma MirroredListIsSound(toks: seq<Token>, text: string, flat: string, a: nat)
    requires text <= flat && a < |text| && TrueTo(toks, Mirror(text)) && ClosesAngle(toks, Mirror(text), 0, |text| - 1 - a)
    ensures flat[a] == '<' && Balanced(flat[a + 1..|text|])
    ensures forall j | a < j < |text| && Balanced(flat[j + 1..|text|]) :: flat[j] != ';'
  {
    assert Mirror(text)[|text| - 1 - a] == MirrorChar(text[a]);
    OutsideIsMirrored(text, flat, a);
    forall j | a < j < |text| && Balanced(flat[j + 1..|text|]) ensures flat[j] != ';' {
      OutsideIsMirrored(text, flat, j);
      assert Mirror(text)[|text| - 1 - j] == MirrorChar(text[j]);
    }
  }

  /** A place outside the brackets of the mirrored text has a balanced text behind it. */
  lemma OutsideIsMirrored(text: string, flat: string, j: nat)
    requires j < |text| <= |flat| && flat[..|text|] == text
    ensures Outside(Mirror(text), 0, |text| - 1 - j) <==> Balanced(flat[j + 1..|text|])
  {
    assert flat[j + 1..|text|] == text[j + 1..|text|];
    MirrorSlice(text, j + 1, |text|);
    MirrorBalanced(text[j + 1..|text|]);
  }
}
