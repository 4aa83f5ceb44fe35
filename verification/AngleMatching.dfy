/**
 What the forward matcher computes for a template argument list.

 A `<` that is pushed is closed exactly by the `>` that an independent reading of the text gives:
 only what stands outside all brackets counts; there the pending `<` go up by one for a `<`, down by
 one for a `>` and down by one for the second half of a `<<`, never fall below the first one, and
 no semicolon stands there.
 */
module AngleMatching {
  import opened Wrappers
  import opened Brackets
  import opened Characters
  import opened ExpressionMatcher
  import opened BracketMatching
  import opened FlatText

  function Delta(t: Token): int {
    match t
    case Less => 1
    case Greater => -1
    case ShiftLess => -1
    case _ => 0
  }

  /** Position j, read from a on, stands outside all brackets. */
  ghost predicate Outside(s: string, a: nat, j: nat) {
    a <= j <= |s| && Balanced(s[a..j])
  }

  /** Net pending angles between a and j, counting only what stands outside all brackets. */
  ghost function Net(toks: seq<Token>, s: string, a: nat, j: nat): int
    requires |toks| == |s| && a <= j <= |s|
  {
    if j == a then 0
    else Net(toks, s, a, j - 1) + if Outside(s, a, j - 1) then Delta(toks[j - 1]) else 0
  }

  /** Up to i the list that starts at a is still open, and i stands outside all brackets. */
  ghost predicate OpenUpTo(toks: seq<Token>, s: string, a: nat, i: nat) {
    && |toks| == |s|
    && Outside(s, a, i)
    && (forall j | a <= j <= i :: Net(toks, s, a, j) >= 0)
    && (forall j | a <= j < i && Outside(s, a, j) :: toks[j] != Semicolon)
  }

  /** The `>` at q closes the argument list whose text starts at a. */
  ghost predicate ClosesAngle(toks: seq<Token>, s: string, a: nat, q: nat) {
    q < |s| && OpenUpTo(toks, s, a, q) && Net(toks, s, a, q) == 0 && toks[q] == Greater
  }

  // ----- more on balanced text -----

  lemma BalancedSuffix(x: string, y: string)
    requires Balanced(x) && Balanced(x + y)
    ensures Balanced(y)
  {
    var w := x + y + ")";
    assert w[0..|x|] == x && w[0..|x + y|] == x + y;
    ForwardOver(w, 0, |x|, "(");
    ForwardOver(w, 0, |x + y|, "(");
    assert Forward(w, |x + y|, "(") == Found(|w|);
    var q := ForwardSplits(w, |x|, "(");
    assert w[|x|..|x + y|] == y;
  }

  lemma {:induction false} BalancedStartsWithPair(w: string) returns (k: nat)
    requires Balanced(w) && w != "" && IsBracket(w[0])
    ensures Encloses(w, 0, k)
  {
    var t :| Derives(t, w);
    match t
    case Nested(o, inner, c, rest) =>
      k := 1 + |inner.Yield()|;
      assert w[1..k] == inner.Yield();
      assert Derives(inner, w[1..k]);
    case _ =>
  }

  /** Between a bracket outside all others and its partner, nothing is outside. */
  lemma InsideIsNotOutside(s: string, a: nat, i: nat, q: nat, j: nat)
    requires Outside(s, a, i) && Encloses(s, i, q) && i < j <= q
    ensures !Outside(s, a, j)
  {
    if Outside(s, a, j) {
      var k := BracketClosesBy(s, a, i, j);
      PartnerIsUnique(s, i, i, q, k);
    }
  }

  /** A bracket outside all others is an opener whose partner comes before the next outside place. */
  lemma BracketClosesBy(s: string, a: nat, i: nat, j: nat) returns (k: nat)
    requires Outside(s, a, i) && Outside(s, a, j) && i < j && IsBracket(s[i])
    ensures Encloses(s, i, k) && k < j
  {
    BalancedBetween(s, a, i, j);
    var d := BalancedStartsWithPair(s[i..j]);
    PairInSlice(s, i, j, d);
    k := i + d;
  }

  lemma BalancedBetween(s: string, a: nat, i: nat, j: nat)
    requires Outside(s, a, i) && Outside(s, a, j) && i <= j
    ensures Balanced(s[i..j])
  {
    assert s[a..j] == s[a..i] + s[i..j];
    BalancedSuffix(s[a..i], s[i..j]);
  }

  lemma PairInSlice(s: string, i: nat, j: nat, d: nat)
    requires i <= j <= |s| && Encloses(s[i..j], 0, d)
    ensures i + d < j && Encloses(s, i, i + d)
  {
    var w := s[i..j];
    assert forall x | 1 <= x < d :: w[x] == s[i + x];
    assert w[0 + 1..d] == s[i + 1..i + d];
  }

  lemma OutsideAfterPair(s: string, a: nat, i: nat, q: nat)
    requires Outside(s, a, i) && Encloses(s, i, q)
    ensures Outside(s, a, q + 1)
  {
    BalancedBeforePair(s, a, i, q);
  }

  lemma OutsideAfterPlain(s: string, a: nat, i: nat)
    requires Outside(s, a, i) && i < |s| && !IsBracket(s[i])
    ensures Outside(s, a, i + 1)
  {
    BalancedBeforePlain(s, a, i);
  }

  lemma {:induction false} NetThroughPair(toks: seq<Token>, s: string, a: nat, i: nat, q: nat, j: nat)
    requires Shows(toks, s) && Outside(s, a, i) && Encloses(s, i, q) && i <= j <= q + 1
    ensures Net(toks, s, a, j) == Net(toks, s, a, i)
  {
    if i < j {
      NetThroughPair(toks, s, a, i, q, j - 1);
      if i < j - 1 {
        InsideIsNotOutside(s, a, i, q, j - 1);
      }
    }
  }

  lemma OpenThroughPair(toks: seq<Token>, s: string, a: nat, i: nat, q: nat)
    requires Shows(toks, s) && OpenUpTo(toks, s, a, i) && Encloses(s, i, q)
    ensures OpenUpTo(toks, s, a, q + 1) && Net(toks, s, a, q + 1) == Net(toks, s, a, i)
  {
    OutsideAfterPair(s, a, i, q);
    NetThroughPair(toks, s, a, i, q, q + 1);
    forall j | i <= j <= q + 1 ensures Net(toks, s, a, j) >= 0 {
      NetThroughPair(toks, s, a, i, q, j);
    }
    forall j | i < j <= q ensures !Outside(s, a, j) {
      InsideIsNotOutside(s, a, i, q, j);
    }
  }

  // ----- the machine below an opener -----

  /** What lies under a bracket on the stack plays no part until that bracket is closed. */
  lemma {:induction false} BaseIsInert(toks: seq<Token>, i: nat, base: string, st: string)
    requires base != "" && st != "" && st[0] != '<'
    ensures ScanTokens(toks, i, base + st) ==
            match ScanTokens(toks, i, st)
            case Found(e) => ScanTokens(toks, e, base)
            case Broken => Broken
            case Pending(st') => Pending(base + st')
    decreases |toks| - i
  {
    if i < |toks| {
      AdvanceAbove(base, st, toks[i]);
      match Advance(st, toks[i])
      case Continue(st') => BaseIsInert(toks, i + 1, base, st');
      case _ =>
    }
  }

  lemma {:induction false} DropAbove(base: string, st: string)
    requires st != "" && st[0] != '<'
    ensures DropTop(base + st, '<') == base + DropTop(st, '<')
    ensures DropTop(st, '<') != "" && DropTop(st, '<')[0] == st[0]
  {
    assert (base + st)[..|base + st| - 1] == base + Pop(st);
    if |st| > 1 {
      DropAbove(base, Pop(st));
    }
  }

  lemma AdvanceAbove(base: string, st: string, tok: Token)
    requires base != "" && st != "" && st[0] != '<'
    ensures Advance(base + st, tok) ==
            match Advance(st, tok)
            case Continue(st') => Continue(base + st')
            case Fail => Fail
            case Close => Continue(base)
    ensures Advance(st, tok).Continue? ==> Advance(st, tok).stack != "" && Advance(st, tok).stack[0] == st[0]
  {
    DropAbove(base, st);
    var d := DropTop(st, '<');
    assert (base + d)[..|base + d| - 1] == base + Pop(d);
    assert (base + st)[..|base + st| - 1] == base + Pop(st);
    assert forall c: char :: base + st + [c] == base + (st + [c]);
    assert base + st + "<" == base + (st + "<");
  }

  // ----- the theorem -----

  function Angles(n: nat): string {
    seq(n, _ => '<')
  }

  lemma {:induction false} DropAllAngles(n: nat)
    ensures DropTop(Angles(n), '<') == ""
  {
    if n > 0 {
      assert Pop(Angles(n)) == Angles(n - 1);
      DropAllAngles(n - 1);
    }
  }

  /** From any place outside all brackets the machine finds exactly the closing `>`. */
  lemma {:induction false} AngleFromOutside(toks: seq<Token>, s: string, a: nat, i: nat, e: nat)
    requires Shows(toks, s) && OpenUpTo(toks, s, a, i)
    ensures ScanTokens(toks, i, Angles(1 + Net(toks, s, a, i))) == Found(e) <==>
            i < e && ClosesAngle(toks, s, a, e - 1)
    decreases |s| - i
  {
    var n := 1 + Net(toks, s, a, i);
    var r := ScanTokens(toks, i, Angles(n));
    if i == |s| {
    } else if IsBracket(s[i]) {
      AngleAtBracket(toks, s, a, i, e);
    } else {
      OutsideAfterPlain(s, a, i);
      var n' := n + Delta(toks[i]);
      assert n' == 1 + Net(toks, s, a, i + 1);
      DropAllAngles(n);
      assert Angles(n) + "<" == Angles(n + 1);
      assert Pop(Angles(n)) == Angles(n - 1);
      if toks[i] == Semicolon || n' == 0 {
        assert r == if toks[i] == Greater then Found(i + 1) else Broken;
      } else {
        assert r == ScanTokens(toks, i + 1, Angles(n'));
        AngleFromOutside(toks, s, a, i + 1, e);
      }
    }
  }

  lemma CloserBreaks(toks: seq<Token>, s: string, i: nat, n: nat)
    requires Shows(toks, s) && i < |s| && IsCloser(s[i])
    ensures ScanTokens(toks, i, Angles(n)) == Broken
  {
    DropAllAngles(n);
    assert toks[i] == Bracket(s[i]);
  }

  lemma {:induction false} AngleAtBracket(toks: seq<Token>, s: string, a: nat, i: nat, e: nat)
    requires Shows(toks, s) && OpenUpTo(toks, s, a, i) && i < |s| && IsBracket(s[i])
    ensures ScanTokens(toks, i, Angles(1 + Net(toks, s, a, i))) == Found(e) <==>
            i < e && ClosesAngle(toks, s, a, e - 1)
    decreases |s| - i, 0
  {
    var base := Angles(1 + Net(toks, s, a, i));
    if IsCloser(s[i]) {
      CloserBreaks(toks, s, i, |base|);
      NoAngleFromBracket(toks, s, a, i, e);
    } else {
      ScanOverOpener(toks, s, i, base);
      NoAngleFromBracket(toks, s, a, i, e);
      var f := Forward(s, i + 1, [s[i]]);
      if f.Found? {
        ForwardFindsPartner(s, i, f.pos);
        OpenThroughPair(toks, s, a, i, f.pos - 1);
        AngleFromOutside(toks, s, a, f.pos, e);
      }
    }
  }

  /** With a bracket at i outside all others, the closing `>` can only come behind its partner. */
  lemma NoAngleFromBracket(toks: seq<Token>, s: string, a: nat, i: nat, e: nat)
    requires Shows(toks, s) && OpenUpTo(toks, s, a, i) && i < |s| && IsBracket(s[i])
    ensures i < e && ClosesAngle(toks, s, a, e - 1) ==>
            IsOpener(s[i]) && Forward(s, i + 1, [s[i]]).Found? && Forward(s, i + 1, [s[i]]).pos < e
  {
    if i < e && ClosesAngle(toks, s, a, e - 1) {
      assert toks[i] == Bracket(s[i]);
      var k := BracketClosesBy(s, a, i, e - 1);
      ForwardFindsPartner(s, i, k + 1);
    }
  }

  /** From an opener the machine goes on behind its partner, or fails for want of one. */
  lemma ScanOverOpener(toks: seq<Token>, s: string, i: nat, base: string)
    requires Shows(toks, s) && i < |s| && IsOpener(s[i]) && base != ""
    ensures var f := Forward(s, i + 1, [s[i]]);
            if f.Found? then ScanTokens(toks, i, base) == ScanTokens(toks, f.pos, base)
            else !ScanTokens(toks, i, base).Found?
  {
    BaseIsInert(toks, i + 1, base, [s[i]]);
    PushOne("", '<', s[i]);
    ForwardIgnoresAngles(toks, s, i + 1, [s[i]]);
  }

  /** The first step only pushes the `<`. */
  lemma LessPushes(lines: seq<string>, l: nat, p: nat)
    requires ValidAt(lines, l, p) && TokenAt(lines[l], p) == Less
    ensures lines[l][p] == '<' && CloseFrom(lines, l, p, "") == CloseFrom(lines, l, p + 1, "<")
  {
    assert "" + "<" == "<";
    CloseFromOne(lines, l, p, "", "<");
  }

  /** A scan from a pushed `<` ends at e on line m exactly when the `>` before e closes the list. */
  lemma LessFindsAngle(lines: seq<string>, l: nat, p: nat, m: nat, e: nat)
    requires ValidAt(lines, l, p) && TokenAt(lines[l], p) == Less
    ensures CloseFrom(lines, l, p, "") == Some((m, e)) <==>
            && e > 0
            && ValidAt(lines, m, e - 1)
            && ClosesAngle(FlatTokens(lines), Flatten(lines), Pos(lines, l, p) + 1, Pos(lines, m, e - 1))
  {
    LessPushes(lines, l, p);
    if e > 0 && ValidAt(lines, m, e - 1) {
      AngleScan(lines, l, p, Pos(lines, m, e));
      SameEndIff(lines, ScanTokens(FlatTokens(lines), Pos(lines, l, p) + 1, "<"), CloseFrom(lines, l, p + 1, "<"), m, e);
    }
  }

  /**
   A `<` that starts an argument list is reported to end at e on line m exactly when the character
   before e is the `>` that closes the list.
   */
  lemma CloseFindsAngle(lines: seq<string>, l: nat, p: nat, m: nat, e: nat)
    requires ValidAt(lines, l, p) && TokenAt(lines[l], p) == Less && !ShiftOrLessEqual(lines[l], p)
    ensures CloseOf(lines, l, p) == Some((m, e)) <==>
            && e > 0
            && ValidAt(lines, m, e - 1)
            && ClosesAngle(FlatTokens(lines), Flatten(lines), Pos(lines, l, p) + 1, Pos(lines, m, e - 1))
  {
    LessPushes(lines, l, p);
    LessFindsAngle(lines, l, p, m, e);
  }

  /** In flat positions. */
  lemma AngleScan(lines: seq<string>, l: nat, p: nat, e: nat)
    requires ValidAt(lines, l, p) && TokenAt(lines[l], p) == Less
    ensures var scan := ScanTokens(FlatTokens(lines), Pos(lines, l, p) + 1, "<");
            && SameEnd(lines, scan, CloseFrom(lines, l, p + 1, "<"))
            && (scan == Found(e) <==>
                  Pos(lines, l, p) + 1 < e && ClosesAngle(FlatTokens(lines), Flatten(lines), Pos(lines, l, p) + 1, e - 1))
  {
    FlatTokenAt(lines, l, p);
    FlatTokensShow(lines);
    CloseFromIsFlat(lines, l, p + 1, "<");
    AngleFromStart(FlatTokens(lines), Flatten(lines), Pos(lines, l, p) + 1, e);
  }

  /** The list that starts at a, with the `<` before it on the stack. */
  lemma AngleFromStart(toks: seq<Token>, s: string, a: nat, e: nat)
    requires Shows(toks, s) && a <= |s|
    ensures ScanTokens(toks, a, "<") == Found(e) <==> a < e && ClosesAngle(toks, s, a, e - 1)
  {
    BalancedEmpty();
    assert s[a..a] == "";
    assert Angles(1) == "<";
    AngleFromOutside(toks, s, a, a, e);
  }

  /** So a reported argument list ends on a `>`, holds balanced brackets, and no semicolon outside them. */
  lemma TemplateMatchIsSound(lines: seq<string>, l: nat, p: nat)
    requires ValidAt(lines, l, p) && TokenAt(lines[l], p) == Less && !ShiftOrLessEqual(lines[l], p)
    requires CloseOf(lines, l, p).Some?
    ensures var (m, e) := CloseOf(lines, l, p).value;
            && e > 0
            && ValidAt(lines, m, e - 1)
            && lines[m][e - 1] == '>'
            && Pos(lines, l, p) < Pos(lines, m, e - 1) < |Flatten(lines)|
            && Balanced(Flatten(lines)[Pos(lines, l, p) + 1..Pos(lines, m, e - 1)])
            && (forall j | Pos(lines, l, p) < j < Pos(lines, m, e - 1) && Outside(Flatten(lines), Pos(lines, l, p) + 1, j) ::
                  Flatten(lines)[j] != ';')
  {
    var (m, e) := CloseOf(lines, l, p).value;
    CloseFindsAngle(lines, l, p, m, e);
    FlatTokenAt(lines, m, e - 1);
    SemicolonsShow(lines);
  }

  lemma {:induction false} SemicolonsShow(lines: seq<string>)
    ensures |FlatTokens(lines)| == |Flatten(lines)|
    ensures forall j | 0 <= j < |Flatten(lines)| :: Flatten(lines)[j] == ';' <==> FlatTokens(lines)[j] == Semicolon
  {
    if lines != [] {
      var front := lines[..|lines| - 1];
      SemicolonsShow(front);
      assert TokenLines(lines)[..|front|] == TokenLines(front);
    }
  }

  // ----- a `<` that is not pushed -----

  /** What a scan with an empty stack does not pass over. */
  predicate Weighs(t: Token) {
    t.Bracket? || t == Less || t == Semicolon
  }

  /** The first place from i on with such a token. */
  function FirstWeight(line: string, i: nat): (r: Option<nat>)
    requires i <= |line|
    ensures r.Some? ==> i <= r.value < |line| && Weighs(TokenAt(line, r.value))
    ensures forall j | i <= j < |line| && (r.Some? ==> j < r.value) :: !Weighs(TokenAt(line, j))
    decreases |line| - i
  {
    if i == |line| then None else if Weighs(TokenAt(line, i)) then Some(i) else FirstWeight(line, i + 1)
  }

  predicate Opens(t: Token) {
    t == Less || (t.Bracket? && IsOpener(t.c))
  }

  /** With an empty stack the scan starts afresh at the first such place, or ends on this line. */
  lemma {:induction false} EmptyStackSkips(lines: seq<string>, l: nat, i: nat)
    requires l < |lines| && i <= |lines[l]|
    ensures CloseFrom(lines, l, i, "") ==
            match FirstWeight(lines[l], i)
            case None => None
            case Some(q) => if Opens(TokenAt(lines[l], q)) then CloseFrom(lines, l, q, "") else None
    decreases |lines[l]| - i
  {
    var line := lines[l];
    if i < |line| {
      assert Tokens(line)[i] == TokenAt(line, i);
      if !Weighs(TokenAt(line, i)) {
        CloseFromOne(lines, l, i, "", "");
        EmptyStackSkips(lines, l, i + 1);
      }
    }
  }

  /**
   A `<` that is not pushed, such as the second half of a shift, is passed over: the match is that of
   the first opener or pushed `<` behind it on the line, if no closer and no semicolon comes before.
   */
  lemma UnpushedLessPassesOver(lines: seq<string>, l: nat, p: nat)
    requires ValidAt(lines, l, p) && lines[l][p] == '<'
    requires TokenAt(lines[l], p) != Less && !ShiftOrLessEqual(lines[l], p)
    ensures CloseOf(lines, l, p) ==
            match FirstWeight(lines[l], p + 1)
            case None => None
            case Some(q) => if Opens(TokenAt(lines[l], q)) then CloseFrom(lines, l, q, "") else None
  {
    CloseFromOne(lines, l, p, "", "");
    EmptyStackSkips(lines, l, p + 1);
  }

  lemma LessEndsOnGreater(lines: seq<string>, l: nat, q: nat)
    requires ValidAt(lines, l, q) && TokenAt(lines[l], q) == Less && CloseFrom(lines, l, q, "").Some?
    ensures var (m, e) := CloseFrom(lines, l, q, "").value;
            e > 0 && ValidAt(lines, m, e - 1) && lines[m][e - 1] == '>'
  {
    var (m, e) := CloseFrom(lines, l, q, "").value;
    LessFindsAngle(lines, l, q, m, e);
    FlatTokenAt(lines, m, e - 1);
  }

  lemma OpenerEndsOnCloser(lines: seq<string>, l: nat, q: nat)
    requires ValidAt(lines, l, q) && IsOpener(lines[l][q]) && CloseFrom(lines, l, q, "").Some?
    ensures CloseFrom(lines, l, q, "") == CloseOf(lines, l, q)
    ensures var (m, e) := CloseFrom(lines, l, q, "").value;
            e > 0 && ValidAt(lines, m, e - 1) && Matches(lines[l][q], lines[m][e - 1])
  {
    OpenerIsNoShift(lines[l], q);
    CloseEndsOnCloser(lines, l, q);
  }

  /** So what it reports is a `>` if that place holds a pushed `<`, and a real bracket otherwise. */
  lemma UnpushedLessEnds(lines: seq<string>, l: nat, p: nat)
    requires ValidAt(lines, l, p) && lines[l][p] == '<'
    requires TokenAt(lines[l], p) != Less && !ShiftOrLessEqual(lines[l], p)
    requires CloseOf(lines, l, p).Some?
    ensures var (m, e), q := CloseOf(lines, l, p).value, FirstWeight(lines[l], p + 1);
            && e > 0 && ValidAt(lines, m, e - 1)
            && q.Some?
            && (TokenAt(lines[l], q.value) == Less ==> lines[m][e - 1] == '>')
            && (TokenAt(lines[l], q.value) != Less ==>
                  Matches(lines[l][q.value], lines[m][e - 1]) && CloseOf(lines, l, p) == CloseOf(lines, l, q.value))
  {
    UnpushedLessPassesOver(lines, l, p);
    FreshScanEnds(lines, l, FirstWeight(lines[l], p + 1).value);
  }

  lemma FreshScanEnds(lines: seq<string>, l: nat, q: nat)
    requires ValidAt(lines, l, q) && Opens(TokenAt(lines[l], q)) && CloseFrom(lines, l, q, "").Some?
    ensures var (m, e) := CloseFrom(lines, l, q, "").value;
            && e > 0 && ValidAt(lines, m, e - 1)
            && (TokenAt(lines[l], q) == Less ==> lines[m][e - 1] == '>')
            && (TokenAt(lines[l], q) != Less ==>
                  Matches(lines[l][q], lines[m][e - 1]) && CloseFrom(lines, l, q, "") == CloseOf(lines, l, q))
  {
    if TokenAt(lines[l], q) == Less {
      LessEndsOnGreater(lines, l, q);
    } else {
      OpenerEndsOnCloser(lines, l, q);
    }
  }

  // ----- where the laws for real brackets stop -----

  /** An instance: from the second half of this shift the match is that of the parentheses. */
  lemma UnpushedLessMatchesABracket()
    ensures CloseOf(["a<<(b)"], 0, 2) == Some((0, 6))
  {
    var line := "a<<(b)";
    assert !HasAt(line, 2, "<<") && !HasAt(line, 2, "<=") by {
      assert line[2..4] == "<(";
    }
    assert TokenAt(line, 2) == ShiftLess && TokenAt(line, 3) == Bracket('(');
    UnpushedLessPassesOver([line], 0, 2);
    assert FirstWeight(line, 3) == Some(3);
    var toks := Tokens(line);
    assert toks[3] == Bracket('(') && toks[4] == Other && toks[5] == Bracket(')');
    assert ScanTokens(toks, 5, "(") == Found(6);
    assert ScanTokens(toks, 4, "(") == Found(6);
    assert "" + ['('] == "(";
  }
}
