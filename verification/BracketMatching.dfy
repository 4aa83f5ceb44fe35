/**
 What the expression matchers compute for ( [ { and their closers.

 The angle heuristics never change the answer: forward and backward, over any number of lines, the
 matchers find exactly the partner that the grammar of balanced words gives in the flattened text.
 So each undoes the other.
 */
module BracketMatching {
  import opened Wrappers
  import opened Brackets
  import opened ExpressionMatcher
  import opened FlatText

  function Pos(lines: seq<string>, l: nat, p: nat): nat
    requires l < |lines|
  {
    Offset(lines, l) + p
  }

  // ----- the forward machine over the flattened tokens -----

  function TokenLines(lines: seq<string>): seq<seq<Token>> {
    seq(|lines|, l requires 0 <= l < |lines| => Tokens(lines[l]))
  }

  function FlatTokens(lines: seq<string>): seq<Token> {
    Flatten(TokenLines(lines))
  }

  lemma {:induction false} TokenOffset(lines: seq<string>, l: nat)
    requires l <= |lines|
    ensures Offset(TokenLines(lines), l) == Offset(lines, l)
  {
    if l > 0 {
      TokenOffset(lines, l - 1);
    }
  }

  lemma FlatTokenAt(lines: seq<string>, l: nat, p: nat)
    requires ValidAt(lines, l, p)
    ensures Pos(lines, l, p) < |FlatTokens(lines)| == |Flatten(lines)|
    ensures FlatTokens(lines)[Pos(lines, l, p)] == TokenAt(lines[l], p)
    ensures Flatten(lines)[Pos(lines, l, p)] == lines[l][p]
  {
    TokenOffset(lines, l);
    TokenOffset(lines, |lines|);
    FlattenLength(lines);
    FlattenLength(TokenLines(lines));
    PlaceInFlat(lines, l, p);
    PlaceInFlat(TokenLines(lines), l, p);
  }

  lemma PlaceInFlat<T>(lines: seq<seq<T>>, l: nat, p: nat)
    requires l < |lines| && p < |lines[l]|
    ensures Offset(lines, l) + p < |Flatten(lines)| && Flatten(lines)[Offset(lines, l) + p] == lines[l][p]
  {
    LineInFlat(lines, l);
    SliceAt(Flatten(lines), Offset(lines, l), |lines[l]|, p);
  }

  lemma SliceAt<T>(s: seq<T>, o: nat, n: nat, p: nat)
    requires p < n && o + n <= |s|
    ensures s[o..o + n][p] == s[o + p]
  {
  }

  /** Scanning inside a piece of the stream is scanning the piece, then going on behind it. */
  lemma {:induction false} ScanPiece(flat: seq<Token>, k: nat, piece: seq<Token>, i: nat, st: string)
    requires i <= |piece| && k + |piece| <= |flat| && flat[k..k + |piece|] == piece
    ensures ScanTokens(flat, k + i, st) ==
            match ScanTokens(piece, i, st)
            case Found(e) => Found(k + e)
            case Broken => Broken
            case Pending(st') => ScanTokens(flat, k + |piece|, st')
    decreases |piece| - i
  {
    if i < |piece| {
      assert flat[k + i] == flat[k..k + |piece|][i];
      match Advance(st, piece[i])
      case Continue(st') => ScanPiece(flat, k, piece, i + 1, st');
      case _ =>
    }
  }

  /** A stack that holds something never becomes empty without a verdict. */
  lemma {:induction false} ScanKeepsStack(toks: seq<Token>, i: nat, st: string)
    requires st != ""
    ensures ScanTokens(toks, i, st).Pending? ==> ScanTokens(toks, i, st).stack != ""
    decreases |toks| - i
  {
    if i < |toks| {
      match Advance(st, toks[i])
      case Continue(st') => ScanKeepsStack(toks, i + 1, st');
      case _ =>
    }
  }

  lemma TokensInFlat(lines: seq<string>, l: nat)
    requires l < |lines|
    ensures Offset(lines, l + 1) == Offset(lines, l) + |lines[l]| <= |FlatTokens(lines)|
    ensures FlatTokens(lines)[Offset(lines, l)..Offset(lines, l + 1)] == Tokens(lines[l])
  {
    TokenOffset(lines, l);
    LineInFlat(TokenLines(lines), l);
    assert TokenLines(lines)[l] == Tokens(lines[l]);
  }

  lemma ScanLine(lines: seq<string>, l: nat, i: nat, st: string)
    requires l < |lines| && i <= |lines[l]|
    ensures ScanTokens(FlatTokens(lines), Pos(lines, l, i), st) ==
            match ScanTokens(Tokens(lines[l]), i, st)
            case Found(e) => Found(Pos(lines, l, e))
            case Broken => Broken
            case Pending(st') => ScanTokens(FlatTokens(lines), Offset(lines, l + 1), st')
  {
    TokensInFlat(lines, l);
    assert |Tokens(lines[l])| == |lines[l]|;
    ScanPiece(FlatTokens(lines), Offset(lines, l), Tokens(lines[l]), i, st);
  }

  lemma ScanAtEnd(lines: seq<string>, st: string)
    ensures ScanTokens(FlatTokens(lines), Offset(lines, |lines|), st) == Pending(st)
  {
    TokenOffset(lines, |lines|);
    FlattenLength(TokenLines(lines));
  }

  /** The flat scan and the line-by-line result say the same. */
  predicate SameEnd(lines: seq<string>, flat: Scan, r: Option<(nat, nat)>) {
    match r
    case Some((m, e)) => m < |lines| && flat == Found(Pos(lines, m, e))
    case None => !flat.Found?
  }

  lemma SameEndIff(lines: seq<string>, flat: Scan, r: Option<(nat, nat)>, m: nat, e: nat)
    requires SameEnd(lines, flat, r) && e > 0 && ValidAt(lines, m, e - 1)
    requires r.Some? ==> 0 < r.value.1 <= |lines[r.value.0]|
    ensures r == Some((m, e)) <==> flat == Found(Pos(lines, m, e))
  {
    if flat == Found(Pos(lines, m, e)) {
      PositionsAreDistinct(lines, m, e - 1, r.value.0, r.value.1 - 1);
    }
  }

  /** Line by line with a carried stack is one run over the flattened tokens. */
  lemma {:induction false} CloseFromIsFlat(lines: seq<string>, l: nat, i: nat, st: string)
    requires l < |lines| && i <= |lines[l]| && st != ""
    ensures SameEnd(lines, ScanTokens(FlatTokens(lines), Pos(lines, l, i), st), CloseFrom(lines, l, i, st))
    decreases |lines| - l
  {
    ScanLine(lines, l, i, st);
    ScanKeepsStack(Tokens(lines[l]), i, st);
    match ScanTokens(Tokens(lines[l]), i, st)
    case Found(e) =>
    case Broken =>
    case Pending(st') =>
      if l + 1 < |lines| {
        CloseFromIsFlat(lines, l + 1, 0, st');
        assert Pos(lines, l + 1, 0) == Offset(lines, l + 1);
      } else {
        ScanAtEnd(lines, st');
      }
  }

  // ----- angles do not matter to the brackets -----

  /** The stack without its pending angles. */
  function WithoutAngles(st: string, angle: char): string {
    if st == "" then ""
    else
      var rest := WithoutAngles(st[..|st| - 1], angle);
      var top := st[|st| - 1];
      if top == angle then rest else rest + [top]
  }

  lemma {:induction false} AnglesAbove(st: string, angle: char)
    requires st != "" && st[0] != angle
    ensures DropTop(st, angle) != "" && DropTop(st, angle)[0] == st[0]
    ensures WithoutAngles(DropTop(st, angle), angle) == WithoutAngles(st, angle) != ""
  {
    if |st| > 1 {
      AnglesAbove(Pop(st), angle);
    }
  }

  /** A bracket on top stays on top without the angles, and is the only one if it is alone. */
  lemma BracketOnTop(st: string, angle: char)
    requires st != "" && st[0] != angle && st[|st| - 1] != angle
    ensures WithoutAngles(st, angle) != "" && Pop(WithoutAngles(st, angle)) == WithoutAngles(Pop(st), angle)
    ensures WithoutAngles(st, angle)[|WithoutAngles(st, angle)| - 1] == st[|st| - 1]
    ensures |st| == 1 <==> |WithoutAngles(st, angle)| == 1
  {
    if |st| > 1 {
      AnglesAbove(Pop(st), angle);
    }
  }

  lemma PushOne(st: string, angle: char, c: char)
    ensures WithoutAngles(st + [c], angle) == WithoutAngles(st, angle) + if c == angle then "" else [c]
  {
    assert (st + [c])[..|st|] == st;
  }

  function Plain(r: Scan, angle: char): Scan {
    match r
    case Pending(st) => Pending(WithoutAngles(st, angle))
    case _ => r
  }

  /** The tokens of a text show its brackets as they are. */
  ghost predicate Shows(toks: seq<Token>, s: string) {
    && |toks| == |s|
    && forall j | 0 <= j < |s| :: if IsBracket(s[j]) then toks[j] == Bracket(s[j]) else !toks[j].Bracket?
  }

  lemma {:induction false} FlatTokensShow(lines: seq<string>)
    ensures Shows(FlatTokens(lines), Flatten(lines))
  {
    if lines != [] {
      var front := lines[..|lines| - 1];
      FlatTokensShow(front);
      assert TokenLines(lines)[..|front|] == TokenLines(front);
    }
  }

  /** One step of the plain scanner. */
  function PlainAdvance(w: string, c: char): Verdict
    requires w != ""
  {
    if IsOpener(c) then Continue(w + [c])
    else if !IsCloser(c) then Continue(w)
    else if !Matches(w[|w| - 1], c) then Fail
    else if |w| == 1 then Close
    else Continue(Pop(w))
  }

  predicate ShowsOne(tok: Token, c: char) {
    if IsBracket(c) then tok == Bracket(c) else !tok.Bracket?
  }

  /** One step of the token machine, seen without the pending angles. */
  lemma AdvancePlain(st: string, tok: Token, c: char)
    requires st != "" && st[0] != '<' && ShowsOne(tok, c)
    ensures var v, w := Advance(st, tok), WithoutAngles(st, '<');
            && w != ""
            && (v.Continue? ==> v.stack != "" && v.stack[0] == st[0])
            && PlainAdvance(w, c) == if v.Continue? then Continue(WithoutAngles(v.stack, '<')) else v
  {
    AnglesAbove(st, '<');
    match tok
    case Bracket(c) =>
      if IsOpener(c) {
        PushOne(st, '<', c);
      } else {
        BracketOnTop(DropTop(st, '<'), '<');
      }
    case Less => PushOne(st, '<', '<');
    case _ =>
  }

  lemma ForwardOne(s: string, i: nat, w: string)
    requires i < |s| && w != ""
    ensures var v := PlainAdvance(w, s[i]);
            && (v.Continue? ==> v.stack != "")
            && Forward(s, i, w) == if v.Continue? then Forward(s, i + 1, v.stack) else if v == Close then Found(i + 1) else Broken
  {
  }

  /** Started with a bracket at the bottom of the stack, the token machine is the plain scanner. */
  lemma {:induction false} ForwardIgnoresAngles(toks: seq<Token>, s: string, i: nat, st: string)
    requires Shows(toks, s) && i <= |s| && st != "" && st[0] != '<'
    ensures WithoutAngles(st, '<') != ""
    ensures Plain(ScanTokens(toks, i, st), '<') == Forward(s, i, WithoutAngles(st, '<'))
    decreases |s| - i
  {
    AnglesAbove(st, '<');
    if i < |s| {
      AdvancePlain(st, toks[i], s[i]);
      ForwardOne(s, i, WithoutAngles(st, '<'));
      match Advance(st, toks[i])
      case Continue(st') => ForwardIgnoresAngles(toks, s, i + 1, st');
      case _ =>
    }
  }

  /**
   Forward: for ( [ { the reported end is just past the partner, across any number of lines and
   whatever angles, shifts, arrows and semicolons lie in between.
   */
  lemma CloseFindsPartner(lines: seq<string>, l: nat, p: nat, m: nat, e: nat)
    requires ValidAt(lines, l, p) && IsOpener(lines[l][p])
    ensures CloseOf(lines, l, p) == Some((m, e)) <==>
            && e > 0
            && ValidAt(lines, m, e - 1)
            && Encloses(Flatten(lines), Pos(lines, l, p), Pos(lines, m, e - 1))
  {
    CloseIsPlainScan(lines, l, p);
    FlatTokenAt(lines, l, p);
    var s, q := Flatten(lines), Pos(lines, l, p);
    if e > 0 && ValidAt(lines, m, e - 1) {
      SameEndIff(lines, Forward(s, q + 1, [s[q]]), CloseOf(lines, l, p), m, e);
      ForwardFindsPartner(s, q, Pos(lines, m, e));
    }
  }

  /** The angle-aware scan answers like the plain scanner on the flattened text. */
  lemma CloseIsPlainScan(lines: seq<string>, l: nat, p: nat)
    requires ValidAt(lines, l, p) && IsOpener(lines[l][p])
    ensures Pos(lines, l, p) < |Flatten(lines)|
    ensures SameEnd(lines, Forward(Flatten(lines), Pos(lines, l, p) + 1, [lines[l][p]]), CloseOf(lines, l, p))
  {
    var st, q := [lines[l][p]], Pos(lines, l, p) + 1;
    FlatTokenAt(lines, l, p);
    CloseStarts(lines, l, p);
    CloseFromIsFlat(lines, l, p + 1, st);
    FlatScanIsPlain(lines, q, st);
  }

  lemma FlatScanIsPlain(lines: seq<string>, q: nat, st: string)
    requires |st| == 1 && IsOpener(st[0]) && q <= |Flatten(lines)|
    ensures Plain(ScanTokens(FlatTokens(lines), q, st), '<') == Forward(Flatten(lines), q, st)
  {
    FlatTokensShow(lines);
    ForwardIgnoresAngles(FlatTokens(lines), Flatten(lines), q, st);
    assert WithoutAngles(st, '<') == st;
  }

  /** The opener is a token of its own, whatever stands around it. */
  lemma OpenerIsNoShift(line: string, p: nat)
    requires p < |line| && line[p] != '<'
    ensures !ShiftOrLessEqual(line, p)
  {
    if p + 2 <= |line| {
      assert line[p..p + 2][0] == line[p];
    }
  }

  /** A scan from p is a scan from p + 1 with what the token at p leaves on the stack. */
  lemma ScanOne(line: string, p: nat, st: string, st': string)
    requires p < |line| && Advance(st, TokenAt(line, p)) == Continue(st')
    ensures ScanTokens(Tokens(line), p, st) == ScanTokens(Tokens(line), p + 1, st')
  {
    assert Tokens(line)[p] == TokenAt(line, p);
  }

  lemma CloseFromOne(lines: seq<string>, l: nat, p: nat, st: string, st': string)
    requires ValidAt(lines, l, p) && Advance(st, TokenAt(lines[l], p)) == Continue(st')
    ensures CloseFrom(lines, l, p, st) == CloseFrom(lines, l, p + 1, st')
  {
    ScanOne(lines[l], p, st, st');
  }

  /** The first step only pushes the opener. */
  lemma CloseStarts(lines: seq<string>, l: nat, p: nat)
    requires ValidAt(lines, l, p) && IsOpener(lines[l][p])
    ensures CloseOf(lines, l, p) == CloseFrom(lines, l, p + 1, [lines[l][p]])
  {
    OpenerIsNoShift(lines[l], p);
    assert "" + [lines[l][p]] == [lines[l][p]];
    CloseFromOne(lines, l, p, "", [lines[l][p]]);
  }

  // ----- the same to the left -----

  /** Characters that the backward scan may step over without looking are never brackets. */
  lemma SkippedIsNoBracket(line: string, i: nat)
    requires i < |line| && line[i] == '>' && SkipsGreater(line, i)
    ensures !IsBracket(line[i - 1])
  {
    SteppedOver(line, i);
  }

  lemma {:induction false} BackIgnoresAngles(s: string, i: int, st: string)
    requires -1 <= i < |s| && st != "" && st[0] != '>'
    ensures WithoutAngles(st, '>') != ""
    ensures Plain(ScanBack(s, i, st), '>') == Backward(s, i, WithoutAngles(st, '>'))
    ensures ScanBack(s, i, st).Pending? ==> ScanBack(s, i, st).stack != "" && ScanBack(s, i, st).stack[0] == st[0]
    decreases i + 1
  {
    AnglesAbove(st, '>');
    var dropped := DropTop(st, '>');
    if i >= 0 {
      if IsCloser(s[i]) {
        PushOne(st, '>', s[i]);
        BackIgnoresAngles(s, i - 1, st + [s[i]]);
      } else if s[i] == '>' {
        if SkipsGreater(s, i) {
          SkippedIsNoBracket(s, i);
          BackIgnoresAngles(s, i - 2, st);
        } else {
          PushOne(st, '>', '>');
          BackIgnoresAngles(s, i - 1, st + ">");
        }
      } else if s[i] == '<' {
        if i > 0 && s[i - 1] == '<' {
          BackIgnoresAngles(s, i - 2, st);
        } else if st[|st| - 1] != '>' {
          BackIgnoresAngles(s, i - 1, st);
        } else {
          BackIgnoresAngles(s, i - 1, Pop(st));
        }
      } else if IsOpener(s[i]) {
        BracketOnTop(dropped, '>');
        if Matches(s[i], dropped[|dropped| - 1]) && |dropped| > 1 {
          BackIgnoresAngles(s, i - 1, Pop(dropped));
        }
      } else if s[i] == ';' {
        BackIgnoresAngles(s, i - 1, dropped);
      } else {
        BackIgnoresAngles(s, i - 1, st);
      }
    }
  }

  lemma {:induction false} BackwardPiece(flat: string, k: nat, piece: string, i: int, st: string)
    requires -1 <= i < |piece| && st != "" && k + |piece| <= |flat| && flat[k..k + |piece|] == piece
    ensures Backward(flat, k + i, st) ==
            match Backward(piece, i, st)
            case Found(p) => Found(k + p)
            case Broken => Broken
            case Pending(st') => Backward(flat, k - 1, st')
    decreases i + 1
  {
    if i >= 0 {
      assert flat[k + i] == flat[k..k + |piece|][i];
      if IsCloser(piece[i]) {
        BackwardPiece(flat, k, piece, i - 1, st + [piece[i]]);
      } else if !IsOpener(piece[i]) {
        BackwardPiece(flat, k, piece, i - 1, st);
      } else if Matches(piece[i], st[|st| - 1]) && |st| > 1 {
        BackwardPiece(flat, k, piece, i - 1, Pop(st));
      }
    }
  }

  predicate SameStart(lines: seq<string>, flat: Scan, r: Option<(nat, nat)>) {
    match r
    case Some((l, p)) => l < |lines| && flat == Found(Pos(lines, l, p))
    case None => !flat.Found?
  }

  lemma {:induction false} OpenFromIsPlain(lines: seq<string>, l: nat, i: int, st: string)
    requires l < |lines| && -1 <= i < |lines[l]| && st != "" && st[0] != '>'
    ensures WithoutAngles(st, '>') != "" && Offset(lines, l) + i < |Flatten(lines)|
    ensures SameStart(lines, Backward(Flatten(lines), Offset(lines, l) + i, WithoutAngles(st, '>')),
                      OpenFrom(lines, l, i, st))
    decreases l
  {
    AnglesAbove(st, '>');
    LineInFlat(lines, l);
    BackIgnoresAngles(lines[l], i, st);
    BackwardPiece(Flatten(lines), Offset(lines, l), lines[l], i, WithoutAngles(st, '>'));
    var r := ScanBack(lines[l], i, st);
    if r.Pending? && l > 0 {
      OpenFromIsPlain(lines, l - 1, |lines[l - 1]| - 1, r.stack);
    }
  }

  lemma OpenStarts(lines: seq<string>, m: nat, q: nat)
    requires ValidAt(lines, m, q) && IsCloser(lines[m][q])
    ensures OpenOf(lines, m, q) == OpenFrom(lines, m, q - 1, [lines[m][q]])
  {
    assert "" + [lines[m][q]] == [lines[m][q]];
  }

  /** Backward: for ) ] } the reported start is the partner. */
  lemma OpenFindsPartner(lines: seq<string>, m: nat, q: nat, l: nat, p: nat)
    requires ValidAt(lines, m, q) && IsCloser(lines[m][q])
    ensures OpenOf(lines, m, q) == Some((l, p)) <==>
            && ValidAt(lines, l, p)
            && Encloses(Flatten(lines), Pos(lines, l, p), Pos(lines, m, q))
  {
    FlatTokenAt(lines, m, q);
    OpenStarts(lines, m, q);
    PushOne("", '>', lines[m][q]);
    OpenFromIsPlain(lines, m, q - 1, [lines[m][q]]);
    var s, k := Flatten(lines), Pos(lines, m, q);
    var r := OpenOf(lines, m, q);
    if r.Some? {
      BackwardFindsPartner(s, Pos(lines, r.value.0, r.value.1), k);
    }
    if ValidAt(lines, l, p) && Encloses(s, Pos(lines, l, p), k) {
      BackwardFindsPartner(s, Pos(lines, l, p), k);
      PositionsAreDistinct(lines, l, p, r.value.0, r.value.1);
    }
  }

  /** Forward and backward matching undo each other. */
  lemma MatchersUndoEachOther(lines: seq<string>, l: nat, p: nat, m: nat, e: nat)
    requires ValidAt(lines, l, p) && IsOpener(lines[l][p])
    requires e > 0 && ValidAt(lines, m, e - 1) && IsCloser(lines[m][e - 1])
    ensures CloseOf(lines, l, p) == Some((m, e)) <==> OpenOf(lines, m, e - 1) == Some((l, p))
  {
    CloseFindsPartner(lines, l, p, m, e);
    OpenFindsPartner(lines, m, e - 1, l, p);
  }

  /** What the forward matcher reports for ( [ { is always just past a closer of the same kind. */
  lemma CloseEndsOnCloser(lines: seq<string>, l: nat, p: nat)
    requires ValidAt(lines, l, p) && IsOpener(lines[l][p]) && CloseOf(lines, l, p).Some?
    ensures var (m, e) := CloseOf(lines, l, p).value;
            e > 0 && ValidAt(lines, m, e - 1) && Matches(lines[l][p], lines[m][e - 1])
  {
    var (m, e) := CloseOf(lines, l, p).value;
    CloseFindsPartner(lines, l, p, m, e);
    FlatTokenAt(lines, l, p);
    FlatTokenAt(lines, m, e - 1);
  }
}
