/**
 Which `<` and `>` count, told from the characters alone, and what the two matchers compute in terms
 of these weights.

 Forward, the second half of a `<<` weighs as much as a `>`; what stands behind the word operator, and
 the `>` of an arrow, weigh nothing.  Backward, of a run of `<` only the first one can count, and only
 if the run is of odd length; a `>` weighs nothing in an arrow, in a spaced `>=` and behind the word.
 */
module AngleWeights {
  import opened Wrappers
  import opened Brackets
  import opened Characters
  import opened ExpressionMatcher
  import opened BracketMatching
  import opened AngleMatching
  import opened BackwardAngles
  import opened FlatText

  // ----- the weights -----

  /** The letters of the word operator stand from k on, and no word character before them. */
  predicate IsWordOperator(line: string, k: nat) {
    && k + 8 <= |line|
    && line[k] == 'o' && line[k + 1] == 'p' && line[k + 2] == 'e' && line[k + 3] == 'r'
    && line[k + 4] == 'a' && line[k + 5] == 't' && line[k + 6] == 'o' && line[k + 7] == 'r'
    && (k == 0 || !IsWordChar(line[k - 1]))
  }

  /** The word ends at i, or nothing but space stands between its end and i. */
  predicate WordBefore(line: string, k: nat, i: nat) {
    IsWordOperator(line, k) && k + 8 <= i <= |line| && forall j | k + 8 <= j < i :: IsSpace(line[j])
  }

  ghost predicate OperatorBefore(line: string, i: nat) {
    exists k: nat :: WordBefore(line, k, i)
  }

  /** Read forward. */
  ghost function Weight(line: string, i: nat): int
    requires i < |line|
  {
    if line[i] == '<' then
      if i > 0 && line[i - 1] == '<' then -1 else if OperatorBefore(line, i) then 0 else 1
    else if line[i] == '>' then
      if i > 0 && (line[i - 1] == '-' || OperatorBefore(line, i - 1)) then 0 else -1
    else 0
  }

  /** How many `<` stand in a row from i up to i0. */
  function LessRun(line: string, i: nat, i0: nat): nat
    requires i0 < |line|
    decreases i0 + 1 - i
  {
    if i <= i0 && line[i] == '<' then 1 + LessRun(line, i + 1, i0) else 0
  }

  /** A `>=` with space on both sides stands at i. */
  predicate SpacedAt(line: string, i: nat)
    requires i < |line|
  {
    0 < i && i + 2 < |line| && IsSpace(line[i - 1]) && line[i] == '>' && line[i + 1] == '=' && IsSpace(line[i + 2])
  }

  /** Read backward from i0 on. */
  ghost function BackWeight(line: string, i0: nat, i: nat): int
    requires i <= i0 < |line|
  {
    if line[i] == '>' then
      if i > 0 && (line[i - 1] == '-' || SpacedAt(line, i) || OperatorBefore(line, i)) then 0 else 1
    else if line[i] == '<' then
      if (i == 0 || line[i - 1] != '<') && LessRun(line, i, i0) % 2 == 1 then -1 else 0
    else 0
  }

  // ----- the word, by its letters -----

  lemma LettersOf(s: string)
    ensures s == "operator" <==>
            && |s| == 8
            && s[0] == 'o' && s[1] == 'p' && s[2] == 'e' && s[3] == 'r'
            && s[4] == 'a' && s[5] == 't' && s[6] == 'o' && s[7] == 'r'
  {
    if |s| == 8 {
      assert s == [s[0], s[1], s[2], s[3], s[4], s[5], s[6], s[7]];
    }
  }

  lemma WordAtEnd(line: string, n: nat)
    requires 8 <= n <= |line|
    ensures EndsWith(line[..n], "operator") && WordStartsAt(line[..n], n - 8) <==> IsWordOperator(line, n - 8)
  {
    var t := line[..n];
    var part := t[n - 8..];
    LettersOf(part);
    assert forall j | 0 <= j < 8 :: part[j] == line[n - 8 + j];
  }

  lemma OperatorIsBefore(line: string, i: nat)
    requires i <= |line|
    ensures EndsWithOperator(line[..i]) <==> OperatorBefore(line, i)
  {
    var s := line[..i];
    TrimRightEnds(s);
    var n := |TrimRight(s)|;
    assert s[..n] == line[..n];
    if EndsWithOperator(s) {
      WordAtEnd(line, n);
      assert WordBefore(line, n - 8, i);
    }
    if k: nat :| WordBefore(line, k, i) {
      TrimRightIs(s, k + 8);
      assert s[..k + 8] == line[..k + 8];
      WordAtEnd(line, k + 8);
    }
  }

  // ----- forward -----

  /** Each token weighs what the characters say. */
  lemma TokenWeighs(line: string, i: nat)
    requires i < |line|
    ensures Delta(TokenAt(line, i)) == Weight(line, i)
    ensures TokenAt(line, i) == Less <==> Weight(line, i) == 1
    ensures TokenAt(line, i) == Greater <==> line[i] == '>' && Weight(line, i) == -1
  {
    OperatorIsBefore(line, i);
    if i > 0 {
      OperatorIsBefore(line, i - 1);
    }
  }

  ghost function Weights(line: string): (r: seq<int>)
    ensures |r| == |line|
  {
    seq(|line|, i requires 0 <= i < |line| => Weight(line, i))
  }

  /** The weights of all lines, end to end. */
  ghost function FlatWeights(lines: seq<string>): seq<int> {
    if lines == [] then [] else FlatWeights(lines[..|lines| - 1]) + Weights(lines[|lines| - 1])
  }

  lemma {:induction false} TokensWeigh(lines: seq<string>)
    ensures |FlatWeights(lines)| == |FlatTokens(lines)| == |Flatten(lines)|
    ensures forall j | 0 <= j < |Flatten(lines)| ::
              && FlatWeights(lines)[j] == Delta(FlatTokens(lines)[j])
              && (FlatTokens(lines)[j] == Greater <==> Flatten(lines)[j] == '>' && FlatWeights(lines)[j] == -1)
  {
    if lines != [] {
      var front, last := lines[..|lines| - 1], lines[|lines| - 1];
      TokensWeigh(front);
      assert TokenLines(lines)[..|front|] == TokenLines(front);
      forall i | 0 <= i < |last|
        ensures Weights(last)[i] == Delta(Tokens(last)[i])
        ensures Tokens(last)[i] == Greater <==> last[i] == '>' && Weights(last)[i] == -1
      {
        TokenWeighs(last, i);
      }
    }
  }

  /** What is pending at j of the list that starts at a; only places outside all brackets weigh. */
  ghost function Pending(w: seq<int>, s: string, a: nat, j: nat): int
    requires |w| == |s| && a <= j <= |s|
  {
    if j == a then 0 else Pending(w, s, a, j - 1) + if Balanced(s[a..j - 1]) then w[j - 1] else 0
  }

  /** The list that starts at a ends with the `>` at q. */
  ghost predicate ListEndsAt(w: seq<int>, s: string, a: nat, q: nat) {
    && |w| == |s| && a <= q < |s|
    && Balanced(s[a..q])
    && (forall j | a <= j <= q :: Pending(w, s, a, j) >= 0)
    && (forall j | a <= j < q && Balanced(s[a..j]) :: s[j] != ';')
    && Pending(w, s, a, q) == 0 && s[q] == '>' && w[q] == -1
  }

  lemma {:induction false} PendingIsNet(toks: seq<Token>, w: seq<int>, s: string, a: nat, j: nat)
    requires |toks| == |w| == |s| && a <= j <= |s| && forall i | 0 <= i < |s| :: w[i] == Delta(toks[i])
    ensures Pending(w, s, a, j) == Net(toks, s, a, j)
  {
    if a < j {
      PendingIsNet(toks, w, s, a, j - 1);
    }
  }

  lemma ListEndsIff(lines: seq<string>, a: nat, q: nat)
    ensures ClosesAngle(FlatTokens(lines), Flatten(lines), a, q) <==> ListEndsAt(FlatWeights(lines), Flatten(lines), a, q)
  {
    var toks, w, s := FlatTokens(lines), FlatWeights(lines), Flatten(lines);
    TokensWeigh(lines);
    SemicolonsShow(lines);
    if a <= q < |s| {
      forall j | a <= j <= q ensures Pending(w, s, a, j) == Net(toks, s, a, j) {
        PendingIsNet(toks, w, s, a, j);
      }
    }
  }

  /** Where `<<` and `<=` begin, nothing is matched. */
  predicate IsRefused(line: string, p: nat) {
    p + 1 < |line| && (line[p + 1] == '<' || line[p + 1] == '=')
  }

  lemma RefusedIff(line: string, p: nat)
    requires p < |line| && line[p] == '<'
    ensures ShiftOrLessEqual(line, p) <==> IsRefused(line, p)
  {
    if p + 2 <= |line| {
      assert line[p..p + 2] == ['<', line[p + 1]];
    }
  }

  /**
   From a `<` of weight 1 the match is the `>` at which what is pending, by the weights of the
   characters, comes to nothing; and there is none from the first half of a `<<` or `<=`.
   */
  lemma CloseFindsList(lines: seq<string>, l: nat, p: nat, m: nat, e: nat)
    requires ValidAt(lines, l, p) && lines[l][p] == '<' && Weight(lines[l], p) == 1
    ensures CloseOf(lines, l, p) == Some((m, e)) <==>
            && !IsRefused(lines[l], p)
            && e > 0 && ValidAt(lines, m, e - 1)
            && ListEndsAt(FlatWeights(lines), Flatten(lines), Pos(lines, l, p) + 1, Pos(lines, m, e - 1))
  {
    TokenWeighs(lines[l], p);
    RefusedIff(lines[l], p);
    if !IsRefused(lines[l], p) {
      CloseFindsAngle(lines, l, p, m, e);
      if e > 0 && ValidAt(lines, m, e - 1) {
        ListEndsIff(lines, Pos(lines, l, p) + 1, Pos(lines, m, e - 1));
      }
    }
  }

  // ----- backward -----

  lemma SkippedIff(line: string, i: nat)
    requires i < |line| && line[i] == '>'
    ensures SkipsGreater(line, i) <==> i > 0 && (line[i - 1] == '-' || SpacedAt(line, i) || OperatorBefore(line, i))
  {
    OperatorIsBefore(line, i);
    if 0 < i && i + 2 < |line| {
      assert line[i..i + 2] == [line[i], line[i + 1]];
    }
  }

  /** What is stepped over together with a `>` is no angle. */
  lemma SteppedIsNoAngle(line: string, i: nat)
    requires i < |line| && line[i] == '>' && SkipsGreater(line, i)
    ensures line[i - 1] != '<' && line[i - 1] != '>'
  {
    SteppedOver(line, i);
  }

  lemma {:induction false} LessRunShortens(line: string, i: nat, i0: nat, i1: nat)
    requires i <= i1 <= i0 < |line| && line[i1] == '<' && (i1 < i0 ==> line[i1 + 1] != '<')
    ensures LessRun(line, i, i0) == LessRun(line, i, i1)
    decreases i1 - i
  {
    if i < i1 {
      LessRunShortens(line, i + 1, i0, i1);
    }
  }

  /** Two `<` less at the end of the run change nothing about its being odd. */
  lemma {:induction false} LessRunByTwo(line: string, i: nat, i0: nat)
    requires i + 2 <= i0 < |line| && line[i0] == line[i0 - 1] == '<'
    ensures LessRun(line, i, i0) % 2 == LessRun(line, i, i0 - 2) % 2
    decreases i0 - i
  {
    if line[i] == '<' {
      if i + 3 <= i0 {
        LessRunByTwo(line, i + 1, i0);
      } else {
        assert LessRun(line, i0, i0) == 1;
        assert LessRun(line, i0 - 1, i0) == 2;
        assert LessRun(line, i0 - 1, i0 - 2) == 0;
      }
    }
  }

  lemma {:induction false} LessRunBehind(line: string, i: nat, i0: nat)
    requires i < i0 < |line| && line[i0] != '<'
    ensures LessRun(line, i, i0) == LessRun(line, i, i0 - 1)
    decreases i0 - i
  {
    if i + 1 < i0 {
      LessRunBehind(line, i + 1, i0);
    }
  }

  lemma {:induction false} LessRunBehindLast(line: string, i: nat, i0: nat)
    requires i < i0 < |line| && line[i0] == '<' && line[i0 - 1] != '<'
    ensures LessRun(line, i, i0) == LessRun(line, i, i0 - 1)
    decreases i0 - i
  {
    if i + 1 < i0 {
      LessRunBehindLast(line, i + 1, i0);
    }
  }

  predicate WeighsAs(t: Token, w: int) {
    Delta(t) == w && (t == Greater <==> w == -1)
  }

  /** A single step: the token of its character, and the tokens before it. */
  lemma BackSingle(line: string, i0: nat, i: nat)
    requires i <= i0 < |line| && !StepsOverTwo(line, i0)
    ensures i == i0 ==> WeighsAs(BackToken(line[i0]), BackWeight(line, i0, i0))
    ensures i < i0 ==> BackWeight(line, i0, i) == BackWeight(line, i0 - 1, i)
  {
    if line[i0] == '>' {
      SkippedIff(line, i0);
    }
    if i < i0 {
      if line[i0] == '<' {
        LessRunBehindLast(line, i, i0);
      } else {
        LessRunBehind(line, i, i0);
      }
    } else if line[i0] == '<' {
      assert LessRun(line, i0, i0) == 1;
    }
  }

  lemma BackTokensAt(line: string, i0: nat, i: nat)
    requires i <= i0 < |line|
    ensures BackTokens(line, i0)[i0 - i] ==
            if StepsOverTwo(line, i0) then if i + 2 <= i0 then BackTokens(line, i0 - 2)[i0 - 2 - i] else Other
            else if i < i0 then BackTokens(line, i0 - 1)[i0 - 1 - i] else BackToken(line[i0])
  {
  }

  /** Each backward token weighs what the characters say. */
  lemma {:induction false} BackTokenWeighs(line: string, i0: nat, i: nat)
    requires i <= i0 < |line|
    ensures WeighsAs(BackTokens(line, i0)[i0 - i], BackWeight(line, i0, i))
    decreases i0
  {
    BackTokensAt(line, i0, i);
    if StepsOverTwo(line, i0) {
      BackDouble(line, i0, i);
      if i + 2 <= i0 {
        BackTokenWeighs(line, i0 - 2, i);
      }
    } else {
      BackSingle(line, i0, i);
      if i < i0 {
        BackTokenWeighs(line, i0 - 1, i);
      }
    }
  }

  /** The two characters of a double step weigh nothing, and leave the weights before them alone. */
  lemma BackDouble(line: string, i0: nat, i: nat)
    requires i <= i0 < |line| && StepsOverTwo(line, i0)
    ensures i0 > 0
    ensures i + 2 > i0 ==> BackWeight(line, i0, i) == 0
    ensures i + 2 <= i0 ==> BackWeight(line, i0, i) == BackWeight(line, i0 - 2, i)
  {
    if line[i0] == '>' {
      SkippedIff(line, i0);
      SteppedIsNoAngle(line, i0);
      if i + 2 <= i0 {
        LessRunBehind(line, i, i0);
        LessRunBehind(line, i, i0 - 1);
      }
    } else if i + 2 <= i0 {
      LessRunByTwo(line, i, i0);
    } else if i + 1 == i0 {
      assert LessRun(line, i0 - 1, i0) == 1 + LessRun(line, i0, i0) == 2;
    }
  }

  /** The weights of the text up to column i of line l, read backward from there. */
  ghost function WeightsBefore(lines: seq<string>, l: nat, i: int): (r: seq<int>)
    requires l < |lines| && -1 <= i < |lines[l]|
    ensures |r| == Offset(lines, l) + i + 1
    decreases l
  {
    (if l == 0 then [] else WeightsBefore(lines, l - 1, |lines[l - 1]| - 1)) +
    seq(i + 1, k requires 0 <= k <= i => BackWeight(lines[l], i, k))
  }

  lemma BackFlatAt(lines: seq<string>, l: nat, i: int, k: nat)
    requires l < |lines| && -1 <= i < |lines[l]| && k < Offset(lines, l) + i + 1
    ensures var o := Offset(lines, l);
            BackFlat(lines, l, i)[o + i - k] ==
            if k >= o then BackTokens(lines[l], i)[i - (k - o)] else BackFlat(lines, l - 1, |lines[l - 1]| - 1)[o - 1 - k]
  {
  }

  lemma WeightsBeforeAt(lines: seq<string>, l: nat, i: int, k: nat)
    requires l < |lines| && -1 <= i < |lines[l]| && k < Offset(lines, l) + i + 1
    ensures var o := Offset(lines, l);
            WeightsBefore(lines, l, i)[k] ==
            if k >= o then BackWeight(lines[l], i, k - o) else WeightsBefore(lines, l - 1, |lines[l - 1]| - 1)[k]
  {
  }

  lemma LastLineWeighs(lines: seq<string>, l: nat, i: int, k: nat)
    requires l < |lines| && -1 <= i < |lines[l]| && Offset(lines, l) <= k < Offset(lines, l) + i + 1
    ensures WeighsAs(BackFlat(lines, l, i)[Offset(lines, l) + i - k], WeightsBefore(lines, l, i)[k])
  {
    BackFlatAt(lines, l, i, k);
    WeightsBeforeAt(lines, l, i, k);
    BackTokenWeighs(lines[l], i, k - Offset(lines, l));
  }

  lemma LinesAboveWeigh(lines: seq<string>, l: nat, i: int, k: nat)
    requires l < |lines| && -1 <= i < |lines[l]| && k < Offset(lines, l)
    requires WeighsAs(BackFlat(lines, l - 1, |lines[l - 1]| - 1)[Offset(lines, l) - 1 - k],
                      WeightsBefore(lines, l - 1, |lines[l - 1]| - 1)[k])
    ensures WeighsAs(BackFlat(lines, l, i)[Offset(lines, l) + i - k], WeightsBefore(lines, l, i)[k])
  {
    BackFlatAt(lines, l, i, k);
    WeightsBeforeAt(lines, l, i, k);
  }

  lemma {:induction false} BackTokensWeigh(lines: seq<string>, l: nat, i: int, k: nat)
    requires l < |lines| && -1 <= i < |lines[l]| && k < Offset(lines, l) + i + 1
    ensures WeighsAs(BackFlat(lines, l, i)[Offset(lines, l) + i - k], WeightsBefore(lines, l, i)[k])
    decreases l
  {
    if k >= Offset(lines, l) {
      LastLineWeighs(lines, l, i, k);
    } else {
      BackTokensWeigh(lines, l - 1, |lines[l - 1]| - 1, k);
      LinesAboveWeigh(lines, l, i, k);
    }
  }

  /** What is pending at j of the list that ends before b, read backward. */
  ghost function PendingBack(w: seq<int>, s: string, j: nat, b: nat): int
    requires j <= b == |w| <= |s|
    decreases b - j
  {
    if j == b then 0 else PendingBack(w, s, j + 1, b) + if Balanced(s[j + 1..b]) then w[j] else 0
  }

  /** The list that ends before b starts with the `<` at p. */
  ghost predicate ListStartsAt(w: seq<int>, s: string, p: nat, b: nat) {
    && p < b == |w| <= |s|
    && Balanced(s[p + 1..b])
    && (forall j | p < j <= b :: PendingBack(w, s, j, b) >= 0)
    && (forall j | p < j < b && Balanced(s[j + 1..b]) :: s[j] != ';')
    && PendingBack(w, s, p + 1, b) == 0 && w[p] == -1
  }

  /** The backward tokens of a text before b, mirrored, and the weights of that text. */
  ghost predicate WeighAlike(toks: seq<Token>, w: seq<int>, s: string, b: nat) {
    && |toks| == |w| == b <= |s|
    && TrueTo(toks, Mirror(s[..b]))
    && forall k | 0 <= k < b :: WeighsAs(toks[b - 1 - k], w[k])
  }

  lemma {:induction false} PendingBackIsNet(toks: seq<Token>, w: seq<int>, s: string, b: nat, j: nat)
    requires WeighAlike(toks, w, s, b) && j <= b
    ensures Net(toks, Mirror(s[..b]), 0, b - j) == PendingBack(w, s, j, b)
    decreases b - j
  {
    if j < b {
      PendingBackIsNet(toks, w, s, b, j + 1);
      OutsideIsMirrored(s[..b], s, j);
    }
  }

  lemma SemicolonIsMirrored(toks: seq<Token>, w: seq<int>, s: string, b: nat, j: nat)
    requires WeighAlike(toks, w, s, b) && j < b
    ensures toks[b - 1 - j] == Semicolon <==> s[j] == ';'
  {
    assert Mirror(s[..b])[b - 1 - j] == MirrorChar(s[j]);
  }

  lemma StartIsMirrored(toks: seq<Token>, w: seq<int>, s: string, b: nat, p: nat)
    requires WeighAlike(toks, w, s, b) && p < b
    ensures ClosesAngle(toks, Mirror(s[..b]), 0, b - 1 - p) <==> ListStartsAt(w, s, p, b)
  {
    var t := Mirror(s[..b]);
    OutsideIsMirrored(s[..b], s, p);
    forall j | p < j <= b ensures Net(toks, t, 0, b - j) == PendingBack(w, s, j, b) {
      PendingBackIsNet(toks, w, s, b, j);
    }
    forall j | p < j < b
      ensures Outside(t, 0, b - 1 - j) <==> Balanced(s[j + 1..b])
      ensures toks[b - 1 - j] == Semicolon <==> s[j] == ';'
    {
      OutsideIsMirrored(s[..b], s, j);
      SemicolonIsMirrored(toks, w, s, b, j);
    }
    if ListStartsAt(w, s, p, b) {
      forall k | 0 <= k <= b - 1 - p ensures Net(toks, t, 0, k) >= 0 {
        assert PendingBack(w, s, b - k, b) >= 0;
      }
      forall k | 0 <= k < b - 1 - p && Outside(t, 0, k) ensures toks[k] != Semicolon {
        var j := b - 1 - k;
        assert toks[b - 1 - j] == Semicolon <==> s[j] == ';';
      }
    }
    if ClosesAngle(toks, t, 0, b - 1 - p) {
      forall j | p < j <= b ensures PendingBack(w, s, j, b) >= 0 {
        assert Net(toks, t, 0, b - j) >= 0;
      }
      forall j | p < j < b && Balanced(s[j + 1..b]) ensures s[j] != ';' {
        OutsideIsMirrored(s[..b], s, j);
        SemicolonIsMirrored(toks, w, s, b, j);
        assert toks[b - 1 - j] != Semicolon;
      }
    }
  }

  /**
   From a `>` of weight 1, read backward, the match is the `<` of weight -1 at which what is pending,
   by the backward weights of the characters, comes to nothing.
   */
  lemma OpenFindsList(lines: seq<string>, m: nat, q: nat, l: nat, p: nat)
    requires ValidAt(lines, m, q) && lines[m][q] == '>' && BackWeight(lines[m], q, q) == 1
    ensures OpenOf(lines, m, q) == Some((l, p)) <==>
            && ValidAt(lines, l, p)
            && ListStartsAt(WeightsBefore(lines, m, q - 1), Flatten(lines), Pos(lines, l, p), Pos(lines, m, q))
  {
    SkippedIff(lines[m], q);
    OpenFindsAngle(lines, m, q, l, p);
    if ValidAt(lines, l, p) && Pos(lines, l, p) < Pos(lines, m, q) {
      StartsInText(lines, m, q, Pos(lines, l, p));
    }
  }

  lemma StartsInText(lines: seq<string>, m: nat, q: nat, a: nat)
    requires ValidAt(lines, m, q) && a < Pos(lines, m, q)
    ensures var b := Pos(lines, m, q);
            ClosesAngle(BackFlat(lines, m, q - 1), Mirror(Before(lines, m, q - 1)), 0, b - 1 - a) <==>
            ListStartsAt(WeightsBefore(lines, m, q - 1), Flatten(lines), a, b)
  {
    BeforeWeighsAlike(lines, m, q);
    StartIsMirrored(BackFlat(lines, m, q - 1), WeightsBefore(lines, m, q - 1), Flatten(lines), Pos(lines, m, q), a);
  }

  lemma BeforeWeighsAlike(lines: seq<string>, m: nat, q: nat)
    requires ValidAt(lines, m, q)
    ensures WeighAlike(BackFlat(lines, m, q - 1), WeightsBefore(lines, m, q - 1), Flatten(lines), Pos(lines, m, q))
    ensures Flatten(lines)[..Pos(lines, m, q)] == Before(lines, m, q - 1)
  {
    BeforeIsPrefix(lines, m, q - 1);
    BackFlatIsTrue(lines, m, q - 1);
    FlatTokenAt(lines, m, q);
    var b := Pos(lines, m, q);
    assert Flatten(lines)[..b] == Before(lines, m, q - 1);
    var toks, w := BackFlat(lines, m, q - 1), WeightsBefore(lines, m, q - 1);
    forall k | 0 <= k < b ensures WeighsAs(toks[b - 1 - k], w[k]) {
      BackTokensWeigh(lines, m, q - 1, k);
    }
  }

  // ----- instances -----

  predicate IsPlain(c: char) {
    !IsBracket(c) && c != '<' && c != '>' && c != ';'
  }

  /** A list with a shift in it: the second half of the shift takes away what the first half has put on the stack. */
  lemma ShiftInList(line: string)
    requires |line| > 10 && (forall j | 0 <= j < 10 :: line[j] != 'p') && line[9] != '-'
    requires line[3] == line[6] == line[7] == '<' && line[10] == '>'
    requires IsPlain(line[2]) && IsPlain(line[4]) && IsPlain(line[5]) && IsPlain(line[8]) && IsPlain(line[9])
    ensures ScanTokens(Tokens(line), 3, "") == Found(11)
  {
    NoWordBefore(line, 3);
    NoWordBefore(line, 6);
    NoWordBefore(line, 9);
    ScanAngles(Tokens(line), 10);
  }

  lemma ShiftEndsInsideList()
    ensures CloseOf(["Foo<1 << 3> x;"], 0, 3) == Some((0, 11))
  {
    RefusedIff("Foo<1 << 3> x;", 3);
    ShiftInList("Foo<1 << 3> x;");
  }

  lemma NoWordBefore(line: string, i: nat)
    requires i <= |line| && forall j | 0 <= j < i :: line[j] != 'p'
    ensures !EndsWithOperator(line[..i])
  {
    OperatorIsBefore(line, i);
    forall k: nat ensures !WordBefore(line, k, i) {
    }
  }

  lemma ScanAngles(toks: seq<Token>, n: nat)
    requires n == 10 < |toks| && toks[3] == Less && toks[6] == Less && toks[7] == ShiftLess && toks[10] == Greater
    requires toks[4] == toks[5] == toks[8] == toks[9] == Other
    ensures ScanTokens(toks, 3, "") == Found(11)
  {
    assert "" + "<" == "<" && "<" + "<" == "<<" && Pop("<<") == "<";
    assert ScanTokens(toks, 10, "<") == Found(11);
    assert ScanTokens(toks, 8, "<") == Found(11);
    assert ScanTokens(toks, 7, "<<") == Found(11);
    assert ScanTokens(toks, 5, "<") == Found(11);
    assert ScanTokens(toks, 4, "<") == Found(11);
  }

  /** Behind the word operator a `<` is passed over. */
  lemma OperatorInList(line: string)
    requires |line| == 13 && line[1] == line[10] == '<' && line[12] == '>' && IsSpace(line[11])
    requires WordBefore(line, 2, 10) && forall j | 2 <= j < 10 :: IsPlain(line[j])
    requires !IsWordChar(line[1]) && line[0] != '<' && line[0] != 'p'
    ensures ScanTokens(Tokens(line), 1, "") == Found(13)
  {
    var toks := Tokens(line);
    NoWordBefore(line, 1);
    OperatorIsBefore(line, 10);
    NoWordAt(line, 11);
    assert toks[1] == Less && toks[10] == Other && toks[11] == Other && toks[12] == Greater;
    assert forall j | 2 <= j < 10 :: toks[j] == Other;
    assert "" + "<" == "<";
    assert ScanTokens(toks, 12, "<") == Found(13);
    ScanOthers(toks, 2, 12, "<");
  }

  lemma OperatorLessIsPassed()
    ensures CloseOf(["f<operator< >"], 0, 1) == Some((0, 13))
  {
    var line := "f<operator< >";
    assert line[2] == 'o' && line[3] == 'p' && line[4] == 'e' && line[5] == 'r';
    assert line[6] == 'a' && line[7] == 't' && line[8] == 'o' && line[9] == 'r';
    assert IsWordOperator(line, 2);
    RefusedIff(line, 1);
    OperatorInList(line);
  }

  lemma NoWordAt(line: string, i: nat)
    requires 0 < i <= |line| && line[i - 1] == '<'
    ensures !EndsWithOperator(line[..i])
  {
    OperatorIsBefore(line, i);
    forall k: nat ensures !WordBefore(line, k, i) {
    }
  }

  lemma {:induction false} ScanOthers(toks: seq<Token>, i: nat, n: nat, st: string)
    requires i <= n <= |toks| && forall j | i <= j < n :: toks[j] == Other
    ensures ScanTokens(toks, i, st) == ScanTokens(toks, n, st)
    decreases n - i
  {
    if i < n {
      ScanOthers(toks, i + 1, n, st);
    }
  }
}
