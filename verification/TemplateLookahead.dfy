/**
 Whether a class head is a template argument: a scan over the lines that follow.

 The scan looks for the first sign that speaks for or against a template argument list, and steps
 over whole argument lists on the way.  It is decided before some line exactly when nothing that this
 line and the later ones say can change its verdict.
 */
module TemplateLookahead {
  import opened Wrappers
  import opened Brackets
  import opened Characters
  import opened ExpressionMatcher
  import opened BackwardAngles

  // ----- the scan -----

  predicate SaysNo(c: char) {
    c == '{' || c == '}' || c == ';'
  }

  predicate SaysYes(c: char) {
    c == '>' || c == '=' || c == '[' || c == ']' || c == '.'
  }

  predicate IsSign(c: char) {
    SaysNo(c) || SaysYes(c) || c == '<'
  }

  /** `^[^{};=\[\]\.<>]*(.)` from pos on: the first sign, or the last character if there is none. */
  function SignFrom(line: string, pos: nat): (k: nat)
    requires pos < |line|
    ensures pos <= k < |line| && (IsSign(line[k]) || k == |line| - 1)
    ensures forall j | pos <= j < k :: !IsSign(line[j])
    decreases |line| - pos
  {
    if IsSign(line[pos]) || pos == |line| - 1 then pos else SignFrom(line, pos + 1)
  }

  /** How much of line l is left from pos on. */
  function Left(lines: seq<string>, l: nat, pos: nat): nat {
    if l < |lines| && pos <= |lines[l]| then |lines[l]| - pos else 0
  }

  function InTemplateArguments(lines: seq<string>, l: nat, pos: nat): bool
    decreases |lines| - l, Left(lines, l, pos)
  {
    if l >= |lines| then false
    else if pos >= |lines[l]| then InTemplateArguments(lines, l + 1, 0)
    else
      var k := SignFrom(lines[l], pos);
      var c := lines[l][k];
      if SaysNo(c) then false
      else if SaysYes(c) then true
      else if c != '<' then InTemplateArguments(lines, l + 1, 0)
      else
        match CloseOf(lines, l, k)
        case None => false
        case Some((m, e)) => InTemplateArguments(lines, m, e)
  }

  method InTemplateArgumentList(lines: seq<string>, linenum0: nat, pos0: nat) returns (r: bool)
    ensures r == InTemplateArguments(lines, linenum0, pos0)
  {
    var linenum: nat, pos: nat := linenum0, pos0;
    while linenum < |lines|
      invariant InTemplateArguments(lines, linenum, pos) == InTemplateArguments(lines, linenum0, pos0)
      decreases |lines| - linenum, Left(lines, linenum, pos)
    {
      var line := lines[linenum];
      if pos >= |line| {
        linenum, pos := linenum + 1, 0;
        continue;
      }
      var k := SignFrom(line, pos);
      var token := line[k];
      pos := k + 1;
      if token == '{' || token == '}' || token == ';' {
        return false;
      }
      if token == '>' || token == '=' || token == '[' || token == ']' || token == '.' {
        return true;
      }
      if token != '<' {
        pos := pos + 1;
        if pos >= |line| {
          linenum, pos := linenum + 1, 0;
        }
        continue;
      }
      var endText, endLine, endPos := CloseExpression(lines, linenum, pos - 1);
      if endPos < 0 {
        return false;
      }
      linenum, pos := endLine, endPos;
    }
    return false;
  }

  // ----- the scan, when the lines may not be all there are -----

  datatype Ending = Ended(l: nat, e: nat) | Failed | RanOut(stack: string)

  function CloseLook(lines: seq<string>, l: nat, i: nat, st: string): (r: Ending)
    requires l < |lines|
    ensures r.Ended? ==> l <= r.l < |lines| && r.e <= |lines[r.l]| && (r.l == l ==> i < r.e)
    decreases |lines| - l
  {
    match ScanTokens(Tokens(lines[l]), i, st)
    case Found(e) => Ended(l, e)
    case Broken => Failed
    case Pending(st') =>
      if st' == "" then Failed
      else if l + 1 == |lines| then RanOut(st')
      else CloseLook(lines, l + 1, 0, st')
  }

  datatype Look = Decided(verdict: bool) | Undecided

  function LookAhead(lines: seq<string>, l: nat, pos: nat): Look
    decreases |lines| - l, Left(lines, l, pos)
  {
    if l >= |lines| then Undecided
    else if pos >= |lines[l]| then LookAhead(lines, l + 1, 0)
    else
      var k := SignFrom(lines[l], pos);
      var c := lines[l][k];
      if SaysNo(c) then Decided(false)
      else if SaysYes(c) then Decided(true)
      else if c != '<' then LookAhead(lines, l + 1, 0)
      else if Refuses(lines[l], k) then Decided(false)
      else
        match CloseLook(lines, l, k, "")
        case Failed => Decided(false)
        case RanOut(_) => Undecided
        case Ended(m, e) => LookAhead(lines, m, e)
  }

  lemma {:induction false} CloseLookIsClose(lines: seq<string>, l: nat, i: nat, st: string)
    requires l < |lines|
    ensures CloseFrom(lines, l, i, st) ==
            match CloseLook(lines, l, i, st)
            case Ended(m, e) => Some((m, e))
            case _ => None
    decreases |lines| - l
  {
    match ScanTokens(Tokens(lines[l]), i, st)
    case Pending(st') =>
      if st' != "" && l + 1 < |lines| {
        CloseLookIsClose(lines, l + 1, 0, st');
      }
    case _ =>
  }

  /** What is undecided at the end of the file counts as no. */
  lemma {:induction false} VerdictIsLook(lines: seq<string>, l: nat, pos: nat)
    ensures InTemplateArguments(lines, l, pos) <==> LookAhead(lines, l, pos) == Decided(true)
    decreases |lines| - l, Left(lines, l, pos)
  {
    if l < |lines| {
      if pos >= |lines[l]| {
        VerdictIsLook(lines, l + 1, 0);
      } else {
        var k := SignFrom(lines[l], pos);
        if lines[l][k] == '<' {
          CloseLookIsClose(lines, l, k, "");
          if CloseOf(lines, l, k).Some? {
            VerdictIsLook(lines, CloseOf(lines, l, k).value.0, CloseOf(lines, l, k).value.1);
          }
        } else if !IsSign(lines[l][k]) {
          VerdictIsLook(lines, l + 1, 0);
        }
      }
    }
  }

  // ----- lines behind those that decide do not matter -----

  lemma {:induction false} CloseLookExtends(a: seq<string>, more: seq<string>, l: nat, i: nat, st: string)
    requires l < |a|
    ensures CloseLook(a + more, l, i, st) ==
            match CloseLook(a, l, i, st)
            case RanOut(st') => if more == [] then RanOut(st') else CloseLook(a + more, |a|, 0, st')
            case Ended(m, e) => Ended(m, e)
            case Failed => Failed
    decreases |a| - l
  {
    match ScanTokens(Tokens(a[l]), i, st)
    case Pending(st') =>
      if st' != "" && l + 1 < |a| {
        CloseLookExtends(a, more, l + 1, 0, st');
      }
    case _ =>
  }

  lemma {:induction false} DecidedStays(a: seq<string>, more: seq<string>, l: nat, pos: nat)
    requires LookAhead(a, l, pos).Decided?
    ensures LookAhead(a + more, l, pos) == LookAhead(a, l, pos)
    decreases |a| - l, Left(a, l, pos)
  {
    if pos >= |a[l]| {
      DecidedStays(a, more, l + 1, 0);
    } else {
      var k := SignFrom(a[l], pos);
      if a[l][k] == '<' && !Refuses(a[l], k) {
        CloseLookExtends(a, more, l, k, "");
        match CloseLook(a, l, k, "")
        case Ended(m, e) => DecidedStays(a, more, m, e);
        case _ =>
      } else if !IsSign(a[l][k]) {
        DecidedStays(a, more, l + 1, 0);
      }
    }
  }

  // ----- lines before the scan do not matter -----

  lemma {:induction false} CloseLookShifts(before: seq<string>, lines: seq<string>, l: nat, i: nat, st: string)
    requires l < |lines|
    ensures CloseLook(before + lines, |before| + l, i, st) ==
            match CloseLook(lines, l, i, st)
            case Ended(m, e) => Ended(|before| + m, e)
            case Failed => Failed
            case RanOut(st') => RanOut(st')
    decreases |lines| - l
  {
    match ScanTokens(Tokens(lines[l]), i, st)
    case Pending(st') =>
      if st' != "" && l + 1 < |lines| {
        CloseLookShifts(before, lines, l + 1, 0, st');
      }
    case _ =>
  }

  lemma {:induction false} LookShifts(before: seq<string>, lines: seq<string>, l: nat, pos: nat)
    ensures LookAhead(before + lines, |before| + l, pos) == LookAhead(lines, l, pos)
    decreases |lines| - l, Left(lines, l, pos)
  {
    if l < |lines| {
      if pos >= |lines[l]| {
        LookShifts(before, lines, l + 1, 0);
      } else {
        var k := SignFrom(lines[l], pos);
        if lines[l][k] == '<' && !Refuses(lines[l], k) {
          CloseLookShifts(before, lines, l, k, "");
          match CloseLook(lines, l, k, "")
          case Ended(m, e) => LookShifts(before, lines, m, e);
          case _ =>
        } else if !IsSign(lines[l][k]) {
          LookShifts(before, lines, l + 1, 0);
        }
      }
    }
  }

  // ----- and lines behind an undecided scan do -----

  lemma {:induction false} RanOutHoldsOpeners(lines: seq<string>, l: nat, i: nat, st: string)
    requires l < |lines| && HoldsOpeners(st) && CloseLook(lines, l, i, st).RanOut?
    ensures HoldsOpeners(CloseLook(lines, l, i, st).stack) && CloseLook(lines, l, i, st).stack != ""
    decreases |lines| - l
  {
    ScanHoldsOpeners(lines[l], i, st);
    match ScanTokens(Tokens(lines[l]), i, st)
    case Pending(st') =>
      if st' != "" && l + 1 < |lines| {
        RanOutHoldsOpeners(lines, l + 1, 0, st');
      }
    case _ =>
  }

  predicate HoldsOpeners(st: string) {
    forall k | 0 <= k < |st| :: IsOpener(st[k]) || st[k] == '<'
  }

  lemma {:induction false} DropHoldsOpeners(st: string)
    requires HoldsOpeners(st)
    ensures HoldsOpeners(DropTop(st, '<'))
  {
  }

  lemma {:induction false} ScanHoldsOpeners(line: string, i: nat, st: string)
    requires HoldsOpeners(st)
    ensures ScanTokens(Tokens(line), i, st).Pending? ==> HoldsOpeners(ScanTokens(Tokens(line), i, st).stack)
    decreases |line| - i
  {
    if i < |line| {
      DropHoldsOpeners(st);
      match Advance(st, Tokens(line)[i])
      case Continue(st') => ScanHoldsOpeners(line, i + 1, st');
      case _ =>
    }
  }

  /** A line without tokens leaves the stack alone. */
  lemma {:induction false} QuietLine(line: string, i: nat, st: string)
    requires i <= |line| && forall j | i <= j < |line| :: TokenAt(line, j) == Other
    ensures ScanTokens(Tokens(line), i, st) == Pending(st)
    decreases |line| - i
  {
    if i < |line| {
      QuietLine(line, i + 1, st);
    }
  }

  // what stands on the #else line, which neither scan minds
  const ELSE := "#else"

  lemma ElseIsQuiet(st: string)
    ensures ScanTokens(Tokens(ELSE), 0, st) == Pending(st)
    ensures SignFrom(ELSE, 0) == 4 && !IsSign(ELSE[4]) && |ELSE| == 5
  {
    QuietLine(ELSE, 0, st);
    assert SignFrom(ELSE, 4) == 4 && SignFrom(ELSE, 3) == 4 && SignFrom(ELSE, 2) == 4 && SignFrom(ELSE, 1) == 4;
  }

  /** A line that fails with the stack st: a closer that does not match its uppermost bracket. */
  function Mismatch(st: string): string {
    var s := DropTop(st, '<');
    if s != "" && s[|s| - 1] == '(' then "]" else ")"
  }

  lemma MismatchFails(st: string)
    ensures ScanTokens(Tokens(Mismatch(st)), 0, st) == Broken
  {
    var x := Mismatch(st);
    assert Tokens(x)[0] == Bracket(x[0]);
  }

  /** A line that closes everything on the stack st, and then says yes. */
  function Closing(st: string): string {
    seq(|st|, k requires 0 <= k < |st| => MirrorChar(st[|st| - 1 - k])) + "]"
  }

  lemma OperatorHasR(s: string)
    requires EndsWithOperator(s)
    ensures exists j | 0 <= j < |s| :: s[j] == 'r'
  {
    var t := TrimRight(s);
    TrimRightIsPrefix(s);
    assert t[|t| - 8..][7] == 'r';
    assert s[|t| - 1] == 'r';
  }

  lemma ClosingTokens(st: string, i: nat)
    requires HoldsOpeners(st) && i < |st|
    ensures var c := MirrorChar(st[|st| - 1 - i]);
            TokenAt(Closing(st), i) == if c == '>' then Greater else Bracket(c)
  {
    var line := Closing(st);
    forall j | 0 <= j < |st| ensures line[j] != 'r' && line[j] != '-' {
      assert line[j] == MirrorChar(st[|st| - 1 - j]);
    }
    if i > 0 && EndsWithOperator(line[..i - 1]) {
      OperatorHasR(line[..i - 1]);
    }
  }

  lemma CloserPops(st: string)
    requires HoldsOpeners(st) && st != ""
    ensures var c := MirrorChar(st[|st| - 1]);
            Advance(st, if c == '>' then Greater else Bracket(c)) == if |st| == 1 then Close else Continue(Pop(st))
  {
    if IsOpener(st[|st| - 1]) {
      assert DropTop(st, '<') == st;
    }
  }

  lemma ClosingPops(st: string, i: nat)
    requires HoldsOpeners(st) && i < |st|
    ensures Advance(st[..|st| - i], Tokens(Closing(st))[i]) == if i + 1 == |st| then Close else Continue(st[..|st| - (i + 1)])
  {
    var st' := st[..|st| - i];
    ClosingTokens(st, i);
    assert Tokens(Closing(st))[i] == TokenAt(Closing(st), i);
    assert st'[|st'| - 1] == st[|st| - 1 - i];
    CloserPops(st');
    assert Pop(st') == st[..|st| - (i + 1)];
  }

  lemma {:induction false} ClosingCloses(st: string, i: nat)
    requires HoldsOpeners(st) && i < |st|
    ensures ScanTokens(Tokens(Closing(st)), i, st[..|st| - i]) == Found(|st|)
    decreases |st| - i
  {
    ClosingPops(st, i);
    if i + 1 < |st| {
      ClosingCloses(st, i + 1);
    }
  }

  /** An undecided scan that stands at the end of the lines is decided by two more lines, either way. */
  lemma {:induction false} UndecidedGoesEitherWay(a: seq<string>, l: nat, pos: nat, v: bool) returns (x: string)
    requires l <= |a| && (l == |a| ==> pos == 0) && LookAhead(a, l, pos) == Undecided
    ensures LookAhead(a + [ELSE, x], l, pos) == Decided(v)
    decreases |a| - l, Left(a, l, pos)
  {
    if l == |a| {
      x := if v then "]" else ";";
      LookAtEnd(a, x, v);
    } else if pos >= |a[l]| {
      x := UndecidedGoesEitherWay(a, l + 1, 0, v);
    } else {
      var k := SignFrom(a[l], pos);
      if a[l][k] == '<' {
        match CloseLook(a, l, k, "")
        case Ended(m, e) =>
          x := UndecidedGoesEitherWay(a, m, e, v);
          CloseLookExtends(a, [ELSE, x], l, k, "");
        case RanOut(st) =>
          x := if v then Closing(st) else Mismatch(st);
          CloseLookExtends(a, [ELSE, x], l, k, "");
          RanOutHoldsOpeners(a, l, k, "");
          if v {
            ClosingSaysYes(st);
            ClosesAndSaysYes(a, x, st, |st|);
          } else {
            NoAtEnd(a, st);
          }
      } else {
        x := UndecidedGoesEitherWay(a, l + 1, 0, v);
      }
    }
  }

  lemma LookAtEnd(a: seq<string>, x: string, v: bool)
    requires x == if v then "]" else ";"
    ensures LookAhead(a + [ELSE, x], |a|, 0) == Decided(v)
  {
    ElseIsQuiet("");
    var more := a + [ELSE, x];
    assert more[|a|] == ELSE && more[|a| + 1] == x;
    assert LookAhead(more, |a| + 1, 0) == Decided(v);
  }

  lemma NoAtEnd(a: seq<string>, st: string)
    requires st != ""
    ensures CloseLook(a + [ELSE, Mismatch(st)], |a|, 0, st) == Failed
  {
    CloseLookOnTwo(a, Mismatch(st), st);
    MismatchFails(st);
  }

  lemma LastLineEnds(lines: seq<string>, st: string, e: nat)
    requires lines != [] && ScanTokens(Tokens(lines[|lines| - 1]), 0, st) == Found(e)
    ensures CloseLook(lines, |lines| - 1, 0, st) == Ended(|lines| - 1, e)
  {
  }

  lemma ClosesAndSaysYes(a: seq<string>, x: string, st: string, e: nat)
    requires st != "" && ScanTokens(Tokens(x), 0, st) == Found(e) && e < |x| && SaysYes(x[e])
    ensures CloseLook(a + [ELSE, x], |a|, 0, st) == Ended(|a| + 1, e)
    ensures LookAhead(a + [ELSE, x], |a| + 1, e) == Decided(true)
  {
    var lines := a + [ELSE, x];
    assert |lines| == |a| + 2 && lines[|lines| - 1] == x;
    CloseLookOnTwo(a, x, st);
    LastLineEnds(lines, st, e);
    YesBehind(lines, |a| + 1, e);
  }

  lemma ClosingSaysYes(st: string)
    requires st != "" && HoldsOpeners(st)
    ensures ScanTokens(Tokens(Closing(st)), 0, st) == Found(|st|) && |st| < |Closing(st)| && SaysYes(Closing(st)[|st|])
  {
    assert st[..|st| - 0] == st;
    ClosingCloses(st, 0);
  }

  lemma CloseLookOnTwo(a: seq<string>, x: string, st: string)
    requires st != ""
    ensures CloseLook(a + [ELSE, x], |a|, 0, st) == CloseLook(a + [ELSE, x], |a| + 1, 0, st)
  {
    var more := a + [ELSE, x];
    assert more[|a|] == ELSE && more[|a| + 1] == x;
    ElseIsQuiet(st);
  }

  lemma YesBehind(lines: seq<string>, l: nat, pos: nat)
    requires l < |lines| && pos < |lines[l]| && SaysYes(lines[l][pos])
    ensures LookAhead(lines, l, pos) == Decided(true)
  {
  }

  // ----- the theorem -----

  /** The lines e, standing between a and b, do not change the verdict. */
  predicate SameVerdict(a: seq<string>, e: seq<string>, b: seq<string>, l: nat, pos: nat) {
    InTemplateArguments(a + e + b, l, pos) == InTemplateArguments(a + b, l, pos)
  }

  /**
   A verdict that starts in a is the same whatever stands between a and b, exactly when the scan is
   decided inside a.
   */
  lemma VerdictIsSafeIff(a: seq<string>, l: nat, pos: nat)
    requires l < |a|
    ensures (forall e: seq<string>, b: seq<string> :: SameVerdict(a, e, b, l, pos)) <==> LookAhead(a, l, pos).Decided?
  {
    if LookAhead(a, l, pos).Decided? {
      forall e: seq<string>, b: seq<string> ensures SameVerdict(a, e, b, l, pos) {
        VerdictOfPrefix(a, e + b, l, pos);
        VerdictOfPrefix(a, b, l, pos);
        assert a + e + b == a + (e + b);
      }
    } else {
      var yes := UndecidedGoesEitherWay(a, l, pos, true);
      var no := UndecidedGoesEitherWay(a, l, pos, false);
      VerdictIsLook(a + [ELSE, yes], l, pos);
      VerdictIsLook(a + [ELSE, no], l, pos);
      assert a + [ELSE, yes] + [] == a + [ELSE, yes] && a + [ELSE, no] + [] == a + [ELSE, no];
      assert !SameVerdict(a, [ELSE, yes], [], l, pos) || !SameVerdict(a, [ELSE, no], [], l, pos);
    }
  }

  lemma VerdictOfPrefix(a: seq<string>, more: seq<string>, l: nat, pos: nat)
    requires LookAhead(a, l, pos).Decided?
    ensures InTemplateArguments(a + more, l, pos) == LookAhead(a, l, pos).verdict
  {
    DecidedStays(a, more, l, pos);
    VerdictIsLook(a + more, l, pos);
  }

  // ----- the scan, by its characters -----

  /** None of the characters that the scan looks for. */
  predicate HoldsNoSign(u: string) {
    forall i | 0 <= i < |u| ::
      && u[i] != '{' && u[i] != '}' && u[i] != ';' && u[i] != '=' && u[i] != '[' && u[i] != ']'
      && u[i] != '.' && u[i] != '<' && u[i] != '>'
  }

  lemma SignIsAt(line: string, pos: nat, k: nat)
    requires pos <= k < |line| && (forall j | pos <= j < k :: !IsSign(line[j])) && IsSign(line[k])
    ensures SignFrom(line, pos) == k
  {
    assert !(SignFrom(line, pos) < k) && !(k < SignFrom(line, pos));
  }

  /**
   The first of these characters decides: a brace or a semicolon says no, an angle that closes, an
   equals sign, a square bracket or a dot says yes, and behind an angle that opens the scan goes on
   where that one ends, or says no.
   */
  lemma SignDecides(lines: seq<string>, l: nat, pos: nat, u: string, c: char, v: string)
    requires l < |lines| && pos <= |lines[l]| && lines[l][pos..] == u + [c] + v && HoldsNoSign(u)
    ensures c == '{' || c == '}' || c == ';' ==> !InTemplateArguments(lines, l, pos)
    ensures c == '>' || c == '=' || c == '[' || c == ']' || c == '.' ==> InTemplateArguments(lines, l, pos)
    ensures c == '<' ==> InTemplateArguments(lines, l, pos) ==
                         match CloseOf(lines, l, pos + |u|)
                         case None => false
                         case Some((m, e)) => InTemplateArguments(lines, m, e)
  {
    var line, k := lines[l], pos + |u|;
    assert line[k] == line[pos..][|u|] == c;
    forall j | pos <= j < k ensures !IsSign(line[j]) {
      assert line[j] == line[pos..][j - pos] == u[j - pos];
    }
    if IsSign(c) {
      SignIsAt(line, pos, k);
    }
  }

  /** A line without them is passed over, and behind the last line the answer is no. */
  lemma NoSignGoesOn(lines: seq<string>, l: nat, pos: nat)
    requires l < |lines| && pos <= |lines[l]| && HoldsNoSign(lines[l][pos..])
    ensures InTemplateArguments(lines, l, pos) == (l + 1 < |lines| && InTemplateArguments(lines, l + 1, 0))
  {
    if pos < |lines[l]| {
      var k := SignFrom(lines[l], pos);
      assert lines[l][k] == lines[l][pos..][k - pos];
    }
  }
}
