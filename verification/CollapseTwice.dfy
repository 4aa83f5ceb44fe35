/**
 When collapsing a line a second time changes nothing.

 The escape sequences are dropped first.  What is left holds none, unless a `\x` was followed by
 escapes and then by a hexadecimal digit: dropping those joins the `\x` to the digit.  Collapsing the
 quotes hides such a place if it is quoted, and never makes a new one.
 */
module CollapseTwice {
  import opened Wrappers
  import opened Characters
  import opened CollapseStrings

  // ----- escape sequences -----

  /** No escape sequence stands anywhere. */
  predicate Clean(s: string) {
    s == "" || (EscapeLength(s) == 0 && Clean(s[1..]))
  }

  lemma {:induction false} EscapesShorten(s: string)
    ensures |WithoutEscapes(s)| <= |s|
    ensures WithoutEscapes(s) == s <==> Clean(s)
    ensures |WithoutEscapes(s)| == |s| ==> Clean(s)
    decreases |s|
  {
    if s != "" {
      if EscapeLength(s) > 0 {
        EscapesShorten(s[EscapeLength(s)..]);
      } else {
        EscapesShorten(s[1..]);
        assert ([s[0]] + WithoutEscapes(s[1..]))[1..] == WithoutEscapes(s[1..]);
        assert s == [s[0]] + s[1..];
      }
    }
  }

  /** A character that a backslash before it always takes along. */
  predicate IsEscaped(c: char) {
    IsSimpleEscape(c) || IsDigit(c)
  }

  predicate TameStart(s: string) {
    |s| > 1 && s[0] == '\\' ==> !IsEscaped(s[1])
  }

  /** Backslashes stand before other characters only, so the sole escapes are hexadecimal. */
  predicate Tame(s: string) {
    s == "" || (TameStart(s) && Tame(s[1..]))
  }

  /** A hexadecimal escape begins at k. */
  predicate HexFrom(s: string, k: nat) {
    k + 2 < |s| && s[k] == '\\' && s[k + 1] == 'x' && IsHexDigit(s[k + 2])
  }

  predicate HexAt(s: string) {
    HexFrom(s, 0)
  }

  predicate HasHex(s: string) {
    s != "" && (HexAt(s) || HasHex(s[1..]))
  }

  lemma {:induction false} TameIsClean(s: string)
    requires Tame(s)
    ensures Clean(s) <==> !HasHex(s)
  {
    if s != "" {
      TameIsClean(s[1..]);
    }
  }

  lemma {:induction false} EscapesLeaveTame(s: string)
    ensures Tame(WithoutEscapes(s))
    decreases |s|
  {
    if s != "" {
      var n := EscapeLength(s);
      if n > 0 {
        EscapesLeaveTame(s[n..]);
      } else {
        EscapesLeaveTame(s[1..]);
        var rest := WithoutEscapes(s[1..]);
        assert ([s[0]] + rest)[1..] == rest;
        if s[0] == '\\' && |s| > 1 {
          assert EscapeLength(s[1..]) == 0;
          assert rest == [s[1]] + WithoutEscapes(s[1..][1..]);
        }
      }
    }
  }

  // ----- joining texts -----

  /** No escape can run from the end of a into b. */
  predicate Apart(a: string, b: string) {
    a != "" && b != "" ==>
      && a[|a| - 1] != '\\'
      && !(|a| > 1 && a[|a| - 2] == '\\' && a[|a| - 1] == 'x' && IsHexDigit(b[0]))
  }

  lemma {:induction false} JoinedApart(a: string, b: string)
    requires Tame(a) && Tame(b) && Apart(a, b)
    ensures Tame(a + b)
    ensures HasHex(a + b) <==> HasHex(a) || HasHex(b)
  {
    if a == "" {
      assert a + b == b;
    } else {
      JoinedApart(a[1..], b);
      assert (a + b)[1..] == a[1..] + b;
    }
  }

  lemma {:induction false} TameSuffix(s: string, i: nat)
    requires Tame(s) && i <= |s|
    ensures Tame(s[i..])
  {
    if i > 0 {
      TameSuffix(s[1..], i - 1);
      assert s[i..] == s[1..][i - 1..];
    }
  }

  lemma {:induction false} TamePrefix(s: string, i: nat)
    requires Tame(s) && i <= |s|
    ensures Tame(s[..i])
  {
    if i > 0 {
      TamePrefix(s[1..], i - 1);
      assert s[..i][1..] == s[1..][..i - 1];
    }
  }

  lemma {:induction false} TameBefore(s: string, k: nat)
    requires Tame(s) && 0 < k < |s| && IsQuote(s[k])
    ensures s[k - 1] != '\\'
  {
    if k > 1 {
      TameBefore(s[1..], k - 1);
    }
  }

  predicate NoBackslash(s: string) {
    s == "" || (s[0] != '\\' && NoBackslash(s[1..]))
  }

  lemma {:induction false} NoBackslashIsTame(s: string)
    requires NoBackslash(s)
    ensures Tame(s) && !HasHex(s)
    ensures s != "" ==> s[|s| - 1] != '\\' && (|s| > 1 ==> s[|s| - 2] != '\\')
  {
    if s != "" {
      NoBackslashIsTame(s[1..]);
    }
  }

  lemma {:induction false} LiteralHasNoBackslash(s: string)
    ensures NoBackslash(WithoutSingleQuotes(s[..LiteralRun(s)]))
    decreases |s|
  {
    var n := LiteralRun(s);
    if s == "" {
    } else if IsWordChar(s[0]) {
      LiteralHasNoBackslash(s[1..]);
      assert s[..n][1..] == s[1..][..n - 1];
      var w := WithoutSingleQuotes(s[1..][..n - 1]);
      assert ([s[0]] + w)[1..] == w;
    } else if n > 0 {
      LiteralHasNoBackslash(s[2..]);
      assert s[..n][1..][1..] == s[2..][..n - 2];
      var w := WithoutSingleQuotes(s[2..][..n - 2]);
      assert WithoutSingleQuotes(s[..n][1..]) == [s[1]] + w;
      assert ([s[1]] + w)[1..] == w;
      assert "" + ([s[1]] + w) == [s[1]] + w;
    }
  }

  /** A number does not end in an x behind a backslash. */
  lemma {:induction false} NumberHasNoEscape(head: string, from: nat)
    requires EndsInNumber(head, from) && |head| > 1 && head[|head| - 2] == '\\'
    ensures head[|head| - 1] != 'x'
    decreases |head| - from
  {
    if NumberFrom(head, from) {
      var n := |head|;
      if from < n - 1 {
        if AllHex(head[from + 1..]) {
          AllHexAt(head[from + 1..], n - 2 - from);
        }
        if from + 1 < n && AllHex(head[from + 2..]) && from + 2 < n {
          AllHexAt(head[from + 2..], n - 3 - from);
        }
      }
    } else {
      NumberHasNoEscape(head, from + 1);
    }
  }

  // ----- what the quote loop leaves -----

  predicate HasTurn(w: string) {
    FirstQuote(w).Some? && TurnAt(w, FirstQuote(w).value).Go?
  }

  /** What the turns of the loop make of a text: heads that stay, pieces that are hidden, and a last text. */
  datatype Turns = Last(text: string) | More(head: string, hidden: string, more: Turns)

  function TurnsOf(w: string): Turns
    decreases |w|
  {
    if HasTurn(w) then
      var q := FirstQuote(w).value;
      TurnShrinks(w, q);
      var rest := TurnAt(w, q).rest;
      More(w[..q], PieceAt(w, q)[q..], TurnsOf(rest))
    else Last(w)
  }

  function TextOf(t: Turns): string {
    match t
    case Last(text) => text
    case More(head, hidden, more) => head + (hidden + TextOf(more))
  }

  /** Every head is followed by a quote. */
  predicate QuotesHide(t: Turns) {
    match t
    case Last(_) => true
    case More(_, hidden, more) =>
      && hidden + TextOf(more) != "" && IsQuote((hidden + TextOf(more))[0])
      && QuotesHide(more)
  }

  lemma TurnCuts(w: string, q: nat, rest: string)
    requires q < |w| && IsQuote(w[q]) && TurnAt(w, q).Go? && rest == TurnAt(w, q).rest
    ensures |PieceAt(w, q)| >= q && w == w[..q] + (PieceAt(w, q)[q..] + rest)
    ensures (PieceAt(w, q)[q..] + rest) != "" && (PieceAt(w, q)[q..] + rest)[0] == w[q]
  {
    var piece := PieceAt(w, q);
    assert w == piece + rest;
    assert w[q..] == piece[q..] + rest;
  }

  lemma {:induction false} TurnsMakeText(w: string)
    ensures TextOf(TurnsOf(w)) == w && QuotesHide(TurnsOf(w))
    decreases |w|
  {
    if HasTurn(w) {
      var q := FirstQuote(w).value;
      var rest := TurnAt(w, q).rest;
      TurnShrinks(w, q);
      TurnCuts(w, q, rest);
      TurnsMakeText(rest);
      assert TurnsOf(w) == More(w[..q], PieceAt(w, q)[q..], TurnsOf(rest));
    }
  }

  /** A hexadecimal escape stands where nothing is hidden. */
  predicate Exposed(t: Turns) {
    match t
    case Last(text) => HasHex(text)
    case More(head, _, more) => HasHex(head) || Exposed(more)
  }

  /** What the turn at k puts behind the text before it, and what it leaves. */
  function Middle(w: string, k: nat): string
    requires k < |w| && IsQuote(w[k])
  {
    if w[k] == '\'' && EndsInNumber(w[..k]) then WithoutSingleQuotes(w[k..][..LiteralRun(w[k..])]) else [w[k], w[k]]
  }

  lemma TurnParts(w: string, k: nat)
    requires k < |w| && IsQuote(w[k]) && TurnAt(w, k).Go?
    ensures TurnAt(w, k).out == w[..k] + Middle(w, k)
    ensures NoBackslash(Middle(w, k))
    ensures w == PieceAt(w, k) + TurnAt(w, k).rest && |TurnAt(w, k).rest| < |w|
  {
    TurnShrinks(w, k);
    assert [w[k]] + w[k + 1..] == w[k..];
    if w[k] == '\'' && EndsInNumber(w[..k]) {
      LiteralHasNoBackslash(w[k..]);
    } else {
      assert NoBackslash([w[k], w[k]]) by {
        assert [w[k], w[k]][1..] == [w[k]];
      }
    }
  }

  lemma RestIsSuffix(w: string, k: nat)
    requires k < |w| && IsQuote(w[k]) && TurnAt(w, k).Go?
    ensures w[|w| - |TurnAt(w, k).rest|..] == TurnAt(w, k).rest
  {
    TurnParts(w, k);
  }

  lemma MiddleIsApart(w: string, k: nat, y: string)
    requires Tame(w) && k < |w| && IsQuote(w[k]) && TurnAt(w, k).Go?
    requires y == CollapseQuotes(TurnAt(w, k).rest)
    ensures Apart(w[..k], Middle(w, k) + y)
  {
    if k > 0 {
      TameBefore(w, k);
      if w[k] == '\'' && EndsInNumber(w[..k]) {
        if k > 1 && w[k - 2] == '\\' {
          NumberHasNoEscape(w[..k], 0);
        }
      }
    }
  }

  lemma TurnExposes(w: string, k: nat)
    requires Tame(w) && k < |w| && FirstQuote(w) == Some(k) && TurnAt(w, k).Go?
    requires Tame(CollapseQuotes(TurnAt(w, k).rest))
    ensures Tame(CollapseQuotes(w))
    ensures HasHex(CollapseQuotes(w)) <==> HasHex(w[..k]) || HasHex(CollapseQuotes(TurnAt(w, k).rest))
  {
    var y := CollapseQuotes(TurnAt(w, k).rest);
    TurnParts(w, k);
    TamePrefix(w, k);
    NoBackslashIsTame(Middle(w, k));
    JoinedApart(Middle(w, k), y);
    MiddleIsApart(w, k, y);
    JoinedApart(w[..k], Middle(w, k) + y);
    ByTurn(w, k, w[..k], w[k], w[k + 1..]);
    Associative(w[..k], Middle(w, k), y);
  }

  lemma NoTurnLeaves(w: string)
    requires !HasTurn(w)
    ensures CollapseQuotes(w) == w
  {
    if FirstQuote(w).Some? {
      TurnShrinks(w, FirstQuote(w).value);
    }
  }

  /** Collapsing the quotes hides the quoted escapes and makes no new ones. */
  lemma {:induction false} CollapseExposes(w: string)
    requires Tame(w)
    ensures Tame(CollapseQuotes(w))
    ensures HasHex(CollapseQuotes(w)) <==> Exposed(TurnsOf(w))
    decreases |w|
  {
    if HasTurn(w) {
      var q := FirstQuote(w).value;
      TurnShrinks(w, q);
      RestIsSuffix(w, q);
      TameSuffix(w, |w| - |TurnAt(w, q).rest|);
      CollapseExposes(TurnAt(w, q).rest);
      TurnExposes(w, q);
    } else {
      NoTurnLeaves(w);
    }
  }

  // ----- where such a place lies in the line -----

  /** Position k of the text is in a head or in the last text. */
  predicate Outside(t: Turns, k: nat) {
    match t
    case Last(_) => true
    case More(head, hidden, more) =>
      k < |head| || (k >= |head| + |hidden| && Outside(more, k - |head| - |hidden|))
  }

  /** A quote ends every escape in front of it. */
  lemma HexBeforeQuote(a: string, b: string, k: nat)
    requires b != "" && IsQuote(b[0]) && k < |a|
    ensures HexFrom(a + b, k) <==> HexFrom(a, k)
  {
  }

  lemma HexBehind(a: string, b: string, k: nat)
    ensures HexFrom(a + b, |a| + k) <==> HexFrom(b, k)
  {
  }

  lemma {:induction false} HexIsSomewhere(w: string) returns (k: nat)
    requires HasHex(w)
    ensures HexFrom(w, k)
  {
    if HexAt(w) {
      k := 0;
    } else {
      k := HexIsSomewhere(w[1..]);
      k := k + 1;
    }
  }

  lemma {:induction false} SomewhereIsHex(w: string, k: nat)
    requires HexFrom(w, k)
    ensures HasHex(w)
  {
    if k > 0 {
      SomewhereIsHex(w[1..], k - 1);
    }
  }

  lemma {:induction false} ExposedIsOutside(t: Turns) returns (k: nat)
    requires QuotesHide(t) && Exposed(t)
    ensures HexFrom(TextOf(t), k) && Outside(t, k)
  {
    match t
    case Last(text) =>
      k := HexIsSomewhere(text);
    case More(head, hidden, more) =>
      if HasHex(head) {
        k := HexIsSomewhere(head);
        HexBeforeQuote(head, hidden + TextOf(more), k);
      } else {
        k := ExposedIsOutside(more);
        HexBehind(hidden, TextOf(more), k);
        HexBehind(head, hidden + TextOf(more), |hidden| + k);
        k := |head| + |hidden| + k;
      }
  }

  lemma {:induction false} OutsideIsExposed(t: Turns, k: nat)
    requires QuotesHide(t) && HexFrom(TextOf(t), k) && Outside(t, k)
    ensures Exposed(t)
  {
    match t
    case Last(text) =>
      SomewhereIsHex(text, k);
    case More(head, hidden, more) =>
      if k < |head| {
        HexBeforeQuote(head, hidden + TextOf(more), k);
        SomewhereIsHex(head, k);
      } else {
        var j := k - |head| - |hidden|;
        HexBehind(head, hidden + TextOf(more), |hidden| + j);
        HexBehind(hidden, TextOf(more), j);
        OutsideIsExposed(more, j);
      }
  }

  // ----- and in the line before the escapes were dropped -----

  /** A line is a sequence of escape sequences and of other characters. */
  datatype Unit = Escape(length: nat) | Char(c: char)

  function Units(l: string): seq<Unit>
    decreases |l|
  {
    if l == "" then []
    else if EscapeLength(l) > 0 then [Escape(EscapeLength(l))] + Units(l[EscapeLength(l)..])
    else [Char(l[0])] + Units(l[1..])
  }

  function CharsOf(us: seq<Unit>): string {
    if us == [] then ""
    else
      match us[0]
      case Escape(_) => CharsOf(us[1..])
      case Char(c) => [c] + CharsOf(us[1..])
  }

  lemma {:induction false} DroppingKeepsChars(l: string)
    ensures CharsOf(Units(l)) == WithoutEscapes(l)
    decreases |l|
  {
    if l != "" {
      var n := EscapeLength(l);
      DroppingKeepsChars(l[if n > 0 then n else 1..]);
      assert Units(l)[1..] == Units(l[if n > 0 then n else 1..]);
    }
  }

  /** A backslash that starts no escape sequence has another character behind it, and `\x` no digit. */
  predicate WellCut(us: seq<Unit>) {
    us == [] ||
    (WellCut(us[1..]) &&
     (us[0] == Char('\\') && |us| > 1 ==>
        && us[1].Char?
        && (us[1].c == 'x' && |us| > 2 ==> us[2].Escape? || !IsHexDigit(us[2].c))))
  }

  lemma {:induction false} UnitsAreWellCut(l: string)
    ensures WellCut(Units(l))
    decreases |l|
  {
    if l != "" {
      var n := EscapeLength(l);
      UnitsAreWellCut(l[if n > 0 then n else 1..]);
      assert Units(l)[1..] == Units(l[if n > 0 then n else 1..]);
      if n == 0 && l[0] == '\\' && |l| > 1 {
        BackslashUnit(l);
      }
    }
  }

  lemma BackslashUnit(l: string)
    requires |l| > 1 && l[0] == '\\' && EscapeLength(l) == 0
    ensures |Units(l)| > 1 && Units(l)[1] == Char(l[1])
    ensures l[1] == 'x' && |Units(l)| > 2 ==> Units(l)[2].Escape? || !IsHexDigit(Units(l)[2].c)
  {
    var t := l[1..];
    assert EscapeLength(t) == 0;
    assert Units(l) == [Char(l[0])] + Units(t) && Units(t) == [Char(t[0])] + Units(t[1..]);
    assert t[1..] == l[2..];
    if |Units(l)| > 2 && Units(l)[2].Char? {
      assert Units(l)[2] == Units(l[2..])[0] == Char(l[2]);
    }
  }

  /** The character behind the escape sequences that us starts with. */
  function NextChar(us: seq<Unit>): Option<char> {
    if us == [] then None
    else
      match us[0]
      case Escape(_) => NextChar(us[1..])
      case Char(c) => Some(c)
  }

  lemma {:induction false} NextIsFirst(us: seq<Unit>)
    ensures NextChar(us) == if CharsOf(us) == "" then None else Some(CharsOf(us)[0])
  {
    if us != [] {
      NextIsFirst(us[1..]);
    }
  }

  /** At t stands a `\x`, then nothing but escape sequences, at least one, and then a hexadecimal digit. */
  predicate Rejoins(us: seq<Unit>, t: nat) {
    && t + 2 < |us|
    && us[t] == Char('\\') && us[t + 1] == Char('x') && us[t + 2].Escape?
    && NextChar(us[t + 2..]).Some? && IsHexDigit(NextChar(us[t + 2..]).value)
  }

  /** How many characters stand before unit t. */
  function Image(us: seq<Unit>, t: nat): nat
    requires t <= |us|
  {
    if t == 0 then 0 else (if us[0].Char? then 1 else 0) + Image(us[1..], t - 1)
  }

  lemma RejoinsFirst(us: seq<Unit>)
    requires WellCut(us) && us != [] && us[0].Char?
    ensures HexFrom(CharsOf(us), 0) <==> Rejoins(us, 0)
  {
    if us[0].c == '\\' && |us| > 1 {
      assert CharsOf(us) == [us[0].c] + CharsOf(us[1..]);
      assert CharsOf(us[1..]) == [us[1].c] + CharsOf(us[1..][1..]);
      assert us[1..][1..] == us[2..];
      NextIsFirst(us[2..]);
    }
  }

  lemma RejoinsShift(us: seq<Unit>, t: nat)
    requires us != []
    ensures Rejoins(us, t + 1) <==> Rejoins(us[1..], t)
  {
    assert t + 3 <= |us| ==> us[t + 3..] == us[1..][t + 2..];
  }

  lemma HexBehindOne(c: char, s: string, k: nat)
    ensures HexFrom([c] + s, k + 1) <==> HexFrom(s, k)
  {
  }

  lemma HexShift(us: seq<Unit>, k: nat)
    requires us != []
    ensures HexFrom(CharsOf(us), k + if us[0].Char? then 1 else 0) <==> HexFrom(CharsOf(us[1..]), k)
  {
    match us[0]
    case Escape(_) =>
      assert CharsOf(us) == CharsOf(us[1..]);
    case Char(c) =>
      HexBehindOne(c, CharsOf(us[1..]), k);
      assert CharsOf(us) == [c] + CharsOf(us[1..]);
  }

  /** The hexadecimal escapes that appear are the joined ones. */
  lemma {:induction false} HexComesFrom(us: seq<Unit>, k: nat) returns (t: nat)
    requires WellCut(us) && HexFrom(CharsOf(us), k)
    ensures t <= |us| && Rejoins(us, t) && Image(us, t) == k
  {
    if us[0].Char? && k == 0 {
      t := 0;
      RejoinsFirst(us);
    } else {
      var j := if us[0].Char? then k - 1 else k;
      HexShift(us, j);
      t := HexComesFrom(us[1..], j);
      RejoinsShift(us, t);
      t := t + 1;
    }
  }

  lemma {:induction false} HexAppears(us: seq<Unit>, t: nat)
    requires WellCut(us) && Rejoins(us, t)
    ensures HexFrom(CharsOf(us), Image(us, t))
  {
    if t == 0 {
      RejoinsFirst(us);
    } else {
      RejoinsShift(us, t - 1);
      HexAppears(us[1..], t - 1);
      HexShift(us, Image(us[1..], t - 1));
    }
  }

  /** Such a place of the line, outside quotes as the linter sees them once the escapes are dropped. */
  predicate RejoinsOutsideQuotes(line: string, t: nat) {
    Rejoins(Units(line), t) && Outside(TurnsOf(WithoutEscapes(line)), Image(Units(line), t))
  }

  lemma ExposedIsRejoined(line: string)
    ensures Exposed(TurnsOf(WithoutEscapes(line))) <==> exists t: nat :: RejoinsOutsideQuotes(line, t)
  {
    var us, turns := Units(line), TurnsOf(WithoutEscapes(line));
    TurnsMakeText(WithoutEscapes(line));
    DroppingKeepsChars(line);
    UnitsAreWellCut(line);
    if Exposed(turns) {
      var k := ExposedIsOutside(turns);
      var t := HexComesFrom(us, k);
      assert RejoinsOutsideQuotes(line, t);
    }
    if t: nat :| RejoinsOutsideQuotes(line, t) {
      HexAppears(us, t);
      OutsideIsExposed(turns, Image(us, t));
    }
  }

  // ----- the theorem -----

  /** On text that is no include line, a second pass changes nothing exactly when no escape is left. */
  lemma SecondPassIff(line: string)
    requires !IsInclude(line) && !IsInclude(Collapse(line))
    ensures Collapse(Collapse(line)) == Collapse(line) <==> WithoutEscapes(Collapse(line)) == Collapse(line)
  {
    var c := Collapse(line);
    QuoteLoopIsIdempotent(WithoutEscapes(line));
    QuotesOut(WithoutEscapes(c));
    SubsequenceLength(CollapseQuotes(WithoutEscapes(c)), WithoutEscapes(c));
    EscapesShorten(c);
  }

  /**
   A second collapse changes nothing exactly when the line, or what became of it, is an include line,
   or no `\x` outside quotes is followed by nothing but escapes and then by a hexadecimal digit.
   */
  lemma SecondCollapseIff(line: string)
    ensures Collapse(Collapse(line)) == Collapse(line) <==>
            || IsInclude(line)
            || IsInclude(Collapse(line))
            || forall t: nat :: !RejoinsOutsideQuotes(line, t)
  {
    if !IsInclude(line) && !IsInclude(Collapse(line)) {
      SecondPassIff(line);
      EscapesLeaveTame(line);
      CollapseExposes(WithoutEscapes(line));
      TameIsClean(Collapse(line));
      EscapesShorten(Collapse(line));
      ExposedIsRejoined(line);
    }
  }
}
