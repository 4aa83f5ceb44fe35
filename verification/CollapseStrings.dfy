/**
 Collapsing of the strings and characters on a line to "" and ''.

 Both kinds of quotes are handled by one loop that always looks at the first quote left.  A single
 quote behind a number is a digit separator and is dropped with the rest of its literal's quotes.
 */
module CollapseStrings {
  import opened Wrappers
  import opened Characters

  // ----- finders -----

  /** `#include` lines are left alone. */
  predicate IsInclude(line: string) {
    var s := TrimLeft(line);
    && HasAt(s, 0, "#")
    && var s' := TrimLeft(s[1..]);
       && HasAt(s', 0, "include")
       && var s'' := TrimLeft(s'[7..]);
          && (HasAt(s'', 0, "<") || HasAt(s'', 0, "\""))
          && (IndexOf(s''[1..], '>').Some? || IndexOf(s''[1..], '"').Some?)
  }

  function DigitRun(s: string, hex: bool): (n: nat)
    ensures n <= |s|
  {
    if s != "" && (IsDigit(s[0]) || (hex && IsHexDigit(s[0]))) then 1 + DigitRun(s[1..], hex) else 0
  }

  /** `[abfnrtv?"\\']` */
  predicate IsSimpleEscape(c: char) {
    || c == 'a' || c == 'b' || c == 'f' || c == 'n' || c == 'r' || c == 't' || c == 'v'
    || c == '?' || c == '"' || c == '\\' || c == '\''
  }

  /** Length of the escape sequence at the start of s; 0 if there is none. */
  function EscapeLength(s: string): (n: nat)
    ensures n <= |s|
  {
    if |s| < 2 || s[0] != '\\' then 0
    else if IsSimpleEscape(s[1]) then 2
    else if IsDigit(s[1]) then 1 + DigitRun(s[1..], false)
    else if s[1] == 'x' && |s| > 2 && IsHexDigit(s[2]) then 2 + DigitRun(s[2..], true)
    else 0
  }

  function WithoutEscapes(s: string): string {
    if s == "" then ""
    else if EscapeLength(s) > 0 then WithoutEscapes(s[EscapeLength(s)..])
    else [s[0]] + WithoutEscapes(s[1..])
  }

  /** Where the first quote of either kind stands. */
  function FirstQuote(s: string): (r: Option<nat>)
    ensures r.Some? ==> r.value < |s| && IsQuote(s[r.value])
  {
    if s == "" then None
    else if IsQuote(s[0]) then Some(0)
    else
      match FirstQuote(s[1..])
      case Some(k) => Some(k + 1)
      case None => None
  }

  predicate AllHex(s: string) {
    s == "" || (IsHexDigit(s[0]) && AllHex(s[1..]))
  }

  lemma {:induction false} AllHexAt(s: string, k: nat)
    requires AllHex(s) && k < |s|
    ensures IsHexDigit(s[k])
  {
    if k > 0 {
      AllHexAt(s[1..], k - 1);
    }
  }

  /** A number starts at i and runs to the end: 0, 0b, 0x or a digit 1-9, then hexadecimal digits. */
  predicate NumberFrom(head: string, i: nat) {
    && i < |head|
    && IsDigit(head[i])
    && WordStartsAt(head, i)
    && (|| AllHex(head[i + 1..])
        || (head[i] == '0' && i + 1 < |head| && (head[i + 1] == 'b' || head[i + 1] == 'B' || head[i + 1] == 'x' || head[i + 1] == 'X') && AllHex(head[i + 2..])))
  }

  predicate EndsInNumber(head: string, from: nat := 0)
    decreases |head| - from
  {
    from < |head| && (NumberFrom(head, from) || EndsInNumber(head, from + 1))
  }

  /** Length of the run of word characters, each with at most one single quote before it. */
  function LiteralRun(s: string): (n: nat)
    ensures n <= |s|
  {
    if s == "" then 0
    else if IsWordChar(s[0]) then 1 + LiteralRun(s[1..])
    else if s[0] == '\'' && |s| > 1 && IsWordChar(s[1]) then 2 + LiteralRun(s[2..])
    else 0
  }

  function WithoutSingleQuotes(s: string): string {
    if s == "" then ""
    else (if s[0] == '\'' then "" else [s[0]]) + WithoutSingleQuotes(s[1..])
  }

  // ----- the specification -----

  datatype Turn = Stop | Go(out: string, rest: string)

  /** One turn of the loop: what it puts out and what it leaves, or that it gives up. */
  function TurnOf(head: string, quote: char, tail: string): Turn {
    if quote == '\'' && EndsInNumber(head) then
      var separated := [quote] + tail;
      var n := LiteralRun(separated);
      Go(head + WithoutSingleQuotes(separated[..n]), separated[n..])
    else
      match IndexOf(tail, quote)
      case Some(j) => Go(head + [quote, quote], tail[j + 1..])
      case None => Stop
  }

  function TurnAt(s: string, k: nat): Turn
    requires k < |s| && IsQuote(s[k])
  {
    TurnOf(s[..k], s[k], s[k + 1..])
  }

  /** The remaining text strictly shrinks; behind a number because the head holds its digit. */
  lemma TurnShrinks(s: string, k: nat)
    requires k < |s| && IsQuote(s[k])
    ensures TurnAt(s, k).Go? ==> |TurnAt(s, k).rest| < |s|
  {
  }

  function CollapseQuotes(s: string): string
    decreases |s|
  {
    match FirstQuote(s)
    case None => s
    case Some(k) =>
      TurnShrinks(s, k);
      match TurnAt(s, k)
      case Stop => s
      case Go(out, rest) => out + CollapseQuotes(rest)
  }

  function Collapse(line: string): string {
    if IsInclude(line) then line else CollapseQuotes(WithoutEscapes(line))
  }

  // ----- the code -----

  lemma Associative(a: string, b: string, c: string)
    ensures a + (b + c) == a + b + c
  {
  }

  lemma ByTurn(s: string, k: nat, head: string, quote: char, tail: string)
    requires FirstQuote(s) == Some(k) && head == s[..k] && quote == s[k] && tail == s[k + 1..]
    ensures CollapseQuotes(s) ==
            match TurnOf(head, quote, tail)
            case Stop => s
            case Go(out, rest) => out + CollapseQuotes(rest)
  {
    TurnShrinks(s, k);
  }

  /** The body of the loop; rest is None when the loop breaks. */
  method CollapseOneQuote(elided: string, k: nat) returns (out: string, rest: Option<string>)
    requires FirstQuote(elided) == Some(k)
    ensures match TurnAt(elided, k)
            case Stop => rest == None && out == elided
            case Go(o, r) => out == o && rest == Some(r) && |r| < |elided|
  {
    var head, quote, tail := elided[..k], elided[k], elided[k + 1..];
    TurnShrinks(elided, k);
    if quote == '"' {
      var second := IndexOf(tail, '"');
      if second.Some? {
        return head + "\"\"", Some(tail[second.value + 1..]);
      }
      return elided, None;
    } else if EndsInNumber(head) {
      var separated := "'" + tail;
      var n := LiteralRun(separated);
      return head + WithoutSingleQuotes(separated[..n]), Some(separated[n..]);
    } else {
      var second := IndexOf(tail, '\'');
      if second.Some? {
        return head + "''", Some(tail[second.value + 1..]);
      }
      return elided, None;
    }
  }

  method CollapseAllQuotes(text: string) returns (collapsed: string)
    ensures collapsed == CollapseQuotes(text)
  {
    var elided := text;
    collapsed := "";
    while true
      invariant collapsed + CollapseQuotes(elided) == CollapseQuotes(text)
      decreases |elided|
    {
      var k := FirstQuote(elided);
      if k == None {
        return collapsed + elided;
      }
      var out, rest := CollapseOneQuote(elided, k.value);
      ByTurn(elided, k.value, elided[..k.value], elided[k.value], elided[k.value + 1..]);
      if rest == None {
        return collapsed + out;
      }
      Associative(collapsed, out, CollapseQuotes(rest.value));
      collapsed := collapsed + out;
      elided := rest.value;
    }
  }

  method CollapseStringsOf(line: string) returns (r: string)
    ensures r == Collapse(line)
  {
    if IsInclude(line) {
      return line;
    }
    r := CollapseAllQuotes(WithoutEscapes(line));
  }

  // ----- the result is a subsequence of the line -----

  /** a arises from b by leaving characters out. */
  predicate IsSubsequence(a: string, b: string) {
    if a == "" then true
    else if b == "" then false
    else if a[0] == b[0] then IsSubsequence(a[1..], b[1..])
    else IsSubsequence(a, b[1..])
  }

  lemma {:induction false} SubsequenceRefl(a: string)
    ensures IsSubsequence(a, a)
  {
    if a != "" {
      SubsequenceRefl(a[1..]);
    }
  }

  /** Leaving out the first character of either side in the right way keeps the relation. */
  lemma {:induction false} SubsequenceDrop(a: string, b: string)
    requires IsSubsequence(a, b)
    ensures a != "" ==> IsSubsequence(a[1..], b)
    ensures forall c :: IsSubsequence(a, [c] + b)
  {
    if a != "" {
      if a[0] == b[0] {
        SubsequenceDrop(a[1..], b[1..]);
        assert b == [b[0]] + b[1..];
      } else {
        SubsequenceDrop(a, b[1..]);
        assert IsSubsequence(a[1..], b[1..]);
        SubsequenceDrop(a[1..], b[1..]);
        assert b == [b[0]] + b[1..];
      }
    }
    forall c ensures IsSubsequence(a, [c] + b) {
      assert ([c] + b)[1..] == b;
    }
  }

  lemma {:induction false} SubsequenceSkip(a: string, skipped: string, b: string)
    requires IsSubsequence(a, b)
    ensures IsSubsequence(a, skipped + b)
  {
    if skipped == "" {
      assert skipped + b == b;
    } else {
      SubsequenceSkip(a, skipped[1..], b);
      SubsequenceDrop(a, skipped[1..] + b);
      assert skipped + b == [skipped[0]] + (skipped[1..] + b);
    }
  }

  lemma {:induction false} SubsequenceConcat(a: string, b: string, c: string, d: string)
    requires IsSubsequence(a, b) && IsSubsequence(c, d)
    ensures IsSubsequence(a + c, b + d)
    decreases |b|
  {
    if a == "" {
      assert a + c == c;
      SubsequenceSkip(c, b, d);
    } else {
      assert (b + d)[1..] == b[1..] + d;
      if a[0] == b[0] {
        assert (a + c)[1..] == a[1..] + c;
        SubsequenceConcat(a[1..], b[1..], c, d);
      } else {
        SubsequenceConcat(a, b[1..], c, d);
      }
    }
  }

  lemma {:induction false} SubsequenceTrans(a: string, b: string, c: string)
    requires IsSubsequence(a, b) && IsSubsequence(b, c)
    ensures IsSubsequence(a, c)
    decreases |c|
  {
    if a != "" {
      if b[0] == c[0] {
        if a[0] == b[0] {
          SubsequenceTrans(a[1..], b[1..], c[1..]);
        } else {
          SubsequenceTrans(a, b[1..], c[1..]);
        }
      } else {
        SubsequenceTrans(a, b, c[1..]);
        SubsequenceDrop(a, c[1..]);
      }
    }
  }

  lemma {:induction false} SubsequenceLength(a: string, b: string)
    requires IsSubsequence(a, b)
    ensures |a| <= |b|
  {
    if a != "" {
      SubsequenceLength(if a[0] == b[0] then a[1..] else a, b[1..]);
    }
  }

  lemma {:induction false} EscapesOut(s: string)
    ensures IsSubsequence(WithoutEscapes(s), s)
    decreases |s|
  {
    var n := EscapeLength(s);
    if s == "" {
    } else if n > 0 {
      EscapesOut(s[n..]);
      SubsequenceSkip(WithoutEscapes(s[n..]), s[..n], s[n..]);
      assert s == s[..n] + s[n..];
    } else {
      EscapesOut(s[1..]);
      assert WithoutEscapes(s)[1..] == WithoutEscapes(s[1..]);
    }
  }

  lemma {:induction false} SingleQuotesOut(s: string)
    ensures IsSubsequence(WithoutSingleQuotes(s), s)
  {
    if s != "" {
      SingleQuotesOut(s[1..]);
      SubsequenceDrop(WithoutSingleQuotes(s[1..]), s[1..]);
      assert s == [s[0]] + s[1..];
      if s[0] != '\'' {
        assert WithoutSingleQuotes(s)[1..] == WithoutSingleQuotes(s[1..]);
      } else {
        assert WithoutSingleQuotes(s) == WithoutSingleQuotes(s[1..]);
      }
    }
  }

  lemma QuotedOut(head: string, q: string, inside: string)
    ensures IsSubsequence(head + (q + q), head + (q + (inside + q)))
  {
    SubsequenceRefl(head);
    SubsequenceRefl(q);
    SubsequenceSkip(q, inside, q);
    SubsequenceConcat(q, q, q, inside + q);
    SubsequenceConcat(head, head, q + q, q + (inside + q));
  }

  lemma LiteralOut(head: string, lit: string)
    ensures IsSubsequence(head + WithoutSingleQuotes(lit), head + lit)
  {
    SubsequenceRefl(head);
    SingleQuotesOut(lit);
    SubsequenceConcat(head, head, WithoutSingleQuotes(lit), lit);
  }

  /** The piece that a turn takes off the front. */
  function PieceAt(s: string, k: nat): (piece: string)
    requires k < |s| && IsQuote(s[k]) && TurnAt(s, k).Go?
    ensures s == piece + TurnAt(s, k).rest
  {
    if s[k] == '\'' && EndsInNumber(s[..k]) then
      assert [s[k]] + s[k + 1..] == s[k..];
      s[..k + LiteralRun(s[k..])]
    else
      s[..k + 2 + IndexOf(s[k + 1..], s[k]).value]
  }

  lemma LiteralTurnOut(s: string, k: nat)
    requires k < |s| && IsQuote(s[k]) && TurnAt(s, k).Go? && s[k] == '\'' && EndsInNumber(s[..k])
    ensures IsSubsequence(TurnAt(s, k).out, PieceAt(s, k))
  {
    var n := LiteralRun(s[k..]);
    assert [s[k]] + s[k + 1..] == s[k..];
    LiteralOut(s[..k], s[k..][..n]);
    assert s[..k + n] == s[..k] + s[k..][..n];
  }

  lemma QuotedTurnOut(s: string, k: nat)
    requires k < |s| && IsQuote(s[k]) && TurnAt(s, k).Go? && !(s[k] == '\'' && EndsInNumber(s[..k]))
    ensures IsSubsequence(TurnAt(s, k).out, PieceAt(s, k))
  {
    var inside := s[k + 1..][..IndexOf(s[k + 1..], s[k]).value];
    QuotedOut(s[..k], [s[k]], inside);
    assert [s[k], s[k]] == [s[k]] + [s[k]];
    assert PieceAt(s, k) == s[..k] + ([s[k]] + (inside + [s[k]]));
  }

  /** A turn puts out a subsequence of the piece that it takes. */
  lemma TurnTakesOut(s: string, k: nat)
    requires k < |s| && IsQuote(s[k]) && TurnAt(s, k).Go?
    ensures IsSubsequence(TurnAt(s, k).out, PieceAt(s, k))
  {
    if s[k] == '\'' && EndsInNumber(s[..k]) {
      LiteralTurnOut(s, k);
    } else {
      QuotedTurnOut(s, k);
    }
  }

  lemma {:induction false} QuotesOut(s: string)
    ensures IsSubsequence(CollapseQuotes(s), s)
    decreases |s|
  {
    match FirstQuote(s)
    case None => SubsequenceRefl(s);
    case Some(k) =>
      TurnShrinks(s, k);
      match TurnAt(s, k)
      case Stop => SubsequenceRefl(s);
      case Go(out, rest) =>
        TurnTakesOut(s, k);
        QuotesOut(rest);
        SubsequenceConcat(out, PieceAt(s, k), CollapseQuotes(rest), rest);
  }

  /** Collapsing only leaves characters out, so it never lengthens a line. */
  lemma CollapseIsSubsequence(line: string)
    ensures IsSubsequence(Collapse(line), line) && |Collapse(line)| <= |line|
  {
    if IsInclude(line) {
      SubsequenceRefl(line);
    } else {
      EscapesOut(line);
      QuotesOut(WithoutEscapes(line));
      SubsequenceTrans(Collapse(line), WithoutEscapes(line), line);
    }
    SubsequenceLength(Collapse(line), line);
  }

  // ----- a second pass of the quote loop changes nothing -----

  lemma {:induction false} FirstQuoteOfConcat(a: string, b: string)
    requires FirstQuote(a) == None
    ensures FirstQuote(a + b) == if FirstQuote(b) == None then None else Some(|a| + FirstQuote(b).value)
  {
    if a == "" {
      assert a + b == b;
    } else {
      FirstQuoteOfConcat(a[1..], b);
      assert (a + b)[1..] == a[1..] + b;
    }
  }

  lemma {:induction false} NoQuoteBeforeFirst(s: string, k: nat)
    requires k <= |s| && (FirstQuote(s) == None || k <= FirstQuote(s).value)
    ensures FirstQuote(s[..k]) == None
  {
    if k > 0 {
      NoQuoteBeforeFirst(s[1..], k - 1);
      assert s[..k][1..] == s[1..][..k - 1];
    }
  }

  /** Neither a word character nor a separator before one stands at the start of y. */
  predicate StandsApart(y: string) {
    && (y != "" ==> !IsWordChar(y[0]))
    && (|y| > 1 && y[0] == '\'' ==> !IsWordChar(y[1]))
  }

  /** The run of a literal ends where nothing of it can go on. */
  lemma {:induction false} LiteralRunEnds(s: string)
    ensures StandsApart(s[LiteralRun(s)..])
    decreases |s|
  {
    var n := LiteralRun(s);
    if s == "" {
    } else if IsWordChar(s[0]) {
      LiteralRunEnds(s[1..]);
      assert s[n..] == s[1..][n - 1..];
    } else if n > 0 {
      LiteralRunEnds(s[2..]);
      assert s[n..] == s[2..][n - 2..];
    }
  }

  predicate NoDoubleQuote(s: string) {
    s == "" || (s[0] != '"' && NoDoubleQuote(s[1..]))
  }

  lemma {:induction false} LiteralHasNoDoubleQuote(s: string)
    ensures NoDoubleQuote(s[..LiteralRun(s)])
    decreases |s|
  {
    var n := LiteralRun(s);
    if s == "" {
    } else if IsWordChar(s[0]) {
      LiteralHasNoDoubleQuote(s[1..]);
      assert s[..n][1..] == s[1..][..n - 1];
    } else if n > 0 {
      LiteralHasNoDoubleQuote(s[2..]);
      assert s[..n][1..][1..] == s[2..][..n - 2];
    }
  }

  lemma {:induction false} NoQuoteIsLeft(s: string)
    requires NoDoubleQuote(s)
    ensures FirstQuote(WithoutSingleQuotes(s)) == None
  {
    if s != "" {
      NoQuoteIsLeft(s[1..]);
      var w := WithoutSingleQuotes(s[1..]);
      if s[0] == '\'' {
        assert WithoutSingleQuotes(s) == w;
      } else {
        assert WithoutSingleQuotes(s) == [s[0]] + w && ([s[0]] + w)[1..] == w;
      }
    }
  }

  lemma NoNumberAcross(h: string, w: string, i: nat)
    requires w != "" && !IsWordChar(w[0]) && i <= |h|
    ensures !NumberFrom(h + w, i)
  {
    var x := h + w;
    assert x[|h|] == w[0];
    if i < |h| {
      if AllHex(x[i + 1..]) {
        AllHexAt(x[i + 1..], |h| - i - 1);
      }
      if i + 1 < |h| && AllHex(x[i + 2..]) {
        AllHexAt(x[i + 2..], |h| - i - 2);
      }
    }
  }

  lemma SameNumber(h: string, w: string, m: nat)
    requires 0 < m <= |w|
    ensures NumberFrom(h + w, |h| + m) == NumberFrom(w, m)
  {
    var x, i := h + w, |h| + m;
    if m < |w| {
      assert x[i] == w[m] && x[i - 1] == w[m - 1];
      assert x[i + 1..] == w[m + 1..];
      if m + 1 < |w| {
        assert x[i + 1] == w[m + 1];
        assert x[i + 2..] == w[m + 2..];
      }
    }
  }

  lemma {:induction false} SameNumberEnd(h: string, w: string, m: nat)
    requires 0 < m <= |w|
    ensures EndsInNumber(h + w, |h| + m) == EndsInNumber(w, m)
    decreases |w| - m
  {
    SameNumber(h, w, m);
    if m < |w| {
      SameNumberEnd(h, w, m + 1);
    }
  }

  lemma {:induction false} NoNumberStartsIn(h: string, w: string, i: nat)
    requires w != "" && !IsWordChar(w[0]) && i <= |h| + 1
    ensures EndsInNumber(h + w, i) == EndsInNumber(h + w, |h| + 1)
    decreases |h| + 1 - i
  {
    if i <= |h| {
      NoNumberAcross(h, w, i);
      NoNumberStartsIn(h, w, i + 1);
    }
  }

  /** What stands before a character that is no word character cannot be part of a number behind it. */
  lemma NumberBehind(h: string, w: string)
    requires w != "" && !IsWordChar(w[0])
    ensures EndsInNumber(h + w) == EndsInNumber(w)
  {
    NoNumberStartsIn(h, w, 0);
    SameNumberEnd(h, w, 1);
  }

  function Prefixed(h: string, turn: Turn): Turn {
    match turn
    case Stop => Stop
    case Go(out, rest) => Go(h + out, rest)
  }

  lemma FrontTurn(h: string, head: string, quote: char, tail: string)
    requires quote == '\'' ==> EndsInNumber(h + head) == EndsInNumber(head)
    ensures TurnOf(h + head, quote, tail) == Prefixed(h, TurnOf(head, quote, tail))
  {
    if quote == '\'' && EndsInNumber(head) {
      var separated := [quote] + tail;
      Associative(h, head, WithoutSingleQuotes(separated[..LiteralRun(separated)]));
    } else {
      Associative(h, head, [quote, quote]);
    }
  }

  /** Text without quotes in front of such a y is left as it is, and y is collapsed as if alone. */
  lemma FrontIsLeft(h: string, y: string)
    requires FirstQuote(h) == None && StandsApart(y)
    ensures CollapseQuotes(h + y) == h + CollapseQuotes(y)
  {
    FirstQuoteOfConcat(h, y);
    match FirstQuote(y)
    case None =>
    case Some(k) =>
      FrontAtQuote(h, y, k);
  }

  lemma FrontAtQuote(h: string, y: string, k: nat)
    requires FirstQuote(h) == None && StandsApart(y)
    requires FirstQuote(y) == Some(k) && FirstQuote(h + y) == Some(|h| + k)
    ensures CollapseQuotes(h + y) == h + CollapseQuotes(y)
  {
    if k > 0 {
      FrontBehindText(h, y, k);
    } else if y[0] == '\'' && EndsInNumber(h) {
      SeparatorIsLeft(h, y);
      FrontSlices(h, y, k);
      assert h + y[..0] == h;
      ByTurn(h + y, |h|, h, y[0], y[1..]);
    } else {
      FrontSlices(h, y, k);
      assert h + y[..0] == h && y[..0] == "";
      FrontTurn(h, "", y[0], y[1..]);
      FrontByTurns(h, y, 0);
    }
  }

  lemma FrontSlices(h: string, y: string, k: nat)
    requires k < |y|
    ensures (h + y)[..|h| + k] == h + y[..k] && (h + y)[|h| + k] == y[k] && (h + y)[|h| + k + 1..] == y[k + 1..]
  {
  }

  lemma FrontBehindText(h: string, y: string, k: nat)
    requires StandsApart(y) && 0 < k
    requires FirstQuote(y) == Some(k) && FirstQuote(h + y) == Some(|h| + k)
    ensures CollapseQuotes(h + y) == h + CollapseQuotes(y)
  {
    assert y[..k][0] == y[0];
    NumberBehind(h, y[..k]);
    FrontTurn(h, y[..k], y[k], y[k + 1..]);
    FrontByTurns(h, y, k);
  }

  lemma FrontByTurns(h: string, y: string, k: nat)
    requires FirstQuote(y) == Some(k) && FirstQuote(h + y) == Some(|h| + k)
    requires TurnOf(h + y[..k], y[k], y[k + 1..]) == Prefixed(h, TurnOf(y[..k], y[k], y[k + 1..]))
    ensures CollapseQuotes(h + y) == h + CollapseQuotes(y)
  {
    FrontSlices(h, y, k);
    ByTurn(h + y, |h| + k, h + y[..k], y[k], y[k + 1..]);
    ByTurn(y, k, y[..k], y[k], y[k + 1..]);
    match TurnOf(y[..k], y[k], y[k + 1..])
    case Stop =>
    case Go(out, rest) => Associative(h, out, CollapseQuotes(rest));
  }

  /** A single quote behind a number that separates no digit ends the literal and is left. */
  lemma SeparatorIsLeft(h: string, y: string)
    requires EndsInNumber(h) && StandsApart(y) && y != "" && y[0] == '\''
    ensures TurnOf(h, '\'', y[1..]) == Go(h, y)
  {
    assert ['\''] + y[1..] == y;
    assert LiteralRun(y) == 0;
    assert y[..0] == "" && y[0..] == y && h + "" == h;
  }

  lemma CollapseKeepsApart(y: string)
    requires StandsApart(y)
    ensures StandsApart(CollapseQuotes(y))
  {
    match FirstQuote(y)
    case None =>
    case Some(k) =>
      TurnShrinks(y, k);
      if k == 0 {
        assert y[..0] == "";
        assert !EndsInNumber("");
      } else {
        assert y[..k][0] == y[0];
      }
  }

  /** The quote loop applied to its own result changes nothing. */
  lemma {:induction false} QuoteLoopIsIdempotent(s: string)
    ensures CollapseQuotes(CollapseQuotes(s)) == CollapseQuotes(s)
    decreases |s|
  {
    match FirstQuote(s)
    case None =>
    case Some(k) =>
      TurnShrinks(s, k);
      NoQuoteBeforeFirst(s, k);
      var head := s[..k];
      match TurnAt(s, k)
      case Stop =>
      case Go(out, rest) =>
        QuoteLoopIsIdempotent(rest);
        if s[k] == '\'' && EndsInNumber(head) {
          var separated := [s[k]] + s[k + 1..];
          var n := LiteralRun(separated);
          LiteralRunEnds(separated);
          LiteralHasNoDoubleQuote(separated);
          NoQuoteIsLeft(separated[..n]);
          FirstQuoteOfConcat(head, WithoutSingleQuotes(separated[..n]));
          CollapseKeepsApart(rest);
          FrontIsLeft(out, CollapseQuotes(rest));
        } else {
          PairIsLeft(head, s[k], CollapseQuotes(rest));
        }
  }

  /** An empty string or character behind text without quotes is left as it is. */
  lemma PairIsLeft(head: string, q: char, y: string)
    requires FirstQuote(head) == None && IsQuote(q)
    requires q == '\'' ==> !EndsInNumber(head)
    ensures CollapseQuotes(head + [q, q] + y) == head + [q, q] + CollapseQuotes(y)
  {
    var x := head + [q, q] + y;
    assert x == head + ([q, q] + y);
    FirstQuoteOfConcat(head, [q, q] + y);
    assert x[..|head|] == head && x[|head|] == q;
    assert x[|head| + 1..] == [q] + y;
    assert ([q] + y)[1..] == y;
    assert TurnOf(head, q, [q] + y) == Go(head + [q, q], y);
    ByTurn(x, |head|, head, q, [q] + y);
  }

  /** The whole is not: dropping an escape sequence can join the parts of another one. */
  lemma EscapesCanReappear()
    ensures Collapse("\\x\\n5") == "\\x5" && Collapse("\\x5") == ""
  {
    EscapesJoin();
    assert FirstQuote("5") == None && "x5"[1..] == "5";
    assert FirstQuote("x5") == None && "\\x5"[1..] == "x5";
    assert FirstQuote("\\x5") == None;
  }

  lemma EscapesJoin()
    ensures WithoutEscapes("\\x\\n5") == "\\x5" && WithoutEscapes("\\x5") == ""
  {
    assert "\\x\\n5"[1..] == "x\\n5" && "x\\n5"[1..] == "\\n5" && "\\n5"[2..] == "5" && "5"[1..] == "";
    assert WithoutEscapes("5") == "5";
    assert WithoutEscapes("\\n5") == "5";
    assert WithoutEscapes("x\\n5") == "x5";
    assert "\\x5"[2..] == "5";
    assert EscapeLength("\\x5") == 3;
    assert "\\x5"[3..] == "";
  }
}
