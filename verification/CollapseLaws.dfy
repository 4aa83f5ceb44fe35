/**
 What collapsing makes of a string, a character, a number with separators and an escape sequence, told
 from the parts of the text.
 */
module CollapseLaws {
  import opened Wrappers
  import opened Characters
  import opened CollapseStrings

  /** No quote of either kind. */
  predicate IsUnquoted(s: string) {
    Without(s, '"') && Without(s, '\'')
  }

  // ----- numbers -----

  predicate IsHex(s: string) {
    forall i | 0 <= i < |s| :: IsHexDigit(s[i])
  }

  /** 0, 0b, 0B, 0x, 0X or a digit from 1 to 9, and then hexadecimal digits. */
  predicate IsNumber(s: string) {
    && s != ""
    && (|| (s[0] == '0' && IsHex(s[1..]))
        || (|s| > 1 && s[0] == '0' && (s[1] == 'b' || s[1] == 'B' || s[1] == 'x' || s[1] == 'X') && IsHex(s[2..]))
        || ('1' <= s[0] <= '9' && IsHex(s[1..])))
  }

  /** The text ends in a number that no word character stands before. */
  predicate NumberFromTo(h: string, i: nat) {
    i < |h| && IsNumber(h[i..]) && (i == 0 || !IsWordChar(h[i - 1]))
  }

  ghost predicate EndsInANumber(h: string) {
    exists i: nat :: NumberFromTo(h, i)
  }

  lemma {:induction false} AllHexIs(s: string)
    ensures AllHex(s) <==> IsHex(s)
  {
    if s != "" {
      AllHexIs(s[1..]);
      if IsHex(s) {
        assert forall i | 0 <= i < |s[1..]| :: s[1..][i] == s[i + 1];
      }
      if IsHex(s[1..]) && IsHexDigit(s[0]) {
        assert forall i | 1 <= i < |s| :: s[i] == s[1..][i - 1];
      }
    }
  }

  lemma NumberFromIs(h: string, i: nat)
    ensures NumberFrom(h, i) <==> NumberFromTo(h, i)
  {
    if i < |h| {
      var s := h[i..];
      assert s[0] == h[i] && s[1..] == h[i + 1..];
      AllHexIs(h[i + 1..]);
      if |s| > 1 {
        assert s[1] == h[i + 1] && s[2..] == h[i + 2..];
        AllHexIs(h[i + 2..]);
      }
    }
  }

  lemma {:induction false} EndsInNumberFrom(h: string, from: nat)
    ensures EndsInNumber(h, from) <==> exists i: nat :: from <= i && NumberFromTo(h, i)
    decreases |h| - from
  {
    if from < |h| {
      NumberFromIs(h, from);
      EndsInNumberFrom(h, from + 1);
    }
  }

  /** The test for a number is what the pattern says. */
  lemma EndsInNumberIff(h: string)
    ensures EndsInNumber(h) <==> EndsInANumber(h)
  {
    EndsInNumberFrom(h, 0);
  }

  // ----- one turn of the loop, on parts -----

  lemma {:induction false} UnquotedHasNone(h: string)
    requires IsUnquoted(h)
    ensures FirstQuote(h) == None
  {
    if h != "" {
      UnquotedHasNone(h[1..]);
    }
  }

  lemma QuoteComesFirst(h: string, q: char, tail: string)
    requires IsUnquoted(h) && IsQuote(q)
    ensures var s := h + [q] + tail;
            FirstQuote(s) == Some(|h|) && s[..|h|] == h && s[|h|] == q && s[|h| + 1..] == tail
  {
    UnquotedHasNone(h);
    assert h + [q] + tail == h + ([q] + tail);
    FirstQuoteOfConcat(h, [q] + tail);
  }

  lemma {:induction false} IndexOfFirst(a: string, c: char, b: string)
    requires Without(a, c)
    ensures IndexOf(a + [c] + b, c) == Some(|a|)
  {
    var s := a + [c] + b;
    if a == "" {
      assert s[0] == c;
    } else {
      IndexOfFirst(a[1..], c, b);
      assert s[1..] == a[1..] + [c] + b;
    }
  }

  lemma {:induction false} IndexOfNone(a: string, c: char)
    requires Without(a, c)
    ensures IndexOf(a, c) == None
  {
    if a != "" {
      IndexOfNone(a[1..], c);
    }
  }

  /** A quoted text becomes an empty one, whatever it holds. */
  lemma QuotedTextGoes(h: string, q: char, inside: string, t: string)
    requires IsUnquoted(h) && IsQuote(q) && Without(inside, q) && (q == '\'' ==> !EndsInNumber(h))
    ensures CollapseQuotes(h + [q] + (inside + [q] + t)) == h + [q, q] + CollapseQuotes(t)
  {
    var tail := inside + [q] + t;
    QuoteComesFirst(h, q, tail);
    IndexOfFirst(inside, q, t);
    assert tail[|inside| + 1..] == t;
    ByTurn(h + [q] + tail, |h|, h, q, tail);
  }

  /** A string becomes "", whatever it holds. */
  lemma StringGoes(h: string, inside: string, t: string)
    requires IsUnquoted(h) && Without(inside, '"')
    ensures CollapseQuotes(h + ['"'] + (inside + ['"'] + t)) == h + ['"', '"'] + CollapseQuotes(t)
  {
    QuotedTextGoes(h, '"', inside, t);
  }

  /** A character, or anything in single quotes, becomes '' unless a number stands before it. */
  lemma CharacterGoes(h: string, inside: string, t: string)
    requires IsUnquoted(h) && !EndsInANumber(h) && Without(inside, '\'')
    ensures CollapseQuotes(h + ['\''] + (inside + ['\''] + t)) == h + ['\'', '\''] + CollapseQuotes(t)
  {
    EndsInNumberIff(h);
    QuotedTextGoes(h, '\'', inside, t);
  }

  /** An unmatched quote leaves the rest of the text as it is. */
  lemma UnmatchedQuoteStays(h: string, q: char, tail: string)
    requires IsUnquoted(h) && IsQuote(q) && Without(tail, q) && (q == '\'' ==> !EndsInANumber(h))
    ensures CollapseQuotes(h + [q] + tail) == h + [q] + tail
  {
    EndsInNumberIff(h);
    QuoteComesFirst(h, q, tail);
    IndexOfNone(tail, q);
    ByTurn(h + [q] + tail, |h|, h, q, tail);
  }

  /** And so does text without quotes. */
  lemma UnquotedStays(h: string)
    requires IsUnquoted(h)
    ensures CollapseQuotes(h) == h
  {
    UnquotedHasNone(h);
  }

  // ----- digit separators -----

  /** The parts of a literal, each with a single quote before it. */
  function Separated(parts: seq<string>): string {
    if parts == [] then "" else ['\''] + parts[0] + Separated(parts[1..])
  }

  function Joined(parts: seq<string>): string {
    if parts == [] then "" else parts[0] + Joined(parts[1..])
  }

  /** The literal goes on neither with a word character nor with a quote and one. */
  predicate LiteralIsOver(t: string) {
    t == "" || (!IsWordChar(t[0]) && !(|t| > 1 && t[0] == '\'' && IsWordChar(t[1])))
  }

  lemma {:induction false} WordRuns(w: string, rest: string)
    requires forall i | 0 <= i < |w| :: IsWordChar(w[i])
    ensures LiteralRun(w + rest) == |w| + LiteralRun(rest)
  {
    if w == "" {
      assert w + rest == rest;
    } else {
      WordRuns(w[1..], rest);
      assert (w + rest)[1..] == w[1..] + rest;
    }
  }

  lemma PartRuns(w: string, rest: string)
    requires IsWord(w)
    ensures LiteralRun(['\''] + w + rest) == 1 + |w| + LiteralRun(rest)
  {
    var s := ['\''] + w + rest;
    assert s[1] == w[0] && s[2..] == w[1..] + rest;
    WordRuns(w[1..], rest);
  }

  lemma SeparatedFirst(parts: seq<string>, t: string)
    requires parts != []
    ensures Separated(parts) + t == ['\''] + parts[0] + (Separated(parts[1..]) + t)
    ensures |Separated(parts)| == 1 + |parts[0]| + |Separated(parts[1..])|
  {
  }

  lemma {:induction false} SeparatedRuns(parts: seq<string>, t: string)
    requires (forall i | 0 <= i < |parts| :: IsWord(parts[i])) && LiteralIsOver(t)
    ensures LiteralRun(Separated(parts) + t) == |Separated(parts)|
  {
    if parts == [] {
      assert Separated(parts) + t == t;
    } else {
      SeparatedRuns(parts[1..], t);
      PartRuns(parts[0], Separated(parts[1..]) + t);
      SeparatedFirst(parts, t);
    }
  }

  lemma {:induction false} QuotesDropped(a: string, b: string)
    ensures WithoutSingleQuotes(a + b) == WithoutSingleQuotes(a) + WithoutSingleQuotes(b)
  {
    if a == "" {
      assert a + b == b;
    } else {
      QuotesDropped(a[1..], b);
      assert (a + b)[1..] == a[1..] + b && (a + b)[0] == a[0];
      Associative(if a[0] == '\'' then "" else [a[0]], WithoutSingleQuotes(a[1..]), WithoutSingleQuotes(b));
    }
  }

  lemma {:induction false} NothingDropped(w: string)
    requires Without(w, '\'')
    ensures WithoutSingleQuotes(w) == w
  {
    if w != "" {
      NothingDropped(w[1..]);
    }
  }

  lemma {:induction false} SeparatorsDropped(parts: seq<string>)
    requires forall i | 0 <= i < |parts| :: IsWord(parts[i])
    ensures WithoutSingleQuotes(Separated(parts)) == Joined(parts)
  {
    if parts != [] {
      SeparatorsDropped(parts[1..]);
      QuotesDropped(['\''] + parts[0], Separated(parts[1..]));
      QuotesDropped(['\''], parts[0]);
      NothingDropped(parts[0]);
      assert ['\''][1..] == "" && WithoutSingleQuotes(['\'']) == "";
      assert "" + parts[0] == parts[0];
    }
  }

  lemma LiteralTurn(head: string, literal: string, digits: string, t: string)
    requires IsUnquoted(head) && EndsInNumber(head) && literal != "" && literal[0] == '\''
    requires LiteralRun(literal + t) == |literal| && WithoutSingleQuotes(literal) == digits
    ensures CollapseQuotes(head + (literal + t)) == head + digits + CollapseQuotes(t)
  {
    var separated := literal + t;
    assert separated == ['\''] + separated[1..];
    assert head + separated == head + ['\''] + separated[1..];
    QuoteComesFirst(head, '\'', separated[1..]);
    assert separated[..|literal|] == literal && separated[|literal|..] == t;
    ByTurn(head + separated, |head|, head, '\'', separated[1..]);
  }

  lemma NumberEnds(h: string, number: string)
    requires IsUnquoted(h) && (h != "" ==> !IsWordChar(h[|h| - 1])) && IsNumber(number)
    ensures IsUnquoted(h + number) && EndsInNumber(h + number)
  {
    var head := h + number;
    assert head[|h|..] == number;
    NumberIsUnquoted(number);
    assert NumberFromTo(head, |h|);
    EndsInNumberIff(head);
  }

  /** A number keeps its digits and loses its separators; what stands behind it is collapsed by itself. */
  lemma SeparatorsGo(h: string, number: string, parts: seq<string>, t: string)
    requires IsUnquoted(h) && (h != "" ==> !IsWordChar(h[|h| - 1])) && IsNumber(number)
    requires parts != [] && (forall i | 0 <= i < |parts| :: IsWord(parts[i])) && LiteralIsOver(t)
    ensures CollapseQuotes(h + number + (Separated(parts) + t)) == h + number + Joined(parts) + CollapseQuotes(t)
  {
    NumberEnds(h, number);
    SeparatedRuns(parts, t);
    SeparatorsDropped(parts);
    LiteralTurn(h + number, Separated(parts), Joined(parts), t);
  }

  lemma NumberIsUnquoted(number: string)
    requires IsNumber(number)
    ensures IsUnquoted(number)
  {
    forall i | 0 <= i < |number| ensures !IsQuote(number[i]) {
      if i > 1 {
        assert number[i] == number[1..][i - 1] == number[2..][i - 2];
      } else if i == 1 {
        assert number[1] == number[1..][0];
      }
    }
  }

  /** A quote behind a number that separates nothing is dropped as the end of it. */
  lemma SeparatorOfNothing(h: string, t: string)
    requires IsUnquoted(h) && EndsInANumber(h) && LiteralIsOver(['\''] + t)
    ensures CollapseQuotes(h + ['\''] + t) == h + CollapseQuotes(['\''] + t)
  {
    EndsInNumberIff(h);
    QuoteComesFirst(h, '\'', t);
    var separated := ['\''] + t;
    assert separated[1..] == t;
    assert LiteralRun(separated) == 0;
    assert separated[..0] == "" && separated[0..] == separated && h + "" == h;
    ByTurn(h + ['\''] + t, |h|, h, '\'', t);
  }

  // ----- escape sequences -----

  /** The characters that a backslash takes along alone. */
  predicate TakenAlone(c: char) {
    c in {'a', 'b', 'f', 'n', 'r', 't', 'v', '?', '"', '\\', '\''}
  }

  lemma TakenAloneIs(c: char)
    ensures IsSimpleEscape(c) <==> TakenAlone(c)
  {
  }

  lemma {:induction false} BackslashFirst(h: string, t: string)
    requires Without(h, '\\')
    ensures WithoutEscapes(h + t) == h + WithoutEscapes(t)
  {
    if h == "" {
      assert h + t == t && "" + WithoutEscapes(t) == WithoutEscapes(t);
    } else {
      BackslashFirst(h[1..], t);
      assert (h + t)[1..] == h[1..] + t;
    }
  }

  lemma {:induction false} DigitsRun(digits: string, t: string, hex: bool)
    requires forall i | 0 <= i < |digits| :: IsDigit(digits[i]) || (hex && IsHexDigit(digits[i]))
    requires t != "" ==> !IsDigit(t[0]) && !(hex && IsHexDigit(t[0]))
    ensures DigitRun(digits + t, hex) == |digits|
  {
    if digits == "" {
      assert digits + t == t;
    } else {
      DigitsRun(digits[1..], t, hex);
      assert (digits + t)[1..] == digits[1..] + t;
    }
  }

  /** An escape of n characters at the start of s. */
  lemma EscapeGoes(h: string, s: string, n: nat)
    requires Without(h, '\\') && 0 < n == EscapeLength(s)
    ensures WithoutEscapes(h + s) == h + WithoutEscapes(s[n..])
  {
    BackslashFirst(h, s);
  }

  lemma SimpleEscapeGoes(h: string, c: char, t: string)
    requires Without(h, '\\') && TakenAlone(c)
    ensures WithoutEscapes(h + (['\\', c] + t)) == h + WithoutEscapes(t)
  {
    var s := ['\\', c] + t;
    assert s[2..] == t;
    EscapeGoes(h, s, 2);
  }

  lemma NumericParts(digits: string, t: string)
    requires digits != ""
    ensures var s := ['\\'] + digits + t;
            s[1..] == digits + t && s[1] == digits[0] && s[1 + |digits|..] == t
  {
  }

  lemma NumericEscapeGoes(h: string, digits: string, t: string)
    requires Without(h, '\\') && digits != "" && (forall i | 0 <= i < |digits| :: IsDigit(digits[i]))
    requires t != "" ==> !IsDigit(t[0])
    ensures WithoutEscapes(h + (['\\'] + digits + t)) == h + WithoutEscapes(t)
  {
    var s := ['\\'] + digits + t;
    NumericParts(digits, t);
    DigitsRun(digits, t, false);
    EscapeGoes(h, s, 1 + |digits|);
  }

  lemma HexEscapeGoes(h: string, digits: string, t: string)
    requires Without(h, '\\') && digits != "" && IsHex(digits)
    requires t != "" ==> !IsHexDigit(t[0])
    ensures WithoutEscapes(h + (['\\', 'x'] + digits + t)) == h + WithoutEscapes(t)
  {
    var s := ['\\', 'x'] + digits + t;
    assert s[2..] == digits + t && s[2] == digits[0] && s[2 + |digits|..] == t;
    DigitsRun(digits, t, true);
    EscapeGoes(h, s, 2 + |digits|);
  }

  /** Any other backslash stays. */
  lemma OtherBackslashStays(h: string, t: string)
    requires Without(h, '\\')
    requires t != "" ==> !TakenAlone(t[0]) && !IsDigit(t[0]) && !(t[0] == 'x' && |t| > 1 && IsHexDigit(t[1]))
    ensures WithoutEscapes(h + (['\\'] + t)) == h + (['\\'] + WithoutEscapes(t))
  {
    var s := ['\\'] + t;
    assert s[1..] == t;
    BackslashFirst(h, s);
  }

  // ----- instances -----

  lemma SinglePart(part: string)
    ensures Separated([part]) == ['\''] + part && Joined([part]) == part
  {
    assert [part][1..] == [] && [part][0] == part;
    assert Separated([part][1..]) == "" && Joined([part][1..]) == "";
  }

  lemma OneSeparator(number: string, part: string)
    requires IsNumber(number) && IsWord(part)
    ensures CollapseQuotes(number + (['\''] + part)) == number + part
  {
    var parts := [part];
    SinglePart(part);
    SeparatorsGo("", number, parts, "");
    UnquotedStays("");
    assert "" + number == number && Separated(parts) + "" == Separated(parts) && number + part + "" == number + part;
  }

  lemma ThousandIsNumber(one: string, zeros: string)
    requires one == "1" && zeros == "000"
    ensures IsNumber(one) && IsWord(zeros)
  {
    assert one[1..] == "";
  }

  lemma SeparatorIn(one: string, zeros: string, line: string, without: string)
    requires IsNumber(one) && IsWord(zeros) && line == one + (['\''] + zeros) && without == one + zeros
    ensures CollapseQuotes(line) == without
  {
    OneSeparator(one, zeros);
  }

  lemma SeparatorInThousand()
    ensures CollapseQuotes("1'000") == "1000"
  {
    ThousandIsNumber("1", "000");
    SeparatorIn("1", "000", "1'000", "1000");
  }
}
