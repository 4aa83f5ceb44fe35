/**
 When a line is an include line once it has been collapsed, and with that, when collapsing a line a
 second time changes nothing, told from the line alone.

 The quotes are collapsed behind the head of an include only, so the head is that of the line without
 its escapes.  What the head needs behind it, a closing `>` or `"`, must not be collapsed away.
 */
module IncludeLines {
  import opened Wrappers
  import opened Characters
  import opened CollapseStrings
  import opened CollapseTwice

  // ----- the head of an include -----

  /** `^\s*#\s*include\s*[<"]`, with the `#` at a, the word at b and the opening character at o. */
  predicate HeadUpTo(line: string, a: nat, b: nat, o: nat) {
    && a < b && b + 7 <= o < |line|
    && AllSpace(line, 0, a) && line[a] == '#'
    && AllSpace(line, a + 1, b) && IsWordInclude(line, b)
    && AllSpace(line, b + 7, o) && (line[o] == '<' || line[o] == '"')
  }

  predicate IsWordInclude(line: string, b: nat) {
    && b + 7 <= |line|
    && line[b] == 'i' && line[b + 1] == 'n' && line[b + 2] == 'c' && line[b + 3] == 'l'
    && line[b + 4] == 'u' && line[b + 5] == 'd' && line[b + 6] == 'e'
  }

  predicate Closes(c: char) {
    c == '>' || c == '"'
  }

  predicate HasCloser(s: string, from: nat) {
    exists k | from <= k < |s| :: Closes(s[k])
  }

  lemma WordIsAt(line: string, b: nat)
    ensures HasAt(line, b, "include") <==> IsWordInclude(line, b)
  {
    if b + 7 <= |line| {
      var part := line[b..b + 7];
      assert part[0] == line[b] && part[1] == line[b + 1] && part[2] == line[b + 2] && part[3] == line[b + 3];
      assert part[4] == line[b + 4] && part[5] == line[b + 5] && part[6] == line[b + 6];
      assert part == [part[0], part[1], part[2], part[3], part[4], part[5], part[6]];
    }
  }

  /** From i on, over spaces to j. */
  lemma TrimFrom(line: string, i: nat, j: nat)
    requires AllSpace(line, i, j) && (j < |line| ==> !IsSpace(line[j]))
    ensures TrimLeft(line[i..]) == line[j..]
  {
    var n := TrimSkips(line[i..]);
    assert forall k | 0 <= k < |line| - i :: line[i..][k] == line[i + k];
    assert i + n >= j && i + n <= j;
    assert line[i..][n..] == line[i + n..];
  }

  lemma TrimTo(line: string, i: nat) returns (j: nat)
    requires i <= |line|
    ensures AllSpace(line, i, j) && TrimLeft(line[i..]) == line[j..]
  {
    var n := TrimSkips(line[i..]);
    j := i + n;
    assert line[i..][n..] == line[j..];
    assert forall k | i <= k < j :: line[k] == line[i..][k - i];
  }

  lemma {:induction false} IndexOfFinds(s: string, c: char)
    ensures IndexOf(s, c).Some? <==> exists k | 0 <= k < |s| :: s[k] == c
  {
    if s != "" {
      IndexOfFinds(s[1..], c);
      if k :| 0 <= k < |s| && s[k] == c {
        assert k > 0 ==> s[1..][k - 1] == c;
      }
      if k :| 0 <= k < |s[1..]| && s[1..][k] == c {
        assert s[k + 1] == c;
      }
    }
  }

  lemma CloserBehind(line: string, o: nat)
    requires o < |line|
    ensures IndexOf(line[o + 1..], '>').Some? || IndexOf(line[o + 1..], '"').Some? <==> HasCloser(line, o + 1)
  {
    var s := line[o + 1..];
    IndexOfFinds(s, '>');
    IndexOfFinds(s, '"');
    assert forall k | 0 <= k < |s| :: s[k] == line[o + 1 + k];
    if k :| o + 1 <= k < |line| && Closes(line[k]) {
      assert s[k - (o + 1)] == line[k];
    }
  }

  lemma OneAt(line: string, a: nat, c: char)
    requires a <= |line|
    ensures HasAt(line[a..], 0, [c]) <==> a < |line| && line[a] == c
    ensures a < |line| ==> line[a..][1..] == line[a + 1..]
  {
    if a < |line| {
      assert line[a..][0..1] == [line[a]];
    }
  }

  lemma WordAt(line: string, b: nat)
    requires b <= |line|
    ensures HasAt(line[b..], 0, "include") <==> IsWordInclude(line, b)
    ensures b + 7 <= |line| ==> line[b..][7..] == line[b + 7..]
  {
    WordIsAt(line, b);
    if b + 7 <= |line| {
      assert line[b..][0..7] == line[b..b + 7];
    }
  }

  /** Whether a line is an include line, by the places where the pattern goes on. */
  lemma IncludeByPlaces(line: string, a: nat, b: nat, o: nat)
    requires a <= |line| && TrimLeft(line) == line[a..]
    requires a < |line| && line[a] == '#' ==> b <= |line| && TrimLeft(line[a + 1..]) == line[b..]
    requires a < |line| && line[a] == '#' && IsWordInclude(line, b) ==> o <= |line| && TrimLeft(line[b + 7..]) == line[o..]
    ensures IsInclude(line) <==>
            && a < |line| && line[a] == '#' && IsWordInclude(line, b)
            && o < |line| && (line[o] == '<' || line[o] == '"') && HasCloser(line, o + 1)
  {
    OneAt(line, a, '#');
    if a < |line| && line[a] == '#' {
      WordAt(line, b);
      if IsWordInclude(line, b) {
        OneAt(line, o, '<');
        OneAt(line, o, '"');
        if o < |line| {
          CloserBehind(line, o);
        }
      }
    }
  }

  /** With a head, a line is an include line if a closing character follows. */
  lemma HeadDecides(line: string, a: nat, b: nat, o: nat)
    requires HeadUpTo(line, a, b, o)
    ensures IsInclude(line) <==> HasCloser(line, o + 1)
  {
    assert line[0..] == line;
    TrimFrom(line, 0, a);
    TrimFrom(line, a + 1, b);
    TrimFrom(line, b + 7, o);
    IncludeByPlaces(line, a, b, o);
  }

  /** And an include line has a head. */
  lemma IncludeHasHead(line: string) returns (a: nat, b: nat, o: nat)
    requires IsInclude(line)
    ensures HeadUpTo(line, a, b, o)
  {
    assert line[0..] == line;
    a := TrimTo(line, 0);
    b, o := 0, 0;
    if a < |line| && line[a] == '#' {
      b := TrimTo(line, a + 1);
      if IsWordInclude(line, b) {
        o := TrimTo(line, b + 7);
      }
    }
    IncludeByPlaces(line, a, b, o);
  }

  // ----- what becomes of a head -----

  /** What stands in front of the opening character. */
  predicate IsHeadChar(c: char) {
    IsSpace(c) || c == '#' || c == 'i' || c == 'n' || c == 'c' || c == 'l' || c == 'u' || c == 'd' || c == 'e'
  }

  lemma HeadChars(line: string, a: nat, b: nat, o: nat, k: nat)
    requires HeadUpTo(line, a, b, o) && k < o
    ensures IsHeadChar(line[k])
  {
    assert k < a || k == a || a < k < b || k == b || k == b + 1 || k == b + 2 || k == b + 3 || k == b + 4 || k == b + 5 ||
           k == b + 6 || b + 7 <= k;
  }

  lemma HeadOfPrefix(x: string, y: string, n: nat, a: nat, b: nat, o: nat)
    requires HeadUpTo(x, a, b, o) && o < n <= |x| && n <= |y| && forall k | 0 <= k < n :: x[k] == y[k]
    ensures HeadUpTo(y, a, b, o)
  {
  }

  lemma {:induction false} NumberHasDigit(head: string, from: nat) returns (k: nat)
    requires EndsInNumber(head, from)
    ensures k < |head| && IsDigit(head[k])
    decreases |head| - from
  {
    if NumberFrom(head, from) {
      k := from;
    } else {
      k := NumberHasDigit(head, from + 1);
    }
  }

  lemma {:induction false} NoQuoteBefore(w: string, k: nat)
    requires FirstQuote(w).Some? && k < FirstQuote(w).value
    ensures !IsQuote(w[k])
  {
    if k > 0 {
      NoQuoteBefore(w[1..], k - 1);
    }
  }

  /** One turn, and what the others make of the rest. */
  lemma TurnMakes(w: string)
    requires HasTurn(w)
    ensures var q := FirstQuote(w).value;
            CollapseQuotes(w) == w[..q] + (Middle(w, q) + CollapseQuotes(TurnAt(w, q).rest))
  {
    var q := FirstQuote(w).value;
    TurnParts(w, q);
    ByTurn(w, q, w[..q], w[q], w[q + 1..]);
    Associative(w[..q], Middle(w, q), CollapseQuotes(TurnAt(w, q).rest));
  }

  /** Up to the quote at q, and with it if it is a double one, c is w; before it stands no quote. */
  predicate Agree(w: string, c: string, q: nat) {
    && q < |w| && q <= |c| && IsQuote(w[q])
    && (forall k | 0 <= k < q :: c[k] == w[k] && !IsQuote(w[k]))
    && (w[q] == '"' ==> q < |c| && c[q] == '"')
  }

  /** A head of w is a head of c. */
  lemma HeadStays(w: string, c: string, q: nat, a: nat, b: nat, o: nat)
    requires Agree(w, c, q) && HeadUpTo(w, a, b, o)
    ensures o <= q && (o == q ==> w[q] == '"') && HeadUpTo(c, a, b, o)
  {
    if q < o {
      HeadChars(w, a, b, o, q);
    } else if o < q {
      HeadOfPrefix(w, c, q, a, b, o);
    } else {
      HeadOfPrefix(w, c, q + 1, a, b, o);
    }
  }

  /** And a head of c one of w, if a single quote at q stays as well or stands behind a number. */
  lemma HeadWas(w: string, c: string, q: nat, a: nat, b: nat, o: nat)
    requires Agree(w, c, q) && HeadUpTo(c, a, b, o)
    requires w[q] == '\'' ==> (q < |c| && c[q] == '\'') || exists k | 0 <= k < q :: IsDigit(w[k])
    ensures o <= q && (o == q ==> w[q] == '"') && HeadUpTo(w, a, b, o)
  {
    if o < q {
      HeadOfPrefix(c, w, q, a, b, o);
    } else if w[q] == '"' && o == q {
      HeadOfPrefix(c, w, q + 1, a, b, o);
    } else {
      HeadHasNoQuote(w, c, q, a, b, o);
    }
  }

  lemma HeadHasNoQuote(w: string, c: string, q: nat, a: nat, b: nat, o: nat)
    requires Agree(w, c, q) && HeadUpTo(c, a, b, o) && q <= o
    requires w[q] == '\'' ==> (q < |c| && c[q] == '\'') || exists k | 0 <= k < q :: IsDigit(w[k])
    ensures o == q && w[q] == '"'
  {
    if k :| 0 <= k < q && IsDigit(w[k]) {
      HeadChars(c, a, b, o, k);
    }
    if q < o {
      HeadChars(c, a, b, o, q);
    }
  }

  // ----- which closing characters are left -----

  /** Position k is not collapsed away, or is one of the quotes of a pair that is. */
  predicate Survives(t: Turns, k: nat) {
    match t
    case Last(_) => true
    case More(head, hidden, more) =>
      || k <= |head|
      || k + 1 == |head| + |hidden|
      || (k >= |head| + |hidden| && Survives(more, k - |head| - |hidden|))
  }

  predicate Keeps(w: string, t: Turns, from: nat) {
    exists k | from <= k < |w| :: Closes(w[k]) && Survives(t, k)
  }

  predicate KeepsCloser(w: string, from: nat) {
    Keeps(w, TurnsOf(w), from)
  }

  /** A single quote hides no closing character at its ends and leaves none. */
  predicate HasNoCloser(s: string) {
    forall k | 0 <= k < |s| :: !Closes(s[k])
  }

  lemma {:induction false} LiteralHasNoCloser(s: string)
    ensures HasNoCloser(s[..LiteralRun(s)])
    decreases |s|
  {
    var n := LiteralRun(s);
    if s != "" && IsWordChar(s[0]) {
      LiteralHasNoCloser(s[1..]);
      assert forall k | 1 <= k < n :: s[..n][k] == s[1..][..n - 1][k - 1];
    } else if n > 0 {
      LiteralHasNoCloser(s[2..]);
      assert forall k | 2 <= k < n :: s[..n][k] == s[2..][..n - 2][k - 2];
    }
  }

  lemma {:induction false} DroppingKeepsNoCloser(s: string)
    requires HasNoCloser(s)
    ensures HasNoCloser(WithoutSingleQuotes(s))
  {
    if s != "" {
      DroppingKeepsNoCloser(s[1..]);
    }
  }

  lemma SingleQuoteEnds(w: string, q: nat)
    requires q < |w| && w[q] == '\'' && TurnAt(w, q).Go?
    ensures HasNoCloser(Middle(w, q))
    ensures var n := |PieceAt(w, q)|; q < n <= |w| ==> !Closes(w[n - 1])
  {
    if EndsInNumber(w[..q]) {
      var s := w[q..];
      LiteralHasNoCloser(s);
      DroppingKeepsNoCloser(s[..LiteralRun(s)]);
      var n := |PieceAt(w, q)|;
      if q < n {
        assert w[n - 1] == s[..LiteralRun(s)][n - 1 - q];
      }
    } else {
      var j := IndexOf(w[q + 1..], '\'').value;
      assert w[q + 1..][j] == w[q + 1 + j];
    }
  }

  lemma DoubleQuoteEnds(w: string, q: nat)
    requires q < |w| && w[q] == '"' && TurnAt(w, q).Go?
    ensures Middle(w, q) == ['"', '"']
    ensures var n := |PieceAt(w, q)|; q + 1 < n <= |w| && w[n - 1] == '"'
  {
    var j := IndexOf(w[q + 1..], '"').value;
    assert w[q + 1..][j] == w[q + 1 + j];
  }

  lemma HasCloserAt(s: string, from: nat, k: nat)
    requires from <= k < |s| && Closes(s[k])
    ensures HasCloser(s, from)
  {
  }

  lemma KeepsAt(w: string, t: Turns, from: nat, k: nat)
    requires from <= k < |w| && Closes(w[k]) && Survives(t, k)
    ensures Keeps(w, t, from)
  {
  }

  /** The first turn on w: a head up to q, a piece up to n, of which c shows m, and the rest, of which it shows y. */
  predicate FirstTurn(w: string, t: Turns, c: string, q: nat, n: nat, m: string, rest: string, t': Turns, y: string) {
    && t.More? && |t.head| == q && |t.head| + |t.hidden| == n && t.more == t'
    && q <= n <= |w| && w[n..] == rest
    && c == w[..q] + (m + y)
  }

  lemma TurnIsFirst(w: string)
    requires HasTurn(w)
    ensures var q := FirstQuote(w).value;
            var rest := TurnAt(w, q).rest;
            FirstTurn(w, TurnsOf(w), CollapseQuotes(w), q, |PieceAt(w, q)|, Middle(w, q), rest, TurnsOf(rest), CollapseQuotes(rest))
  {
    var q := FirstQuote(w).value;
    var rest := TurnAt(w, q).rest;
    TurnCuts(w, q, rest);
    TurnShrinks(w, q);
    TurnMakes(w);
    assert w == PieceAt(w, q) + rest;
    assert TurnsOf(w) == More(w[..q], PieceAt(w, q)[q..], TurnsOf(rest));
  }

  lemma DoubleQuoteKeeps(w: string, t: Turns, c: string, q: nat, n: nat, m: string, rest: string, t': Turns, y: string, from: nat)
    requires FirstTurn(w, t, c, q, n, m, rest, t', y) && from <= q + 1 < n && m == ['"', '"'] && w[n - 1] == '"'
    ensures HasCloser(c, from) && Keeps(w, t, from)
  {
    assert c[q + 1] == m[1];
    HasCloserAt(c, from, q + 1);
    KeepsAt(w, t, from, n - 1);
  }

  lemma SingleQuoteComes(w: string, t: Turns, c: string, q: nat, n: nat, m: string, rest: string, t': Turns, y: string, from: nat)
    requires FirstTurn(w, t, c, q, n, m, rest, t', y) && from <= q && HasNoCloser(m)
    requires HasCloser(y, 0) ==> Keeps(rest, t', 0)
    requires HasCloser(c, from)
    ensures Keeps(w, t, from)
  {
    assert forall i | 0 <= i < |m| :: c[q + i] == m[i];
    var k :| from <= k < |c| && Closes(c[k]);
    if k < q {
      KeepsAt(w, t, from, k);
    } else {
      assert c[k] == y[k - q - |m|];
      HasCloserAt(y, 0, k - q - |m|);
      var j :| 0 <= j < |rest| && Closes(rest[j]) && Survives(t', j);
      assert rest[j] == w[n + j];
      KeepsAt(w, t, from, n + j);
    }
  }

  lemma SingleQuoteGoes(w: string, t: Turns, c: string, q: nat, n: nat, m: string, rest: string, t': Turns, y: string, from: nat)
    requires FirstTurn(w, t, c, q, n, m, rest, t', y) && from <= q < |w| && w[q] == '\'' && (q < n ==> !Closes(w[n - 1]))
    requires Keeps(rest, t', 0) ==> HasCloser(y, 0)
    requires Keeps(w, t, from)
    ensures HasCloser(c, from)
  {
    var k :| from <= k < |w| && Closes(w[k]) && Survives(t, k);
    if k < q {
      HasCloserAt(c, from, k);
    } else {
      assert k >= n && w[k] == rest[k - n];
      KeepsAt(rest, t', 0, k - n);
      var j :| 0 <= j < |y| && Closes(y[j]);
      assert c[q + |m| + j] == y[j];
      HasCloserAt(c, from, q + |m| + j);
    }
  }

  /** One turn of the loop, if the claim holds of the rest. */
  lemma FirstTurnKeepsIff(w: string, t: Turns, c: string, q: nat, n: nat, m: string, rest: string, t': Turns, y: string, from: nat)
    requires FirstTurn(w, t, c, q, n, m, rest, t', y) && (HasCloser(y, 0) <==> Keeps(rest, t', 0)) && q < |w|
    requires w[q] == '"' ==> from <= q + 1 < n && m == ['"', '"'] && w[n - 1] == '"'
    requires w[q] != '"' ==> from <= q && w[q] == '\'' && HasNoCloser(m) && (q < n ==> !Closes(w[n - 1]))
    ensures HasCloser(c, from) <==> Keeps(w, t, from)
  {
    if w[q] == '"' {
      DoubleQuoteKeeps(w, t, c, q, n, m, rest, t', y, from);
    } else {
      if HasCloser(c, from) {
        SingleQuoteComes(w, t, c, q, n, m, rest, t', y, from);
      }
      if Keeps(w, t, from) {
        SingleQuoteGoes(w, t, c, q, n, m, rest, t', y, from);
      }
    }
  }

  lemma TurnEnds(w: string, q: nat, n: nat, m: string)
    requires q < |w| && IsQuote(w[q]) && TurnAt(w, q).Go? && n == |PieceAt(w, q)| <= |w| && m == Middle(w, q)
    ensures w[q] == '"' ==> q + 1 < n && m == ['"', '"'] && w[n - 1] == '"'
    ensures w[q] != '"' ==> HasNoCloser(m) && (q < n ==> !Closes(w[n - 1]))
  {
    if w[q] == '"' {
      DoubleQuoteEnds(w, q);
    } else {
      SingleQuoteEnds(w, q);
    }
  }

  /** The parts of the first turn. */
  lemma FirstTurnOf(w: string) returns (q: nat, n: nat, m: string, rest: string)
    requires HasTurn(w)
    ensures FirstQuote(w) == Some(q) && q < |w| && IsQuote(w[q]) && |rest| < |w|
    ensures FirstTurn(w, TurnsOf(w), CollapseQuotes(w), q, n, m, rest, TurnsOf(rest), CollapseQuotes(rest))
    ensures w[q] == '"' ==> q + 1 < n && m == ['"', '"'] && w[n - 1] == '"'
    ensures w[q] != '"' ==> HasNoCloser(m) && (q < n ==> !Closes(w[n - 1]))
  {
    q := FirstQuote(w).value;
    n, m, rest := |PieceAt(w, q)|, Middle(w, q), TurnAt(w, q).rest;
    TurnShrinks(w, q);
    TurnIsFirst(w);
    TurnEnds(w, q, n, m);
  }

  /** From any place up to the first quote, and from behind it if it is a double one. */
  lemma {:induction false} ClosersLeftIff(w: string, from: nat)
    requires HasTurn(w) ==> var q := FirstQuote(w).value; from <= q || (from == q + 1 && w[q] == '"')
    ensures HasCloser(CollapseQuotes(w), from) <==> KeepsCloser(w, from)
    decreases |w|
  {
    if HasTurn(w) {
      var q, n, m, rest := FirstTurnOf(w);
      ClosersLeftIff(rest, 0);
      FirstTurnKeepsIff(w, TurnsOf(w), CollapseQuotes(w), q, n, m, rest, TurnsOf(rest), CollapseQuotes(rest), from);
    } else {
      NoTurnLeaves(w);
      NoTurnKeeps(w, from);
    }
  }

  lemma NoTurnKeeps(w: string, from: nat)
    requires !HasTurn(w)
    ensures KeepsCloser(w, from) <==> HasCloser(w, from)
  {
    assert TurnsOf(w) == Last(w);
    if k :| from <= k < |w| && Closes(w[k]) {
      KeepsAt(w, Last(w), from, k);
    }
  }

  // ----- the theorems -----

  /** The text has the head of an include, and behind it a closing character that is not collapsed away. */
  ghost predicate IncludeIsLeft(w: string) {
    exists a: nat, b: nat, o: nat :: HeadUpTo(w, a, b, o) && KeepsCloser(w, o + 1)
  }

  lemma HeadIsLeft(w: string, a: nat, b: nat, o: nat)
    requires HeadUpTo(w, a, b, o) && KeepsCloser(w, o + 1)
    ensures IncludeIsLeft(w)
  {
  }

  lemma TurnAgrees(w: string)
    requires HasTurn(w)
    ensures var q, c := FirstQuote(w).value, CollapseQuotes(w);
            && Agree(w, c, q)
            && (w[q] == '\'' ==> (q < |c| && c[q] == '\'') || exists k | 0 <= k < q :: IsDigit(w[k]))
  {
    var q, c := FirstQuote(w).value, CollapseQuotes(w);
    TurnMakes(w);
    forall k | 0 <= k < q ensures c[k] == w[k] && !IsQuote(w[k]) {
      NoQuoteBefore(w, k);
    }
    if w[q] == '\'' && EndsInNumber(w[..q]) {
      var k := NumberHasDigit(w[..q], 0);
      assert IsDigit(w[k]);
    } else {
      assert Middle(w, q) == [w[q], w[q]];
      assert c[q] == Middle(w, q)[0];
    }
  }

  lemma CollapsedIncludeWasLeft(w: string)
    requires IsInclude(CollapseQuotes(w))
    ensures IncludeIsLeft(w)
  {
    var c := CollapseQuotes(w);
    var a, b, o := IncludeHasHead(c);
    HeadDecides(c, a, b, o);
    if HasTurn(w) {
      TurnAgrees(w);
      HeadWas(w, c, FirstQuote(w).value, a, b, o);
    } else {
      NoTurnLeaves(w);
    }
    ClosersLeftIff(w, o + 1);
    HeadIsLeft(w, a, b, o);
  }

  lemma LeftIncludeComesOut(w: string, a: nat, b: nat, o: nat)
    requires HeadUpTo(w, a, b, o) && KeepsCloser(w, o + 1)
    ensures IsInclude(CollapseQuotes(w))
  {
    var c := CollapseQuotes(w);
    if HasTurn(w) {
      TurnAgrees(w);
      HeadStays(w, c, FirstQuote(w).value, a, b, o);
    } else {
      NoTurnLeaves(w);
    }
    ClosersLeftIff(w, o + 1);
    HeadDecides(c, a, b, o);
  }

  lemma CollapsedIncludeIff(w: string)
    ensures IsInclude(CollapseQuotes(w)) <==> IncludeIsLeft(w)
  {
    if IsInclude(CollapseQuotes(w)) {
      CollapsedIncludeWasLeft(w);
    }
    if IncludeIsLeft(w) {
      var a: nat, b: nat, o: nat :| HeadUpTo(w, a, b, o) && KeepsCloser(w, o + 1);
      LeftIncludeComesOut(w, a, b, o);
    }
  }

  /**
   A second collapse changes nothing exactly when the line is an include line, or has the head of one
   once its escapes are dropped and keeps a closing character behind it, or no `\x` outside quotes is
   followed by nothing but escapes and then by a hexadecimal digit.
   */
  lemma CollapseTwiceIff(line: string)
    ensures Collapse(Collapse(line)) == Collapse(line) <==>
            || IsInclude(line)
            || IncludeIsLeft(WithoutEscapes(line))
            || forall t: nat :: !RejoinsOutsideQuotes(line, t)
  {
    CollapsedIncludeIff(WithoutEscapes(line));
    SecondCollapseIff(line);
  }
}
