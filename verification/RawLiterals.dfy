/**
 What cleansing makes of a raw string literal, told from the parts of the text: the text before it,
 one of the five prefixes, a delimiter, what the literal holds, and the text behind it.
 */
module RawLiterals {
  import opened Wrappers
  import opened Characters
  import opened RawStrings

  // ----- the parts of a literal -----

  /** R, u8R, uR, UR or LR, with the quote. */
  predicate IsRawPrefix(p: string) {
    || (|p| == 2 && p[0] == 'R' && p[1] == '"')
    || (|p| == 4 && p[0] == 'u' && p[1] == '8' && p[2] == 'R' && p[3] == '"')
    || (|p| == 3 && (p[0] == 'u' || p[0] == 'U' || p[0] == 'L') && p[1] == 'R' && p[2] == '"')
  }

  predicate IsDelimiter(d: string) {
    forall i | 0 <= i < |d| :: !IsSpace(d[i]) && d[i] != '\\' && d[i] != '(' && d[i] != ')'
  }

  predicate PartAt(s: string, i: nat, part: string) {
    i + |part| <= |s| && forall j | 0 <= j < |part| :: s[i + j] == part[j]
  }

  /** A literal with this prefix and delimiter begins at q, where no word goes on. */
  predicate RawOpens(s: string, q: nat, p: string, d: string) {
    && IsRawPrefix(p) && IsDelimiter(d)
    && PartAt(s, q, p) && PartAt(s, q + |p|, d)
    && q + |p| + |d| < |s| && s[q + |p| + |d|] == '('
    && (q == 0 || !IsWordChar(s[q - 1]))
  }

  ghost predicate SomethingOpens(s: string, q: nat) {
    exists p: string, d: string :: RawOpens(s, q, p, d)
  }

  lemma DelimiterEndIs(s: string, i: nat, k: nat)
    requires i <= k < |s| && s[k] == '(' && forall j | i <= j < k :: IsDelimiterChar(s[j])
    ensures DelimiterEnd(s, i) == k
  {
    var r := DelimiterEnd(s, i);
    assert !(i <= r < k);
  }

  lemma PrefixIs(s: string, q: nat, p: string)
    requires IsRawPrefix(p) && PartAt(s, q, p)
    ensures PrefixLength(s, q) == |p|
  {
    assert s[q] == p[0] && s[q + 1] == p[1];
  }

  lemma OpensWithParts(s: string, q: nat, p: string, d: string)
    requires RawOpens(s, q, p, d)
    ensures OpensAt(s, q) && PrefixLength(s, q) == |p| && DelimiterEnd(s, q + |p|) == q + |p| + |d|
  {
    PrefixIs(s, q, p);
    forall j | q + |p| <= j < q + |p| + |d| ensures IsDelimiterChar(s[j]) {
      assert s[j] == d[j - q - |p|];
    }
    DelimiterEndIs(s, q + |p|, q + |p| + |d|);
  }

  lemma PartsOfOpener(s: string, q: nat)
    requires OpensAt(s, q)
    ensures SomethingOpens(s, q)
  {
    var n := PrefixLength(s, q);
    var k := DelimiterEnd(s, q + n);
    var p, d := s[q..q + n], s[q + n..k];
    assert IsRawPrefix(p);
    assert RawOpens(s, q, p, d);
  }

  /** Where something opens, a prefix, a delimiter and a parenthesis stand; and nowhere else. */
  lemma OpensIff(s: string, q: nat)
    ensures OpensAt(s, q) <==> SomethingOpens(s, q)
  {
    if OpensAt(s, q) {
      PartsOfOpener(s, q);
    }
    if SomethingOpens(s, q) {
      var p: string, d: string :| RawOpens(s, q, p, d);
      OpensWithParts(s, q, p, d);
    }
  }

  // ----- whole pieces in front of a comment -----

  predicate CommentAt(s: string, k: nat) {
    k + 1 < |s| && s[k] == '/' && s[k + 1] == '/'
  }

  /** From i to n, characters other than the quote q, and pairs of a backslash and any character. */
  predicate BodyTo(s: string, i: nat, n: nat, q: char)
    decreases n - i
  {
    i <= n <= |s| &&
    (|| i == n
     || (s[i] != q && BodyTo(s, i + 1, n, q))
     || (i + 1 < n && s[i] == '\\' && BodyTo(s, i + 2, n, q)))
  }

  /** A quoted piece from i to its closing quote at n. */
  predicate QuotedTo(s: string, i: nat, n: nat) {
    i < n < |s| && IsQuote(s[i]) && s[n] == s[i] && BodyTo(s, i + 1, n, s[i])
  }

  /** From i to k, characters that are no quotes, and quoted pieces. */
  ghost predicate PiecesTo(s: string, i: nat, k: nat)
    decreases k - i
  {
    i <= k <= |s| &&
    (|| i == k
     || (!IsQuote(s[i]) && PiecesTo(s, i + 1, k))
     || exists n: nat | n < k :: QuotedTo(s, i, n) && PiecesTo(s, n + 1, k))
  }

  ghost predicate CommentBehind(s: string, i: nat) {
    exists k: nat :: PiecesTo(s, i, k) && CommentAt(s, k)
  }

  ghost predicate CommentInQuote(s: string, i: nat, q: char) {
    exists n: nat :: BodyTo(s, i, n, q) && n < |s| && s[n] == q && CommentBehind(s, n + 1)
  }

  lemma CommentAtIs(s: string, k: nat)
    ensures HasAt(s, k, "//") <==> CommentAt(s, k)
  {
    if k + 2 <= |s| {
      assert s[k..k + 2] == [s[k], s[k + 1]];
    }
  }

  lemma BehindOne(s: string, i: nat)
    requires i < |s|
    ensures CommentBehind(s, i) <==>
            CommentAt(s, i) || (if IsQuote(s[i]) then CommentInQuote(s, i + 1, s[i]) else CommentBehind(s, i + 1))
  {
    if CommentAt(s, i) {
      assert PiecesTo(s, i, i);
    }
    if CommentBehind(s, i) {
      var k: nat :| PiecesTo(s, i, k) && CommentAt(s, k);
      if i < k && IsQuote(s[i]) {
        var n: nat :| n < k && QuotedTo(s, i, n) && PiecesTo(s, n + 1, k);
        assert CommentBehind(s, n + 1);
      }
    }
    if !IsQuote(s[i]) && CommentBehind(s, i + 1) {
      var k: nat :| PiecesTo(s, i + 1, k) && CommentAt(s, k);
      assert PiecesTo(s, i, k);
    }
    if IsQuote(s[i]) && CommentInQuote(s, i + 1, s[i]) {
      QuoteThenComment(s, i);
    }
  }

  lemma QuoteThenComment(s: string, i: nat)
    requires i < |s| && IsQuote(s[i]) && CommentInQuote(s, i + 1, s[i])
    ensures CommentBehind(s, i)
  {
    var n: nat :| BodyTo(s, i + 1, n, s[i]) && n < |s| && s[n] == s[i] && CommentBehind(s, n + 1);
    var k: nat :| PiecesTo(s, n + 1, k) && CommentAt(s, k);
    assert QuotedTo(s, i, n);
    assert PiecesTo(s, i, k);
  }

  lemma InQuoteOne(s: string, i: nat, q: char)
    requires i < |s|
    ensures CommentInQuote(s, i, q) <==>
            || (if s[i] == q then CommentBehind(s, i + 1) else CommentInQuote(s, i + 1, q))
            || (s[i] == '\\' && CommentInQuote(s, i + 2, q))
  {
    if CommentInQuote(s, i, q) {
      var n: nat :| BodyTo(s, i, n, q) && n < |s| && s[n] == q && CommentBehind(s, n + 1);
      if i < n {
        assert (s[i] != q && BodyTo(s, i + 1, n, q)) || (s[i] == '\\' && BodyTo(s, i + 2, n, q));
      }
    }
    if s[i] == q && CommentBehind(s, i + 1) {
      assert BodyTo(s, i, i, q);
    }
    if s[i] != q && CommentInQuote(s, i + 1, q) {
      var n: nat :| BodyTo(s, i + 1, n, q) && n < |s| && s[n] == q && CommentBehind(s, n + 1);
      assert BodyTo(s, i, n, q);
    }
    if s[i] == '\\' && CommentInQuote(s, i + 2, q) {
      var n: nat :| BodyTo(s, i + 2, n, q) && n < |s| && s[n] == q && CommentBehind(s, n + 1);
      assert BodyTo(s, i, n, q);
    }
  }

  /** The test for a comment is what the pattern says: whole pieces, and then two slashes. */
  lemma {:induction false} LeadsIff(s: string, i: nat, quote: Option<char>)
    ensures LeadsToComment(s, i, quote) <==>
            match quote
            case None => CommentBehind(s, i)
            case Some(q) => CommentInQuote(s, i, q)
    decreases |s| - i
  {
    if i < |s| {
      match quote
      case None =>
        CommentAtIs(s, i);
        BehindOne(s, i);
        LeadsIff(s, i + 1, if IsQuote(s[i]) then Some(s[i]) else None);
      case Some(q) =>
        InQuoteOne(s, i, q);
        LeadsIff(s, i + 1, if s[i] == q then None else quote);
        LeadsIff(s, i + 2, quote);
    } else {
      NothingBehindEnd(s, i);
    }
  }

  lemma NothingBehindEnd(s: string, i: nat)
    requires i >= |s|
    ensures !CommentBehind(s, i) && forall q :: !CommentInQuote(s, i, q)
  {
  }

  // ----- a literal in a line -----

  function Mark(d: string): string {
    [')'] + d + ['"']
  }

  function Opening(p: string, d: string): string {
    p + d + ['(']
  }

  /** The text head ends no word, nothing opens in it, and it does not lead to a comment. */
  ghost predicate IsClear(head: string, line: string) {
    && (head != "" ==> !IsWordChar(head[|head| - 1]))
    && (forall q | 0 <= q < |head| :: !SomethingOpens(line, q))
    && !CommentBehind(head, 0)
  }

  /** The closing mark does not stand in the text. */
  predicate HoldsNo(content: string, mark: string) {
    forall i | 0 <= i < |content| :: !PartAt(content, i, mark)
  }

  lemma PartAtIs(s: string, i: nat, part: string)
    ensures HasAt(s, i, part) <==> PartAt(s, i, part)
  {
    if i + |part| <= |s| {
      var there := s[i..i + |part|];
      assert forall j | 0 <= j < |part| :: there[j] == s[i + j];
    }
  }

  /** A mark begins with a parenthesis and holds no other, so none begins in content and ends behind it. */
  lemma FindsMark(content: string, d: string, tail: string)
    requires IsDelimiter(d) && HoldsNo(content, Mark(d))
    ensures Find(content + Mark(d) + tail, Mark(d)) == Some(|content|)
  {
    var s, mark := content + Mark(d) + tail, Mark(d);
    assert PartAt(s, |content|, mark);
    PartAtIs(s, |content|, mark);
    forall q | 0 <= q < |content| ensures !HasAt(s, q, mark) {
      PartAtIs(s, q, mark);
      NoMarkBefore(content, d, tail, q);
    }
  }

  lemma NoMarkBefore(content: string, d: string, tail: string, q: nat)
    requires IsDelimiter(d) && HoldsNo(content, Mark(d)) && q < |content|
    ensures !PartAt(content + Mark(d) + tail, q, Mark(d))
  {
    var s, mark := content + Mark(d) + tail, Mark(d);
    if q + |mark| <= |content| {
      if PartAt(s, q, mark) {
        assert PartAt(content, q, mark);
      }
    } else {
      assert mark[|content| - q] != ')' && s[|content|] == ')';
    }
  }

  lemma FindsNoMark(content: string, d: string)
    requires HoldsNo(content, Mark(d))
    ensures Find(content, Mark(d)) == None
  {
    forall q | 0 <= q <= |content| ensures !HasAt(content, q, Mark(d)) {
      PartAtIs(content, q, Mark(d));
    }
  }

  lemma OpensHere(head: string, p: string, d: string, more: string)
    requires IsRawPrefix(p) && IsDelimiter(d) && (head != "" ==> !IsWordChar(head[|head| - 1]))
    ensures RawOpens(head + Opening(p, d) + more, |head|, p, d)
  {
    var line := head + Opening(p, d) + more;
    assert line[|head|..] == p + d + ['('] + more;
    assert forall j | 0 <= j < |p| :: line[|head| + j] == p[j];
    assert forall j | 0 <= j < |d| :: line[|head| + |p| + j] == d[j];
  }

  lemma FirstOpenerIs(line: string, q: nat)
    requires OpensAt(line, q) && q < |line| && forall i | 0 <= i < q :: !OpensAt(line, i)
    ensures FirstOpener(line, 0) == Some(q)
  {
  }

  lemma OpensFirst(head: string, p: string, d: string, more: string)
    requires IsRawPrefix(p) && IsDelimiter(d) && IsClear(head, head + Opening(p, d) + more)
    ensures FirstOpener(head + Opening(p, d) + more, 0) == Some(|head|)
  {
    var line := head + Opening(p, d) + more;
    OpensHere(head, p, d, more);
    OpensWithParts(line, |head|, p, d);
    forall q | 0 <= q < |head| ensures !OpensAt(line, q) {
      OpensIff(line, q);
    }
    FirstOpenerIs(line, |head|);
  }

  lemma SlicesOf(head: string, p: string, d: string, more: string)
    ensures var line, k := head + Opening(p, d) + more, |head| + |p| + |d|;
            line[..|head|] == head && line[|head| + |p|..k] == d && line[k + 1..] == more
  {
  }

  /** The line falls apart where the literal opens. */
  lemma SplitsAt(head: string, p: string, d: string, more: string)
    requires IsRawPrefix(p) && IsDelimiter(d) && IsClear(head, head + Opening(p, d) + more)
    ensures var line := head + Opening(p, d) + more; !Settled(line) && Split(line) == (head, Mark(d), more)
  {
    var line := head + Opening(p, d) + more;
    OpensFirst(head, p, d, more);
    OpensHere(head, p, d, more);
    OpensWithParts(line, |head|, p, d);
    SlicesOf(head, p, d, more);
    LeadsIff(head, 0, None);
    assert ")" + d + "\"" == Mark(d);
  }

  const EMPTY := ['"', '"']

  /**
   A literal on one line: with an empty string in its place, the line is cleansed to the same, whatever
   the prefix, the delimiter and the content are.
   */
  lemma LiteralOnOneLine(head: string, p: string, d: string, content: string, tail: string, rest: seq<string>)
    requires IsRawPrefix(p) && IsDelimiter(d) && HoldsNo(content, Mark(d))
    requires IsClear(head, head + Opening(p, d) + (content + Mark(d) + tail))
    ensures CleanseFrom([head + Opening(p, d) + (content + Mark(d) + tail)] + rest, None) ==
            CleanseFrom([head + EMPTY + tail] + rest, None)
  {
    var body := content + Mark(d) + tail;
    var line := head + Opening(p, d) + body;
    SplitsAt(head, p, d, body);
    FindsMark(content, d, tail);
    assert body[|content| + |Mark(d)|..] == tail;
    assert Joined(head, body, |content|, Mark(d)) == head + EMPTY + tail;
    assert Rewrite(line) == Rewrite(head + EMPTY + tail);
    CleanseHead(line, rest, None);
    CleanseHead(head + EMPTY + tail, rest, None);
  }

  /** The line on which a literal opens that does not end there. */
  lemma LiteralStaysOpen(head: string, p: string, d: string, content: string)
    requires IsRawPrefix(p) && IsDelimiter(d) && HoldsNo(content, Mark(d))
    requires IsClear(head, head + Opening(p, d) + content)
    ensures Rewrite(head + Opening(p, d) + content) == (head + EMPTY, Some(Mark(d)))
  {
    SplitsAt(head, p, d, content);
    FindsNoMark(content, d);
    assert Cut(head) == head + EMPTY;
  }

  lemma {:induction false} SpacesOf(lead: string, y: string)
    requires (forall i | 0 <= i < |lead| :: IsSpace(lead[i])) && y != "" && !IsSpace(y[0])
    ensures SpaceCount(lead + y) == |lead|
  {
    if lead == "" {
      assert lead + y == y;
    } else {
      assert (lead + y)[1..] == lead[1..] + y;
      SpacesOf(lead[1..], y);
    }
  }

  /** The line on which it ends: its leading space stays, then an empty string, then what follows the mark. */
  lemma LiteralEnds(lead: string, x: string, d: string, tail: string)
    requires IsDelimiter(d) && (forall i | 0 <= i < |lead| :: IsSpace(lead[i])) && (x != "" ==> !IsSpace(x[0]))
    requires HoldsNo(lead + x, Mark(d))
    ensures var last := lead + x + Mark(d) + tail;
            Find(last, Mark(d)) == Some(|lead + x|) && Behind(last, |lead + x|, Mark(d)) == lead + EMPTY + tail
  {
    var last := lead + x + Mark(d) + tail;
    FindsMark(lead + x, d, tail);
    assert last == lead + (x + Mark(d) + tail);
    assert (x + Mark(d) + tail)[0] == if x == "" then ')' else x[0];
    SpacesOf(lead, x + Mark(d) + tail);
    assert last[..|lead|] == lead && last[|lead + x| + |Mark(d)|..] == tail;
  }

  /** A literal over several lines: of its lines, only what stands around it remains. */
  lemma LiteralOverLines(head: string, p: string, d: string, content: string, inside: seq<string>,
                         lead: string, x: string, tail: string, rest: seq<string>)
    requires IsRawPrefix(p) && IsDelimiter(d) && HoldsNo(content, Mark(d))
    requires IsClear(head, head + Opening(p, d) + content)
    requires forall i | 0 <= i < |inside| :: HoldsNo(inside[i], Mark(d))
    requires (forall i | 0 <= i < |lead| :: IsSpace(lead[i])) && (x != "" ==> !IsSpace(x[0])) && HoldsNo(lead + x, Mark(d))
    ensures CleanseFrom([head + Opening(p, d) + content] + (inside + ([lead + x + Mark(d) + tail] + rest)), None) ==
            [head + EMPTY] + (seq(|inside|, _ => EMPTY) + CleanseFrom([lead + EMPTY + tail] + rest, None))
  {
    var first, last := head + Opening(p, d) + content, lead + x + Mark(d) + tail;
    LiteralStaysOpen(head, p, d, content);
    forall i | 0 <= i < |inside| ensures Find(inside[i], Mark(d)) == None {
      FindsNoMark(inside[i], d);
    }
    LiteralEnds(lead, x, d, tail);
    LiteralIsErased(first, inside, last, rest, Mark(d), |lead + x|);
    assert Blanks(|inside|) == seq(|inside|, _ => EMPTY);
  }

  /** A line in which nothing opens outside a comment stays as it is. */
  lemma ClearLineStays(line: string, rest: seq<string>)
    requires forall q | 0 <= q < |line| :: SomethingOpens(line, q) ==> CommentBehind(line[..q], 0)
    ensures CleanseFrom([line] + rest, None) == [line] + CleanseFrom(rest, None)
  {
    var p := FirstOpener(line, 0);
    if p.Some? {
      OpensIff(line, p.value);
      LeadsIff(line[..p.value], 0, None);
    }
    CleanseHead(line, rest, None);
  }
}
