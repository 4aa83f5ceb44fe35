/**
 Removal of C++11 raw strings.

 A raw string opens at a word boundary with one of five prefixes, a quote, a delimiter and an opening
 parenthesis; it closes at the first `)delimiter"`, possibly many lines later.
 */
module RawStrings {
  import opened Wrappers
  import opened Characters

  // ----- finders -----

  predicate RawQuoteAt(line: string, i: nat) {
    i + 1 < |line| && line[i] == 'R' && line[i + 1] == '"'
  }

  /** Length of the raw-string prefix R, uR, UR, LR or u8R at p, with its quote; 0 if there is none. */
  function PrefixLength(line: string, p: nat): (n: nat)
    ensures p + n <= |line| || n == 0
  {
    if RawQuoteAt(line, p) then 2
    else if p < |line| && line[p] in "uUL" && RawQuoteAt(line, p + 1) then 3
    else if p + 1 < |line| && line[p] == 'u' && line[p + 1] == '8' && RawQuoteAt(line, p + 2) then 4
    else 0
  }

  predicate IsDelimiterChar(c: char) {
    !IsSpace(c) && c != '\\' && c != '(' && c != ')'
  }

  /** Where the run of delimiter characters that starts at i ends. */
  function DelimiterEnd(line: string, i: nat): (k: nat)
    requires i <= |line|
    ensures i <= k <= |line|
    ensures forall j | i <= j < k :: IsDelimiterChar(line[j])
    ensures k < |line| ==> !IsDelimiterChar(line[k])
    decreases |line| - i
  {
    if i < |line| && IsDelimiterChar(line[i]) then DelimiterEnd(line, i + 1) else i
  }

  /** A raw string opens at p. */
  predicate OpensAt(line: string, p: nat) {
    var n := PrefixLength(line, p);
    && n > 0
    && WordStartsAt(line, p)
    && var k := DelimiterEnd(line, p + n);
       k < |line| && line[k] == '('
  }

  /** The leftmost place from p on where a raw string opens. */
  function FirstOpener(line: string, p: nat): (r: Option<nat>)
    requires p <= |line|
    ensures r.Some? ==> p <= r.value < |line| && OpensAt(line, r.value)
    ensures forall q | p <= q <= |line| && (r.Some? ==> q < r.value) :: !OpensAt(line, q)
    decreases |line| - p
  {
    if p == |line| then None else if OpensAt(line, p) then Some(p) else FirstOpener(line, p + 1)
  }

  /** `s.find(word)` */
  function Find(s: string, word: string, i: nat := 0): (r: Option<nat>)
    requires i <= |s|
    ensures r.Some? ==> i <= r.value && HasAt(s, r.value, word)
    ensures forall q | i <= q <= |s| && (r.Some? ==> q < r.value) :: !HasAt(s, q, word)
    decreases |s| - i
  {
    if HasAt(s, i, word) then Some(i) else if i == |s| then None else Find(s, word, i + 1)
  }

  /**
   The text from i on leads, over whole quoted pieces, to a `//`; quote says which quote is open at i.
   Inside quotes a backslash may or may not take the next character with it, as in the pattern.
   */
  predicate LeadsToComment(s: string, i: nat, quote: Option<char>)
    decreases |s| - i
  {
    if i >= |s| then false
    else if quote == None then
      HasAt(s, i, "//") || LeadsToComment(s, i + 1, if IsQuote(s[i]) then Some(s[i]) else None)
    else
      || LeadsToComment(s, i + 1, if s[i] == quote.value then None else quote)
      || (s[i] == '\\' && LeadsToComment(s, i + 2, quote))
  }

  // ----- what becomes of one line -----

  /** A line that needs no more rewriting: nothing opens, or the first opener is in a comment. */
  predicate Settled(line: string) {
    var p := FirstOpener(line, 0);
    p == None || LeadsToComment(line[..p.value], 0, None)
  }

  /** The line around its first raw string: what stands before, the closing mark, what comes after. */
  function Split(line: string): (r: (string, string, string))
    requires !Settled(line)
    ensures |r.0| + 3 + |r.2| + |r.1| - 2 <= |line|
  {
    var p := FirstOpener(line, 0).value;
    var n := PrefixLength(line, p);
    var k := DelimiterEnd(line, p + n);
    (line[..p], ")" + line[p + n..k] + "\"", line[k + 1..])
  }

  /** A line whose raw string ends in body at e, with an empty string in place of the raw one. */
  function Joined(head: string, body: string, e: nat, mark: string): (r: string)
    requires e + |mark| <= |body|
    ensures |r| == |head| + 2 + |body| - e - |mark|
  {
    head + "\"\"" + body[e + |mark|..]
  }

  function Cut(head: string): string {
    head + "\"\""
  }

  /** The rewritten line, and the closing mark if a raw string stays open behind it. */
  function Rewrite(line: string): (string, Option<string>)
    decreases |line|
  {
    if Settled(line) then (line, None)
    else
      var (head, mark, body) := Split(line);
      match Find(body, mark)
      case Some(e) => Rewrite(Joined(head, body, e, mark))
      case None => (Cut(head), Some(mark))
  }

  /** The line behind a closing mark at e, with the line's leading space and an empty string before it. */
  function Behind(line: string, e: nat, mark: string): string
    requires e + |mark| <= |line|
  {
    line[..SpaceCount(line)] + "\"\"" + line[e + |mark|..]
  }

  function Resume(line: string, open: Option<string>): (string, Option<string>) {
    if open == None then Rewrite(line)
    else
      match Find(line, open.value)
      case Some(e) => Rewrite(Behind(line, e, open.value))
      case None => ("\"\"", open)
  }

  function CleanseFrom(lines: seq<string>, open: Option<string>): seq<string> {
    if lines == [] then []
    else
      var (line, open') := Resume(lines[0], open);
      [line] + CleanseFrom(lines[1..], open')
  }

  /** One turn of the outer loop. */
  method CleanseLine(rawLine: string, open: Option<string>) returns (line: string, delimiter: Option<string>)
    ensures (line, delimiter) == Resume(rawLine, open)
  {
    line, delimiter := rawLine, open;
    if delimiter.Some? {
      var end := Find(line, delimiter.value);
      if end.Some? {
        line := Behind(line, end.value, delimiter.value);
        delimiter := None;
      } else {
        line := "\"\"";
      }
    }
    ghost var target := Resume(rawLine, open);
    while delimiter == None
      invariant if delimiter == None then Rewrite(line) == target else (line, delimiter) == target
      decreases delimiter == None, |line|
    {
      if Settled(line) {
        break;
      }
      var (head, mark, body) := Split(line);
      var end := Find(body, mark);
      if end.Some? {
        line := Joined(head, body, end.value, mark);
      } else {
        line := Cut(head);
        delimiter := Some(mark);
      }
    }
  }

  method CleanseRawStrings(rawLines: seq<string>) returns (cleansed: seq<string>)
    ensures cleansed == CleanseFrom(rawLines, None)
  {
    var delimiter: Option<string> := None;
    cleansed := [];
    for i := 0 to |rawLines|
      invariant cleansed + CleanseFrom(rawLines[i..], delimiter) == CleanseFrom(rawLines, None)
    {
      assert rawLines[i..][1..] == rawLines[i + 1..];
      var line;
      line, delimiter := CleanseLine(rawLines[i], delimiter);
      cleansed := cleansed + [line];
    }
    assert rawLines[|rawLines|..] == [];
  }

  // ----- properties -----

  /** Every in-line replacement strictly shortens the line, so the inner loop ends. */
  lemma ReplacementShortens(line: string, e: nat)
    requires !Settled(line)
    requires var (_, mark, body) := Split(line); e + |mark| <= |body|
    ensures var (head, mark, body) := Split(line); |Joined(head, body, e, mark)| + 3 <= |line|
  {
    var (head, mark, body) := Split(line);
    assert |mark| >= 2;
  }

  lemma {:induction false} LineCountIsKept(lines: seq<string>, open: Option<string>)
    ensures |CleanseFrom(lines, open)| == |lines|
  {
    if lines != [] {
      LineCountIsKept(lines[1..], Resume(lines[0], open).1);
    }
  }

  /** What opens in front of an added empty string opened there before. */
  lemma OpenedBefore(line: string, p: nat, q: nat)
    requires p <= |line| && OpensAt(Cut(line[..p]), q)
    ensures q < p && OpensAt(line, q)
  {
    var x := Cut(line[..p]);
    var k := DelimiterEnd(x, q + PrefixLength(x, q));
    assert k < p;
    assert x[..k + 1] == line[..k + 1];
    SameDelimiterEnd(x, line, q + PrefixLength(x, q), k);
  }

  /** A text in which nothing opens stays free of openers when an empty string is put behind it. */
  lemma NothingOpensBeforeFirst(line: string, p: nat)
    requires p <= |line| && forall q | 0 <= q < p :: !OpensAt(line, q)
    ensures FirstOpener(Cut(line[..p]), 0) == None
  {
    var x := Cut(line[..p]);
    forall q | 0 <= q <= |x| ensures !OpensAt(x, q) {
      if OpensAt(x, q) {
        OpenedBefore(line, p, q);
      }
    }
  }

  lemma SameDelimiterEnd(x: string, y: string, i: nat, k: nat)
    requires i <= k < |x| && k < |y| && x[..k + 1] == y[..k + 1] && DelimiterEnd(x, i) == k
    ensures DelimiterEnd(y, i) == k
  {
    var r := DelimiterEnd(y, i);
    assert forall m | 0 <= m <= k :: x[m] == x[..k + 1][m] == y[m];
  }

  /** Whatever a rewrite gives out is settled. */
  lemma {:induction false} RewriteSettles(line: string)
    ensures Settled(Rewrite(line).0)
    decreases |line|
  {
    if !Settled(line) {
      var (head, mark, body) := Split(line);
      match Find(body, mark)
      case Some(e) =>
        ReplacementShortens(line, e);
        RewriteSettles(Joined(head, body, e, mark));
      case None =>
        NothingOpensBeforeFirst(line, |head|);
    }
  }

  lemma ResumeSettles(line: string, open: Option<string>)
    ensures Settled(Resume(line, open).0)
  {
    if open == None {
      RewriteSettles(line);
    } else {
      match Find(line, open.value)
      case Some(e) => RewriteSettles(Behind(line, e, open.value));
      case None =>
        NothingOpensBeforeFirst("", 0);
        assert Cut(""[..0]) == "\"\"";
    }
  }

  /** No line of the output opens a raw string outside a comment, even if one was never closed. */
  lemma {:induction false} NothingRawRemains(lines: seq<string>, open: Option<string>)
    ensures forall i | 0 <= i < |CleanseFrom(lines, open)| :: Settled(CleanseFrom(lines, open)[i])
  {
    if lines != [] {
      ResumeSettles(lines[0], open);
      NothingRawRemains(lines[1..], Resume(lines[0], open).1);
    }
  }

  /** Settled lines pass through untouched. */
  lemma {:induction false} SettledLinesStay(lines: seq<string>)
    requires forall i | 0 <= i < |lines| :: Settled(lines[i])
    ensures CleanseFrom(lines, None) == lines
  {
    if lines != [] {
      SettledLinesStay(lines[1..]);
    }
  }

  /** A second pass changes nothing. */
  lemma CleansingIsIdempotent(lines: seq<string>)
    ensures CleanseFrom(CleanseFrom(lines, None), None) == CleanseFrom(lines, None)
  {
    NothingRawRemains(lines, None);
    SettledLinesStay(CleanseFrom(lines, None));
  }

  function Blanks(n: nat): seq<string> {
    seq(n, _ => "\"\"")
  }

  /** Lines inside an open raw string become empty strings, and the mark stays open. */
  lemma {:induction false} InsideIsBlanked(inside: seq<string>, rest: seq<string>, mark: string)
    requires forall i | 0 <= i < |inside| :: Find(inside[i], mark) == None
    ensures CleanseFrom(inside + rest, Some(mark)) == Blanks(|inside|) + CleanseFrom(rest, Some(mark))
  {
    if inside == [] {
      assert inside + rest == rest;
    } else {
      InsideIsBlanked(inside[1..], rest, mark);
      assert (inside + rest)[1..] == inside[1..] + rest;
      assert Blanks(|inside|) == ["\"\""] + Blanks(|inside| - 1);
    }
  }

  /**
   What a raw string holds is immaterial: of a literal over many lines only its surroundings remain,
   with one empty string where it opened, one for each line inside, and one where it closed.
   */
  lemma LiteralIsErased(first: string, inside: seq<string>, last: string, rest: seq<string>, mark: string, e: nat)
    requires Rewrite(first).1 == Some(mark)
    requires forall i | 0 <= i < |inside| :: Find(inside[i], mark) == None
    requires Find(last, mark) == Some(e)
    ensures CleanseFrom([first] + (inside + ([last] + rest)), None) ==
            [Rewrite(first).0] + (Blanks(|inside|) + CleanseFrom([Behind(last, e, mark)] + rest, None))
  {
    var tail := [last] + rest;
    CleanseHead(first, inside + tail, None);
    InsideIsBlanked(inside, tail, mark);
    CleanseHead(last, rest, Some(mark));
    CleanseHead(Behind(last, e, mark), rest, None);
  }

  lemma CleanseHead(line: string, rest: seq<string>, open: Option<string>)
    ensures CleanseFrom([line] + rest, open) == [Resume(line, open).0] + CleanseFrom(rest, Resume(line, open).1)
  {
    assert ([line] + rest)[1..] == rest;
  }
}
