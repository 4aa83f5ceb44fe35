/** Removal of C-style comments that go beyond one line, in place on the list of lines. */
module MultiLineComments {
  import opened Characters

  // ----- what one line says -----

  /** `s.find(word, from) >= 0` */
  predicate Contains(s: string, word: string, from: nat)
    decreases |s| - from
  {
    from <= |s| && (HasAt(s, from, word) || Contains(s, word, from + 1))
  }

  /** The line opens a comment that the line itself does not close. */
  predicate IsStart(line: string) {
    HasAt(Strip(line), 0, "/*") && !Contains(Strip(line), "*/", 2)
  }

  predicate IsEnd(line: string) {
    EndsWith(Strip(line), "*/")
  }

  datatype Mark = Mark(start: bool, end: bool)

  function Marks(lines: seq<string>): (r: seq<Mark>)
    ensures |r| == |lines|
  {
    if lines == [] then []
    else Marks(lines[..|lines| - 1]) + [Mark(IsStart(lines[|lines| - 1]), IsEnd(lines[|lines| - 1]))]
  }

  lemma {:induction false} MarksAt(lines: seq<string>, i: nat)
    requires i < |lines|
    ensures Marks(lines)[i] == Mark(IsStart(lines[i]), IsEnd(lines[i]))
  {
    if i < |lines| - 1 {
      MarksAt(lines[..|lines| - 1], i);
    }
  }

  lemma MarksAgree(a: seq<string>, b: seq<string>, from: nat)
    requires |a| == |b| && forall i | from <= i < |a| :: a[i] == b[i]
    ensures forall i | from <= i < |a| :: Marks(a)[i] == Marks(b)[i]
  {
    forall i | from <= i < |a| ensures Marks(a)[i] == Marks(b)[i] {
      MarksAt(a, i);
      MarksAt(b, i);
    }
  }

  // ----- an independent reading: which lines are in a comment -----

  /** Some line from i on closes a comment. */
  predicate EndsFrom(marks: seq<Mark>, i: nat) {
    exists e | i <= e < |marks| :: marks[e].end
  }

  /** Reading from the top, a comment that has an end runs into line i. */
  predicate RunsInto(marks: seq<Mark>, i: nat)
    requires i <= |marks|
  {
    i > 0 && !marks[i - 1].end && (RunsInto(marks, i - 1) || (marks[i - 1].start && EndsFrom(marks, i - 1)))
  }

  predicate Covered(marks: seq<Mark>, i: nat)
    requires i < |marks|
  {
    RunsInto(marks, i) || (marks[i].start && EndsFrom(marks, i))
  }

  function Removed(lines: seq<string>): seq<string> {
    seq(|lines|, i requires 0 <= i < |lines| => if Covered(Marks(lines), i) then "/**/" else lines[i])
  }

  /** Line b opens a comment that no line ends. */
  predicate NeverEnds(marks: seq<Mark>, b: nat) {
    b < |marks| && marks[b].start && !EndsFrom(marks, b)
  }

  // ----- the code -----

  predicate NoStart(marks: seq<Mark>, from: nat, until: nat)
    requires until <= |marks|
  {
    forall j | from <= j < until :: !marks[j].start
  }

  predicate NoEnd(marks: seq<Mark>, from: nat, until: nat)
    requires until <= |marks|
  {
    forall j | from <= j < until :: !marks[j].end
  }

  function Blanked(lines: seq<string>, begin: nat, end: nat): seq<string> {
    seq(|lines|, i requires 0 <= i < |lines| => if begin <= i < end then "/**/" else lines[i])
  }

  method FindNextMultiLineCommentStart(lines: array<string>, lineix: nat) returns (i: nat)
    requires lineix <= lines.Length
    ensures lineix <= i <= lines.Length && NoStart(Marks(lines[..]), lineix, i)
    ensures i < lines.Length ==> Marks(lines[..])[i].start
  {
    i := lineix;
    while i < lines.Length
      invariant lineix <= i <= lines.Length && NoStart(Marks(lines[..]), lineix, i)
    {
      MarksAt(lines[..], i);
      if IsStart(lines[i]) {
        return i;
      }
      i := i + 1;
    }
    return lines.Length;
  }

  method FindNextMultiLineCommentEnd(lines: array<string>, lineix: nat) returns (i: nat)
    requires lineix <= lines.Length
    ensures lineix <= i <= lines.Length && NoEnd(Marks(lines[..]), lineix, i)
    ensures i < lines.Length ==> Marks(lines[..])[i].end
  {
    i := lineix;
    while i < lines.Length
      invariant lineix <= i <= lines.Length && NoEnd(Marks(lines[..]), lineix, i)
    {
      MarksAt(lines[..], i);
      if IsEnd(lines[i]) {
        return i;
      }
      i := i + 1;
    }
    return lines.Length;
  }

  method RemoveMultiLineCommentsFromRange(lines: array<string>, begin: nat, end: nat)
    requires begin <= end <= lines.Length
    modifies lines
    ensures lines[..] == Blanked(old(lines[..]), begin, end)
  {
    for i := begin to end
      invariant forall j | 0 <= j < lines.Length ::
                  lines[j] == if begin <= j < i then "/**/" else old(lines[j])
    {
      lines[i] := "/**/";
    }
  }

  /** Reports the line numbers, counted from 1, of the errors it finds. */
  method RemoveMultiLineComments(lines: array<string>) returns (errors: seq<nat>)
    modifies lines
    ensures lines[..] == Removed(old(lines[..]))
    ensures errors == [] <==> forall b: nat :: !NeverEnds(Marks(old(lines[..])), b)
    ensures errors != [] ==>
              && |errors| == 1
              && errors[0] > 0
              && NeverEnds(Marks(old(lines[..])), errors[0] - 1)
              && forall b: nat | b < errors[0] - 1 :: !NeverEnds(Marks(old(lines[..])), b)
  {
    errors := [];
    ghost var was := lines[..];
    var lineix := 0;
    while lineix < lines.Length
      invariant lineix <= lines.Length && DoneUpTo(was, lines[..], lineix)
    {
      var begin := FindNextMultiLineCommentStart(lines, lineix);
      DoneWithoutStart(was, lines[..], lineix, begin);
      if begin >= lines.Length {
        DoneIsRemoved(was, lines[..]);
        return;
      }
      var end := FindNextMultiLineCommentEnd(lines, begin);
      if end >= lines.Length {
        errors := [begin + 1];
        DoneWithoutEnd(was, lines[..], begin);
        return;
      }
      ghost var before := lines[..];
      RemoveMultiLineCommentsFromRange(lines, begin, end + 1);
      DoneBehindComment(was, before, lines[..], begin, end);
      lineix := end + 1;
    }
    DoneIsRemoved(was, lines[..]);
  }

  /** The comments of was are removed up to line n, where none is running. */
  ghost predicate DoneUpTo(was: seq<string>, now: seq<string>, n: nat) {
    && n <= |was| == |now|
    && !RunsInto(Marks(was), n)
    && (forall i | 0 <= i < n :: now[i] == if Covered(Marks(was), i) then "/**/" else was[i])
    && (forall i | n <= i < |was| :: now[i] == was[i])
    && (forall b: nat | b < n :: !NeverEnds(Marks(was), b))
  }

  lemma DoneIsRemoved(was: seq<string>, now: seq<string>)
    requires DoneUpTo(was, now, |was|)
    ensures now == Removed(was) && forall b: nat :: !NeverEnds(Marks(was), b)
  {
    forall i | 0 <= i < |was| ensures now[i] == Removed(was)[i] {
    }
    assert now == Removed(was);
  }

  lemma DoneWithoutStart(was: seq<string>, now: seq<string>, n: nat, begin: nat)
    requires DoneUpTo(was, now, n) && n <= begin <= |was|
    requires NoStart(Marks(now), n, begin)
    ensures DoneUpTo(was, now, begin)
  {
    MarksAgree(now, was, n);
    assert forall j | n <= j < begin :: Marks(now)[j] == Marks(was)[j];
    NothingRuns(Marks(was), n, begin);
  }

  lemma DoneWithoutEnd(was: seq<string>, now: seq<string>, begin: nat)
    requires DoneUpTo(was, now, begin) && begin < |was| && Marks(now)[begin].start
    requires NoEnd(Marks(now), begin, |was|)
    ensures now == Removed(was) && NeverEnds(Marks(was), begin)
  {
    MarksAgree(now, was, begin);
    assert forall j | begin <= j < |was| :: Marks(now)[j] == Marks(was)[j];
    NothingCovered(Marks(was), begin);
  }

  lemma DoneBehindComment(was: seq<string>, before: seq<string>, now: seq<string>, begin: nat, end: nat)
    requires DoneUpTo(was, before, begin) && begin <= end < |was|
    requires Marks(before)[begin].start && Marks(before)[end].end && NoEnd(Marks(before), begin, end)
    requires now == Blanked(before, begin, end + 1)
    ensures DoneUpTo(was, now, end + 1)
  {
    MarksAgree(before, was, begin);
    assert forall j | begin <= j < |was| :: Marks(before)[j] == Marks(was)[j];
    CommentRuns(Marks(was), begin, end);
  }

  /** Where no comment runs and none starts, none is running behind. */
  lemma {:induction false} NothingRuns(marks: seq<Mark>, from: nat, until: nat)
    requires from <= until <= |marks| && !RunsInto(marks, from)
    requires NoStart(marks, from, until)
    ensures !RunsInto(marks, until)
    ensures forall j | from <= j < until :: !Covered(marks, j)
    decreases until - from
  {
    if from < until {
      NothingRuns(marks, from + 1, until);
    }
  }

  /** From a start to the first end behind it, every line is covered. */
  lemma {:induction false} CommentRuns(marks: seq<Mark>, begin: nat, end: nat)
    requires begin <= end < |marks| && marks[begin].start && marks[end].end
    requires NoEnd(marks, begin, end)
    ensures forall j | begin <= j <= end :: Covered(marks, j)
    ensures !RunsInto(marks, end + 1)
  {
    var i := begin;
    while i < end
      invariant begin <= i <= end && Covered(marks, i)
      invariant forall j | begin <= j <= i :: Covered(marks, j)
    {
      assert RunsInto(marks, i + 1);
      i := i + 1;
    }
  }

  /** Without an end to come, nothing is covered any more. */
  lemma {:induction false} NothingCovered(marks: seq<Mark>, from: nat)
    requires from <= |marks| && !RunsInto(marks, from) && !EndsFrom(marks, from)
    ensures forall j | from <= j < |marks| :: !Covered(marks, j)
    decreases |marks| - from
  {
    if from < |marks| {
      NothingCovered(marks, from + 1);
    }
  }

  // ----- properties -----

  /** Every changed line lies between a start and the first end behind it. */
  lemma {:induction false} CoveredIsInRange(marks: seq<Mark>, i: nat) returns (b: nat, e: nat)
    requires i < |marks| && Covered(marks, i)
    ensures b <= i <= e < |marks| && marks[b].start && marks[e].end
    ensures forall j | b <= j < e :: !marks[j].end
  {
    if RunsInto(marks, i) {
      b, e := CoveredIsInRange(marks, i - 1);
    } else {
      b, e := i, i;
      while !marks[e].end
        invariant i <= e < |marks| && EndsFrom(marks, e)
        invariant forall j | b <= j < e :: !marks[j].end
        decreases |marks| - e
      {
        e := e + 1;
      }
    }
  }

  lemma EmptyCommentIsClosed()
    ensures !IsStart("/**/") && IsEnd("/**/")
  {
    assert Strip("/**/") == "/**/";
    assert HasAt("/**/", 2, "*/");
  }

  lemma RemovedMarks(lines: seq<string>, i: nat)
    requires i < |lines|
    ensures Marks(Removed(lines))[i] == if Covered(Marks(lines), i) then Mark(false, true) else Marks(lines)[i]
  {
    MarksAt(Removed(lines), i);
    MarksAt(lines, i);
    EmptyCommentIsClosed();
  }

  /** out are the marks after the covered lines of marks have been replaced. */
  predicate AfterRemoval(marks: seq<Mark>, out: seq<Mark>) {
    && |out| == |marks|
    && forall j | 0 <= j < |marks| :: out[j] == if Covered(marks, j) then Mark(false, true) else marks[j]
  }

  lemma MarksAfterRemoval(lines: seq<string>)
    ensures AfterRemoval(Marks(lines), Marks(Removed(lines)))
  {
    forall j | 0 <= j < |lines|
      ensures Marks(Removed(lines))[j] == if Covered(Marks(lines), j) then Mark(false, true) else Marks(lines)[j]
    {
      RemovedMarks(lines, j);
    }
  }

  /** A start that is left over is one that never ends, in the output as in the input. */
  lemma StartsLeftNeverEnd(marks: seq<Mark>, out: seq<Mark>, i: nat)
    requires AfterRemoval(marks, out) && i < |marks| && out[i].start
    ensures NeverEnds(marks, i) && NeverEnds(out, i)
  {
    NothingCovered(marks, i);
  }

  /** If no error is reported, no line is left that opens an unterminated comment. */
  lemma NoStartIsLeft(lines: seq<string>)
    requires forall b: nat :: !NeverEnds(Marks(lines), b)
    ensures forall i | 0 <= i < |lines| :: !IsStart(Removed(lines)[i])
  {
    MarksAfterRemoval(lines);
    forall i | 0 <= i < |lines| ensures !IsStart(Removed(lines)[i]) {
      MarksAt(Removed(lines), i);
      if Marks(Removed(lines))[i].start {
        StartsLeftNeverEnd(Marks(lines), Marks(Removed(lines)), i);
      }
    }
  }

  lemma {:induction false} NothingRunsWithoutEnds(marks: seq<Mark>, i: nat)
    requires i <= |marks| && forall j | 0 <= j < |marks| && marks[j].start :: NeverEnds(marks, j)
    ensures !RunsInto(marks, i)
  {
    if i > 0 {
      NothingRunsWithoutEnds(marks, i - 1);
      if marks[i - 1].start {
        assert NeverEnds(marks, i - 1);
      }
    }
  }

  lemma NothingLeftToCover(marks: seq<Mark>, out: seq<Mark>, i: nat)
    requires AfterRemoval(marks, out) && i < |out|
    ensures !Covered(out, i)
  {
    forall j | 0 <= j < |out| && out[j].start ensures NeverEnds(out, j) {
      StartsLeftNeverEnd(marks, out, j);
    }
    NothingRunsWithoutEnds(out, i);
    if out[i].start {
      assert NeverEnds(out, i);
    }
  }

  /** A second pass changes nothing, with or without an error. */
  lemma RemovalIsIdempotent(lines: seq<string>)
    ensures Removed(Removed(lines)) == Removed(lines)
  {
    var out := Removed(lines);
    MarksAfterRemoval(lines);
    forall i | 0 <= i < |out| ensures !Covered(Marks(out), i) {
      NothingLeftToCover(Marks(lines), Marks(out), i);
    }
  }

  // ----- the marks, by their characters -----

  /** A slash and a star, or a star and a slash, stand at i. */
  predicate OpensAt(line: string, i: nat) {
    i + 1 < |line| && line[i] == '/' && line[i + 1] == '*'
  }

  predicate ClosesAt(line: string, i: nat) {
    i + 1 < |line| && line[i] == '*' && line[i + 1] == '/'
  }

  lemma TwoAt(s: string, i: nat, word: string)
    requires |word| == 2
    ensures HasAt(s, i, word) <==> i + 1 < |s| && s[i] == word[0] && s[i + 1] == word[1]
  {
    if i + 2 <= |s| {
      assert s[i..i + 2] == [s[i], s[i + 1]];
      assert word == [word[0], word[1]];
    }
  }

  lemma {:induction false} ContainsIff(s: string, from: nat)
    ensures Contains(s, "*/", from) <==> exists i: nat :: from <= i && ClosesAt(s, i)
    decreases |s| - from
  {
    if from <= |s| {
      TwoAt(s, from, "*/");
      ContainsIff(s, from + 1);
      assert HasAt(s, from, "*/") <==> ClosesAt(s, from);
    }
  }

  /** A stripped line is the line from its first to its last character that is no space. */
  lemma StripIs(line: string) returns (a: nat, b: nat)
    ensures a <= b <= |line| && Strip(line) == line[a..b] && AllSpace(line, 0, a) && AllSpace(line, b, |line|)
    ensures a < b ==> !IsSpace(line[a]) && !IsSpace(line[b - 1])
  {
    a := TrimSkips(line);
    var s := line[a..];
    TrimRightEnds(s);
    b := a + |TrimRight(s)|;
    assert s[..b - a] == line[a..b];
    assert forall j | b <= j < |line| :: line[j] == s[j - a];
    assert a < b ==> line[b - 1] == s[b - a - 1];
  }

  /** Behind nothing but space a comment opens at i, and nothing behind that closes it. */
  predicate StartsAt(line: string, i: nat) {
    AllSpace(line, 0, i) && OpensAt(line, i) && forall j | i + 2 <= j < |line| :: !ClosesAt(line, j)
  }

  lemma StartIff(line: string)
    ensures IsStart(line) <==> exists i: nat :: StartsAt(line, i)
  {
    var a, b := StripIs(line);
    var s := line[a..b];
    assert forall j | 0 <= j < b - a :: s[j] == line[a + j];
    TwoAt(s, 0, "/*");
    ContainsIff(s, 2);
    if IsStart(line) {
      StartStrips(line, a, b);
    }
    if i: nat :| StartsAt(line, i) {
      assert a == i && b > i + 1;
      forall j: nat | 2 <= j ensures !ClosesAt(s, j) {
        assert ClosesAt(s, j) ==> ClosesAt(line, a + j);
      }
    }
  }

  lemma StartStrips(line: string, a: nat, b: nat)
    requires a <= b <= |line| && AllSpace(line, 0, a) && AllSpace(line, b, |line|)
    requires OpensAt(line[a..b], 0) && forall j: nat | 2 <= j :: !ClosesAt(line[a..b], j)
    ensures StartsAt(line, a)
  {
    var s := line[a..b];
    assert s[0] == line[a] && s[1] == line[a + 1];
    forall j | a + 2 <= j < |line| ensures !ClosesAt(line, j) {
      if j + 1 < b {
        assert !ClosesAt(s, j - a) && s[j - a] == line[j] && s[j - a + 1] == line[j + 1];
      }
    }
  }

  /** A comment closes at i, and nothing but space stands behind it. */
  predicate EndsAt(line: string, i: nat) {
    ClosesAt(line, i) && AllSpace(line, i + 2, |line|)
  }

  lemma EndIff(line: string)
    ensures IsEnd(line) <==> exists i: nat :: EndsAt(line, i)
  {
    var a, b := StripIs(line);
    var s := line[a..b];
    assert forall j | 0 <= j < b - a :: s[j] == line[a + j];
    if IsEnd(line) {
      assert s[|s| - 2] == "*/"[0] && s[|s| - 1] == "*/"[1] by {
        assert s[|s| - 2..] == "*/";
      }
      assert EndsAt(line, b - 2);
    }
    if i: nat :| EndsAt(line, i) {
      assert b == i + 2 && a <= i;
      assert s[|s| - 2..] == [s[|s| - 2], s[|s| - 1]];
    }
  }
}
