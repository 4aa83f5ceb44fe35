/**
 What the reader of class heads finds, told from the characters of the line.

 A class head is its keyword, any number of decorating words, and a name, which may be qualified;
 it may stand behind a template head.
 */
module ClassHeads {
  import opened Wrappers
  import opened Characters
  import opened Nesting
  import opened LinePatterns

  // ----- the parts of a head -----

  predicate IsWordAt(line: string, i: nat, j: nat) {
    i < j <= |line| && (forall k | i <= k < j :: IsWordChar(line[k])) && (j < |line| ==> !IsWordChar(line[j]))
  }

  /** Words set apart by space, up to the one that starts at m. */
  predicate IsDecorated(line: string, q: nat, m: nat) {
    && q <= m < |line| && IsWordChar(line[q]) && IsWordChar(line[m]) && (q < m ==> IsSpace(line[m - 1]))
    && forall k | q <= k < m :: IsWordChar(line[k]) || IsSpace(line[k])
  }

  /** Space up to n, and no word there. */
  predicate NoWordBehind(line: string, f: nat, n: nat) {
    AllSpace(line, f, n) && (n < |line| ==> !IsSpace(line[n]) && !IsWordChar(line[n]))
  }

  /** Two colons at k, between words. */
  predicate IsScope(line: string, k: nat) {
    0 < k && k + 2 < |line| && line[k] == ':' && line[k + 1] == ':' && IsWordChar(line[k - 1]) && IsWordChar(line[k + 2])
  }

  /** Words with two colons in between, as far as they go. */
  predicate IsQualified(line: string, m: nat, e: nat) {
    && m < e <= |line| && IsWordChar(line[m]) && IsWordChar(line[e - 1])
    && (forall k | m <= k < e :: IsWordChar(line[k]) || IsScope(line, k) || (k > 0 && IsScope(line, k - 1)))
    && (e < |line| ==> !IsWordChar(line[e])) && !IsScope(line, e)
  }

  // ----- the name -----

  lemma {:induction false} LastWordIs(line: string, q: nat, m: nat, f: nat, n: nat)
    requires IsDecorated(line, q, m) && IsWordAt(line, m, f) && NoWordBehind(line, f, n)
    ensures LastWordOf(line, q) == m
    decreases m - q
  {
    if q == m {
      WordEndIs(line, q, f);
      SpaceEndIs(line, f, n);
    } else {
      var w := WordEnd(line, q);
      assert !(m <= w) by {
        assert !IsWordChar(line[m - 1]);
      }
      var next := SpaceEnd(line, w);
      assert !(m < next);
      LastWordIs(line, next, m, f, n);
    }
  }

  lemma {:induction false} QualifiedIs(line: string, m: nat, f: nat, e: nat)
    requires IsQualified(line, m, e) && m < f <= e && IsWordChar(line[f - 1]) && (f < |line| ==> !IsWordChar(line[f]))
    ensures QualifiedEnd(line, f) == e
    decreases e - f
  {
    ScopeIs(line, f);
    if f < e {
      assert !IsScope(line, f - 1);
      assert IsScope(line, f);
      var w := WordEnd(line, f + 2);
      assert !(e < w);
      QualifiedIs(line, m, w, e);
    }
  }

  lemma ScopeIs(line: string, f: nat)
    requires 0 < f <= |line| && IsWordChar(line[f - 1])
    ensures IsScope(line, f) <==> HasAt(line, f, "::") && f + 2 < |line| && IsWordChar(line[f + 2])
  {
    if f + 2 <= |line| {
      assert line[f..f + 2] == [line[f], line[f + 1]];
    }
  }

  // ----- the head -----

  /** Where the parts of a head stand: its keyword, its decorations, the first word of its name, and the end. */
  datatype Places = Places(keyword: nat, keywordEnd: nat, words: nat, name: nat, firstEnd: nat, next: nat, end: nat)

  predicate IsHeadAt(line: string, a: Places) {
    && IsWordAt(line, a.keyword, a.keywordEnd)
    && (line[a.keyword..a.keywordEnd] == "class" || line[a.keyword..a.keywordEnd] == "struct")
    && a.keywordEnd < a.words && AllSpace(line, a.keywordEnd, a.words)
    && IsDecorated(line, a.words, a.name)
    && IsWordAt(line, a.name, a.firstEnd) && NoWordBehind(line, a.firstEnd, a.next)
    && IsQualified(line, a.name, a.end) && a.firstEnd <= a.end
  }

  function HeadOf(line: string, a: Places): FoundHead
    requires IsHeadAt(line, a)
  {
    FoundHead(line[a.name..a.end], line[a.keyword..a.keywordEnd] == "struct", a.end)
  }

  lemma ClassAtIs(line: string, a: Places)
    requires IsHeadAt(line, a)
    ensures ClassAt(line, a.keyword) == Some(HeadOf(line, a))
  {
    WordEndIs(line, a.keyword, a.keywordEnd);
    SpaceEndIs(line, a.keywordEnd, a.words);
    LastWordIs(line, a.words, a.name, a.firstEnd, a.next);
    WordEndIs(line, a.name, a.firstEnd);
    QualifiedIs(line, a.name, a.firstEnd, a.end);
  }

  lemma NoTemplateWord(line: string, p: nat)
    requires p < |line| && line[p] != 't'
    ensures !HasAt(line, p, "template")
  {
    if p + 8 <= |line| {
      assert line[p..p + 8][0] == line[p];
    }
  }

  /** Such a head at the beginning of a line is the one that is read. */
  lemma ClassHeadIsRead(line: string, a: Places)
    requires AllSpace(line, 0, a.keyword) && IsHeadAt(line, a)
    ensures ReadClassHead(line) == Some(HeadOf(line, a))
  {
    SpaceEndIs(line, 0, a.keyword);
    assert line[a.keyword] == line[a.keyword..a.keywordEnd][0];
    NoTemplateWord(line, a.keyword);
    ClassAtIs(line, a);
  }

  /** A line whose first word is another one has no head, */
  lemma OtherWordIsNoHead(line: string, p: nat, w: nat)
    requires AllSpace(line, 0, p) && IsWordAt(line, p, w) && !HasAt(line, p, "template")
    requires line[p..w] != "class" && line[p..w] != "struct"
    ensures ReadClassHead(line) == None
  {
    SpaceEndIs(line, 0, p);
    WordEndIs(line, p, w);
  }

  /** and neither has one where no word follows the keyword. */
  lemma NamelessIsNoHead(line: string, p: nat, w: nat, q: nat)
    requires AllSpace(line, 0, p) && IsWordAt(line, p, w) && !HasAt(line, p, "template")
    requires NoWordBehind(line, w, q)
    ensures ReadClassHead(line) == None
  {
    SpaceEndIs(line, 0, p);
    WordEndIs(line, p, w);
    SpaceEndIs(line, w, q);
  }

  // ----- behind a template head -----

  predicate MayStandInside(c: char) {
    IsWordChar(c) || IsSpace(c) || c in {'<', '>', ',', ':', '='}
  }

  /** A `>` at g, behind the `<` at t and nothing but what may stand in a template head. */
  predicate ClosesTemplate(line: string, t: nat, g: nat) {
    t < g < |line| && line[g] == '>' && forall k | t < k < g :: MayStandInside(line[k])
  }

  /** The word template and its `<` stand in front. */
  predicate BeginsTemplate(line: string, p: nat, t: nat) {
    AllSpace(line, 0, p) && HasAt(line, p, "template") && AllSpace(line, p + 8, t) && t < |line| && line[t] == '<'
  }

  /** No class head stands at i, or behind space there. */
  predicate NoHeadFrom(line: string, i: nat) {
    i <= |line| && ClassAt(line, SpaceEnd(line, i)).None?
  }

  lemma ClosesWithin(line: string, t: nat, g: nat)
    requires ClosesTemplate(line, t, g)
    ensures t < g < TemplateEnd(line, t + 1)
    ensures forall k | g < k < TemplateEnd(line, t + 1) && line[k] == '>' :: ClosesTemplate(line, t, k)
  {
    assert IsTemplateChar(line[g]);
    assert !(TemplateEnd(line, t + 1) <= g);
  }

  lemma NothingBehindLast(line: string, from: nat, g: nat)
    requires from <= g < |line| && (line[g] == '>' ==> NoHeadFrom(line, g + 1))
    ensures ClassBehindTemplate(line, from, g + 1) == ClassBehindTemplate(line, from, g)
  {
  }

  lemma HeadBehindLast(line: string, from: nat, g: nat)
    requires from <= g < |line| && line[g] == '>' && ClassAt(line, SpaceEnd(line, g + 1)).Some?
    ensures ClassBehindTemplate(line, from, g + 1) == ClassAt(line, SpaceEnd(line, g + 1))
  {
  }

  lemma {:induction false} BehindTemplateIs(line: string, from: nat, until: nat, g: nat)
    requires from <= g < until <= |line| && line[g] == '>' && ClassAt(line, SpaceEnd(line, g + 1)).Some?
    requires forall k | g < k < until && line[k] == '>' :: NoHeadFrom(line, k + 1)
    ensures ClassBehindTemplate(line, from, until) == ClassAt(line, SpaceEnd(line, g + 1))
    decreases until
  {
    if g < until - 1 {
      BehindTemplateIs(line, from, until - 1, g);
      NothingBehindLast(line, from, until - 1);
    } else {
      HeadBehindLast(line, from, g);
    }
  }

  lemma TemplateReads(line: string, p: nat, t: nat)
    requires BeginsTemplate(line, p, t)
    ensures ReadClassHead(line) == ClassBehindTemplate(line, t + 1, TemplateEnd(line, t + 1))
  {
    assert line[p] == line[p..p + 8][0];
    SpaceEndIs(line, 0, p);
    SpaceEndIs(line, p + 8, t);
  }

  /** Behind no later `>` of the template head stands a class head. */
  predicate IsLastClose(line: string, t: nat, g: nat) {
    ClosesTemplate(line, t, g) && forall k | g < k < |line| && ClosesTemplate(line, t, k) :: NoHeadFrom(line, k + 1)
  }

  lemma LastHeadIsFound(line: string, t: nat, g: nat)
    requires IsLastClose(line, t, g) && ClassAt(line, SpaceEnd(line, g + 1)).Some?
    ensures ClassBehindTemplate(line, t + 1, TemplateEnd(line, t + 1)) == ClassAt(line, SpaceEnd(line, g + 1))
  {
    ClosesWithin(line, t, g);
    BehindTemplateIs(line, t + 1, TemplateEnd(line, t + 1), g);
  }

  lemma SpaceEndsAtWord(line: string, i: nat, p: nat, w: nat)
    requires AllSpace(line, i, p) && IsWordAt(line, p, w)
    ensures SpaceEnd(line, i) == p
  {
    SpaceEndIs(line, i, p);
  }

  lemma HeadAtIs(line: string, p: nat, a: Places)
    requires IsHeadAt(line, a) && p == a.keyword
    ensures ClassAt(line, p) == Some(HeadOf(line, a))
  {
    ClassAtIs(line, a);
  }

  lemma HeadBehindClose(line: string, g: nat, a: Places)
    requires g < |line| && AllSpace(line, g + 1, a.keyword) && IsHeadAt(line, a)
    ensures ClassAt(line, SpaceEnd(line, g + 1)) == Some(HeadOf(line, a))
  {
    SpaceEndsAtWord(line, g + 1, a.keyword, a.keywordEnd);
    HeadAtIs(line, SpaceEnd(line, g + 1), a);
  }

  /** Behind a template head it is the head behind the last `>` that has one. */
  lemma TemplateHeadIsRead(line: string, p: nat, t: nat, g: nat, a: Places)
    requires BeginsTemplate(line, p, t) && IsLastClose(line, t, g)
    requires AllSpace(line, g + 1, a.keyword) && IsHeadAt(line, a)
    ensures ReadClassHead(line) == Some(HeadOf(line, a))
  {
    TemplateReads(line, p, t);
    HeadBehindClose(line, g, a);
    LastHeadIsFound(line, t, g);
  }
}
