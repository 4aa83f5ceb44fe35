/**
 What the readers of a line find, told from the parts that the line is made of.
 */
module PatternLaws {
  import opened Wrappers
  import opened Characters
  import opened LinePatterns
  import opened Nesting

  // ----- parts -----

  predicate IsSpaces(s: string) {
    forall i | 0 <= i < |s| :: IsSpace(s[i])
  }

  /** The text goes on with neither space nor a word. */
  predicate BeginsApart(s: string) {
    s == "" || (!IsSpace(s[0]) && !IsWordChar(s[0]))
  }

  predicate AreWordChars(s: string) {
    forall i | 0 <= i < |s| :: IsWordChar(s[i])
  }

  predicate BeginsWithNoWord(s: string) {
    s == "" || !IsWordChar(s[0])
  }

  predicate BeginsWithNoSpace(s: string) {
    s == "" || !IsSpace(s[0])
  }

  lemma {:induction false} Trimmed(lead: string, s: string)
    requires IsSpaces(lead) && BeginsWithNoSpace(s)
    ensures TrimLeft(lead + s) == s
  {
    if lead == "" {
      assert lead + s == s;
    } else {
      assert (lead + s)[1..] == lead[1..] + s;
      Trimmed(lead[1..], s);
    }
  }

  lemma {:induction false} WordFirst(word: string, s: string)
    requires AreWordChars(word) && BeginsWithNoWord(s)
    ensures WordRun(word + s) == |word| && FirstWord(word + s) == word && BehindWord(word + s) == s
  {
    if word == "" {
      assert word + s == s;
      assert s[..0] == "" && s[0..] == s;
    } else {
      assert (word + s)[1..] == word[1..] + s;
      WordFirst(word[1..], s);
      assert (word + s)[..|word|] == word && (word + s)[|word|..] == s;
    }
  }

  // ----- directives -----

  /** A hash and a word, with any space around them: what the directive is depends on the word alone. */
  lemma DirectiveIsRead(lead: string, gap: string, word: string, tail: string)
    requires IsSpaces(lead) && IsSpaces(gap) && AreWordChars(word) && BeginsWithNoWord(tail)
    requires word == "" ==> BeginsWithNoSpace(tail)
    ensures DirectiveOf(lead + (['#'] + (gap + (word + tail)))) ==
            if word == "if" || word == "ifdef" || word == "ifndef" then If
            else if word == "else" || word == "elif" then Else
            else if word == "endif" then Endif
            else NoDirective
  {
    var s := ['#'] + (gap + (word + tail));
    Trimmed(lead, s);
    assert s[1..] == gap + (word + tail);
    assert BeginsWithNoSpace(word + tail) by {
      if word == "" {
        assert word + tail == tail;
      }
    }
    Trimmed(gap, word + tail);
    WordFirst(word, tail);
  }

  /** No line without a hash in front is a directive. */
  lemma OtherIsNoDirective(lead: string, s: string)
    requires IsSpaces(lead) && BeginsWithNoSpace(s) && (s == "" || s[0] != '#')
    ensures DirectiveOf(lead + s) == NoDirective
  {
    Trimmed(lead, s);
  }

  // ----- namespaces -----

  predicate IsName(s: string) {
    forall i | 0 <= i < |s| :: IsWordChar(s[i]) || s[i] == ':'
  }

  lemma {:induction false} NameFirst(name: string, s: string)
    requires IsName(name) && (s == "" || (!IsWordChar(s[0]) && s[0] != ':'))
    ensures NameRun(name + s) == |name|
  {
    if name == "" {
      assert name + s == s;
    } else {
      assert (name + s)[1..] == name[1..] + s;
      NameFirst(name[1..], s);
    }
  }

  const NAMESPACE := "namespace"

  /** The word namespace, its name, and what follows. */
  lemma NamespaceIsRead(lead: string, gap: string, name: string, rest: string)
    requires IsSpaces(lead) && IsSpaces(gap) && IsName(name) && (rest == "" || (!IsWordChar(rest[0]) && rest[0] != ':'))
    requires BeginsWithNoWord(gap + (name + rest)) && BeginsWithNoSpace(name + rest)
    ensures NamespaceAt(lead + (NAMESPACE + (gap + (name + rest)))) == Some((name, rest))
  {
    var s := NAMESPACE + (gap + (name + rest));
    assert s[0] == 'n';
    Trimmed(lead, s);
    WordFirst(NAMESPACE, gap + (name + rest));
    Trimmed(gap, name + rest);
    NameFirst(name, rest);
    assert (name + rest)[..|name|] == name && (name + rest)[|name|..] == rest;
  }

  /** Any other word is no namespace head. */
  lemma OtherIsNoNamespace(lead: string, word: string, tail: string)
    requires IsSpaces(lead) && AreWordChars(word) && BeginsWithNoWord(tail) && BeginsWithNoSpace(word + tail) && word != NAMESPACE
    ensures NamespaceAt(lead + (word + tail)) == None
  {
    Trimmed(lead, word + tail);
    WordFirst(word, tail);
  }

  // ----- assembly heads -----

  predicate IsAsmWord(word: string) {
    word == "asm" || word == "_asm" || word == "__asm" || word == "__asm__"
  }

  predicate IsVolatile(word: string) {
    word == "volatile" || word == "__volatile__"
  }

  predicate BeginsGroup(s: string) {
    s != "" && (s[0] == '{' || s[0] == '(')
  }

  predicate VolatileGroup(rest: string) {
    && rest != "" && IsSpace(rest[0])
    && IsVolatile(FirstWord(TrimLeft(rest))) && OpensGroup(BehindWord(TrimLeft(rest)))
  }

  lemma AsmUnfolds(lead: string, word: string, rest: string)
    requires IsSpaces(lead) && AreWordChars(word) && word != "" && BeginsWithNoWord(rest)
    ensures IsAsmHead(lead + (word + rest)) <==> IsAsmWord(word) && (OpensGroup(rest) || VolatileGroup(rest))
  {
    Trimmed(lead, word + rest);
    WordFirst(word, rest);
  }

  /** An assembly word, and then a group. */
  lemma AsmIsRead(lead: string, word: string, gap: string, tail: string)
    requires IsSpaces(lead) && AreWordChars(word) && word != "" && IsSpaces(gap)
    requires BeginsApart(tail)
    ensures IsAsmHead(lead + (word + (gap + tail))) <==> IsAsmWord(word) && BeginsGroup(tail)
  {
    AsmUnfolds(lead, word, gap + tail);
    Trimmed(gap, tail);
    assert WordRun(tail) == 0;
  }

  /** Or with a word in between. */
  lemma VolatileAsmIsRead(lead: string, word: string, gap: string, second: string, gap': string, tail: string)
    requires IsSpaces(lead) && AreWordChars(word) && word != "" && IsSpaces(gap) && gap != ""
    requires AreWordChars(second) && second != "" && IsSpaces(gap') && BeginsApart(tail)
    ensures IsAsmHead(lead + (word + (gap + (second + (gap' + tail))))) <==>
            IsAsmWord(word) && IsVolatile(second) && BeginsGroup(tail)
  {
    var behind := gap' + tail;
    AsmUnfolds(lead, word, gap + (second + behind));
    Trimmed(gap, second + behind);
    WordFirst(second, behind);
    Trimmed(gap', tail);
  }

  // ----- extern "C" heads -----

  lemma {:induction false} IndexBehind(s: string, c: char, tail: string)
    requires Without(s, c)
    ensures IndexOf(s + ([c] + tail), c) == Some(|s|)
  {
    if s == "" {
      assert s + ([c] + tail) == [c] + tail;
    } else {
      assert (s + ([c] + tail))[1..] == s[1..] + ([c] + tail);
      IndexBehind(s[1..], c, tail);
    }
  }

  const EXTERN := "extern"

  lemma ExternUnfolds(gap: string, rest: string, k: nat)
    requires IsSpaces(gap) && IndexOf(rest, '"') == Some(k)
    ensures IsExternC(EXTERN + (gap + (['"'] + rest))) <==> StartsWith(TrimLeft(rest[k + 1..]), '{')
  {
    var s := EXTERN + (gap + (['"'] + rest));
    assert s[0..6] == EXTERN && s[6..] == gap + (['"'] + rest);
    Trimmed(gap, ['"'] + rest);
    assert (['"'] + rest)[1..] == rest;
  }

  /** The word extern, a string, and then a brace. */
  lemma ExternIsRead(gap: string, inside: string, gap': string, tail: string)
    requires IsSpaces(gap) && Without(inside, '"') && IsSpaces(gap') && BeginsWithNoSpace(tail)
    ensures IsExternC(EXTERN + (gap + (['"'] + (inside + (['"'] + (gap' + tail)))))) <==> tail != "" && tail[0] == '{'
  {
    var rest := inside + (['"'] + (gap' + tail));
    IndexBehind(inside, '"', gap' + tail);
    assert rest[|inside| + 1..] == gap' + tail;
    Trimmed(gap', tail);
    ExternUnfolds(gap, rest, |inside|);
  }

  lemma OtherIsNoExtern(s: string)
    requires |s| < 6 || s[..6] != EXTERN
    ensures !IsExternC(s)
  {
  }

  // ----- bare colons -----

  /** A colon with none beside it is bare, */
  lemma BareColonShows(u: string, v: string)
    requires (u == "" || u[|u| - 1] != ':') && (v == "" || v[0] != ':')
    ensures HasBareColon(u + [':'] + v)
  {
    var s, i := u + [':'] + v, |u|;
    assert i == 0 || s[i - 1] == u[i - 1];
    assert i + 1 == |s| || s[i + 1] == v[0];
    assert SingleColonAt(s, i);
  }

  predicate HasColonBeside(s: string, i: nat) {
    (0 < i <= |s| && s[i - 1] == ':') || (i + 1 < |s| && s[i + 1] == ':')
  }

  /** and colons with others beside them are not. */
  lemma PairedColonsAreNone(s: string)
    requires forall i: nat | i < |s| && s[i] == ':' :: HasColonBeside(s, i)
    ensures !HasBareColon(s)
  {
  }

  // ----- access specifiers -----

  /** From k on comes a colon that is not doubled, behind space or behind space, the word slots and space. */
  predicate ColonBehind(line: string, k: nat) {
    exists t | k <= t < |line| :: AllSpace(line, k, t) && (SingleColonAt(line, t) || SlotsBehind(line, k, t))
  }

  predicate SlotsBehind(line: string, k: nat, t: nat) {
    k < t && HasAt(line, t, "slots") && exists u | t + 5 <= u < |line| :: AllSpace(line, t + 5, u) && SingleColonAt(line, u)
  }

  predicate IsAccessWord(word: string) {
    word == "public" || word == "private" || word == "protected" || word == "signals"
  }

  /** The word stands at p, with no word character before it, and its colon behind it. */
  predicate IsSpecifier(line: string, p: nat, word: string) {
    && IsAccessWord(word) && HasAt(line, p, word) && (p == 0 || !IsWordChar(line[p - 1]))
    && ColonBehind(line, p + |word|)
  }

  lemma SpacesEndAt(line: string, k: nat, t: nat)
    requires AllSpace(line, k, t) && t < |line| && !IsSpace(line[t])
    ensures SpaceEnd(line, k) == t
  {
    assert !(SpaceEnd(line, k) < t) && !(t < SpaceEnd(line, k));
  }

  lemma SlotsAreNoSpace(line: string, t: nat)
    requires HasAt(line, t, "slots")
    ensures t + 5 <= |line| && !IsSpace(line[t])
  {
    assert line[t..t + 5][0] == line[t];
  }

  lemma SlotsBehindIs(line: string, k: nat, t: nat)
    requires t + 5 <= |line|
    ensures SlotsBehind(line, k, t) <==> k < t && HasAt(line, t, "slots") && SingleColonAt(line, SpaceEnd(line, t + 5))
  {
    var e := SpaceEnd(line, t + 5);
    assert AllSpace(line, t + 5, e);
    if SlotsBehind(line, k, t) {
      var u :| t + 5 <= u < |line| && AllSpace(line, t + 5, u) && SingleColonAt(line, u);
      SpacesEndAt(line, t + 5, u);
    }
  }

  lemma ColonBehindIs(line: string, k: nat)
    requires k <= |line|
    ensures ColonBehind(line, k) <==> ColonFollows(line, k)
  {
    var e := SpaceEnd(line, k);
    assert AllSpace(line, k, e);
    if HasAt(line, e, "slots") {
      SlotsAreNoSpace(line, e);
      SlotsBehindIs(line, k, e);
    }
    if ColonBehind(line, k) {
      var t :| k <= t < |line| && AllSpace(line, k, t) && (SingleColonAt(line, t) || SlotsBehind(line, k, t));
      if !SingleColonAt(line, t) {
        SlotsAreNoSpace(line, t);
      }
      SpacesEndAt(line, k, t);
    }
  }

  lemma LettersAt(line: string, p: nat, word: string)
    requires HasAt(line, p, word) && |word| > 2
    ensures p + 2 < |line| && line[p] == word[0] && line[p + 1] == word[1] && line[p + 2] == word[2]
  {
    var part := line[p..p + |word|];
    assert part[0] == line[p] && part[1] == line[p + 1] && part[2] == line[p + 2];
  }

  /** The words differ in their first three letters, so at most one of them stands at a place. */
  lemma WordsDiffer(word: string, other: string)
    requires IsAccessWord(word) && IsAccessWord(other) && word != other
    ensures |word| > 2 && |other| > 2 && (word[0] != other[0] || word[1] != other[1] || word[2] != other[2])
  {
  }

  lemma AccessWordIs(line: string, p: nat, word: string)
    requires IsAccessWord(word)
    ensures AccessWord(line, p) == word <==> HasAt(line, p, word)
  {
    var read := AccessWord(line, p);
    if HasAt(line, p, word) && read != word {
      LettersAt(line, p, word);
      LettersAt(line, p, read);
      WordsDiffer(word, read);
    }
  }

  lemma AccessAtIs(line: string, p: nat, word: string)
    requires p <= |line| && word != ""
    ensures AccessAt(line, p) == Some(word) <==>
            AccessWord(line, p) == word && (p == 0 || !IsWordChar(line[p - 1])) && ColonFollows(line, p + |word|)
  {
  }

  lemma SpecifierAt(line: string, p: nat, word: string)
    requires p <= |line| && IsAccessWord(word)
    ensures IsSpecifier(line, p, word) <==>
            AccessWord(line, p) == word && (p == 0 || !IsWordChar(line[p - 1])) && ColonFollows(line, p + |word|)
  {
    AccessWordIs(line, p, word);
    if HasAt(line, p, word) {
      ColonBehindIs(line, p + |word|);
    }
  }

  lemma SpecifierIs(line: string, p: nat, word: string)
    requires p <= |line| && IsAccessWord(word)
    ensures AccessAt(line, p) == Some(word) <==> IsSpecifier(line, p, word)
  {
    AccessAtIs(line, p, word);
    SpecifierAt(line, p, word);
  }

  lemma OnlyAccessWords(line: string, p: nat, word: string)
    requires p <= |line| && AccessAt(line, p) == Some(word)
    ensures IsAccessWord(word)
  {
  }

  predicate SomeSpecifier(line: string, p: nat) {
    IsSpecifier(line, p, "public") || IsSpecifier(line, p, "private") || IsSpecifier(line, p, "protected") || IsSpecifier(line, p, "signals")
  }

  lemma SomeSpecifierIs(line: string, p: nat)
    requires p <= |line|
    ensures AccessAt(line, p).Some? <==> SomeSpecifier(line, p)
  {
    SpecifierIs(line, p, "public");
    SpecifierIs(line, p, "private");
    SpecifierIs(line, p, "protected");
    SpecifierIs(line, p, "signals");
    if AccessAt(line, p).Some? {
      OnlyAccessWords(line, p, AccessAt(line, p).value);
    }
  }

  predicate NoneIn(line: string, p: nat, until: nat) {
    p <= until <= |line| && forall p' | p < p' <= until :: AccessAt(line, p') == None
  }

  lemma NoneUpTo(line: string, p: nat, until: nat)
    requires 0 < until && NoneIn(line, p, until - 1) && until <= |line| && AccessAt(line, until) == None
    ensures NoneIn(line, p, until)
  {
  }

  lemma NoneBehindItself(line: string, p: nat)
    requires p <= |line|
    ensures NoneIn(line, p, p)
  {
  }

  lemma ReadAccessHere(line: string, p: nat)
    requires p <= |line| && (AccessAt(line, p).Some? || p == 0)
    ensures ReadAccess(line, p) == AccessAt(line, p)
  {
  }

  lemma ReadAccessBefore(line: string, until: nat)
    requires 0 < until <= |line| && AccessAt(line, until).None?
    ensures ReadAccess(line, until) == ReadAccess(line, until - 1)
  {
  }

  /** The place of the specifier that is read; at 0 there need not be one. */
  lemma {:induction false} AccessPlace(line: string, until: nat) returns (p: nat)
    requires until <= |line|
    ensures NoneIn(line, p, until) && ReadAccess(line, until) == AccessAt(line, p)
    ensures AccessAt(line, p) == None ==> p == 0
  {
    if AccessAt(line, until).None? && until > 0 {
      p := AccessPlace(line, until - 1);
      NoneUpTo(line, p, until);
      ReadAccessBefore(line, until);
    } else {
      p := until;
      NoneBehindItself(line, p);
      ReadAccessHere(line, p);
    }
  }

  /** The specifier at p is the last one on the line. */
  predicate IsLastSpecifier(line: string, p: nat, word: string) {
    p <= |line| && IsSpecifier(line, p, word) && forall p' | p < p' <= |line| :: !SomeSpecifier(line, p')
  }

  lemma LastSpecifierIs(line: string, p: nat, word: string)
    requires p <= |line| && IsAccessWord(word)
    ensures IsLastSpecifier(line, p, word) <==> AccessAt(line, p) == Some(word) && NoneIn(line, p, |line|)
  {
    SpecifierIs(line, p, word);
    forall p' | p < p' <= |line| ensures AccessAt(line, p') == None <==> !SomeSpecifier(line, p') {
      SomeSpecifierIs(line, p');
    }
  }

  lemma LastIsUnique(line: string, p: nat, q: nat)
    requires NoneIn(line, p, |line|) && NoneIn(line, q, |line|) && AccessAt(line, p).Some?
    requires AccessAt(line, q) == None ==> q == 0
    ensures p == q
  {
    assert !(p < q) && !(q < p);
  }

  /** What is read is the last specifier on the line. */
  lemma AccessIsRead(line: string, word: string)
    requires IsAccessWord(word)
    ensures ReadAccess(line, |line|) == Some(word) <==> exists p: nat :: IsLastSpecifier(line, p, word)
  {
    var q := AccessPlace(line, |line|);
    LastSpecifierIs(line, q, word);
    if p: nat :| IsLastSpecifier(line, p, word) {
      LastSpecifierIs(line, p, word);
      LastIsUnique(line, p, q);
    }
  }

  lemma {:induction false} NoAccessIsRead(line: string)
    ensures ReadAccess(line, |line|) == None <==> forall p: nat | p <= |line| :: !SomeSpecifier(line, p)
  {
    var q := AccessPlace(line, |line|);
    forall p: nat | p <= |line| ensures AccessAt(line, p) == None <==> !SomeSpecifier(line, p) {
      SomeSpecifierIs(line, p);
    }
  }
}
