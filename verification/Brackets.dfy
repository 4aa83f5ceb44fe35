/**
 Balanced words over ( ) [ ] { }.

 A word is balanced when the grammar below derives it.  The two plain scanners walk a text with a
 stack, one to the right and one to the left, and know nothing of angle brackets; the theorems at
 the end say that each of them finds exactly the partner that the grammar gives.
 */
module Brackets {
  predicate IsOpener(c: char) {
    c == '(' || c == '[' || c == '{'
  }

  predicate IsCloser(c: char) {
    c == ')' || c == ']' || c == '}'
  }

  predicate IsBracket(c: char) {
    IsOpener(c) || IsCloser(c)
  }

  predicate Matches(o: char, c: char) {
    (o == '(' && c == ')') || (o == '[' && c == ']') || (o == '{' && c == '}')
  }

  // ----- the grammar -----

  /** Derivations:  word ::= empty  |  other word  |  opener word closer word. */
  datatype Tree = Empty | Plain(other: char, rest: Tree) | Nested(opener: char, inner: Tree, closer: char, rest: Tree) {
    ghost predicate Valid() {
      match this
      case Empty => true
      case Plain(c, rest) => !IsBracket(c) && rest.Valid()
      case Nested(o, inner, c, rest) => Matches(o, c) && inner.Valid() && rest.Valid()
    }

    function Yield(): string {
      match this
      case Empty => ""
      case Plain(c, rest) => [c] + rest.Yield()
      case Nested(o, inner, c, rest) => [o] + inner.Yield() + [c] + rest.Yield()
    }
  }

  ghost predicate Derives(t: Tree, s: string) {
    t.Valid() && t.Yield() == s
  }

  ghost predicate Balanced(s: string) {
    exists t :: Derives(t, s)
  }

  /** The bracket at p and the one at q are partners: the text between them is balanced. */
  ghost predicate Encloses(s: string, p: nat, q: nat) {
    && p < q < |s|
    && Matches(s[p], s[q])
    && Balanced(s[p + 1..q])
  }

  lemma BalancedEmpty()
    ensures Balanced("")
  {
    assert Derives(Empty, "");
  }

  lemma BalancedPlain(c: char)
    requires !IsBracket(c)
    ensures Balanced([c])
  {
    assert Plain(c, Empty).Yield() == [c];
    assert Derives(Plain(c, Empty), [c]);
  }

  lemma BalancedNested(o: char, s: string, c: char)
    requires Matches(o, c) && Balanced(s)
    ensures Balanced([o] + s + [c])
  {
    var t :| Derives(t, s);
    assert Nested(o, t, c, Empty).Yield() == [o] + s + [c];
    assert Derives(Nested(o, t, c, Empty), [o] + s + [c]);
  }

  lemma {:induction false} TreeConcat(t: Tree, u: Tree) returns (r: Tree)
    requires t.Valid() && u.Valid()
    ensures r.Valid() && r.Yield() == t.Yield() + u.Yield()
  {
    match t
    case Empty =>
      r := u;
    case Plain(c, rest) =>
      var r' := TreeConcat(rest, u);
      r := Plain(c, r');
    case Nested(o, inner, c, rest) =>
      var r' := TreeConcat(rest, u);
      r := Nested(o, inner, c, r');
  }

  lemma BalancedConcat(a: string, b: string)
    requires Balanced(a) && Balanced(b)
    ensures Balanced(a + b)
  {
    var t :| Derives(t, a);
    var u :| Derives(u, b);
    var r := TreeConcat(t, u);
    assert Derives(r, a + b);
  }

  // ----- the plain scanners -----

  /** What a scan ends with: the position it was looking for, a mismatch, or an unfinished stack. */
  datatype Scan = Found(pos: nat) | Broken | Pending(stack: string)

  /** Scans s[i..] with the openers in st still to be closed; Found is just past the last closer. */
  function Forward(s: string, i: nat, st: string): (r: Scan)
    requires i <= |s| && st != []
    ensures r.Found? ==> i < r.pos <= |s|
    ensures r.Pending? ==> r.stack != []
    decreases |s| - i
  {
    if i == |s| then Pending(st)
    else if IsOpener(s[i]) then Forward(s, i + 1, st + [s[i]])
    else if !IsCloser(s[i]) then Forward(s, i + 1, st)
    else if !Matches(st[|st| - 1], s[i]) then Broken
    else if |st| == 1 then Found(i + 1)
    else Forward(s, i + 1, st[..|st| - 1])
  }

  /** Scans s[..i + 1] from its end with the closers in st still to be opened; Found is the opener. */
  function Backward(s: string, i: int, st: string): (r: Scan)
    requires -1 <= i < |s| && st != []
    ensures r.Found? ==> r.pos <= i
    ensures r.Pending? ==> r.stack != []
    decreases i + 1
  {
    if i == -1 then Pending(st)
    else if IsCloser(s[i]) then Backward(s, i - 1, st + [s[i]])
    else if !IsOpener(s[i]) then Backward(s, i - 1, st)
    else if !Matches(s[i], st[|st| - 1]) then Broken
    else if |st| == 1 then Found(i)
    else Backward(s, i - 1, st[..|st| - 1])
  }

  // ----- balanced text is invisible to both scanners -----

  ghost predicate At(s: string, i: nat, w: string) {
    i + |w| <= |s| && s[i..i + |w|] == w
  }

  lemma AtConcat(s: string, i: nat, a: string, b: string)
    requires At(s, i, a + b)
    ensures At(s, i, a) && At(s, i + |a|, b)
  {
    assert s[i..i + |a|] == s[i..i + |a + b|][..|a|] == a;
    assert s[i + |a|..i + |a| + |b|] == s[i..i + |a + b|][|a|..] == b;
  }

  lemma AtOne(s: string, i: nat, c: char, rest: string)
    requires At(s, i, [c] + rest)
    ensures i < |s| && s[i] == c && At(s, i + 1, rest)
  {
    AtConcat(s, i, [c], rest);
    assert s[i..i + 1][0] == c;
  }

  /** Where a nested derivation stands in the text, its four pieces stand one after the other. */
  lemma AtNested(s: string, i: nat, o: char, inner: string, c: char, rest: string)
    requires At(s, i, [o] + inner + [c] + rest)
    ensures var k := i + 1 + |inner|;
            i < k < |s| && s[i] == o && At(s, i + 1, inner) && s[k] == c && At(s, k + 1, rest)
  {
    assert [o] + inner + [c] + rest == [o] + (inner + ([c] + rest));
    AtOne(s, i, o, inner + ([c] + rest));
    AtConcat(s, i + 1, inner, [c] + rest);
    AtOne(s, i + 1 + |inner|, c, rest);
  }

  lemma ForwardPair(s: string, i: nat, st: string, k: nat)
    requires i < k < |s| && Matches(s[i], s[k]) && st != []
    requires Forward(s, i + 1, st + [s[i]]) == Forward(s, k, st + [s[i]])
    ensures Forward(s, i, st) == Forward(s, k + 1, st)
  {
    assert (st + [s[i]])[..|st|] == st;
  }

  lemma BackwardPair(s: string, i: nat, st: string, k: nat)
    requires i < k < |s| && Matches(s[i], s[k]) && st != []
    requires Backward(s, k - 1, st + [s[k]]) == Backward(s, i, st + [s[k]])
    ensures Backward(s, k, st) == Backward(s, i - 1, st)
  {
    assert (st + [s[k]])[..|st|] == st;
  }

  lemma {:induction false} ForwardSkips(s: string, i: nat, st: string, t: Tree)
    requires t.Valid() && st != []
    requires At(s, i, t.Yield())
    ensures Forward(s, i, st) == Forward(s, i + |t.Yield()|, st)
    decreases t
  {
    match t
    case Empty =>
    case Plain(c, rest) =>
      AtOne(s, i, c, rest.Yield());
      ForwardSkips(s, i + 1, st, rest);
    case Nested(o, inner, c, rest) =>
      var k := i + 1 + |inner.Yield()|;
      AtNested(s, i, o, inner.Yield(), c, rest.Yield());
      assert i + |t.Yield()| == k + 1 + |rest.Yield()|;
      ForwardSkips(s, i + 1, st + [o], inner);
      ForwardPair(s, i, st, k);
      ForwardSkips(s, k + 1, st, rest);
  }

  lemma {:induction false} BackwardSkips(s: string, i: nat, st: string, t: Tree)
    requires t.Valid() && st != []
    requires At(s, i, t.Yield())
    ensures Backward(s, i + |t.Yield()| - 1, st) == Backward(s, i - 1, st)
    decreases t
  {
    match t
    case Empty =>
    case Plain(c, rest) =>
      AtOne(s, i, c, rest.Yield());
      BackwardSkips(s, i + 1, st, rest);
    case Nested(o, inner, c, rest) =>
      var k := i + 1 + |inner.Yield()|;
      AtNested(s, i, o, inner.Yield(), c, rest.Yield());
      assert i + |t.Yield()| == k + 1 + |rest.Yield()|;
      BackwardSkips(s, k + 1, st, rest);
      BackwardSkips(s, i + 1, st + [c], inner);
      BackwardPair(s, i, st, k);
  }

  // ----- and what a scanner passes over before it pops is balanced -----

  /** Partners at p and q, followed by balanced text up to e. */
  lemma BalancedPair(s: string, p: nat, q: nat, e: nat)
    requires Encloses(s, p, q) && q < e <= |s| && Balanced(s[q + 1..e])
    ensures Balanced(s[p..e])
  {
    BalancedNested(s[p], s[p + 1..q], s[q]);
    BalancedConcat([s[p]] + s[p + 1..q] + [s[q]], s[q + 1..e]);
    assert s[p..e] == [s[p]] + s[p + 1..q] + [s[q]] + s[q + 1..e];
  }

  /** Balanced text from b on, followed by partners at p and q. */
  lemma BalancedBeforePair(s: string, b: nat, p: nat, q: nat)
    requires b <= p && Encloses(s, p, q) && Balanced(s[b..p])
    ensures Balanced(s[b..q + 1])
  {
    BalancedEmpty();
    assert s[q + 1..q + 1] == "";
    BalancedPair(s, p, q, q + 1);
    BalancedConcat(s[b..p], s[p..q + 1]);
    assert s[b..q + 1] == s[b..p] + s[p..q + 1];
  }

  lemma BalancedAfterPlain(s: string, i: nat, e: nat)
    requires i < e <= |s| && !IsBracket(s[i]) && Balanced(s[i + 1..e])
    ensures Balanced(s[i..e])
  {
    BalancedPlain(s[i]);
    BalancedConcat([s[i]], s[i + 1..e]);
    assert s[i..e] == [s[i]] + s[i + 1..e];
  }

  lemma BalancedBeforePlain(s: string, b: nat, i: nat)
    requires b <= i < |s| && !IsBracket(s[i]) && Balanced(s[b..i])
    ensures Balanced(s[b..i + 1])
  {
    BalancedPlain(s[i]);
    BalancedConcat(s[b..i], [s[i]]);
    assert s[b..i + 1] == s[b..i] + [s[i]];
  }

  lemma PushAndPop(st: string, c: char)
    ensures |st + [c]| == |st| + 1 && (st + [c])[|st|] == c && (st + [c])[..|st|] == st
  {
  }

  /** A forward scan that goes below the opener on top of its stack crosses a balanced text first. */
  lemma {:induction false} ForwardSplits(s: string, i: nat, st: string) returns (q: nat)
    requires i <= |s| && st != []
    requires var r := Forward(s, i, st); r.Found? || (r.Pending? && |r.stack| < |st|)
    ensures i <= q < |s| && Balanced(s[i..q]) && Matches(st[|st| - 1], s[q])
    ensures Forward(s, i, st) == if |st| == 1 then Found(q + 1) else Forward(s, q + 1, st[..|st| - 1])
    decreases |s| - i
  {
    if IsOpener(s[i]) {
      var k := ForwardSplits(s, i + 1, st + [s[i]]);
      PushAndPop(st, s[i]);
      assert Forward(s, i, st) == Forward(s, k + 1, st);
      q := ForwardSplits(s, k + 1, st);
      BalancedPair(s, i, k, q);
    } else if !IsCloser(s[i]) {
      q := ForwardSplits(s, i + 1, st);
      BalancedAfterPlain(s, i, q);
    } else {
      q := i;
      BalancedEmpty();
      assert s[i..q] == "";
    }
  }

  lemma {:induction false} BackwardSplits(s: string, i: int, st: string) returns (p: nat)
    requires -1 <= i < |s| && st != []
    requires var r := Backward(s, i, st); r.Found? || (r.Pending? && |r.stack| < |st|)
    ensures p <= i && Balanced(s[p + 1..i + 1]) && Matches(s[p], st[|st| - 1])
    ensures Backward(s, i, st) == if |st| == 1 then Found(p) else Backward(s, p - 1, st[..|st| - 1])
    decreases i + 1
  {
    if IsCloser(s[i]) {
      var k := BackwardSplits(s, i - 1, st + [s[i]]);
      PushAndPop(st, s[i]);
      assert Backward(s, i, st) == Backward(s, k - 1, st);
      p := BackwardSplits(s, k - 1, st);
      BalancedBeforePair(s, p + 1, k, i);
    } else if !IsOpener(s[i]) {
      p := BackwardSplits(s, i - 1, st);
      BalancedBeforePlain(s, p + 1, i);
    } else {
      p := i;
      BalancedEmpty();
      assert s[i + 1..i + 1] == "";
    }
  }

  // ----- the theorems -----

  /** A forward scan passes over balanced text. */
  lemma ForwardOver(s: string, i: nat, e: nat, st: string)
    requires i <= e <= |s| && Balanced(s[i..e]) && st != []
    ensures Forward(s, i, st) == Forward(s, e, st)
  {
    var t :| Derives(t, s[i..e]);
    assert |t.Yield()| == e - i && At(s, i, t.Yield());
    ForwardSkips(s, i, st, t);
  }

  /** And a backward scan. */
  lemma BackwardOver(s: string, i: nat, e: nat, st: string)
    requires i <= e <= |s| && Balanced(s[i..e]) && st != []
    ensures Backward(s, e - 1, st) == Backward(s, i - 1, st)
  {
    var t :| Derives(t, s[i..e]);
    assert |t.Yield()| == e - i && At(s, i, t.Yield());
    BackwardSkips(s, i, st, t);
  }

  lemma ForwardReachesPartner(s: string, p: nat, q: nat)
    requires Encloses(s, p, q)
    ensures Forward(s, p + 1, [s[p]]) == Found(q + 1)
  {
    ForwardOver(s, p + 1, q, [s[p]]);
  }

  lemma BackwardReachesPartner(s: string, p: nat, q: nat)
    requires Encloses(s, p, q)
    ensures Backward(s, q - 1, [s[q]]) == Found(p)
  {
    BackwardOver(s, p + 1, q, [s[q]]);
  }

  /** A plain scan to the right finds e exactly when the grammar makes e - 1 the partner of p. */
  lemma ForwardFindsPartner(s: string, p: nat, e: nat)
    requires p < |s| && IsOpener(s[p])
    ensures Forward(s, p + 1, [s[p]]) == Found(e) <==> e > 0 && Encloses(s, p, e - 1)
  {
    if Forward(s, p + 1, [s[p]]) == Found(e) {
      var q := ForwardSplits(s, p + 1, [s[p]]);
    }
    if e > 0 && Encloses(s, p, e - 1) {
      ForwardReachesPartner(s, p, e - 1);
    }
  }

  /** The same, to the left. */
  lemma BackwardFindsPartner(s: string, p: nat, q: nat)
    requires q < |s| && IsCloser(s[q])
    ensures Backward(s, q - 1, [s[q]]) == Found(p) <==> Encloses(s, p, q)
  {
    if Backward(s, q - 1, [s[q]]) == Found(p) {
      var k := BackwardSplits(s, q - 1, [s[q]]);
    }
    if Encloses(s, p, q) {
      BackwardReachesPartner(s, p, q);
    }
  }

  /** A bracket has at most one partner on either side. */
  lemma PartnerIsUnique(s: string, p: nat, p': nat, q: nat, q': nat)
    requires Encloses(s, p, q)
    ensures Encloses(s, p, q') ==> q == q'
    ensures Encloses(s, p', q) ==> p == p'
  {
    ForwardFindsPartner(s, p, q + 1);
    ForwardFindsPartner(s, p, q' + 1);
    BackwardFindsPartner(s, p, q);
    BackwardFindsPartner(s, p', q);
  }
}
