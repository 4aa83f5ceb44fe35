/**
 Regrouping of constructor arguments.

 The argument text is split at every comma, and pieces are joined again until their `<` and `(` are
 closed.  The code reads past the end of the list when a group never closes; that is None here.
 */
module ConstructorArgs {
  import opened Wrappers
  import opened Characters

  /** More `<` than `>`, or more `(` than `)`. */
  predicate Excess(s: string) {
    Count(s, '<') > Count(s, '>') || Count(s, '(') > Count(s, ')')
  }

  /** `text.split(',')` */
  function Split(text: string): (r: seq<string>)
    ensures r != []
  {
    if text == "" then [""]
    else
      var rest := Split(text[1..]);
      if text[0] == ',' then [""] + rest else [[text[0]] + rest[0]] + rest[1..]
  }

  function ArgumentsOf(text: string): seq<string> {
    if text == "" then [] else Split(text)
  }

  /** `','.join(args)` */
  function Join(args: seq<string>): string {
    if args == [] then "" else if |args| == 1 then args[0] else args[0] + "," + Join(args[1..])
  }

  /** The first group: arg with as many of rest as it takes to close it, and what is left. */
  function Close(arg: string, rest: seq<string>): (r: Option<(string, seq<string>)>)
    ensures r.Some? ==> |r.value.1| <= |rest|
    decreases |rest|
  {
    if !Excess(arg) then Some((arg, rest))
    else if rest == [] then None
    else Close(arg + "," + rest[0], rest[1..])
  }

  function Regroup(args: seq<string>): Option<seq<string>>
    decreases |args|
  {
    if args == [] then Some([])
    else
      match Close(args[0], args[1..])
      case None => None
      case Some((arg, rest)) =>
        match Regroup(rest)
        case None => None
        case Some(r) => Some([arg] + r)
  }

  function Prepend(done: seq<string>, r: Option<seq<string>>): Option<seq<string>> {
    match r
    case None => None
    case Some(more) => Some(done + more)
  }

  method RegroupArgs(args0: seq<string>) returns (r: Option<seq<string>>)
    ensures r == Regroup(args0)
  {
    var args := args0;
    var i := 0;
    assert args[..0] == [] && args[0..] == args;
    assert forall more: seq<string> :: [] + more == more;
    while i < |args|
      invariant i <= |args| && Prepend(args[..i], Regroup(args[i..])) == Regroup(args0)
      decreases |args| - i
    {
      var arg := args[i];
      ghost var first := Close(args[i], args[i + 1..]);
      ghost var done, before := args[..i], args[i..];
      assert before[0] == arg && before[1..] == args[i + 1..];
      while Excess(arg)
        invariant i < |args| && args[..i] == done && Close(arg, args[i + 1..]) == first
        invariant |args| - i <= |before|
        decreases |args|
      {
        if i + 1 >= |args| {
          return None;
        }
        arg := arg + "," + args[i + 1];
        ghost var tail := args[i + 1..];
        args := args[..i + 1] + args[i + 2..];
        assert args[i + 1..] == tail[1..];
      }
      args := args[..i] + [arg] + args[i + 1..];
      assert args[..i + 1] == done + [arg];
      forall more: seq<string> ensures done + ([arg] + more) == args[..i + 1] + more {}
      i := i + 1;
    }
    assert args[i..] == [] && args[..i] + [] == args;
    return Some(args);
  }

  // ----- splitting and joining -----

  lemma {:induction false} SplitJoins(text: string)
    ensures Join(Split(text)) == text
  {
    if text != "" {
      SplitJoins(text[1..]);
      var rest := Split(text[1..]);
      if text[0] == ',' {
        assert ([""] + rest)[1..] == rest;
        assert text == "" + "," + text[1..];
      } else {
        var r := [[text[0]] + rest[0]] + rest[1..];
        assert r[1..] == rest[1..];
        assert text == [text[0]] + text[1..];
        if |rest| > 1 {
          assert [text[0]] + (rest[0] + "," + Join(rest[1..])) == [text[0]] + rest[0] + "," + Join(rest[1..]);
        }
      }
    }
  }

  /** No piece holds a comma; so the pieces are what stands between the commas. */
  lemma {:induction false} PiecesHoldNoComma(text: string)
    ensures forall i | 0 <= i < |Split(text)| :: ',' !in Split(text)[i]
  {
    if text != "" {
      PiecesHoldNoComma(text[1..]);
      var rest := Split(text[1..]);
      assert forall i | 1 <= i < |rest| :: rest[1..][i - 1] == rest[i];
    }
  }

  lemma {:induction false} SplitsOnlyAtCommas(text: string)
    requires ',' !in text
    ensures Split(text) == [text]
  {
    if text != "" {
      SplitsOnlyAtCommas(text[1..]);
      assert text == [text[0]] + text[1..];
    }
  }

  lemma JoinCons(a: string, rest: seq<string>)
    requires rest != []
    ensures Join([a] + rest) == a + "," + Join(rest)
  {
    assert ([a] + rest)[1..] == rest;
  }

  // ----- what a group is -----

  /** As many `>` as `<` at least, and as many `)` as `(`. */
  predicate IsClosed(s: string) {
    Count(s, '<') <= Count(s, '>') && Count(s, '(') <= Count(s, ')')
  }

  /** The first n pieces are the first group: they are closed, and no fewer of them are. */
  ghost predicate FirstGroup(args: seq<string>, n: nat) {
    && 0 < n <= |args|
    && IsClosed(Join(args[..n]))
    && forall m | 0 < m < n :: !IsClosed(Join(args[..m]))
  }

  /** r joins consecutive pieces of args, each time as few as close a group. */
  ghost predicate Groups(args: seq<string>, r: seq<string>)
    decreases |args|
  {
    if args == [] then r == []
    else r != [] && exists n | 0 < n <= |args| ::
        FirstGroup(args, n) && r[0] == Join(args[..n]) && Groups(args[n..], r[1..])
  }

  /** However many of the pieces are joined, the group stays open. */
  ghost predicate StaysOpen(args: seq<string>) {
    args != [] && forall n | 0 < n <= |args| :: !IsClosed(Join(args[..n]))
  }

  /** Close finds the first group, and fails exactly when none closes. */
  lemma {:induction false} CloseFindsGroup(args: seq<string>, k: nat)
    requires 0 < k <= |args| && forall m | 0 < m < k :: !IsClosed(Join(args[..m]))
    ensures match Close(Join(args[..k]), args[k..])
            case Some((arg, rest)) =>
              var n := |args| - |rest|;
              n >= k && FirstGroup(args, n) && arg == Join(args[..n]) && rest == args[n..]
            case None => StaysOpen(args)
    decreases |args| - k
  {
    if !IsClosed(Join(args[..k])) {
      if k < |args| {
        JoinSnoc(args[..k], args[k]);
        assert args[..k] + [args[k]] == args[..k + 1];
        assert args[k..][1..] == args[k + 1..];
        CloseFindsGroup(args, k + 1);
      }
    }
  }

  lemma {:induction false} JoinSnoc(args: seq<string>, a: string)
    requires args != []
    ensures Join(args + [a]) == Join(args) + "," + a
  {
    if |args| > 1 {
      JoinSnoc(args[1..], a);
      assert (args + [a])[1..] == args[1..] + [a];
      assert args[0] + "," + (Join(args[1..]) + "," + a) == args[0] + "," + Join(args[1..]) + "," + a;
    }
  }

  lemma CloseFirst(args: seq<string>)
    requires args != []
    ensures match Close(args[0], args[1..])
            case Some((arg, rest)) =>
              var n := |args| - |rest|;
              FirstGroup(args, n) && arg == Join(args[..n]) && rest == args[n..]
            case None => StaysOpen(args)
  {
    assert Join(args[..1]) == args[0];
    CloseFindsGroup(args, 1);
  }

  lemma FirstGroupIsUnique(args: seq<string>, n: nat, n': nat)
    requires FirstGroup(args, n) && FirstGroup(args, n')
    ensures n == n'
  {
  }

  /** The loop computes the grouping, and only that. */
  lemma {:induction false} RegroupIsGrouping(args: seq<string>, r: seq<string>)
    ensures Regroup(args) == Some(r) <==> Groups(args, r)
    decreases |args|
  {
    if args != [] {
      CloseFirst(args);
      match Close(args[0], args[1..])
      case None =>
        assert forall n: nat :: !FirstGroup(args, n);
      case Some((arg, rest)) =>
        var n := |args| - |rest|;
        forall m: nat | FirstGroup(args, m) ensures m == n {
          FirstGroupIsUnique(args, n, m);
        }
        if r != [] {
          RegroupIsGrouping(rest, r[1..]);
          if Regroup(rest).Some? {
            assert ([arg] + Regroup(rest).value)[1..] == Regroup(rest).value;
            assert r == [r[0]] + r[1..];
          }
        }
    }
  }

  /** Regrouping preserves the text and leaves no argument with an open `<` or `(`. */
  lemma {:induction false} RegroupPreservesText(args: seq<string>)
    requires Regroup(args).Some?
    ensures Join(Regroup(args).value) == Join(args)
    ensures Regroup(args).value == [] <==> args == []
    ensures forall a | a in Regroup(args).value :: Count(a, '<') <= Count(a, '>') && Count(a, '(') <= Count(a, ')')
    decreases |args|
  {
    if args != [] {
      CloseFirst(args);
      var (arg, rest) := Close(args[0], args[1..]).value;
      RegroupPreservesText(rest);
      var n := |args| - |rest|;
      assert args == args[..n] + rest;
      JoinConcat(args[..n], rest);
      if rest != [] {
        JoinCons(arg, Regroup(rest).value);
      } else {
        assert [arg] + Regroup(rest).value == [arg];
      }
    }
  }

  lemma {:induction false} JoinConcat(a: seq<string>, b: seq<string>)
    requires a != []
    ensures Join(a + b) == if b == [] then Join(a) else Join(a) + "," + Join(b)
  {
    if b == [] {
      assert a + b == a;
    } else if |a| == 1 {
      assert a == [a[0]];
      JoinCons(a[0], b);
    } else {
      JoinConcat(a[1..], b);
      assert (a + b)[1..] == a[1..] + b;
      assert a[0] + "," + (Join(a[1..]) + "," + Join(b)) == a[0] + "," + Join(a[1..]) + "," + Join(b);
    }
  }

  /** The text of the argument list itself comes back when the regrouped pieces are joined. */
  lemma RegroupedTextIsOriginal(text: string)
    ensures var r := Regroup(ArgumentsOf(text));
            r.Some? ==>
              && Join(r.value) == text
              && forall a | a in r.value :: IsClosed(a)
  {
    SplitJoins(text);
    if Regroup(ArgumentsOf(text)).Some? {
      RegroupPreservesText(ArgumentsOf(text));
    }
  }

  // ----- when the loop runs off the list -----

  /** Where a group starts: at 0, and behind every first group. */
  ghost predicate GroupStartsAt(args: seq<string>, b: nat)
    requires b <= |args|
    decreases |args|
  {
    b == 0 || exists n | 0 < n <= b :: FirstGroup(args, n) && GroupStartsAt(args[n..], b - n)
  }

  /** Some group that the loop starts stays open to the end. */
  ghost predicate HasOpenGroup(args: seq<string>) {
    exists b | 0 <= b < |args| :: GroupStartsAt(args, b) && StaysOpen(args[b..])
  }

  lemma OpenGroupGoesOn(args: seq<string>, n: nat)
    requires FirstGroup(args, n) && HasOpenGroup(args)
    ensures HasOpenGroup(args[n..])
  {
    assert args[0..] == args;
    var b :| 0 <= b < |args| && GroupStartsAt(args, b) && StaysOpen(args[b..]);
    var m :| 0 < m <= b && FirstGroup(args, m) && GroupStartsAt(args[m..], b - m);
    FirstGroupIsUnique(args, n, m);
    assert args[n..][b - n..] == args[b..];
  }

  lemma OpenGroupInRest(args: seq<string>, n: nat)
    requires FirstGroup(args, n)
    ensures HasOpenGroup(args) <==> HasOpenGroup(args[n..])
  {
    if HasOpenGroup(args) {
      OpenGroupGoesOn(args, n);
    }
    if HasOpenGroup(args[n..]) {
      var b :| 0 <= b < |args[n..]| && GroupStartsAt(args[n..], b) && StaysOpen(args[n..][b..]);
      assert args[n..][b..] == args[n + b..];
      assert n + b - n == b;
      assert GroupStartsAt(args, n + b);
    }
  }

  /** The loop runs off the list exactly when some group that it starts stays open to the end. */
  lemma {:induction false} RunsOffIff(args: seq<string>)
    ensures Regroup(args) == None <==> HasOpenGroup(args)
    decreases |args|
  {
    if args != [] {
      CloseFirst(args);
      match Close(args[0], args[1..])
      case None =>
        assert args[0..] == args && GroupStartsAt(args, 0);
      case Some((arg, rest)) =>
        RunsOffIff(rest);
        OpenGroupInRest(args, |args| - |rest|);
    }
  }

  /** It cannot run off if every suffix of the pieces closes at least as much as it opens. */
  lemma ClosedSuffixesSuffice(args: seq<string>)
    requires forall b | 0 <= b < |args| :: IsClosed(Join(args[b..]))
    ensures Regroup(args).Some?
  {
    RunsOffIff(args);
    forall b | 0 <= b < |args| ensures !StaysOpen(args[b..]) {
      assert args[b..][..|args| - b] == args[b..];
    }
  }

  /** A comparison in a default argument makes the loop run off the list. */
  lemma ComparisonRunsOff()
    ensures Regroup(ArgumentsOf("x=a<b")) == None
  {
    assert "x=a<b"[1..] == "=a<b" && "=a<b"[1..] == "a<b" && "a<b"[1..] == "<b" && "<b"[1..] == "b" && "b"[1..] == "";
    SplitsOnlyAtCommas("x=a<b");
    assert Count("<b", '<') == 1 && Count("<b", '>') == 0;
    assert Count("=a<b", '<') == 1 && Count("=a<b", '>') == 0;
    assert Excess("x=a<b");
    assert ["x=a<b"][1..] == [];
  }
}
