/**
 When the forward and the backward matcher undo each other on a template argument list.

 The two take some angles differently: the halves of a shift, an angle behind operator, a spaced >=.
 At every place outside brackets the drift is what the two readings differ by.  And a scan may take up
 its list at another angle than the one it starts from, or nowhere.  Given one match, the other one
 follows exactly when it takes up a list from which the drift, added to the pending angles, leads back.
 */
module AngleRoundTrip {
  import opened Wrappers
  import opened Brackets
  import opened Characters
  import opened ExpressionMatcher
  import opened BracketMatching
  import opened AngleMatching
  import opened BackwardAngles
  import opened FlatText

  // ----- both readings of one flat text -----

  /** A text s, its forward tokens, and the backward tokens of what stands before b. */
  datatype Readings = Readings(s: string, toks: seq<Token>, back: seq<Token>, b: nat) {
    ghost predicate Valid() {
      && b <= |s| == |toks|
      && Shows(toks, s)
      && (forall j | 0 <= j < |s| :: toks[j] == Semicolon <==> s[j] == ';')
      && |back| == b
      && TrueTo(back, Mirror(s[..b]))
    }
  }

  /** What the readings differ by at j, if j is outside the brackets behind a. */
  ghost function DriftAt(r: Readings, a: nat, j: nat): int
    requires r.Valid() && a <= j < r.b
  {
    if Outside(r.s, a, j) then Delta(r.toks[j]) + Delta(r.back[r.b - 1 - j]) else 0
  }

  /** And from j on. */
  ghost function Drift(r: Readings, a: nat, j: nat): int
    requires r.Valid() && a <= j <= r.b
    decreases r.b - j
  {
    if j == r.b then 0 else DriftAt(r, a, j) + Drift(r, a, j + 1)
  }

  ghost function Forth(r: Readings, a: nat, j: nat): int
    requires r.Valid() && a <= j <= r.b
  {
    Net(r.toks, r.s, a, j)
  }

  /** The pending angles of the backward reading when it has come down to j. */
  ghost function Back(r: Readings, j: nat): int
    requires r.Valid() && j <= r.b
  {
    Net(r.back, Mirror(r.s[..r.b]), 0, r.b - j)
  }

  // ----- outside is outside from both ends -----

  lemma OutsideFromBehind(r: Readings, a: nat, j: nat)
    requires r.Valid() && a <= j < r.b && Balanced(r.s[a..r.b]) && Outside(r.s, a, j) && !IsBracket(r.s[j])
    ensures Balanced(r.s[j + 1..r.b])
  {
    OutsideAfterPlain(r.s, a, j);
    assert r.s[a..r.b] == r.s[a..j + 1] + r.s[j + 1..r.b];
    BalancedSuffix(r.s[a..j + 1], r.s[j + 1..r.b]);
  }

  lemma BalancedPrefix(x: string, y: string)
    requires Balanced(y) && Balanced(x + y)
    ensures Balanced(x)
  {
    MirrorBalanced(y);
    MirrorBalanced(x + y);
    MirrorConcat(x, y);
    BalancedSuffix(Mirror(y), Mirror(x));
    MirrorBalanced(x);
  }

  lemma OutsideFromFront(r: Readings, a: nat, j: nat)
    requires r.Valid() && a <= j < r.b && Balanced(r.s[a..r.b]) && Balanced(r.s[j + 1..r.b]) && !IsBracket(r.s[j])
    ensures Outside(r.s, a, j)
  {
    assert r.s[a..r.b] == r.s[a..j + 1] + r.s[j + 1..r.b];
    BalancedPrefix(r.s[a..j + 1], r.s[j + 1..r.b]);
    BalancedPlain(r.s[j]);
    assert r.s[a..j + 1] == r.s[a..j] + [r.s[j]];
    BalancedPrefix(r.s[a..j], [r.s[j]]);
  }

  /** For a place that holds no bracket. */
  lemma OutsideBothWays(r: Readings, a: nat, j: nat)
    requires r.Valid() && a <= j < r.b && Balanced(r.s[a..r.b]) && !IsBracket(r.s[j])
    ensures Outside(r.s, a, j) <==> Outside(Mirror(r.s[..r.b]), 0, r.b - 1 - j)
  {
    OutsideIsMirrored(r.s[..r.b], r.s, j);
    if Outside(r.s, a, j) {
      OutsideFromBehind(r, a, j);
    }
    if Balanced(r.s[j + 1..r.b]) {
      OutsideFromFront(r, a, j);
    }
  }

  lemma BackTokenShows(r: Readings, j: nat)
    requires r.Valid() && j < r.b
    ensures Mirror(r.s[..r.b])[r.b - 1 - j] == MirrorChar(r.s[j])
    ensures IsBracket(r.s[j]) ==> Delta(r.toks[j]) == Delta(r.back[r.b - 1 - j]) == 0
    ensures r.back[r.b - 1 - j] == Semicolon <==> r.toks[j] == Semicolon
  {
    assert Mirror(r.s[..r.b])[r.b - 1 - j] == MirrorChar(r.s[..r.b][j]);
  }

  // ----- the two counts and the drift -----

  lemma BackOne(r: Readings, a: nat, j: nat)
    requires r.Valid() && a <= j < r.b && Balanced(r.s[a..r.b])
    ensures Back(r, j) == Back(r, j + 1) + if Outside(r.s, a, j) then Delta(r.back[r.b - 1 - j]) else 0
  {
    BackTokenShows(r, j);
    if !IsBracket(r.s[j]) {
      OutsideBothWays(r, a, j);
    }
  }

  lemma {:induction false} CountsAndDrift(r: Readings, a: nat, j: nat)
    requires r.Valid() && a <= j <= r.b && Balanced(r.s[a..r.b])
    ensures Back(r, j) == Forth(r, a, j) - Forth(r, a, r.b) + Drift(r, a, j)
    decreases r.b - j
  {
    if j < r.b {
      BackOne(r, a, j);
      CountsAndDrift(r, a, j + 1);
    }
  }

  lemma SameSemicolons(r: Readings, a: nat)
    requires r.Valid() && a <= r.b && Balanced(r.s[a..r.b])
    ensures (forall j | a <= j < r.b && Outside(r.s, a, j) :: r.toks[j] != Semicolon) <==>
            (forall k | 0 <= k < r.b - a && Outside(Mirror(r.s[..r.b]), 0, k) :: r.back[k] != Semicolon)
  {
    forall j | a <= j < r.b && r.toks[j] == Semicolon
      ensures Outside(r.s, a, j) <==> Outside(Mirror(r.s[..r.b]), 0, r.b - 1 - j)
    {
      OutsideBothWays(r, a, j);
    }
    forall j | a <= j < r.b ensures r.back[r.b - 1 - j] == Semicolon <==> r.toks[j] == Semicolon {
      BackTokenShows(r, j);
    }
    if k :| 0 <= k < r.b - a && Outside(Mirror(r.s[..r.b]), 0, k) && r.back[k] == Semicolon {
      assert k == r.b - 1 - (r.b - 1 - k);
      assert r.toks[r.b - 1 - k] == Semicolon;
    }
    if j :| a <= j < r.b && Outside(r.s, a, j) && r.toks[j] == Semicolon {
      assert r.back[r.b - 1 - j] == Semicolon;
    }
  }

  // ----- one match given, when does the other one follow -----

  /** The list that starts at a closes at b, read forward. */
  ghost predicate ClosesForth(r: Readings, a: nat) {
    r.Valid() && r.b < |r.s| && ClosesAngle(r.toks, r.s, a, r.b)
  }

  /** The list that ends at b starts just before a, read backward. */
  ghost predicate ClosesBack(r: Readings, a: nat) {
    r.Valid() && 0 < a <= r.b && ClosesAngle(r.back, Mirror(r.s[..r.b]), 0, r.b - a)
  }

  lemma WholeBothWays(r: Readings, a: nat)
    requires r.Valid() && a <= r.b
    ensures Outside(Mirror(r.s[..r.b]), 0, r.b - a) <==> Balanced(r.s[a..r.b])
  {
    var w := r.s[..r.b];
    assert w[a..r.b] == r.s[a..r.b];
    MirrorSlice(w, a, r.b);
    MirrorBalanced(w[a..r.b]);
  }

  /** The backward reading closes, in terms of counts taken at forward places. */
  lemma ClosesBackAt(r: Readings, a: nat)
    requires r.Valid() && 0 < a <= r.b && Balanced(r.s[a..r.b])
    ensures ClosesBack(r, a) <==>
            && r.back[r.b - a] == Greater
            && Back(r, a) == 0
            && (forall j | a <= j <= r.b :: Back(r, j) >= 0)
            && (forall j | a <= j < r.b && Outside(r.s, a, j) :: r.toks[j] != Semicolon)
  {
    WholeBothWays(r, a);
    SameSemicolons(r, a);
    forall k | 0 <= k <= r.b - a ensures Net(r.back, Mirror(r.s[..r.b]), 0, k) == Back(r, r.b - k) {
    }
    if forall j | a <= j <= r.b :: Back(r, j) >= 0 {
      forall k | 0 <= k <= r.b - a ensures Net(r.back, Mirror(r.s[..r.b]), 0, k) >= 0 {
        assert Back(r, r.b - k) >= 0;
      }
    }
    if ClosesBack(r, a) {
      forall j | a <= j <= r.b ensures Back(r, j) >= 0 {
        assert Net(r.back, Mirror(r.s[..r.b]), 0, r.b - j) >= 0;
      }
    }
  }

  /** The backward reading closes as far as the forward counts and the drift tell. */
  ghost predicate FollowsBack(r: Readings, a: nat) {
    && r.Valid() && 0 < a <= r.b
    && Balanced(r.s[a..r.b])
    && r.back[r.b - a] == Greater
    && Drift(r, a, a) == Forth(r, a, r.b)
    && forall j | a <= j <= r.b :: Forth(r, a, j) + Drift(r, a, j) >= Forth(r, a, r.b)
  }

  /** The forward reading closes as far as the backward counts and the drift tell. */
  ghost predicate FollowsForth(r: Readings, a: nat) {
    && r.Valid() && a <= r.b < |r.s|
    && Balanced(r.s[a..r.b])
    && r.toks[r.b] == Greater
    && Drift(r, a, a) == Back(r, a)
    && forall j | a <= j <= r.b :: Back(r, j) - Drift(r, a, j) >= 0
  }

  /** No semicolon stands outside brackets. */
  ghost predicate NoSemicolon(r: Readings, a: nat) {
    r.Valid() && a <= r.b && forall j | a <= j < r.b && Outside(r.s, a, j) :: r.toks[j] != Semicolon
  }

  /** The backward reading closes, in terms of the forward counts and the drift. */
  lemma ClosesBackIff(r: Readings, a: nat)
    requires r.Valid() && 0 < a <= r.b
    ensures ClosesBack(r, a) <==> FollowsBack(r, a) && NoSemicolon(r, a)
  {
    WholeBothWays(r, a);
    if Balanced(r.s[a..r.b]) {
      ClosesBackAt(r, a);
      forall j | a <= j <= r.b ensures Back(r, j) == Forth(r, a, j) - Forth(r, a, r.b) + Drift(r, a, j) {
        CountsAndDrift(r, a, j);
      }
      assert Forth(r, a, a) == 0;
    }
  }

  /** The forward reading closes, in terms of the backward counts and the drift. */
  lemma ClosesForthIff(r: Readings, a: nat)
    requires r.Valid() && 0 < a <= r.b < |r.s|
    ensures ClosesForth(r, a) <==> FollowsForth(r, a) && NoSemicolon(r, a)
  {
    if Balanced(r.s[a..r.b]) {
      forall j | a <= j <= r.b ensures Back(r, j) == Forth(r, a, j) - Forth(r, a, r.b) + Drift(r, a, j) {
        CountsAndDrift(r, a, j);
      }
      assert Forth(r, a, a) == 0;
      ForthIsNet(r, a);
    }
  }

  lemma ForthIsNet(r: Readings, a: nat)
    requires r.Valid() && a <= r.b < |r.s| && Balanced(r.s[a..r.b])
    ensures ClosesForth(r, a) <==>
            && r.toks[r.b] == Greater && Forth(r, a, r.b) == 0 && NoSemicolon(r, a)
            && forall j | a <= j <= r.b :: Forth(r, a, j) >= 0
  {
    if ClosesForth(r, a) {
      forall j | a <= j <= r.b ensures Forth(r, a, j) >= 0 {
        assert Net(r.toks, r.s, a, j) >= 0;
      }
    }
    if forall j | a <= j <= r.b :: Forth(r, a, j) >= 0 {
      forall j | a <= j <= r.b ensures Net(r.toks, r.s, a, j) >= 0 {
        assert Forth(r, a, j) >= 0;
      }
    }
  }

  /** Given the forward match, the backward one leads back to its start exactly when the drift fits. */
  lemma BackFollowsIff(r: Readings, a: nat)
    requires 0 < a && ClosesForth(r, a)
    ensures ClosesBack(r, a) <==>
            && r.back[r.b - a] == Greater
            && Drift(r, a, a) == 0
            && forall j | a <= j <= r.b :: Forth(r, a, j) + Drift(r, a, j) >= 0
  {
    ClosesBackIff(r, a);
  }

  /** And given the backward match, the forward one leads back to its start. */
  lemma ForthFollowsIff(r: Readings, a: nat)
    requires r.b < |r.s| && ClosesBack(r, a)
    ensures ClosesForth(r, a) <==>
            && r.toks[r.b] == Greater
            && Drift(r, a, a) == 0
            && forall j | a <= j <= r.b :: Back(r, j) - Drift(r, a, j) >= 0
  {
    ClosesBackIff(r, a);
    ClosesForthIff(r, a);
    WholeBothWays(r, a);
    ClosesBackAt(r, a);
  }

  /** Without drift each match is the other one turned around. */
  lemma AgreeingReadings(r: Readings, a: nat)
    requires r.Valid() && 0 < a <= r.b < |r.s| && r.toks[r.b] == Greater && r.back[r.b - a] == Greater
    requires forall j | a <= j < r.b :: DriftAt(r, a, j) == 0
    ensures ClosesForth(r, a) <==> ClosesBack(r, a)
  {
    forall j | a <= j <= r.b ensures Drift(r, a, j) == 0 {
      NoDrift(r, a, j);
    }
    if ClosesForth(r, a) {
      BackFollowsIff(r, a);
      assert forall j | a <= j <= r.b :: Forth(r, a, j) >= 0;
    }
    if ClosesBack(r, a) {
      WholeBothWays(r, a);
      ClosesBackAt(r, a);
      ForthFollowsIff(r, a);
    }
  }

  lemma {:induction false} NoDrift(r: Readings, a: nat, j: nat)
    requires r.Valid() && a <= j <= r.b && forall i | a <= i < r.b :: DriftAt(r, a, i) == 0
    ensures Drift(r, a, j) == 0
    decreases r.b - j
  {
    if j < r.b {
      NoDrift(r, a, j + 1);
    }
  }

  // ----- the matchers -----

  /** The two readings of lines for a `>` at (m, q). */
  ghost function ReadingsAt(lines: seq<string>, m: nat, q: nat): (r: Readings)
    requires ValidAt(lines, m, q)
    ensures r.Valid() && r.b < |r.s|
  {
    BeforeIsPrefix(lines, m, q - 1);
    BackFlatIsTrue(lines, m, q - 1);
    FlatTokensShow(lines);
    SemicolonsShow(lines);
    FlatTokenAt(lines, m, q);
    assert Flatten(lines)[..Pos(lines, m, q)] == Before(lines, m, q - 1);
    Readings(Flatten(lines), FlatTokens(lines), BackFlat(lines, m, q - 1), Pos(lines, m, q))
  }

  predicate StartsList(lines: seq<string>, l: nat, p: nat) {
    ValidAt(lines, l, p) && TokenAt(lines[l], p) == Less && !ShiftOrLessEqual(lines[l], p)
  }

  predicate EndsList(lines: seq<string>, m: nat, q: nat) {
    ValidAt(lines, m, q) && lines[m][q] == '>' && !SkipsGreater(lines[m], q)
  }

  lemma CloseIsReading(lines: seq<string>, l: nat, p: nat, m: nat, q: nat)
    requires StartsList(lines, l, p) && ValidAt(lines, m, q)
    ensures CloseOf(lines, l, p) == Some((m, q + 1)) <==> ClosesForth(ReadingsAt(lines, m, q), Pos(lines, l, p) + 1)
  {
    CloseFindsAngle(lines, l, p, m, q + 1);
  }

  lemma OpenIsReading(lines: seq<string>, l: nat, p: nat, m: nat, q: nat)
    requires ValidAt(lines, l, p) && lines[l][p] == '<' && EndsList(lines, m, q)
    ensures OpenOf(lines, m, q) == Some((l, p)) <==> ClosesBack(ReadingsAt(lines, m, q), Pos(lines, l, p) + 1)
  {
    OpenFindsAngle(lines, m, q, l, p);
    BeforeIsPrefix(lines, m, q - 1);
    assert Flatten(lines)[..Pos(lines, m, q)] == Before(lines, m, q - 1);
  }

  lemma MatchersAreReadings(lines: seq<string>, l: nat, p: nat, m: nat, q: nat)
    requires StartsList(lines, l, p) && EndsList(lines, m, q)
    ensures var r := ReadingsAt(lines, m, q);
            && (CloseOf(lines, l, p) == Some((m, q + 1)) <==> ClosesForth(r, Pos(lines, l, p) + 1))
            && (OpenOf(lines, m, q) == Some((l, p)) <==> ClosesBack(r, Pos(lines, l, p) + 1))
  {
    LessPushes(lines, l, p);
    CloseIsReading(lines, l, p, m, q);
    OpenIsReading(lines, l, p, m, q);
  }

  /**
   For angles that both scans count: if the forward match of the `<` at (l, p) is the `>` at (m, q),
   then the backward match leads back exactly when it counts the `<` and the drift fits.
   */
  lemma CountedAnglesUndoIff(lines: seq<string>, l: nat, p: nat, m: nat, q: nat)
    requires StartsList(lines, l, p) && EndsList(lines, m, q)
    requires CloseOf(lines, l, p) == Some((m, q + 1))
    ensures var r, a := ReadingsAt(lines, m, q), Pos(lines, l, p) + 1;
            && a <= r.b
            && (OpenOf(lines, m, q) == Some((l, p)) <==>
                  && r.back[r.b - a] == Greater
                  && Drift(r, a, a) == 0
                  && forall j | a <= j <= r.b :: Forth(r, a, j) + Drift(r, a, j) >= 0)
  {
    MatchersAreReadings(lines, l, p, m, q);
    BackFollowsIff(ReadingsAt(lines, m, q), Pos(lines, l, p) + 1);
  }

  /** And the other way round. */
  lemma CountedAnglesUndoBackIff(lines: seq<string>, l: nat, p: nat, m: nat, q: nat)
    requires StartsList(lines, l, p) && EndsList(lines, m, q)
    requires OpenOf(lines, m, q) == Some((l, p))
    ensures var r, a := ReadingsAt(lines, m, q), Pos(lines, l, p) + 1;
            && a <= r.b
            && (CloseOf(lines, l, p) == Some((m, q + 1)) <==>
                  && r.toks[r.b] == Greater
                  && Drift(r, a, a) == 0
                  && forall j | a <= j <= r.b :: Back(r, j) - Drift(r, a, j) >= 0)
  {
    MatchersAreReadings(lines, l, p, m, q);
    ForthFollowsIff(ReadingsAt(lines, m, q), Pos(lines, l, p) + 1);
  }

  // ----- any two angles -----

  predicate IsPair(lines: seq<string>, l: nat, p: nat, m: nat, q: nat) {
    ValidAt(lines, l, p) && ValidAt(lines, m, q) && lines[l][p] == '<' && lines[m][q] == '>'
  }

  /** Where a scan from a `<` at p takes up its list, if it does: there, or behind it on the line. */
  function ListStart(line: string, p: nat): (r: Option<nat>)
    requires p < |line|
    ensures r.Some? ==> p <= r.value < |line|
  {
    if ShiftOrLessEqual(line, p) then None
    else
      match FirstWeight(line, p)
      case Some(f) => if TokenAt(line, f) == Less then Some(f) else None
      case None => None
  }

  /** Where a scan from a `>` at q takes up its list: there, or before it on the line. */
  function ListEnd(line: string, q: nat): (r: Option<nat>)
    requires q < |line|
    ensures r.Some? ==> r.value <= q
  {
    match LastWeight(line, q)
    case Some(b) => if line[b] == '>' then Some(b) else None
    case None => None
  }

  lemma OpenFindsStart(lines: seq<string>, l: nat, p: nat, m: nat, q: nat)
    requires IsPair(lines, l, p, m, q)
    ensures OpenOf(lines, m, q) == Some((l, p)) <==>
            match ListEnd(lines[m], q)
            case None => false
            case Some(b) => ClosesBack(ReadingsAt(lines, m, b), Pos(lines, l, p) + 1)
  {
    SkippedGreaterPassesOver(lines, m, q);
    match LastWeight(lines[m], q)
    case None =>
    case Some(b) =>
      if lines[m][b] == '>' {
        OpenIsReading(lines, l, p, m, b);
      } else if IsCloser(lines[m][b]) {
        OpenFindsPartner(lines, m, b, l, p);
        FlatTokenAt(lines, l, p);
      }
  }

  lemma CloseFindsEnd(lines: seq<string>, l: nat, p: nat, m: nat, q: nat)
    requires IsPair(lines, l, p, m, q)
    ensures CloseOf(lines, l, p) == Some((m, q + 1)) <==>
            match ListStart(lines[l], p)
            case None => false
            case Some(f) => ClosesForth(ReadingsAt(lines, m, q), Pos(lines, l, f) + 1)
  {
    EmptyStackSkips(lines, l, p);
    match FirstWeight(lines[l], p)
    case None =>
    case Some(f) =>
      if TokenAt(lines[l], f) == Less {
        LessFindsAngle(lines, l, f, m, q + 1);
      } else if IsOpener(lines[l][f]) {
        OpenerIsNoShift(lines[l], f);
        CloseFindsPartner(lines, l, f, m, q + 1);
        FlatTokenAt(lines, m, q);
      }
  }

  // ----- what lies between an angle and the place where its list is taken up -----

  lemma {:induction false} PlainIsBalanced(s: string, a: nat, b: nat)
    requires a <= b <= |s| && forall k | a <= k < b :: !IsBracket(s[k])
    ensures Balanced(s[a..b])
  {
    if a == b {
      BalancedEmpty();
      assert s[a..b] == "";
    } else {
      PlainIsBalanced(s, a, b - 1);
      BalancedBeforePlain(s, a, b - 1);
    }
  }

  /** Behind a `<` up to where its list is taken up, no bracket and no semicolon stands. */
  lemma BeforeListStart(lines: seq<string>, l: nat, p: nat, k: nat)
    requires ValidAt(lines, l, p) && ListStart(lines[l], p).Some?
    requires Pos(lines, l, p) <= k <= Pos(lines, l, ListStart(lines[l], p).value)
    ensures k < |Flatten(lines)| == |FlatTokens(lines)|
    ensures !IsBracket(Flatten(lines)[k]) && FlatTokens(lines)[k] != Semicolon
  {
    FlatTokenAt(lines, l, k - Offset(lines, l));
  }

  /** Nor does one before a `>` down to where its list is taken up. */
  lemma {:induction false} Passed(line: string, i: int, k: nat)
    requires -1 <= i < |line| && LastWeight(line, i).Some? && LastWeight(line, i).value < k <= i
    ensures !IsBracket(line[k]) && line[k] != ';'
    decreases i + 1
  {
    if StepsOverTwo(line, i) {
      if k >= i - 1 {
        TrueTwo(line, i);
        assert [MirrorChar(line[i]), MirrorChar(line[i - 1])][i - k] == MirrorChar(line[k]);
      } else {
        Passed(line, i - 2, k);
      }
    } else if k < i {
      Passed(line, i - 1, k);
    }
  }

  lemma BehindListEnd(lines: seq<string>, m: nat, q: nat, k: nat)
    requires ValidAt(lines, m, q) && lines[m][q] == '>' && ListEnd(lines[m], q).Some?
    requires Pos(lines, m, ListEnd(lines[m], q).value) <= k <= Pos(lines, m, q)
    ensures k < |Flatten(lines)| && !IsBracket(Flatten(lines)[k]) && Flatten(lines)[k] != ';'
  {
    FlatTokenAt(lines, m, k - Offset(lines, m));
    PassedToEnd(lines[m], q, k - Offset(lines, m));
  }

  lemma PassedToEnd(line: string, q: nat, i: nat)
    requires q < |line| && ListEnd(line, q).Some? && ListEnd(line, q).value <= i <= q
    ensures !IsBracket(line[i]) && line[i] != ';'
  {
    if i > ListEnd(line, q).value {
      Passed(line, q, i);
    }
  }

  // ----- a match leaves no semicolon for the other one -----

  lemma ForthLeavesNoSemicolon(lines: seq<string>, l: nat, p: nat, m: nat, q: nat, b: nat)
    requires IsPair(lines, l, p, m, q) && CloseOf(lines, l, p) == Some((m, q + 1))
    requires b <= q && Pos(lines, l, p) < Pos(lines, m, b)
    ensures NoSemicolon(ReadingsAt(lines, m, b), Pos(lines, l, p) + 1)
  {
    CloseFindsEnd(lines, l, p, m, q);
    var f := ListStart(lines[l], p).value;
    var r, r', a, a' := ReadingsAt(lines, m, b), ReadingsAt(lines, m, q), Pos(lines, l, p) + 1, Pos(lines, l, f) + 1;
    forall j | a <= j < r.b && Outside(r.s, a, j) ensures r.toks[j] != Semicolon {
      if j < a' {
        BeforeListStart(lines, l, p, j);
      } else {
        forall k | a <= k < a' ensures !IsBracket(r.s[k]) {
          BeforeListStart(lines, l, p, k);
        }
        OutsideFromLater(r.s, a, a', j);
        assert r'.toks[j] != Semicolon;
      }
    }
  }

  lemma OutsideFromLater(s: string, a: nat, a': nat, j: nat)
    requires a <= a' <= j && Outside(s, a, j) && forall k | a <= k < a' :: !IsBracket(s[k])
    ensures Outside(s, a', j)
  {
    PlainIsBalanced(s, a, a');
    assert s[a..j] == s[a..a'] + s[a'..j];
    BalancedSuffix(s[a..a'], s[a'..j]);
  }

  lemma BackLeavesNoSemicolon(lines: seq<string>, l: nat, p: nat, m: nat, q: nat, f: nat)
    requires IsPair(lines, l, p, m, q) && OpenOf(lines, m, q) == Some((l, p))
    requires p <= f < |lines[l]| && FollowsForth(ReadingsAt(lines, m, q), Pos(lines, l, f) + 1)
    ensures NoSemicolon(ReadingsAt(lines, m, q), Pos(lines, l, f) + 1)
  {
    OpenFindsStart(lines, l, p, m, q);
    var b := ListEnd(lines[m], q).value;
    var r, r', a := ReadingsAt(lines, m, q), ReadingsAt(lines, m, b), Pos(lines, l, f) + 1;
    forall j | a <= j < r.b && Outside(r.s, a, j) ensures r.toks[j] != Semicolon {
      if j >= r'.b {
        BehindListEnd(lines, m, q, j);
      } else if r.toks[j] == Semicolon {
        forall k | r'.b <= k < r.b ensures !IsBracket(r.s[k]) {
          BehindListEnd(lines, m, q, k);
        }
        BalancedBehind(r.s, a, j, r'.b, r.b);
        BackHasNoSemicolon(r', Pos(lines, l, p) + 1, j);
      }
    }
  }

  lemma BalancedBehind(s: string, a: nat, j: nat, b: nat, e: nat)
    requires a <= j < b <= e <= |s| && Outside(s, a, j) && !IsBracket(s[j]) && Balanced(s[a..e])
    requires forall k | b <= k < e :: !IsBracket(s[k])
    ensures Balanced(s[j + 1..b])
  {
    BalancedBeforePlain(s, a, j);
    assert s[a..e] == s[a..j + 1] + s[j + 1..e];
    BalancedSuffix(s[a..j + 1], s[j + 1..e]);
    PlainIsBalanced(s, b, e);
    assert s[j + 1..e] == s[j + 1..b] + s[b..e];
    BalancedPrefix(s[j + 1..b], s[b..e]);
  }

  lemma BackHasNoSemicolon(r: Readings, a: nat, j: nat)
    requires ClosesBack(r, a) && a <= j < r.b && Balanced(r.s[j + 1..r.b])
    ensures r.toks[j] != Semicolon
  {
    OutsideIsMirrored(r.s[..r.b], r.s, j);
    BackTokenShows(r, j);
    assert Outside(Mirror(r.s[..r.b]), 0, r.b - 1 - j);
  }

  // ----- the theorem -----

  /**
   If the forward match of the `<` at (l, p) ends at (m, q), then the backward match leads back exactly
   when a `>` is there and it takes up a list at some b, which is q itself unless that `>` is skipped,
   and the text down to (l, p) is balanced, the `<` is counted, and the drift makes up for what is
   pending forward at b and never outweighs what is pending above that.
   */
  lemma AnglesUndoIff(lines: seq<string>, l: nat, p: nat, m: nat, q: nat)
    requires ValidAt(lines, l, p) && lines[l][p] == '<' && ValidAt(lines, m, q)
    requires CloseOf(lines, l, p) == Some((m, q + 1))
    ensures OpenOf(lines, m, q) == Some((l, p)) <==>
            && lines[m][q] == '>'
            && match ListEnd(lines[m], q)
               case None => false
               case Some(b) => FollowsBack(ReadingsAt(lines, m, b), Pos(lines, l, p) + 1)
  {
    if lines[m][q] == '>' {
      PairUndoesIff(lines, l, p, m, q);
    } else if IsCloser(lines[m][q]) {
      OpenFindsPartner(lines, m, q, l, p);
      FlatTokenAt(lines, l, p);
    }
  }

  lemma PairUndoesIff(lines: seq<string>, l: nat, p: nat, m: nat, q: nat)
    requires IsPair(lines, l, p, m, q) && CloseOf(lines, l, p) == Some((m, q + 1))
    ensures OpenOf(lines, m, q) == Some((l, p)) <==>
            match ListEnd(lines[m], q)
            case None => false
            case Some(b) => FollowsBack(ReadingsAt(lines, m, b), Pos(lines, l, p) + 1)
  {
    OpenFindsStart(lines, l, p, m, q);
    match ListEnd(lines[m], q)
    case None =>
    case Some(b) =>
      if Pos(lines, l, p) < Pos(lines, m, b) {
        ClosesBackIff(ReadingsAt(lines, m, b), Pos(lines, l, p) + 1);
        ForthLeavesNoSemicolon(lines, l, p, m, q, b);
      }
  }

  /** And the other way round; here the list is taken up at f, which is p itself unless that `<` is not pushed. */
  lemma AnglesUndoBackIff(lines: seq<string>, l: nat, p: nat, m: nat, q: nat)
    requires ValidAt(lines, m, q) && lines[m][q] == '>' && ValidAt(lines, l, p)
    requires OpenOf(lines, m, q) == Some((l, p))
    ensures CloseOf(lines, l, p) == Some((m, q + 1)) <==>
            && lines[l][p] == '<'
            && match ListStart(lines[l], p)
               case None => false
               case Some(f) => FollowsForth(ReadingsAt(lines, m, q), Pos(lines, l, f) + 1)
  {
    if lines[l][p] == '<' {
      PairUndoesBackIff(lines, l, p, m, q);
    } else if IsOpener(lines[l][p]) {
      CloseFindsPartner(lines, l, p, m, q + 1);
      FlatTokenAt(lines, m, q);
    }
  }

  lemma PairUndoesBackIff(lines: seq<string>, l: nat, p: nat, m: nat, q: nat)
    requires IsPair(lines, l, p, m, q) && OpenOf(lines, m, q) == Some((l, p))
    ensures CloseOf(lines, l, p) == Some((m, q + 1)) <==>
            match ListStart(lines[l], p)
            case None => false
            case Some(f) => FollowsForth(ReadingsAt(lines, m, q), Pos(lines, l, f) + 1)
  {
    CloseFindsEnd(lines, l, p, m, q);
    match ListStart(lines[l], p)
    case None =>
    case Some(f) =>
      var r, a := ReadingsAt(lines, m, q), Pos(lines, l, f) + 1;
      if a <= r.b {
        ClosesForthIff(r, a);
        if FollowsForth(r, a) {
          BackLeavesNoSemicolon(lines, l, p, m, q, f);
        }
      }
  }

  // ----- instances -----

  /** The forward scan ends on a spaced `>=`; the backward scan skips it, and takes up no list before it. */
  lemma AnglesDoNotUndoEachOther()
    ensures CloseOf(["a<b >= c"], 0, 1) == Some((0, 5))
    ensures ListEnd("a<b >= c", 4) == None && OpenOf(["a<b >= c"], 0, 4) == None
  {
    var line := "a<b >= c";
    ForwardEndsOnComparison();
    assert line[4..6] == ">=";
    assert SkipsGreater(line, 4);
    assert LastWeight(line, 0) == None;
    assert LastWeight(line, 1) == None;
    assert LastWeight(line, 2) == None;
    SkippedGreaterPassesOver([line], 0, 4);
  }

  lemma ForwardEndsOnComparison()
    ensures CloseOf(["a<b >= c"], 0, 1) == Some((0, 5))
  {
    var line := "a<b >= c";
    assert !HasAt(line, 1, "<<") && !HasAt(line, 1, "<=") by {
      assert line[1..3] == "<b";
    }
    var toks := Tokens(line);
    assert line[..1] == "a" && line[..3] == "a<b";
    assert TrimRight("a") == "a" && TrimRight("a<b") == "a<b";
    assert toks[1] == Less && toks[2] == Other && toks[3] == Other && toks[4] == Greater;
    assert "" + "<" == "<";
    assert ScanTokens(toks, 4, "<") == Found(5);
    assert ScanTokens(toks, 3, "<") == Found(5);
    assert ScanTokens(toks, 2, "<") == Found(5);
    assert ScanTokens(toks, 1, "") == Found(5);
  }

  lemma ShortIsNoOperator(s: string)
    requires |s| < 8
    ensures !EndsWithOperator(s)
  {
    TrimRightIsPrefix(s);
  }

  lemma BackwardTakesLessEqual(line: string)
    requires |line| == 5 && line[1] == '<' && line[4] == '>' && line[0] != '<' && line[3] != '-'
    requires forall i | 2 <= i < 4 :: !IsBracket(line[i]) && line[i] != '<' && line[i] != '>' && line[i] != ';'
    ensures OpenOf([line], 0, 4) == Some((0, 1))
  {
    ShortIsNoOperator(line[..4]);
    assert "" + ">" == ">";
    assert ScanBack(line, 1, ">") == Found(1);
    assert ScanBack(line, 2, ">") == Found(1);
    assert ScanBack(line, 3, ">") == Found(1);
    assert ScanBack(line, 4, "") == Found(1);
  }

  /** The backward scan starts a list at the `<` of a `<=`, which the forward scan refuses. */
  lemma NorDoTheyBackward()
    ensures OpenOf(["a<=b>"], 0, 4) == Some((0, 1))
    ensures ListStart("a<=b>", 1) == None && CloseOf(["a<=b>"], 0, 1) == None
  {
    var line := "a<=b>";
    assert HasAt(line, 1, "<=") by {
      assert line[1..3] == "<=";
    }
    BackwardTakesLessEqual(line);
  }

  // ----- where there is no drift -----

  /** An angle that both readings take alike: no half of a shift, not behind operator, no spaced >=. */
  predicate PlainAngle(line: string, i: nat)
    requires i < |line|
  {
    && (line[i] == '<' ==>
          && (i > 0 ==> line[i - 1] != '<' && !EndsWithOperator(line[..i]))
          && (i + 1 < |line| ==> line[i + 1] != '<'))
    && (line[i] == '>' && i > 0 ==>
          !EndsWithOperator(line[..i]) && !EndsWithOperator(line[..i - 1]) && !SpacedGreaterEqual(line, i - 1))
  }

  /** On lines l to m. */
  predicate PlainAngles(lines: seq<string>, l: nat, m: nat) {
    forall k, i | l <= k <= m && k < |lines| && 0 <= i < |lines[k]| :: PlainAngle(lines[k], i)
  }

  /** A plain angle is not what a backward double step passes over. */
  lemma NotSteppedOver(line: string, k: nat)
    requires 0 < k < |line| && StepsOverTwo(line, k) && PlainAngle(line, k - 1)
    ensures line[k - 1] != '<' && line[k - 1] != '>'
  {
    if line[k] == '>' {
      SteppedOver(line, k);
    }
  }

  lemma {:induction false} PlainBackToken(line: string, i0: int, i: nat)
    requires i <= i0 < |line| && PlainAngle(line, i)
    ensures Delta(BackTokens(line, i0)[i0 - i]) ==
            if line[i] == '<' then -1 else if line[i] == '>' && !(i > 0 && line[i - 1] == '-') then 1 else 0
    ensures line[i] == '<' ==> BackTokens(line, i0)[i0 - i] == Greater
    decreases i0
  {
    if StepsOverTwo(line, i0) {
      if i < i0 - 1 {
        PlainBackToken(line, i0 - 2, i);
      } else if i == i0 - 1 {
        NotSteppedOver(line, i0);
      }
    } else if i < i0 {
      PlainBackToken(line, i0 - 1, i);
    }
  }

  /** The same through the lines. */
  lemma {:induction false} BackFlatAt(lines: seq<string>, m: nat, i0: int, l: nat, i: nat)
    requires m < |lines| && -1 <= i0 < |lines[m]| && ValidAt(lines, l, i) && (l < m || (l == m && i <= i0))
    ensures Pos(lines, l, i) <= Offset(lines, m) + i0
    ensures BackFlat(lines, m, i0)[Offset(lines, m) + i0 - Pos(lines, l, i)] ==
            if l == m then BackTokens(lines[m], i0)[i0 - i]
            else BackTokens(lines[l], |lines[l]| - 1)[|lines[l]| - 1 - i]
    decreases m
  {
    if l < m {
      BackFlatAt(lines, m - 1, |lines[m - 1]| - 1, l, i);
    }
  }

  lemma PlainForwardToken(line: string, i: nat)
    requires i < |line| && PlainAngle(line, i)
    ensures Delta(TokenAt(line, i)) ==
            if line[i] == '<' then 1 else if line[i] == '>' && !(i > 0 && line[i - 1] == '-') then -1 else 0
  {
  }

  lemma PlainNoDrift(lines: seq<string>, m: nat, q: nat, l: nat, i: nat)
    requires PlainAngles(lines, l, m) && ValidAt(lines, m, q) && ValidAt(lines, l, i) && (l < m || (l == m && i < q))
    ensures var r, j := ReadingsAt(lines, m, q), Pos(lines, l, i);
            j < r.b && Delta(r.toks[j]) + Delta(r.back[r.b - 1 - j]) == 0
  {
    assert PlainAngle(lines[l], i);
    FlatTokenAt(lines, l, i);
    PlainForwardToken(lines[l], i);
    BackFlatAt(lines, m, q - 1, l, i);
    PlainBackToken(lines[l], if l == m then q - 1 else |lines[l]| - 1, i);
  }

  /** Every flat position before (m, q) is one on a line. */
  lemma {:induction false} PositionOnLine(lines: seq<string>, m: nat, q: nat, j: nat) returns (l: nat, i: nat)
    requires ValidAt(lines, m, q) && j < Pos(lines, m, q)
    ensures ValidAt(lines, l, i) && Pos(lines, l, i) == j && (l < m || (l == m && i < q))
    decreases m
  {
    if j >= Offset(lines, m) {
      l, i := m, j - Offset(lines, m);
    } else {
      var k := m - 1;
      while Offset(lines, k) > j
        invariant 0 <= k < m && j < Offset(lines, k + 1)
        decreases k
      {
        k := k - 1;
      }
      l, i := k, j - Offset(lines, k);
    }
  }

  /** If the angles on the lines in between are plain, the matchers undo each other on an argument list too. */
  lemma PlainAnglesUndo(lines: seq<string>, l: nat, p: nat, m: nat, q: nat)
    requires PlainAngles(lines, l, m) && l <= m && ValidAt(lines, l, p) && ValidAt(lines, m, q)
    requires lines[l][p] == '<' && !HasAt(lines[l], p, "<=")
    requires lines[m][q] == '>' && !(q > 0 && lines[m][q - 1] == '-')
    ensures CloseOf(lines, l, p) == Some((m, q + 1)) <==> OpenOf(lines, m, q) == Some((l, p))
  {
    assert PlainAngle(lines[l], p) && PlainAngle(lines[m], q);
    NoShiftAt(lines[l], p);
    MatchersAreReadings(lines, l, p, m, q);
    PlainReadingsAgree(lines, l, p, m, q);
  }

  lemma PlainReadingsAgree(lines: seq<string>, l: nat, p: nat, m: nat, q: nat)
    requires PlainAngles(lines, l, m) && l <= m && ValidAt(lines, l, p) && ValidAt(lines, m, q)
    requires lines[l][p] == '<' && TokenAt(lines[m], q) == Greater
    ensures var r, a := ReadingsAt(lines, m, q), Pos(lines, l, p) + 1;
            ClosesForth(r, a) <==> ClosesBack(r, a)
  {
    var r, a := ReadingsAt(lines, m, q), Pos(lines, l, p) + 1;
    if a <= r.b {
      StartIsBefore(lines, l, p, m, q);
      PlainStartIsCounted(lines, l, p, m, q);
      FlatTokenAt(lines, m, q);
      forall j | a <= j < r.b ensures DriftAt(r, a, j) == 0 {
        PlainPlaceHasNoDrift(lines, l, m, q, a, j);
      }
      AgreeingReadings(r, a);
    }
  }

  lemma StartIsBefore(lines: seq<string>, l: nat, p: nat, m: nat, q: nat)
    requires ValidAt(lines, l, p) && ValidAt(lines, m, q) && Pos(lines, l, p) < Pos(lines, m, q)
    ensures l < m || (l == m && p < q)
  {
    if m < l {
      OffsetGrows(lines, m, l);
    }
  }

  lemma PlainPlaceHasNoDrift(lines: seq<string>, l: nat, m: nat, q: nat, a: nat, j: nat)
    requires ValidAt(lines, m, q) && l <= m && PlainAngles(lines, l, m)
    requires Offset(lines, l) <= a <= j < Pos(lines, m, q)
    ensures DriftAt(ReadingsAt(lines, m, q), a, j) == 0
  {
    var l', i := PositionOnLine(lines, m, q, j);
    if l' < l {
      OffsetGrows(lines, l', l);
    }
    PlainNoDrift(lines, m, q, l', i);
  }

  lemma NoShiftAt(line: string, p: nat)
    requires p < |line| && PlainAngle(line, p) && line[p] == '<' && !HasAt(line, p, "<=")
    ensures TokenAt(line, p) == Less && !ShiftOrLessEqual(line, p)
  {
    assert p + 2 <= |line| ==> line[p..p + 2][1] == line[p + 1];
  }

  lemma PlainStartIsCounted(lines: seq<string>, l: nat, p: nat, m: nat, q: nat)
    requires PlainAngles(lines, l, m) && ValidAt(lines, m, q) && ValidAt(lines, l, p) && (l < m || (l == m && p < q))
    requires lines[l][p] == '<'
    ensures Pos(lines, l, p) < Pos(lines, m, q)
    ensures BackFlat(lines, m, q - 1)[Pos(lines, m, q) - 1 - Pos(lines, l, p)] == Greater
  {
    assert PlainAngle(lines[l], p);
    BackFlatAt(lines, m, q - 1, l, p);
    PlainBackToken(lines[l], if l == m then q - 1 else |lines[l]| - 1, p);
    BackFlatIsTrue(lines, m, q - 1);
  }
}
