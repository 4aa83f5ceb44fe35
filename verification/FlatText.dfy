/** Lines laid end to end, and the correspondence between (line, column) and flat positions. */
module FlatText {
  function Flatten<T>(lines: seq<seq<T>>): seq<T> {
    if lines == [] then [] else Flatten(lines[..|lines| - 1]) + lines[|lines| - 1]
  }

  function Offset<T>(lines: seq<seq<T>>, l: nat): nat
    requires l <= |lines|
  {
    if l == 0 then 0 else Offset(lines, l - 1) + |lines[l - 1]|
  }

  lemma {:induction false} OffsetOfPrefix<T>(lines: seq<seq<T>>, n: nat, l: nat)
    requires l <= n <= |lines|
    ensures Offset(lines[..n], l) == Offset(lines, l)
  {
    if l > 0 {
      OffsetOfPrefix(lines, n, l - 1);
    }
  }

  lemma {:induction false} FlattenLength<T>(lines: seq<seq<T>>)
    ensures |Flatten(lines)| == Offset(lines, |lines|)
  {
    if lines != [] {
      FlattenLength(lines[..|lines| - 1]);
      OffsetOfPrefix(lines, |lines| - 1, |lines| - 1);
    }
  }

  /** Line l occupies the flat positions from its offset to the next one. */
  lemma {:induction false} LineInFlat<T>(lines: seq<seq<T>>, l: nat)
    requires l < |lines|
    ensures Offset(lines, l) + |lines[l]| <= |Flatten(lines)|
    ensures Flatten(lines)[Offset(lines, l)..Offset(lines, l) + |lines[l]|] == lines[l]
  {
    var front := lines[..|lines| - 1];
    FlattenLength(front);
    OffsetOfPrefix(lines, |front|, l);
    OffsetOfPrefix(lines, |front|, |front|);
    if l < |front| {
      LineInFlat(front, l);
      var a, b := Offset(lines, l), Offset(lines, l) + |lines[l]|;
      assert Flatten(lines)[a..b] == Flatten(front)[a..b];
    }
  }

  lemma {:induction false} OffsetGrows<T>(lines: seq<seq<T>>, l: nat, m: nat)
    requires l < m <= |lines|
    ensures Offset(lines, l) + |lines[l]| <= Offset(lines, m)
  {
    if l < m - 1 {
      OffsetGrows(lines, l, m - 1);
    }
  }

  /** Two different (line, column) positions are two different flat positions. */
  lemma PositionsAreDistinct<T>(lines: seq<seq<T>>, l: nat, p: nat, m: nat, q: nat)
    requires l < |lines| && p < |lines[l]| && m < |lines| && q < |lines[m]|
    requires Offset(lines, l) + p == Offset(lines, m) + q
    ensures l == m && p == q
  {
    if l < m {
      OffsetGrows(lines, l, m);
    } else if m < l {
      OffsetGrows(lines, m, l);
    }
  }
}
