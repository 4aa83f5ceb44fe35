/** The simple matcher that cuts out the text between an opening punctuation and its partner. */
module TextInside {
  import opened Wrappers
  import opened Brackets
  import opened ExpressionMatcher
  import opened BracketMatching
  import opened FlatText

  function CloserOf(c: char): char {
    if c == '(' then ')' else if c == '{' then '}' else ']'
  }

  function Closers(openers: string): string {
    seq(|openers|, i requires 0 <= i < |openers| => CloserOf(openers[i]))
  }

  /** The text that starts at start, just after its opener, ends at q, where the partner stands. */
  ghost predicate EndsAt(text: string, start: nat, q: nat) {
    0 < start && Encloses(text, start - 1, q)
  }

  /**
   matchEnd is where the start pattern ended, if it was found.  The result is the text up to the
   partner that the grammar gives, and None exactly when there is no partner.
   */
  method GetTextInside(text: string, matchEnd: Option<nat>) returns (r: Option<string>)
    requires matchEnd.Some? ==> 0 < matchEnd.value <= |text| && IsOpener(text[matchEnd.value - 1])
    ensures matchEnd == None ==> r == None
    ensures matchEnd.Some? ==> forall q: nat :: EndsAt(text, matchEnd.value, q) ==> r == Some(text[matchEnd.value..q])
    ensures r.Some? ==> matchEnd.Some? && exists q: nat :: EndsAt(text, matchEnd.value, q)
  {
    if matchEnd == None {
      return None;
    }
    var start := matchEnd.value;
    var stack := [CloserOf(text[start - 1])];
    var position := start;
    ghost var openers := [text[start - 1]];
    while stack != "" && position < |text|
      invariant start <= position <= |text|
      invariant stack == Closers(openers) && forall o | o in openers :: IsOpener(o)
      invariant Forward(text, start, [text[start - 1]]) ==
                if openers == "" then Found(position) else Forward(text, position, openers)
      invariant openers == "" ==> start < position
      decreases |text| - position
    {
      var c := text[position];
      assert stack[|stack| - 1] == CloserOf(openers[|openers| - 1]);
      assert openers[|openers| - 1] in openers;
      ghost var before := Forward(text, position, openers);
      if c == stack[|stack| - 1] {
        assert Closers(openers[..|openers| - 1]) == stack[..|stack| - 1];
        stack := stack[..|stack| - 1];
        openers := openers[..|openers| - 1];
        assert before == if openers == "" then Found(position + 1) else Forward(text, position + 1, openers);
      } else if IsCloser(c) {
        NoPartner(text, start);
        return None;
      } else if IsOpener(c) {
        stack := stack + [CloserOf(c)];
        openers := openers + [c];
      }
      position := position + 1;
    }
    if stack != "" {
      NoPartner(text, start);
      return None;
    }
    OnePartner(text, start, position);
    assert EndsAt(text, start, position - 1);
    return Some(text[start..position - 1]);
  }

  lemma OnePartner(text: string, start: nat, e: nat)
    requires 0 < start <= |text| && IsOpener(text[start - 1])
    requires Forward(text, start, [text[start - 1]]) == Found(e)
    ensures e > 0 && forall q: nat :: EndsAt(text, start, q) <==> q == e - 1
  {
    ForwardFindsPartner(text, start - 1, e);
    forall q: nat ensures EndsAt(text, start, q) <==> q == e - 1 {
      ForwardFindsPartner(text, start - 1, q + 1);
    }
  }

  lemma NoPartner(text: string, start: nat)
    requires 0 < start <= |text| && IsOpener(text[start - 1])
    requires !Forward(text, start, [text[start - 1]]).Found?
    ensures forall q: nat :: !EndsAt(text, start, q)
  {
    forall q: nat ensures !EndsAt(text, start, q) {
      ForwardFindsPartner(text, start - 1, q + 1);
    }
  }

  /** The extracted text is unique: only one balanced text is followed by the closer. */
  lemma TextIsUnique(text: string, start: nat, q: nat, q': nat)
    requires EndsAt(text, start, q) && EndsAt(text, start, q')
    ensures text[start..q] == text[start..q']
  {
    PartnerIsUnique(text, start - 1, start - 1, q, q');
  }

  /** On one line, the expression matcher and the text extraction agree on where the text ends. */
  lemma AgreesWithCloseExpression(text: string, p: nat, e: nat)
    requires p < |text| && IsOpener(text[p])
    ensures CloseOf([text], 0, p) == Some((0, e)) <==> e > 0 && EndsAt(text, p + 1, e - 1)
  {
    FlattenOne(text);
    CloseFindsPartner([text], 0, p, 0, e);
  }

  lemma FlattenOne(text: string)
    ensures Flatten([text]) == text
  {
    assert [text][..0] == [];
    assert [] + text == text;
  }
}
