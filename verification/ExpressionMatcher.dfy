/**
 The forward and backward expression matchers.

 Forward, every character becomes a token that depends on its own line only, and one stack machine
 runs over the tokens.  Backward, the scan may step over two characters at once.  Both keep angle
 brackets on the same stack as the real brackets, and throw pending ones away as operators when a
 real bracket or a semicolon shows them to be wrong.
 */
module ExpressionMatcher {
  import opened Wrappers
  import opened Brackets
  import opened Characters

  // ----- look-behind on the current line -----

  /** `\boperator\s*$` */
  predicate EndsWithOperator(prefix: string) {
    var t := TrimRight(prefix);
    EndsWith(t, "operator") && WordStartsAt(t, |t| - 8)
  }

  lemma OperatorEnds(prefix: string)
    requires EndsWithOperator(prefix)
    ensures prefix != "" && (prefix[|prefix| - 1] == 'r' || IsSpace(prefix[|prefix| - 1]))
  {
    var t := TrimRight(prefix);
    TrimRightIsPrefix(prefix);
    assert t[|t| - 8..][7] == t[|t| - 1] == 'r';
  }

  /** The character that a backward scan steps over along with a `>`. */
  lemma SteppedOver(line: string, i: nat)
    requires i < |line| && SkipsGreater(line, i)
    ensures line[i - 1] == '-' || line[i - 1] == 'r' || IsSpace(line[i - 1])
  {
    if EndsWithOperator(line[..i]) {
      OperatorEnds(line[..i]);
    }
  }

  /** `\s>=\s` at position i. */
  predicate SpacedGreaterEqual(line: string, i: nat) {
    i + 3 < |line| && IsSpace(line[i]) && HasAt(line, i + 1, ">=") && IsSpace(line[i + 3])
  }

  // ----- forward: tokens and their machine -----

  datatype Token = Bracket(c: char) | Less | ShiftLess | Greater | Semicolon | Other

  function TokenAt(line: string, i: nat): Token
    requires i < |line|
  {
    if IsBracket(line[i]) then Bracket(line[i])
    else if line[i] == '<' then
      if i > 0 && line[i - 1] == '<' then ShiftLess
      else if i > 0 && EndsWithOperator(line[..i]) then Other
      else Less
    else if line[i] == '>' then
      if i > 0 && (line[i - 1] == '-' || EndsWithOperator(line[..i - 1])) then Other else Greater
    else if line[i] == ';' then Semicolon
    else Other
  }

  function Tokens(line: string): seq<Token> {
    seq(|line|, i requires 0 <= i < |line| => TokenAt(line, i))
  }

  /** The stack without the pending angles on its top. */
  function DropTop(st: string, angle: char): (r: string)
    ensures r <= st && (r != "" ==> r[|r| - 1] != angle)
  {
    if st != "" && st[|st| - 1] == angle then DropTop(st[..|st| - 1], angle) else st
  }

  function Pop(st: string): string
    requires st != ""
  {
    st[..|st| - 1]
  }

  datatype Verdict = Continue(stack: string) | Fail | Close

  function Advance(st: string, tok: Token): Verdict {
    match tok
    case Bracket(c) =>
      if IsOpener(c) then Continue(st + [c])
      else
        var s := DropTop(st, '<');
        if s == "" || !Matches(s[|s| - 1], c) then Fail
        else if |s| == 1 then Close
        else Continue(Pop(s))
    case Less => Continue(st + "<")
    case ShiftLess =>
      if st == "" || st[|st| - 1] != '<' then Continue(st)
      else if |st| == 1 then Fail
      else Continue(Pop(st))
    case Greater =>
      if st == "" || st[|st| - 1] != '<' then Continue(st)
      else if |st| == 1 then Close
      else Continue(Pop(st))
    case Semicolon =>
      var s := DropTop(st, '<');
      if s == "" then Fail else Continue(s)
    case Other => Continue(st)
  }

  function ScanTokens(toks: seq<Token>, i: nat, st: string): (r: Scan)
    ensures r.Found? ==> i < r.pos <= |toks|
    decreases |toks| - i
  {
    if i >= |toks| then Pending(st)
    else
      match Advance(st, toks[i])
      case Continue(st') => ScanTokens(toks, i + 1, st')
      case Fail => Broken
      case Close => Found(i + 1)
  }

  /** The whole forward match: line after line, with the stack carried over. */
  function CloseFrom(lines: seq<string>, l: nat, i: nat, st: string): (r: Option<(nat, nat)>)
    requires l < |lines|
    ensures r.Some? ==> l <= r.value.0 < |lines| && 0 < r.value.1 <= |lines[r.value.0]|
    ensures r.Some? && r.value.0 == l ==> i < r.value.1
    decreases |lines| - l
  {
    match ScanTokens(Tokens(lines[l]), i, st)
    case Found(e) => Some((l, e))
    case Broken => None
    case Pending(st') => if st' == "" || l + 1 == |lines| then None else CloseFrom(lines, l + 1, 0, st')
  }

  /** The last line that the forward match reads. */
  function CloseStop(lines: seq<string>, l: nat, i: nat, st: string): (r: nat)
    requires l < |lines|
    ensures l <= r < |lines|
    ensures CloseFrom(lines, l, i, st).Some? ==> r == CloseFrom(lines, l, i, st).value.0
    decreases |lines| - l
  {
    match ScanTokens(Tokens(lines[l]), i, st)
    case Pending(st') => if st' == "" || l + 1 == |lines| then l else CloseStop(lines, l + 1, 0, st')
    case _ => l
  }

  predicate ValidAt(lines: seq<string>, l: nat, p: nat) {
    l < |lines| && p < |lines[l]|
  }

  /** `<<` and `<=` never open an expression. */
  predicate ShiftOrLessEqual(line: string, p: nat) {
    HasAt(line, p, "<<") || HasAt(line, p, "<=")
  }

  predicate Refuses(line: string, p: nat)
    requires p < |line|
  {
    (!IsOpener(line[p]) && line[p] != '<') || ShiftOrLessEqual(line, p)
  }

  function CloseOf(lines: seq<string>, l: nat, p: nat): Option<(nat, nat)>
    requires ValidAt(lines, l, p)
  {
    if Refuses(lines[l], p) then None else CloseFrom(lines, l, p, "")
  }

  method PopAngles(stack: string, angle: char) returns (r: string)
    ensures r == DropTop(stack, angle)
  {
    r := stack;
    while r != "" && r[|r| - 1] == angle
      invariant DropTop(r, angle) == DropTop(stack, angle)
      decreases |r|
    {
      r := r[..|r| - 1];
    }
  }

  /** A scan result as the pair that the linter returns for it. */
  predicate ReportedAs(r: Scan, pos: int, stack: Option<string>) {
    match r
    case Found(e) => pos == e && stack == None
    case Broken => pos == -1 && stack == None
    case Pending(st) => pos == -1 && stack == Some(st)
  }

  /** One turn of the forward loop: what the character at i does to the stack. */
  method ReadForward(line: string, i: nat, stack0: string) returns (v: Verdict)
    requires i < |line|
    ensures v == Advance(stack0, TokenAt(line, i))
  {
    var stack := stack0;
    var c := line[i];
    if c == '(' || c == '[' || c == '{' {
      stack := stack + [c];
    } else if c == '<' {
      if i > 0 && line[i - 1] == '<' {
        if stack != "" && stack[|stack| - 1] == '<' {
          stack := stack[..|stack| - 1];
          if stack == "" {
            return Fail;
          }
        }
      } else if i > 0 && EndsWithOperator(line[..i]) {
      } else {
        stack := stack + "<";
      }
    } else if c == ')' || c == ']' || c == '}' {
      stack := PopAngles(stack, '<');
      if stack == "" {
        return Fail;
      }
      var top := stack[|stack| - 1];
      if (top == '(' && c == ')') || (top == '[' && c == ']') || (top == '{' && c == '}') {
        stack := stack[..|stack| - 1];
        if stack == "" {
          return Close;
        }
      } else {
        return Fail;
      }
    } else if c == '>' {
      if i > 0 && (line[i - 1] == '-' || EndsWithOperator(line[..i - 1])) {
      } else if stack != "" {
        if stack[|stack| - 1] == '<' {
          stack := stack[..|stack| - 1];
          if stack == "" {
            return Close;
          }
        }
      }
    } else if c == ';' {
      stack := PopAngles(stack, '<');
      if stack == "" {
        return Fail;
      }
    }
    return Continue(stack);
  }

  method FindEndOfExpressionInLine(line: string, startpos: nat, stack0: string)
    returns (pos: int, newStack: Option<string>)
    ensures ReportedAs(ScanTokens(Tokens(line), startpos, stack0), pos, newStack)
  {
    var stack := stack0;
    var i := startpos;
    while i < |line|
      invariant ScanTokens(Tokens(line), i, stack) == ScanTokens(Tokens(line), startpos, stack0)
    {
      assert Tokens(line)[i] == TokenAt(line, i);
      var v := ReadForward(line, i, stack);
      match v {
        case Continue(stack') => stack := stack';
        case Fail => return -1, None;
        case Close => return i + 1, None;
      }
      i := i + 1;
    }
    return -1, Some(stack);
  }

  method CloseExpression(lines: seq<string>, linenum: nat, pos: nat)
    returns (line: string, endLine: nat, endPos: int)
    requires ValidAt(lines, linenum, pos)
    ensures match CloseOf(lines, linenum, pos)
            case Some(end) => endLine == end.0 && endPos == end.1 && line == lines[end.0]
            case None =>
              && endLine == |lines| && endPos == -1
              && line == lines[if Refuses(lines[linenum], pos) then linenum else CloseStop(lines, linenum, pos, "")]
  {
    line := lines[linenum];
    if !(line[pos] == '(' || line[pos] == '{' || line[pos] == '[' || line[pos] == '<') || ShiftOrLessEqual(line, pos) {
      return line, |lines|, -1;
    }
    var l := linenum;
    var end, stack := FindEndOfExpressionInLine(line, pos, "");
    if end > -1 {
      return line, l, end;
    }
    while stack.Some? && stack.value != "" && l < |lines| - 1
      invariant l < |lines| && line == lines[l]
      invariant CloseOf(lines, linenum, pos) ==
                if stack == None || stack.value == "" || l + 1 == |lines| then None
                else CloseFrom(lines, l + 1, 0, stack.value)
      invariant CloseStop(lines, linenum, pos, "") ==
                if stack == None || stack.value == "" || l + 1 == |lines| then l
                else CloseStop(lines, l + 1, 0, stack.value)
      decreases |lines| - l
    {
      l := l + 1;
      line := lines[l];
      end, stack := FindEndOfExpressionInLine(line, 0, stack.value);
      if end > -1 {
        return line, l, end;
      }
    }
    return line, |lines|, -1;
  }

  // ----- backward -----

  /** A `>` that the backward scan takes for part of `->`, ` >= ` or an operator name. */
  predicate SkipsGreater(line: string, i: nat)
    requires i < |line|
  {
    i > 0 && (line[i - 1] == '-' || SpacedGreaterEqual(line, i - 1) || EndsWithOperator(line[..i]))
  }

  function ScanBack(line: string, i: int, st: string): (r: Scan)
    requires -1 <= i < |line|
    ensures r.Found? ==> r.pos <= i
    decreases i + 1
  {
    if i == -1 then Pending(st)
    else if IsCloser(line[i]) then ScanBack(line, i - 1, st + [line[i]])
    else if line[i] == '>' then
      if SkipsGreater(line, i) then ScanBack(line, i - 2, st) else ScanBack(line, i - 1, st + ">")
    else if line[i] == '<' then
      if i > 0 && line[i - 1] == '<' then ScanBack(line, i - 2, st)
      else if st == "" || st[|st| - 1] != '>' then ScanBack(line, i - 1, st)
      else if |st| == 1 then Found(i)
      else ScanBack(line, i - 1, Pop(st))
    else if IsOpener(line[i]) then
      var s := DropTop(st, '>');
      if s == "" || !Matches(line[i], s[|s| - 1]) then Broken
      else if |s| == 1 then Found(i)
      else ScanBack(line, i - 1, Pop(s))
    else if line[i] == ';' then
      var s := DropTop(st, '>');
      if s == "" then Broken else ScanBack(line, i - 1, s)
    else ScanBack(line, i - 1, st)
  }

  function OpenFrom(lines: seq<string>, l: nat, i: int, st: string): (r: Option<(nat, nat)>)
    requires l < |lines| && -1 <= i < |lines[l]|
    ensures r.Some? ==> ValidAt(lines, r.value.0, r.value.1)
    decreases l
  {
    match ScanBack(lines[l], i, st)
    case Found(p) => Some((l, p))
    case Broken => None
    case Pending(st') => if st' == "" || l == 0 then None else OpenFrom(lines, l - 1, |lines[l - 1]| - 1, st')
  }

  /** The last line that the backward match reads. */
  function OpenStop(lines: seq<string>, l: nat, i: int, st: string): (r: nat)
    requires l < |lines| && -1 <= i < |lines[l]|
    ensures r <= l
    ensures OpenFrom(lines, l, i, st).Some? ==> r == OpenFrom(lines, l, i, st).value.0
    decreases l
  {
    match ScanBack(lines[l], i, st)
    case Pending(st') => if st' == "" || l == 0 then l else OpenStop(lines, l - 1, |lines[l - 1]| - 1, st')
    case _ => l
  }

  function OpenOf(lines: seq<string>, l: nat, p: nat): Option<(nat, nat)>
    requires ValidAt(lines, l, p)
  {
    if !IsCloser(lines[l][p]) && lines[l][p] != '>' then None else OpenFrom(lines, l, p, "")
  }

  /** One turn of the backward loop; it goes on at next. */
  method ReadBackward(line: string, i: nat, stack0: string) returns (v: Verdict, next: int)
    requires i < |line|
    ensures -1 <= next < i
    ensures ScanBack(line, i, stack0) ==
            match v
            case Continue(stack) => ScanBack(line, next, stack)
            case Fail => Broken
            case Close => Found(i)
  {
    var stack := stack0;
    var c := line[i];
    next := i - 1;
    if c == ')' || c == ']' || c == '}' {
      stack := stack + [c];
    } else if c == '>' {
      if i > 0 && (line[i - 1] == '-' || SpacedGreaterEqual(line, i - 1) || EndsWithOperator(line[..i])) {
        next := next - 1;
      } else {
        stack := stack + ">";
      }
    } else if c == '<' {
      if i > 0 && line[i - 1] == '<' {
        next := next - 1;
      } else if stack != "" && stack[|stack| - 1] == '>' {
        stack := stack[..|stack| - 1];
        if stack == "" {
          return Close, next;
        }
      }
    } else if c == '(' || c == '[' || c == '{' {
      stack := PopAngles(stack, '>');
      if stack == "" {
        return Fail, next;
      }
      var top := stack[|stack| - 1];
      if (c == '(' && top == ')') || (c == '[' && top == ']') || (c == '{' && top == '}') {
        stack := stack[..|stack| - 1];
        if stack == "" {
          return Close, next;
        }
      } else {
        return Fail, next;
      }
    } else if c == ';' {
      stack := PopAngles(stack, '>');
      if stack == "" {
        return Fail, next;
      }
    }
    return Continue(stack), next;
  }

  method FindStartOfExpressionInLine(line: string, endpos: int, stack0: string)
    returns (pos: int, newStack: Option<string>)
    requires -1 <= endpos < |line|
    ensures ReportedAs(ScanBack(line, endpos, stack0), pos, newStack)
  {
    var stack := stack0;
    var i := endpos;
    while i >= 0
      invariant -1 <= i < |line|
      invariant ScanBack(line, i, stack) == ScanBack(line, endpos, stack0)
    {
      var v, next := ReadBackward(line, i, stack);
      match v {
        case Continue(stack') => stack := stack';
        case Fail => return -1, None;
        case Close => return i, None;
      }
      i := next;
    }
    return -1, Some(stack);
  }

  method ReverseCloseExpression(lines: seq<string>, linenum: nat, pos: nat)
    returns (line: string, startLine: nat, startPos: int)
    requires ValidAt(lines, linenum, pos)
    ensures match OpenOf(lines, linenum, pos)
            case Some(start) => startLine == start.0 && startPos == start.1 && line == lines[start.0]
            case None =>
              && startLine == 0 && startPos == -1
              && line == lines[if !IsCloser(lines[linenum][pos]) && lines[linenum][pos] != '>' then linenum
                               else OpenStop(lines, linenum, pos, "")]
  {
    line := lines[linenum];
    if !(line[pos] == ')' || line[pos] == '}' || line[pos] == ']' || line[pos] == '>') {
      return line, 0, -1;
    }
    var l := linenum;
    var start, stack := FindStartOfExpressionInLine(line, pos, "");
    if start > -1 {
      return line, l, start;
    }
    while stack.Some? && stack.value != "" && l > 0
      invariant l < |lines| && line == lines[l]
      invariant OpenOf(lines, linenum, pos) ==
                if stack == None || stack.value == "" || l == 0 then None
                else OpenFrom(lines, l - 1, |lines[l - 1]| - 1, stack.value)
      invariant OpenStop(lines, linenum, pos, "") ==
                if stack == None || stack.value == "" || l == 0 then l
                else OpenStop(lines, l - 1, |lines[l - 1]| - 1, stack.value)
      decreases l
    {
      l := l - 1;
      line := lines[l];
      start, stack := FindStartOfExpressionInLine(line, |line| - 1, stack.value);
      if start > -1 {
        return line, l, start;
      }
    }
    return line, 0, -1;
  }
}
