/** The rewriting of `x |> f()` to `f(x)` in salt-front/src/lib.rs, on ASCII text. */
module PipeOperator {
  import opened Wrappers

  predicate IsSpace(c: char) {
    c == ' ' || '\t' <= c <= '\r'
  }

  function TrimStart(s: string): string {
    if s != [] && IsSpace(s[0]) then TrimStart(s[1..]) else s
  }

  function TrimEnd(s: string): string {
    if s != [] && IsSpace(s[|s| - 1]) then TrimEnd(s[..|s| - 1]) else s
  }

  function Trim(s: string): string {
    TrimEnd(TrimStart(s))
  }

  function SkipSpaces(s: string): string {
    if s != [] && s[0] == ' ' then SkipSpaces(s[1..]) else s
  }

  // The operand on the left.

  predicate Opens(c: char) {
    c == '(' || c == '['
  }

  predicate Closes(c: char) {
    c == ')' || c == ']'
  }

  predicate Separates(c: char) {
    c == '=' || c == ';' || c == ',' || c == '{'
  }

  /** Where the left operand starts, for a scan that has come down to `i` at the given depth. */
  function LhsStart(buffer: string, i: nat, depth: nat): (start: nat)
    requires i <= |buffer|
    ensures start <= i
  {
    if i == 0 then 0
    else
      var c := buffer[i - 1];
      if Closes(c) then LhsStart(buffer, i - 1, depth + 1)
      else if Opens(c) then (if depth > 0 then LhsStart(buffer, i - 1, depth - 1) else i)
      else if Separates(c) && depth == 0 then i
      else LhsStart(buffer, i - 1, depth)
  }

  // The call on the right.

  predicate EndsName(c: char) {
    c == '(' || c == ';' || c == ',' || c == ' ' || c == '|'
  }

  function NameLength(s: string): (n: nat)
    ensures n <= |s|
  {
    if s == [] || EndsName(s[0]) then 0 else 1 + NameLength(s[1..])
  }

  /** How much of `s` comes before the parenthesis that closes the arguments. */
  function ArgsLength(s: string, depth: nat): (n: nat)
    requires depth >= 1
    ensures n <= |s|
  {
    if s == [] then 0
    else if s[0] == '(' then 1 + ArgsLength(s[1..], depth + 1)
    else if s[0] == ')' then (if depth == 1 then 0 else 1 + ArgsLength(s[1..], depth - 1))
    else 1 + ArgsLength(s[1..], depth)
  }

  datatype Rhs = Rhs(name: string, args: string, rest: string)

  function PipeRhs(s: string): (r: Rhs)
    ensures |r.rest| <= |s|
  {
    var n := NameLength(s);
    if n < |s| && s[n] == '(' then
      var a := n + 1 + ArgsLength(s[n + 1..], 1);
      Rhs(Trim(s[..n]), Trim(s[n + 1..a]), if a < |s| then s[a + 1..] else [])
    else
      Rhs(Trim(s[..n]), [], s[n..])
  }

  function Call(name: string, x: string, args: string): string {
    name + "(" + x + (if args == [] then [] else ", " + args) + ")"
  }

  // The scanner.

  function LastOr(buffer: string, otherwise: char): char {
    if buffer == [] then otherwise else buffer[|buffer| - 1]
  }

  predicate AtPipe(s: string) {
    |s| >= 2 && s[0] == '|' && s[1] == '>'
  }

  lemma SkippingShortens(s: string)
    ensures |SkipSpaces(s)| <= |s|
  {
  }

  /** The scanner's loop variables: what is left of the line, and what has been made of the rest. */
  datatype State = State(chars: string, inString: bool, buffer: string, result: string)

  /** One round of the loop. */
  function Advance(st: State): (next: State)
    requires st.chars != []
    ensures |next.chars| < |st.chars|
  {
    var State(s, inString, buffer, result) := st;
    if s[0] == '"' && !inString then State(s[1..], true, buffer + [s[0]], result)
    else if s[0] == '"' then State(s[1..], LastOr(buffer, ' ') == '\\', buffer + [s[0]], result)
    else if inString then State(s[1..], true, buffer + [s[0]], result)
    else if AtPipe(s) then
      SkippingShortens(s[2..]);
      var start := LhsStart(buffer, |buffer|, 0);
      var rhs := PipeRhs(SkipSpaces(s[2..]));
      State(rhs.rest, false, Call(rhs.name, Trim(buffer[start..]), rhs.args), result + buffer[..start])
    else State(s[1..], false, buffer + [s[0]], result)
  }

  /** What the scanner makes of the rest of the line. */
  function Scan(s: string, inString: bool, buffer: string, result: string): string
    decreases |s|
  {
    if s == [] then result + buffer
    else
      var next := Advance(State(s, inString, buffer, result));
      Scan(next.chars, next.inString, next.buffer, next.result)
  }

  predicate HasPipe(line: string) {
    exists i :: 0 <= i < |line| && AtPipe(line[i..])
  }

  function Convert(line: string): string {
    if HasPipe(line) then Scan(line, false, [], []) else line
  }

  // The program.

  method ExtractPipeLhs(buffer: string) returns (lhs: string)
    ensures lhs == buffer[LhsStart(buffer, |buffer|, 0)..]
  {
    var depth := 0;
    for i := |buffer| downto 0
      invariant depth >= 0
      invariant LhsStart(buffer, i, depth) == LhsStart(buffer, |buffer|, 0)
    {
      var c := buffer[i];
      if Closes(c) {
        depth := depth + 1;
      } else if Opens(c) {
        if depth > 0 {
          depth := depth - 1;
        } else {
          return buffer[i + 1..];
        }
      } else if Separates(c) && depth == 0 {
        return buffer[i + 1..];
      }
    }
    return buffer;
  }

  method ExtractPipeRhs(chars: string) returns (rhs: Rhs)
    ensures rhs == PipeRhs(chars)
  {
    hide Trim;
    var i := 0;
    while i < |chars| && !EndsName(chars[i])
      invariant i <= |chars| && NameLength(chars) == i + NameLength(chars[i..])
    {
      assert chars[i..][1..] == chars[i + 1..];
      i := i + 1;
    }
    assert NameLength(chars) == i;
    var fnName := chars[..i];
    if i == |chars| || chars[i] != '(' {
      return Rhs(Trim(fnName), [], chars[i..]);
    }
    var n := ArgsEnd(chars[i + 1..]);
    var end := i + 1 + n;
    return Rhs(Trim(fnName), Trim(chars[i + 1..end]), if end < |chars| then chars[end + 1..] else []);
  }

  /** The inner loop: runs to the parenthesis that closes the arguments. */
  method ArgsEnd(s: string) returns (j: nat)
    ensures j == ArgsLength(s, 1)
  {
    var depth := 1;
    j := 0;
    while j < |s|
      invariant j <= |s| && depth >= 1
      invariant ArgsLength(s, 1) == j + ArgsLength(s[j..], depth)
    {
      assert s[j..][1..] == s[j + 1..];
      if s[j] == '(' {
        depth := depth + 1;
      } else if s[j] == ')' {
        if depth == 1 { return; }
        depth := depth - 1;
      }
      j := j + 1;
    }
  }

  method ConvertPipeOperator(line: string) returns (converted: string)
    ensures converted == Convert(line)
  {
    hide LhsStart, PipeRhs, Trim, Call;
    if !HasPipe(line) { return line; }
    var chars, result, buffer, inString := line, "", "", false;
    while chars != []
      invariant Scan(chars, inString, buffer, result) == Scan(line, false, [], [])
      decreases |chars|
    {
      var c := chars[0];
      if c == '"' && !inString {
        inString := true;
      } else if c == '"' && inString {
        inString := LastOr(buffer, ' ') == '\\';
      } else if !inString && AtPipe(chars) {
        SkippingShortens(chars[2..]);
        var lhs := ExtractPipeLhs(buffer);
        var prefix := buffer[..|buffer| - |lhs|];
        var rhs := ExtractPipeRhs(SkipSpaces(chars[2..]));
        result := result + prefix;
        buffer := Call(rhs.name, Trim(lhs), rhs.args);
        chars := rhs.rest;
        continue;
      }
      buffer := buffer + [c];
      chars := chars[1..];
    }
    converted := result + buffer;
  }

  // Lines without a pipe that the scanner takes for code.

  /** With `after` behind it, no pipe starts in `s` where the scanner takes itself to be outside of string
      literals. `prev` is the character before `s`. */
  predicate Quiet(s: string, after: string, inString: bool, prev: char) {
    s == []
    || (if s[0] == '"' then Quiet(s[1..], after, !inString || prev == '\\', '"')
        else (inString || !AtPipe(s + after)) && Quiet(s[1..], after, inString, s[0]))
  }

  /** Whether the scanner takes itself to be inside a string literal at the end of a quiet text. */
  predicate EndsInString(s: string, inString: bool, prev: char) {
    if s == [] then inString
    else EndsInString(s[1..], if s[0] == '"' then !inString || prev == '\\' else inString, s[0])
  }

  /** Quiet text only moves into the buffer. */
  lemma {:induction false} QuietMoves(s: string, after: string, inString: bool, buffer: string, result: string)
    requires Quiet(s, after, inString, LastOr(buffer, ' '))
    ensures Scan(s + after, inString, buffer, result)
            == Scan(after, EndsInString(s, inString, LastOr(buffer, ' ')), buffer + s, result)
    decreases |s|
  {
    hide LhsStart, PipeRhs, Call, Trim;
    if s == [] {
      assert s + after == after && buffer + s == buffer;
    } else {
      var all := s + after;
      assert all[0] == s[0] && all[1..] == s[1..] + after;
      assert buffer + [s[0]] + s[1..] == buffer + s;
      assert LastOr(buffer + [s[0]], ' ') == s[0];
      var next := if s[0] == '"' then !inString || LastOr(buffer, ' ') == '\\' else inString;
      assert Scan(all, inString, buffer, result) == Scan(all[1..], next, buffer + [s[0]], result);
      QuietMoves(s[1..], after, next, buffer + [s[0]], result);
    }
  }

  lemma ScanEnds(inString: bool, buffer: string, result: string)
    ensures Scan([], inString, buffer, result) == result + buffer
  {
  }

  /** A line whose pipes all stand where the scanner takes itself to be inside a string literal is left as
      it is. */
  lemma QuietLineUnchanged(line: string)
    requires Quiet(line, [], false, ' ')
    ensures Convert(line) == line
  {
    hide Quiet, Scan;
    assert line + [] == line && [] + line == line;
    QuietMoves(line, [], false, [], []);
    ScanEnds(EndsInString(line, false, ' '), line, []);
  }

  lemma {:induction false} NoPipeIsQuiet(line: string, inString: bool, prev: char)
    requires !HasPipe(line)
    ensures Quiet(line, [], inString, prev)
  {
    if line != [] {
      forall i | 0 <= i < |line| - 1
        ensures !AtPipe(line[1..][i..])
      {
        assert line[1..][i..] == line[i + 1..];
      }
      assert line[0..] == line && line + [] == line;
      NoPipeIsQuiet(line[1..], if line[0] == '"' then !inString || prev == '\\' else inString, line[0]);
    }
  }

  /** Returning early on a line without a pipe changes nothing. */
  lemma EarlyReturnIsSound(line: string)
    ensures Convert(line) == Scan(line, false, [], [])
  {
    hide Quiet, Scan;
    if !HasPipe(line) {
      NoPipeIsQuiet(line, false, ' ');
      assert line + [] == line && [] + line == line;
      QuietMoves(line, [], false, [], []);
      ScanEnds(EndsInString(line, false, ' '), line, []);
    }
  }

  // Chains of pipes.

  /** One `|> name(args)`, or `|> name` without parentheses, with the spaces around the operator. */
  datatype Stage = Stage(before: nat, after: nat, name: string, args: Option<string>)

  function Spaces(n: nat): string {
    if n == 0 then [] else [' '] + Spaces(n - 1)
  }

  function CallText(stage: Stage, tail: string): string {
    match stage.args
    case Some(a) => stage.name + (['('] + (a + ([')'] + tail)))
    case None => stage.name + tail
  }

  function Text(stages: seq<Stage>, rest: string): string {
    if stages == [] then rest
    else
      var s := stages[0];
      Spaces(s.before) + (['|', '>'] + (Spaces(s.after) + CallText(s, Text(stages[1..], rest))))
  }

  function ArgsOf(stage: Stage): string {
    if stage.args.Some? then Trim(stage.args.value) else []
  }

  /** The nested calls a chain stands for: the last stage outermost. */
  function Nested(x: string, stages: seq<Stage>): string
    decreases |stages|
  {
    if stages == [] then x else Nested(Call(stages[0].name, x, ArgsOf(stages[0])), stages[1..])
  }

  /** Reading from the right, no separator and no opening bracket of its own ends the operand;
      the result is the depth at the left end. */
  function Walk(s: string, depth: nat): Option<nat> {
    if s == [] then Some(depth)
    else
      var c, front := s[|s| - 1], s[..|s| - 1];
      if Closes(c) then Walk(front, depth + 1)
      else if Opens(c) then (if depth > 0 then Walk(front, depth - 1) else None)
      else if Separates(c) && depth == 0 then None
      else Walk(front, depth)
  }

  /** Reading from the left, the parentheses of `s` match. */
  predicate Enclosed(s: string, depth: nat) {
    if s == [] then depth == 1
    else if s[0] == '(' then Enclosed(s[1..], depth + 1)
    else if s[0] == ')' then depth > 1 && Enclosed(s[1..], depth - 1)
    else Enclosed(s[1..], depth)
  }

  predicate Plain(c: char) {
    !EndsName(c) && !IsSpace(c) && !Opens(c) && !Closes(c) && !Separates(c)
  }

  predicate IsName(s: string) {
    s != [] && forall i :: 0 <= i < |s| ==> Plain(s[i])
  }

  /** What is read as one name: also with closing brackets in it. */
  predicate Readable(s: string) {
    s != [] && forall i :: 0 <= i < |s| ==> !EndsName(s[i]) && !IsSpace(s[i])
  }

  lemma NamesAreReadable(s: string)
    requires IsName(s)
    ensures Readable(s)
  {
    forall i | 0 <= i < |s|
      ensures !EndsName(s[i]) && !IsSpace(s[i])
    {
      assert Plain(s[i]);
    }
  }

  /** A name and matching brackets in the arguments. */
  predicate Good(stage: Stage) {
    && IsName(stage.name)
    && (stage.args.Some? ==> Enclosed(stage.args.value, 1) && Walk(ArgsOf(stage), 1) == Some(1))
  }

  predicate Boundary(prefix: string) {
    prefix == [] || Opens(prefix[|prefix| - 1]) || Separates(prefix[|prefix| - 1])
  }

  /** What follows a call without parentheses has to end its name. */
  predicate Follows(stage: Stage, tail: string) {
    stage.args.None? && tail != [] ==> EndsName(tail[0]) && tail[0] != '('
  }

  lemma GoodStage(stage: Stage)
    requires Good(stage)
    ensures IsName(stage.name) && Readable(stage.name)
    ensures stage.args.Some? ==> Enclosed(stage.args.value, 1)
    ensures ArgsOf(stage) != [] ==> Walk(ArgsOf(stage), 1) == Some(1)
  {
    NamesAreReadable(stage.name);
  }

  lemma {:induction false} NameLengthOf(name: string, tail: string)
    requires forall i :: 0 <= i < |name| ==> !EndsName(name[i])
    requires tail != [] ==> EndsName(tail[0])
    ensures NameLength(name + tail) == |name|
  {
    if name == [] {
      assert name + tail == tail;
    } else {
      assert (name + tail)[1..] == name[1..] + tail;
      NameLengthOf(name[1..], tail);
    }
  }

  lemma {:induction false} ArgsLengthOf(a: string, tail: string, depth: nat)
    requires depth >= 1 && Enclosed(a, depth)
    ensures ArgsLength(a + ([')'] + tail), depth) == |a|
  {
    var all := a + ([')'] + tail);
    if a == [] {
      assert all[0] == ')';
    } else {
      assert all[0] == a[0] && all[1..] == a[1..] + ([')'] + tail);
      ArgsLengthOf(a[1..], tail, if a[0] == '(' then depth + 1 else if a[0] == ')' then depth - 1 else depth);
    }
  }

  lemma TrimIsIdle(s: string)
    requires s != [] && !IsSpace(s[0]) && !IsSpace(s[|s| - 1])
    ensures Trim(s) == s
  {
  }

  lemma {:induction false} SkipSpacesOf(n: nat, s: string)
    requires s != [] && s[0] != ' '
    ensures SkipSpaces(Spaces(n) + s) == s
  {
    if n == 0 {
      assert Spaces(n) + s == s;
    } else {
      assert (Spaces(n) + s)[1..] == Spaces(n - 1) + s;
      SkipSpacesOf(n - 1, s);
    }
  }

  /** The call on the right is read back as it was written. */
  lemma RhsOfCallText(stage: Stage, tail: string)
    requires Readable(stage.name) && Follows(stage, tail)
    requires stage.args.Some? ==> Enclosed(stage.args.value, 1)
    ensures PipeRhs(CallText(stage, tail)) == Rhs(stage.name, ArgsOf(stage), tail)
  {
    hide PipeRhs, Readable, Trim, Enclosed;
    match stage.args
    case None => RhsOfBareCall(stage.name, tail);
    case Some(a) => RhsOfCall(stage.name, a, tail);
  }

  lemma NameIsTaken(name: string, tail: string)
    requires Readable(name) && (tail != [] ==> EndsName(tail[0]))
    ensures NameLength(name + tail) == |name| && Trim(name) == name
    ensures (name + tail)[..|name|] == name && (name + tail)[|name|..] == tail
  {
    hide Trim;
    TrimIsIdle(name);
    NameLengthOf(name, tail);
  }

  lemma RhsOfBareCall(name: string, tail: string)
    requires Readable(name) && (tail != [] ==> EndsName(tail[0]) && tail[0] != '(')
    ensures PipeRhs(name + tail) == Rhs(name, [], tail)
  {
    hide Trim, NameLength, ArgsLength, Readable;
    NameIsTaken(name, tail);
    assert tail != [] ==> (name + tail)[|name|] == tail[0];
  }

  lemma RhsOfCall(name: string, a: string, tail: string)
    requires Readable(name) && Enclosed(a, 1)
    ensures PipeRhs(name + (['('] + (a + ([')'] + tail)))) == Rhs(name, Trim(a), tail)
  {
    hide Trim, NameLength, ArgsLength, Readable, Enclosed;
    var n := |name|;
    var inner := a + ([')'] + tail);
    var text := name + (['('] + inner);
    NameIsTaken(name, ['('] + inner);
    ArgsLengthOf(a, tail, 1);
    assert text[n] == '(' && text[n + 1..] == inner;
    var end := n + 1 + |a|;
    assert text[n + 1..end] == a && text[end + 1..] == tail;
  }

  // The operand on the left is found.

  lemma {:induction false} WalkConcat(a: string, b: string, depth: nat)
    ensures Walk(a + b, depth) == match Walk(b, depth) case None => None case Some(d) => Walk(a, d)
    decreases |b|
  {
    if b == [] {
      assert a + b == a;
    } else {
      var c, front := b[|b| - 1], b[..|b| - 1];
      assert (a + b)[|a + b| - 1] == c && (a + b)[..|a + b| - 1] == a + front;
      WalkConcat(a, front, if Closes(c) then depth + 1 else if Opens(c) && depth > 0 then depth - 1 else depth);
    }
  }

  lemma {:induction false} WalkRaised(s: string, depth: nat, d: nat)
    requires Walk(s, depth) == Some(d)
    ensures Walk(s, depth + 1) == Some(d + 1)
  {
    if s != [] {
      var c, front := s[|s| - 1], s[..|s| - 1];
      WalkRaised(front, if Closes(c) then depth + 1 else if Opens(c) then depth - 1 else depth, d);
    }
  }

  lemma {:induction false} WalkPlain(s: string, depth: nat)
    requires forall i :: 0 <= i < |s| ==> !Opens(s[i]) && !Closes(s[i]) && (depth == 0 ==> !Separates(s[i]))
    ensures Walk(s, depth) == Some(depth)
  {
    if s != [] {
      WalkPlain(s[..|s| - 1], depth);
    }
  }

  /** A nested call is an operand again. */
  lemma CallWalks(name: string, x: string, args: string)
    requires IsName(name) && Walk(x, 0) == Some(0) && (args != [] ==> Walk(args, 1) == Some(1))
    ensures Walk(Call(name, x, args), 0) == Some(0)
  {
    hide Walk;
    var more := if args == [] then [] else ", " + args;
    assert Walk(more, 1) == Some(1) by {
      if args == [] {
        WalkPlain(more, 1);
      } else {
        WalkPlain(", ", 1);
        WalkConcat(", ", args, 1);
      }
    }
    WalkRaised(x, 0, 0);
    WalkConcat(x, more, 1);
    OpenWalks();
    WalkConcat("(", x + more, 1);
    forall i | 0 <= i < |name|
      ensures !Opens(name[i]) && !Closes(name[i]) && !Separates(name[i])
    {
      assert Plain(name[i]);
    }
    WalkPlain(name, 0);
    WalkConcat(name, "(" + (x + more), 1);
    WalkConcat(name + ("(" + (x + more)), ")", 0);
    assert name + ("(" + (x + more)) + ")" == Call(name, x, args);
  }

  lemma OpenWalks()
    ensures Walk("(", 1) == Some(0) && Walk(")", 0) == Some(1)
  {
    assert "("[..0] == [] && ")"[..0] == [];
  }

  /** The scan to the left passes over an operand and stops at the boundary before it. */
  lemma {:induction false} LhsStartOf(prefix: string, x: string, depth: nat)
    requires Boundary(prefix) && Walk(x, depth) == Some(0)
    ensures LhsStart(prefix + x, |prefix + x|, depth) == |prefix|
    decreases |x|
  {
    var all := prefix + x;
    if x == [] {
      assert all == prefix;
    } else {
      var c, front := x[|x| - 1], x[..|x| - 1];
      var next := if Closes(c) then depth + 1 else if Opens(c) then depth - 1 else depth;
      assert all[|all| - 1] == c;
      LhsStartOf(prefix, front, next);
      LhsStartIsLocal(all, prefix + front, |all| - 1, next);
    }
  }

  lemma {:induction false} LhsStartIsLocal(a: string, b: string, i: nat, depth: nat)
    requires i <= |a| && i <= |b| && a[..i] == b[..i]
    ensures LhsStart(a, i, depth) == LhsStart(b, i, depth)
    decreases i
  {
    if i > 0 {
      var c := a[i - 1];
      assert a[..i][i - 1] == b[..i][i - 1];
      assert a[..i - 1] == a[..i][..i - 1] && b[..i - 1] == b[..i][..i - 1];
      LhsStartIsLocal(a, b, i - 1, if Closes(c) then depth + 1 else if Opens(c) && depth > 0 then depth - 1 else depth);
    }
  }

  lemma {:induction false} TrimStartOneMore(s: string)
    ensures TrimStart(s + [' ']) == if TrimStart(s) == [] then [] else TrimStart(s) + [' ']
  {
    if s == [] {
      assert (s + [' '])[1..] == [];
    } else {
      assert (s + [' '])[1..] == s[1..] + [' '];
      TrimStartOneMore(s[1..]);
    }
  }

  lemma TrimOneMore(s: string)
    ensures Trim(s + [' ']) == Trim(s)
  {
    TrimStartOneMore(s);
    var t := TrimStart(s);
    assert (t + [' '])[..|t|] == t;
  }

  lemma {:induction false} TrimSpaces(s: string, n: nat)
    ensures Trim(s + Spaces(n)) == Trim(s)
    decreases n
  {
    hide Trim;
    if n == 0 {
      assert s + Spaces(n) == s;
    } else {
      assert s + Spaces(n) == s + [' '] + Spaces(n - 1);
      TrimSpaces(s + [' '], n - 1);
      TrimOneMore(s);
    }
  }

  lemma {:induction false} SpacesAreQuiet(n: nat, after: string, prev: char)
    ensures Quiet(Spaces(n), after, false, prev) && !EndsInString(Spaces(n), false, prev)
    ensures forall i :: 0 <= i < |Spaces(n)| ==> Spaces(n)[i] == ' '
  {
    if n > 0 {
      SpacesAreQuiet(n - 1, after, ' ');
      assert (Spaces(n) + after)[0] == ' ';
    }
  }

  /** One stage: the operand in the buffer is wrapped into the call, what is before it goes to the result. */
  lemma StageStep(prefix: string, x: string, stage: Stage, tail: string, result: string)
    requires Boundary(prefix) && Walk(x, 0) == Some(0) && Follows(stage, tail)
    requires Readable(stage.name) && (stage.args.Some? ==> Enclosed(stage.args.value, 1))
    ensures Scan(Spaces(stage.before) + (['|', '>'] + (Spaces(stage.after) + CallText(stage, tail))),
                 false, prefix + x, result)
            == Scan(tail, false, Call(stage.name, Trim(x), ArgsOf(stage)), result + prefix)
  {
    hide Scan, Walk, Trim, Call, ArgsOf, PipeRhs, CallText, Boundary, Enclosed;
    StageRead(prefix, x, stage, tail, result);
    RhsOfCallText(stage, tail);
  }

  /** The same for whatever follows, with the call as it is read. */
  lemma StageRead(prefix: string, x: string, stage: Stage, tail: string, result: string)
    requires Boundary(prefix) && Walk(x, 0) == Some(0) && Readable(stage.name)
    ensures var rhs := PipeRhs(CallText(stage, tail));
            Scan(Spaces(stage.before) + (['|', '>'] + (Spaces(stage.after) + CallText(stage, tail))),
                 false, prefix + x, result)
            == Scan(rhs.rest, false, Call(rhs.name, Trim(x), rhs.args), result + prefix)
  {
    hide Scan, Walk, Trim, Call, ArgsOf, PipeRhs, Quiet, EndsInString, CallText, Boundary, Enclosed, LhsStart;
    var n := stage.before;
    var call := Spaces(stage.after) + CallText(stage, tail);
    var operand := x + Spaces(n);
    var buffer := prefix + operand;
    SpacesAreQuiet(n, ['|', '>'] + call, LastOr(prefix + x, ' '));
    QuietMoves(Spaces(n), ['|', '>'] + call, false, prefix + x, result);
    assert prefix + x + Spaces(n) == buffer;
    WalkPlain(Spaces(n), 0);
    WalkConcat(x, Spaces(n), 0);
    LhsStartOf(prefix, operand, 0);
    TrimSpaces(x, n);
    CallTextStarts(stage, tail);
    SkipSpacesOf(stage.after, CallText(stage, tail));
    PipeStep(call, buffer, result);
    assert buffer[|prefix|..] == operand && buffer[..|prefix|] == prefix;
  }

  lemma CallTextStarts(stage: Stage, tail: string)
    requires Readable(stage.name)
    ensures CallText(stage, tail) != [] && CallText(stage, tail)[0] != ' '
  {
  }

  lemma PipeStep(call: string, buffer: string, result: string)
    ensures var start := LhsStart(buffer, |buffer|, 0);
            var rhs := PipeRhs(SkipSpaces(call));
            Scan(['|', '>'] + call, false, buffer, result)
            == Scan(rhs.rest, false, Call(rhs.name, Trim(buffer[start..]), rhs.args), result + buffer[..start])
  {
    hide LhsStart, PipeRhs, Call, Trim;
    SkippingShortens(call);
    assert (['|', '>'] + call)[2..] == call;
  }

  /** Every stage of a chain is followed by something that ends a name: the next stage or what ends the last. */
  lemma StageFollows(stages: seq<Stage>, rest: string)
    requires stages != [] && Follows(stages[|stages| - 1], rest)
    ensures Follows(stages[0], Text(stages[1..], rest))
  {
    if |stages| > 1 {
      var s := stages[1];
      var more := ['|', '>'] + (Spaces(s.after) + CallText(s, Text(stages[1..][1..], rest)));
      assert Text(stages[1..], rest) == Spaces(s.before) + more;
      assert (Spaces(s.before) + more)[0] == if s.before == 0 then '|' else ' ';
    }
  }

  lemma CallIsTrim(name: string, x: string, args: string)
    requires IsName(name)
    ensures Trim(Call(name, x, args)) == Call(name, x, args)
  {
    hide Trim;
    assert Plain(name[0]);
    var call := Call(name, x, args);
    assert call[0] == name[0] && call[|call| - 1] == ')';
    TrimIsIdle(call);
  }

  lemma {:induction false} TrimWalks(x: string)
    requires Walk(x, 0) == Some(0)
    ensures Walk(Trim(x), 0) == Some(0)
  {
    TrimStartWalks(x, 0, 0);
    TrimEndWalks(TrimStart(x), 0, 0);
  }

  lemma {:induction false} TrimStartWalks(s: string, depth: nat, d: nat)
    requires Walk(s, depth) == Some(d)
    ensures Walk(TrimStart(s), depth) == Some(d)
  {
    hide Walk;
    if s != [] && IsSpace(s[0]) {
      assert s == [s[0]] + s[1..];
      WalkConcat([s[0]], s[1..], depth);
      var e := Walk(s[1..], depth).value;
      WalkPlain([s[0]], e);
      TrimStartWalks(s[1..], depth, d);
    }
  }

  lemma {:induction false} TrimEndWalks(s: string, depth: nat, d: nat)
    requires Walk(s, depth) == Some(d)
    ensures Walk(TrimEnd(s), depth) == Some(d)
  {
    if s != [] && IsSpace(s[|s| - 1]) {
      TrimEndWalks(s[..|s| - 1], depth, d);
    }
  }

  /** The scanner at the end of a chain: it stands before what follows with the nested calls in its buffer. */
  lemma {:induction false} ChainReaches(prefix: string, x: string, stages: seq<Stage>, tail: string, result: string)
    returns (p: string, y: string, r: string)
    requires Boundary(prefix) && Walk(x, 0) == Some(0)
    requires forall i :: 0 <= i < |stages| ==> Good(stages[i])
    requires stages != [] ==> Follows(stages[|stages| - 1], tail)
    ensures Scan(Text(stages, tail), false, prefix + x, result) == Scan(tail, false, p + y, r)
    ensures Boundary(p) && Walk(y, 0) == Some(0) && Trim(y) == Nested(Trim(x), stages) && r + p == result + prefix
    ensures if stages == [] then p == prefix && y == x else p == [] && Trim(y) == y
    decreases |stages|
  {
    hide Scan, Walk, Trim, Call, ArgsOf, Quiet, EndsInString, CallText, Follows, Good;
    if stages == [] {
      p, y, r := prefix, x, result;
    } else {
      var stage := stages[0];
      assert Good(stage);
      StageFollows(stages, tail);
      GoodStage(stage);
      StageStep(prefix, x, stage, Text(stages[1..], tail), result);
      TrimWalks(x);
      var call := Call(stage.name, Trim(x), ArgsOf(stage));
      CallWalks(stage.name, Trim(x), ArgsOf(stage));
      CallIsTrim(stage.name, Trim(x), ArgsOf(stage));
      assert stages[1..] != [] ==> stages[1..][|stages[1..]| - 1] == stages[|stages| - 1];
      assert [] + call == call && result + prefix + [] == result + prefix;
      p, y, r := ChainReaches([], call, stages[1..], tail, result + prefix);
    }
  }

  lemma RestMoves(rest: string, buffer: string, result: string)
    requires Quiet(rest, [], false, ' ')
    ensures Scan(rest, false, buffer, result) == result + (buffer + rest)
  {
    hide Scan;
    assert Quiet(rest, [], false, LastOr(buffer, ' '));
    assert rest + [] == rest;
    hide Quiet, EndsInString;
    QuietMoves(rest, [], false, buffer, result);
    ScanEnds(EndsInString(rest, false, LastOr(buffer, ' ')), buffer + rest, result);
  }

  // Lines with any number of chains.

  /** A chain, and the text before its operand. */
  datatype Segment = Segment(prefix: string, x: string, stages: seq<Stage>)

  function LineText(segments: seq<Segment>, rest: string): string
    decreases |segments|
  {
    if segments == [] then rest
    else
      var s := segments[0];
      s.prefix + s.x + Text(s.stages, LineText(segments[1..], rest))
  }

  function Meant(segments: seq<Segment>, rest: string): string
    decreases |segments|
  {
    if segments == [] then rest
    else
      var s := segments[0];
      s.prefix + Nested(Trim(s.x), s.stages) + Meant(segments[1..], rest)
  }

  /** A chain with `tail` behind it. */
  predicate GoodSegment(s: Segment, tail: string) {
    && s.stages != [] && (forall i :: 0 <= i < |s.stages| ==> Good(s.stages[i]))
    && Follows(s.stages[|s.stages| - 1], tail)
    && Boundary(s.prefix) && Walk(s.x, 0) == Some(0)
    && Quiet(s.prefix + s.x, Text(s.stages, tail), false, ' ') && !EndsInString(s.prefix + s.x, false, ' ')
  }

  /** Between two chains stands something that ends an operand. */
  predicate GoodLine(segments: seq<Segment>, rest: string)
    decreases |segments|
  {
    if segments == [] then Quiet(rest, [], false, ' ')
    else
      && GoodSegment(segments[0], LineText(segments[1..], rest))
      && (|segments| > 1 ==> segments[1].prefix != [])
      && GoodLine(segments[1..], rest)
  }

  lemma BoundaryBehind(buffer: string, prefix: string)
    requires Boundary(prefix) && (prefix == [] ==> buffer == [])
    ensures Boundary(buffer + prefix)
  {
    if prefix == [] {
      assert buffer + prefix == [];
    } else {
      assert (buffer + prefix)[|buffer + prefix| - 1] == prefix[|prefix| - 1];
    }
  }

  /** Outside of literals the character before plays no part. */
  lemma QuietAnywhere(s: string, after: string, prev: char, other: char)
    ensures Quiet(s, after, false, prev) == Quiet(s, after, false, other)
    ensures EndsInString(s, false, prev) == EndsInString(s, false, other)
  {
  }

  /** One chain, with whatever has been made of the line before it in the buffer. */
  lemma SegmentReaches(s: Segment, tail: string, buffer: string, result: string) returns (y: string, r: string)
    requires GoodSegment(s, tail) && (s.prefix == [] ==> buffer == [])
    ensures Scan(s.prefix + s.x + Text(s.stages, tail), false, buffer, result) == Scan(tail, false, y, r)
    ensures r + y == result + buffer + (s.prefix + Nested(Trim(s.x), s.stages))
  {
    hide Scan, Walk, Trim, Quiet, EndsInString, Text, Nested, Good, Follows, Boundary;
    QuietAnywhere(s.prefix + s.x, Text(s.stages, tail), ' ', LastOr(buffer, ' '));
    QuietMoves(s.prefix + s.x, Text(s.stages, tail), false, buffer, result);
    assert buffer + (s.prefix + s.x) == buffer + s.prefix + s.x;
    BoundaryBehind(buffer, s.prefix);
    var p;
    p, y, r := ChainReaches(buffer + s.prefix, s.x, s.stages, tail, result);
    assert p + y == y && r + [] == r;
    assert result + (buffer + s.prefix) + y == result + buffer + (s.prefix + y);
  }

  lemma {:induction false} LineFrom(segments: seq<Segment>, rest: string, buffer: string, result: string)
    requires GoodLine(segments, rest) && (segments != [] && segments[0].prefix == [] ==> buffer == [])
    ensures Scan(LineText(segments, rest), false, buffer, result) == result + buffer + Meant(segments, rest)
    decreases |segments|
  {
    hide Scan, Quiet, GoodSegment, Text, Nested, Trim;
    if segments == [] {
      RestMoves(rest, buffer, result);
      assert result + (buffer + rest) == result + buffer + rest;
    } else {
      var s, tail := segments[0], LineText(segments[1..], rest);
      var y, r := SegmentReaches(s, tail, buffer, result);
      LineFrom(segments[1..], rest, y, r);
      assert result + buffer + (s.prefix + Nested(Trim(s.x), s.stages)) + Meant(segments[1..], rest)
             == result + buffer + Meant(segments, rest);
    }
  }

  /** Whatever the number of chains in a line, as in h(a |> f(), b |> g()): each becomes its nested calls,
      and the text before, between and after them, string literals included, stays. */
  lemma ManyChains(segments: seq<Segment>, rest: string)
    requires GoodLine(segments, rest)
    ensures Convert(LineText(segments, rest)) == Meant(segments, rest)
  {
    hide Scan, GoodLine, LineText, Meant, Convert;
    EarlyReturnIsSound(LineText(segments, rest));
    LineFrom(segments, rest, [], []);
    assert [] + [] + Meant(segments, rest) == Meant(segments, rest);
  }

  /** x |> f1(a1) |> ... |> fn(an) becomes fn(... f1(x, a1) ..., an), whatever the number of stages
      and the spaces; the text before the operand and after the chain, string literals included, stays. */
  lemma PipeChain(prefix: string, x: string, stages: seq<Stage>, rest: string)
    requires stages != [] && forall i :: 0 <= i < |stages| ==> Good(stages[i])
    requires Boundary(prefix) && Walk(x, 0) == Some(0)
    requires Quiet(prefix + x, Text(stages, rest), false, ' ') && !EndsInString(prefix + x, false, ' ')
    requires Follows(stages[|stages| - 1], rest) && Quiet(rest, [], false, ' ')
    ensures Convert(prefix + x + Text(stages, rest)) == prefix + Nested(Trim(x), stages) + rest
  {
    hide Walk, Trim, Quiet, EndsInString, Text, Nested, Good, Follows, Boundary, Convert;
    var s := Segment(prefix, x, stages);
    assert [s][1..] == [];
    assert LineText([], rest) == rest && Meant([], rest) == rest && GoodLine([], rest);
    ManyChains([s], rest);
  }
}
