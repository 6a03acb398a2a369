/** Exactly when the pipe operator's scanner does what it is for. */
module PipeOperatorLaws {
  import opened Wrappers
  import opened PipeOperator

  // No rewriting goes unnoticed: each takes one `>` out of the line and none comes in.

  function Count(s: string): nat {
    if s == [] then 0 else (if s[0] == '>' then 1 else 0) + Count(s[1..])
  }

  lemma {:induction false} CountConcat(a: string, b: string)
    ensures Count(a + b) == Count(a) + Count(b)
  {
    if a == [] {
      assert a + b == b;
    } else {
      assert (a + b)[1..] == a[1..] + b;
      CountConcat(a[1..], b);
    }
  }

  lemma CountSplit(s: string, i: nat)
    requires i <= |s|
    ensures Count(s[..i]) + Count(s[i..]) == Count(s)
  {
    CountConcat(s[..i], s[i..]);
    assert s[..i] + s[i..] == s;
  }

  lemma {:induction false} CountTrimStart(s: string)
    ensures Count(TrimStart(s)) == Count(s)
  {
    if s != [] && IsSpace(s[0]) {
      CountTrimStart(s[1..]);
    }
  }

  lemma {:induction false} CountTrimEnd(s: string)
    ensures Count(TrimEnd(s)) == Count(s)
  {
    if s != [] && IsSpace(s[|s| - 1]) {
      CountTrimEnd(s[..|s| - 1]);
      CountSplit(s, |s| - 1);
      assert s[|s| - 1..] == [s[|s| - 1]];
      assert Count([s[|s| - 1]]) == 0;
    }
  }

  lemma CountTrim(s: string)
    ensures Count(Trim(s)) == Count(s)
  {
    CountTrimStart(s);
    CountTrimEnd(TrimStart(s));
  }

  lemma {:induction false} CountSkipSpaces(s: string)
    ensures Count(SkipSpaces(s)) == Count(s)
  {
    if s != [] && s[0] == ' ' {
      CountSkipSpaces(s[1..]);
    }
  }

  lemma CountCall(name: string, x: string, args: string)
    ensures Count(Call(name, x, args)) == Count(name) + Count(x) + Count(args)
  {
    var more := if args == [] then [] else ", " + args;
    assert Count("(") == 0 && Count(")") == 0;
    assert ", "[1..] == " ";
    assert Count(", ") == 0;
    CountConcat(", ", args);
    CountConcat(name, "(");
    CountConcat(name + "(", x);
    CountConcat(name + "(" + x, more);
    CountConcat(name + "(" + x + more, ")");
  }

  lemma CountRhs(s: string)
    ensures var rhs := PipeRhs(s); Count(rhs.name) + Count(rhs.args) + Count(rhs.rest) <= Count(s)
  {
    hide Count, Trim, NameLength, ArgsLength;
    var n := NameLength(s);
    CountSplit(s, n);
    CountTrim(s[..n]);
    assert Count("") == 0 by {
      CountNothing();
    }
    if n < |s| && s[n] == '(' {
      var end := n + 1 + ArgsLength(s[n + 1..], 1);
      CountSplit(s[n..], 1);
      assert s[n..][1..] == s[n + 1..];
      CountSplit(s[n + 1..], end - n - 1);
      assert s[n + 1..][..end - n - 1] == s[n + 1..end] && s[n + 1..][end - n - 1..] == s[end..];
      CountTrim(s[n + 1..end]);
      if end < |s| {
        CountSplit(s[end..], 1);
        assert s[end..][1..] == s[end + 1..];
      }
    }
  }

  lemma CountNothing()
    ensures Count("") == 0
  {
  }

  /** A scan that meets a pipe outside of what it takes for a literal loses a `>`. */
  lemma {:induction false} ScanLoses(s: string, inString: bool, buffer: string, result: string)
    ensures Count(Scan(s, inString, buffer, result)) <= Count(s) + Count(buffer) + Count(result)
    ensures !Quiet(s, [], inString, LastOr(buffer, ' '))
            ==> Count(Scan(s, inString, buffer, result)) < Count(s) + Count(buffer) + Count(result)
    decreases |s|
  {
    hide Count, LhsStart, PipeRhs, Call, Trim;
    if s == [] {
      CountConcat(result, buffer);
    } else {
      assert s + [] == s;
      CountSplit(s, 1);
      assert s[..1] == [s[0]];
      if s[0] != '"' && !inString && AtPipe(s) {
        PipeLoses(s, buffer, result);
        var start := LhsStart(buffer, |buffer|, 0);
        var rhs := PipeRhs(SkipSpaces(s[2..]));
        SkippingShortens(s[2..]);
        ScanLoses(rhs.rest, false, Call(rhs.name, Trim(buffer[start..]), rhs.args), result + buffer[..start]);
      } else {
        var next := if s[0] == '"' then !inString || LastOr(buffer, ' ') == '\\' else inString;
        assert LastOr(buffer + [s[0]], ' ') == s[0];
        CountConcat(buffer, [s[0]]);
        ScanLoses(s[1..], next, buffer + [s[0]], result);
      }
    }
  }

  lemma PipeLoses(s: string, buffer: string, result: string)
    requires AtPipe(s)
    ensures var start := LhsStart(buffer, |buffer|, 0);
            var rhs := PipeRhs(SkipSpaces(s[2..]));
            Count(rhs.rest) + Count(Call(rhs.name, Trim(buffer[start..]), rhs.args)) + Count(result + buffer[..start])
            < Count(s) + Count(buffer) + Count(result)
  {
    assert Count(s) == 1 + Count(s[2..]) by {
      assert s[1..][1..] == s[2..];
    }
    hide Count, LhsStart, PipeRhs, Call, Trim;
    var start := LhsStart(buffer, |buffer|, 0);
    var rhs := PipeRhs(SkipSpaces(s[2..]));
    CountSkipSpaces(s[2..]);
    CountRhs(SkipSpaces(s[2..]));
    CountSplit(buffer, start);
    CountTrim(buffer[start..]);
    CountCall(rhs.name, Trim(buffer[start..]), rhs.args);
    CountConcat(result, buffer[..start]);
  }

  /** A line is left as it is exactly when every pipe in it stands where the scanner takes it to be
      inside a string literal. */
  lemma UnchangedExactly(line: string)
    ensures Convert(line) == line <==> Quiet(line, [], false, ' ')
  {
    hide Count, Quiet, Scan, Convert;
    EarlyReturnIsSound(line);
    CountNothing();
    ScanLoses(line, false, [], []);
    if Quiet(line, [], false, ' ') {
      QuietLineUnchanged(line);
    }
  }

  // String literals, as the language has them: a backslash escapes what follows.

  datatype Lexing = Outside | Inside | Escaped

  function Next(q: Lexing, c: char): Lexing {
    match q
    case Outside => if c == '"' then Inside else Outside
    case Inside => if c == '\\' then Escaped else if c == '"' then Outside else Inside
    case Escaped => Inside
  }

  function Lex(s: string): Lexing {
    if s == [] then Outside else Next(Lex(s[..|s| - 1]), s[|s| - 1])
  }

  predicate InLiteral(line: string, i: nat)
    requires i <= |line|
  {
    Lex(line[..i]) != Outside
  }

  /** Whether the scanner takes itself to be inside a literal, if it has come there without reading a call. */
  predicate Flag(line: string, i: nat)
    requires i <= |line|
  {
    EndsInString(line[..i], false, ' ')
  }

  predicate PipesInLiterals(line: string) {
    forall i | 0 <= i < |line| && AtPipe(line[i..]) :: InLiteral(line, i)
  }

  /** A quote that closes a literal stands behind an escaped backslash. */
  predicate ClosesAfterEscape(line: string, i: nat) {
    0 < i < |line| && line[i] == '"' && line[i - 1] == '\\' && Lex(line[..i]) == Inside
  }

  lemma {:induction false} FlagOneMore(s: string, inString: bool, prev: char, c: char)
    ensures EndsInString(s + [c], inString, prev)
            == var before := EndsInString(s, inString, prev);
               if c == '"' then !before || LastOr(s, prev) == '\\' else before
    decreases |s|
  {
    if s == [] {
      assert (s + [c])[1..] == [];
    } else {
      assert (s + [c])[1..] == s[1..] + [c];
      FlagOneMore(s[1..], if s[0] == '"' then !inString || prev == '\\' else inString, s[0], c);
    }
  }

  /** Up to the first such quote the scanner knows where it is. */
  lemma {:induction false} FlagAgrees(line: string, i: nat)
    requires i <= |line| && forall k: nat :: k < i ==> !ClosesAfterEscape(line, k)
    ensures Flag(line, i) <==> InLiteral(line, i)
    ensures Lex(line[..i]) == Escaped ==> i > 0 && line[i - 1] == '\\'
  {
    if i > 0 {
      FlagAgrees(line, i - 1);
      FlagStep(line, i - 1);
      assert !ClosesAfterEscape(line, i - 1);
    }
  }

  lemma FlagStep(line: string, i: nat)
    requires i < |line|
    ensures Flag(line, i + 1)
            == if line[i] == '"' then !Flag(line, i) || (i > 0 && line[i - 1] == '\\') else Flag(line, i)
    ensures Lex(line[..i + 1]) == Next(Lex(line[..i]), line[i])
  {
    assert line[..i + 1] == line[..i] + [line[i]];
    FlagOneMore(line[..i], false, ' ', line[i]);
    assert line[..i + 1][..i] == line[..i];
  }

  /** On a line without pipes the scanner knows everywhere whether it is inside a literal exactly when no
      closing quote stands behind an escaped backslash. */
  lemma PrefixFlagIsExact(line: string)
    ensures (forall i: nat :: i <= |line| ==> (Flag(line, i) <==> InLiteral(line, i)))
            <==> forall i: nat :: !ClosesAfterEscape(line, i)
  {
    hide Flag, InLiteral, Lex;
    if forall i: nat :: !ClosesAfterEscape(line, i) {
      forall i: nat | i <= |line|
        ensures Flag(line, i) <==> InLiteral(line, i)
      {
        FlagAgrees(line, i);
      }
    } else {
      var i := FirstBadClose(line);
      FlagGoesWrong(line, i);
    }
  }

  lemma FirstBadClose(line: string) returns (i: nat)
    requires exists k: nat :: ClosesAfterEscape(line, k)
    ensures ClosesAfterEscape(line, i) && forall k: nat :: k < i ==> !ClosesAfterEscape(line, k)
  {
    hide ClosesAfterEscape;
    var k: nat :| ClosesAfterEscape(line, k);
    i := 0;
    while !ClosesAfterEscape(line, i)
      invariant i <= k && forall j: nat :: j < i ==> !ClosesAfterEscape(line, j)
      decreases k - i
    {
      i := i + 1;
    }
  }

  lemma FlagGoesWrong(line: string, i: nat)
    requires ClosesAfterEscape(line, i) && forall k: nat :: k < i ==> !ClosesAfterEscape(line, k)
    ensures i + 1 <= |line| && Flag(line, i + 1) && !InLiteral(line, i + 1)
  {
    FlagAgrees(line, i);
    FlagStep(line, i);
  }

  /** A pipe that the scanner takes to be code. */
  predicate LoudAt(s: string, i: nat, inString: bool, prev: char)
    requires i < |s|
  {
    AtPipe(s[i..]) && !EndsInString(s[..i], inString, prev)
  }

  lemma LoudShift(s: string, i: nat, inString: bool, prev: char)
    requires 0 < i < |s|
    ensures LoudAt(s, i, inString, prev)
            == LoudAt(s[1..], i - 1, if s[0] == '"' then !inString || prev == '\\' else inString, s[0])
  {
    assert s[i..] == s[1..][i - 1..];
    assert s[..i][1..] == s[1..][..i - 1];
  }

  /** Quiet, place by place. */
  lemma {:induction false} QuietAt(s: string, inString: bool, prev: char)
    ensures Quiet(s, [], inString, prev) <==> forall i: nat | i < |s| :: !LoudAt(s, i, inString, prev)
    decreases |s|
  {
    if s != [] {
      var next := if s[0] == '"' then !inString || prev == '\\' else inString;
      QuietAt(s[1..], next, s[0]);
      assert s + [] == s && s[0..] == s && s[..0] == [];
      assert LoudAt(s, 0, inString, prev) <==> AtPipe(s) && !inString;
      assert Quiet(s, [], inString, prev) <==> !LoudAt(s, 0, inString, prev) && Quiet(s[1..], [], next, s[0]);
      hide LoudAt, Quiet;
      forall i: nat | i < |s|
        ensures i > 0 ==> LoudAt(s, i, inString, prev) == LoudAt(s[1..], i - 1, next, s[0])
      {
        if i > 0 {
          LoudShift(s, i, inString, prev);
        }
      }
      forall i: nat | i < |s| - 1
        ensures LoudAt(s[1..], i, next, s[0]) == LoudAt(s, i + 1, inString, prev)
      {
        LoudShift(s, i + 1, inString, prev);
      }
    }
  }

  /** Where no closing quote stands behind an escaped backslash, a line is left as it is exactly when
      all its pipes stand inside string literals. */
  lemma LiteralsUnchanged(line: string)
    requires forall i: nat :: !ClosesAfterEscape(line, i)
    ensures Convert(line) == line <==> PipesInLiterals(line)
  {
    hide Convert, Quiet, Flag, InLiteral, ClosesAfterEscape;
    UnchangedExactly(line);
    QuietIsFlagged(line);
    PrefixFlagIsExact(line);
  }

  lemma QuietIsFlagged(line: string)
    ensures Quiet(line, [], false, ' ') <==> forall i | 0 <= i < |line| && AtPipe(line[i..]) :: Flag(line, i)
  {
    hide Quiet;
    QuietAt(line, false, ' ');
    assert forall i: nat | i < |line| :: LoudAt(line, i, false, ' ') <==> AtPipe(line[i..]) && !Flag(line, i);
  }

  // What becomes of the other lines.

  lemma {:induction false} NoQuotesNoChange(s: string, inString: bool, prev: char)
    requires '"' !in s
    ensures EndsInString(s, inString, prev) == inString
    ensures inString ==> Quiet(s, [], inString, prev)
  {
    if s != [] {
      NoQuotesNoChange(s[1..], inString, s[0]);
    }
  }

  lemma {:induction false} QuietConcat(a: string, b: string, inString: bool, prev: char)
    ensures Quiet(a + b, [], inString, prev)
            <==> Quiet(a, b, inString, prev) && Quiet(b, [], EndsInString(a, inString, prev), LastOr(a, prev))
  {
    if a == [] {
      assert a + b == b;
    } else {
      var next := if a[0] == '"' then !inString || prev == '\\' else inString;
      assert (a + b)[0] == a[0] && (a + b)[1..] == a[1..] + b && (a + b) + [] == a + b;
      QuietConcat(a[1..], b, next, a[0]);
    }
  }

  /** The first such quote hides all pipes after it, up to the next quote. */
  lemma EscapedBackslashHidesPipes(a: string, s: string)
    requires a != [] && ClosesAfterEscape(a, |a| - 1) && Flag(a, |a|) && Quiet(a, s, false, ' ') && '"' !in s
    ensures Convert(a + s) == a + s
  {
    hide Quiet, Convert;
    assert a[..|a|] == a;
    NoQuotesNoChange(s, true, LastOr(a, ' '));
    QuietConcat(a, s, false, ' ');
    UnchangedExactly(a + s);
  }

  /** And the next literal is taken for code: a pipe in it is rewritten, though every pipe of the
      line stands inside a literal. */
  lemma PipeInLiteralRewritten(b: string, c: string)
    requires '"' !in b && '\\' !in b && b != [] && '"' !in c && '\\' !in c
    requires !HasPipe(b + ['"']) && HasPipe(c)
    ensures var line := "\"\\\\\"" + b + ['"'] + c + ['"'];
            PipesInLiterals(line) && Convert(line) != line
  {
    hide Quiet, Convert, HasPipe, PipesInLiterals;
    var head, line := "\"\\\\\"" + b + ['"'], "\"\\\\\"" + b + ['"'] + c + ['"'];
    HeadLeavesLiteral(b);
    assert line == head + (c + ['"']);
    QuietConcat(head, c + ['"'], false, ' ');
    PipeIsLoud(c, ['"'], LastOr(head, ' '));
    UnchangedExactly(line);
    PipesAreLexed(b, c);
  }

  lemma HeadLeavesLiteral(b: string)
    requires '"' !in b && '\\' !in b && b != []
    ensures !EndsInString("\"\\\\\"" + b + ['"'], false, ' ')
  {
    var start := "\"\\\\\"";
    NoQuotesNoChange(b, true, '"');
    assert (start + b)[1..][1..][1..][1..] == b;
    assert (start + b)[0] == '"' && (start + b)[1..][0] == '\\' && (start + b)[1..][1..][0] == '\\'
           && (start + b)[1..][1..][1..][0] == '"';
    assert EndsInString((start + b)[1..][1..][1..], true, '\\');
    assert EndsInString((start + b)[1..][1..], true, '\\');
    assert EndsInString((start + b)[1..], true, '"');
    FlagOneMore(start + b, false, ' ', '"');
    assert LastOr(start + b, ' ') == b[|b| - 1];
  }

  lemma {:induction false} PipeIsLoud(c: string, after: string, prev: char)
    requires HasPipe(c) && '"' !in c
    ensures !Quiet(c + after, [], false, prev)
  {
    var all := c + after;
    var i :| 0 <= i < |c| && AtPipe(c[i..]);
    assert AtPipe(all[i..]);
    assert all[..i] == c[..i];
    NoQuotesNoChange(c[..i], false, prev);
    assert LoudAt(all, i, false, prev);
    QuietAt(all, false, prev);
  }

  lemma {:induction false} LexPlain(s: string, t: string)
    requires '"' !in t && '\\' !in t && Lex(s) != Escaped
    ensures Lex(s + t) == Lex(s)
  {
    if t == [] {
      assert s + t == s;
    } else {
      var front := t[..|t| - 1];
      assert (s + t)[..|s + t| - 1] == s + front;
      LexPlain(s, front);
    }
  }

  lemma LexStart()
    ensures Lex("\"") == Inside && Lex("\"\\") == Escaped && Lex("\"\\\\") == Inside && Lex("\"\\\\\"") == Outside
  {
    assert "\""[..0] == "";
    assert Lex("\"") == Inside;
    assert "\"\\"[..1] == "\"";
    assert Lex("\"\\") == Escaped;
    assert "\"\\\\"[..2] == "\"\\";
    assert Lex("\"\\\\") == Inside;
    assert "\"\\\\\""[..3] == "\"\\\\";
  }

  lemma PipesAreLexed(b: string, c: string)
    requires '"' !in b && '\\' !in b && '"' !in c && '\\' !in c && !HasPipe(b + ['"'])
    ensures PipesInLiterals("\"\\\\\"" + b + ['"'] + c + ['"'])
  {
    hide Lex;
    var start := "\"\\\\\"";
    var head, line := start + b + ['"'], start + b + ['"'] + c + ['"'];
    forall i | 0 <= i < |line| && AtPipe(line[i..])
      ensures InLiteral(line, i)
    {
      NoPipeInHead(b, c, i);
      var k := i - |head|;
      assert line[..i] == head + c[..k];
      LexHead(b);
      LexPlain(head, c[..k]);
    }
  }

  lemma NoPipeInHead(b: string, c: string, i: nat)
    requires !HasPipe(b + ['"'])
    requires var line := "\"\\\\\"" + b + ['"'] + c + ['"']; i < |line| && AtPipe(line[i..])
    ensures i >= |b| + 5
  {
    var line, part := "\"\\\\\"" + b + ['"'] + c + ['"'], b + ['"'];
    assert line[i] == '|' && line[i + 1] == '>';
    if 4 <= i < |b| + 4 {
      NoPipeThere(part, i - 4);
    }
  }

  lemma NoPipeThere(s: string, k: nat)
    requires !HasPipe(s) && k + 1 < |s|
    ensures s[k] != '|' || s[k + 1] != '>'
  {
    assert !AtPipe(s[k..]);
  }

  lemma LexHead(b: string)
    requires '"' !in b && '\\' !in b
    ensures Lex("\"\\\\\"" + b + ['"']) == Inside
  {
    var start := "\"\\\\\"";
    LexStart();
    LexPlain(start, b);
    assert (start + b + ['"'])[..|start + b|] == start + b;
  }

  /** The line "\\" + "x |> y" is such a line. */
  lemma PipeInLiteralExample()
    ensures PipesInLiterals("\"\\\\\" + \"x |> y\"") && Convert("\"\\\\\" + \"x |> y\"") != "\"\\\\\" + \"x |> y\""
  {
    hide Convert, PipesInLiterals;
    assert AtPipe("x |> y"[2..]);
    NoBarNoPipe(" + " + ['"']);
    hide HasPipe;
    PipeInLiteralRewritten(" + ", "x |> y");
    ExampleText();
  }

  lemma ExampleText()
    ensures "\"\\\\\"" + " + " + ['"'] + "x |> y" + ['"'] == "\"\\\\\" + \"x |> y\""
  {
  }

  lemma NoBarNoPipe(s: string)
    requires '|' !in s
    ensures !HasPipe(s)
  {
  }

  // The operand of a pipe.

  /** The scan to the left stops at the boundary before an operand exactly when, read from the right,
      its brackets match and no separator stands outside of them; with nothing before it, brackets
      may stay open to the left. */
  lemma OperandIsWhole(prefix: string, x: string)
    requires Boundary(prefix)
    ensures LhsStart(prefix + x, |prefix + x|, 0) == |prefix|
            <==> if prefix == [] then Walk(x, 0).Some? else Walk(x, 0) == Some(0)
    ensures LhsStart(prefix + x, |prefix + x|, 0) > |prefix| <==> Walk(x, 0).None?
  {
    LhsStartByWalk(prefix, x, 0);
    if Walk(x, 0).Some? && prefix != [] {
      LhsStartAtBoundary(prefix, Walk(x, 0).value);
    }
  }

  lemma {:induction false} LhsStartByWalk(prefix: string, x: string, depth: nat)
    ensures match Walk(x, depth)
            case Some(d) => LhsStart(prefix + x, |prefix + x|, depth) == LhsStart(prefix, |prefix|, d)
            case None => LhsStart(prefix + x, |prefix + x|, depth) > |prefix|
    decreases |x|
  {
    var all := prefix + x;
    if x == [] {
      assert all == prefix;
    } else {
      var c, front := x[|x| - 1], x[..|x| - 1];
      assert all[|all| - 1] == c;
      if Walk(x, depth).Some? || !((Opens(c) || Separates(c)) && depth == 0) {
        var next := if Closes(c) then depth + 1 else if Opens(c) then depth - 1 else depth;
        LhsStartByWalk(prefix, front, next);
        LhsStartIsLocal(all, prefix + front, |all| - 1, next);
      }
    }
  }

  lemma LhsStartAtBoundary(prefix: string, depth: nat)
    requires Boundary(prefix) && prefix != []
    ensures LhsStart(prefix, |prefix|, depth) == |prefix| <==> depth == 0
    ensures LhsStart(prefix, |prefix|, depth) <= |prefix|
  {
  }

  /** One pipe behind any text, whatever is found to be the operand. */
  lemma OnePipe(head: string, stage: Stage, rest: string)
    requires Good(stage) && Follows(stage, rest)
    requires Quiet(head, Text([stage], rest), false, ' ') && !EndsInString(head, false, ' ')
             && Quiet(rest, [], false, ' ')
    ensures var buffer := head + Spaces(stage.before);
            var start := LhsStart(buffer, |buffer|, 0);
            Convert(head + Text([stage], rest))
            == buffer[..start] + Call(stage.name, Trim(buffer[start..]), ArgsOf(stage)) + rest
  {
    hide Scan, Walk, Trim, Call, ArgsOf, PipeRhs, Quiet, EndsInString, CallText, Enclosed, LhsStart, Convert, Good;
    hide Follows;
    GoodStage(stage);
    var call := Spaces(stage.after) + CallText(stage, rest);
    var buffer := head + Spaces(stage.before);
    var start := LhsStart(buffer, |buffer|, 0);
    OneStageText(stage, rest);
    EarlyReturnIsSound(head + Text([stage], rest));
    QuietMoves(head, Text([stage], rest), false, [], []);
    assert [] + head == head;
    SpacesAreQuiet(stage.before, ['|', '>'] + call, LastOr(head, ' '));
    QuietMoves(Spaces(stage.before), ['|', '>'] + call, false, head, []);
    CallTextStarts(stage, rest);
    SkipSpacesOf(stage.after, CallText(stage, rest));
    RhsOfCallText(stage, rest);
    PipeStep(call, buffer, []);
    var done := Call(stage.name, Trim(buffer[start..]), ArgsOf(stage));
    RestMoves(rest, done, [] + buffer[..start]);
    assert [] + buffer[..start] + (done + rest) == buffer[..start] + done + rest;
  }

  lemma OneStageText(stage: Stage, rest: string)
    ensures Text([stage], rest)
            == Spaces(stage.before) + (['|', '>'] + (Spaces(stage.after) + CallText(stage, rest)))
  {
    assert [stage][1..] == [];
    assert Text([], rest) == rest;
  }

  function Literal(body: string): string {
    ['"'] + (body + ['"'])
  }

  lemma WalkLiteral(body: string)
    ensures Walk(Literal(body), 0) == Walk(body, 0)
  {
    hide Walk;
    WalkPlain(['"'], 0);
    WalkConcat(body, ['"'], 0);
    WalkConcat(['"'], body + ['"'], 0);
    if Walk(body, 0).Some? {
      WalkPlain(['"'], Walk(body, 0).value);
    }
  }

  /** A string literal piped on at the start of a line comes through whole exactly when, read from the
      right, no separator or opening bracket of its own stands in it outside of brackets. */
  lemma PipedLiteralExact(body: string, stage: Stage, rest: string)
    requires Good(stage) && stage.name[0] != '"' && Follows(stage, rest) && Quiet(rest, [], false, ' ')
    requires Quiet(Literal(body), Text([stage], rest), false, ' ') && !EndsInString(Literal(body), false, ' ')
    ensures Convert(Literal(body) + Text([stage], rest)) == Call(stage.name, Literal(body), ArgsOf(stage)) + rest
            <==> Walk(body, 0).Some?
  {
    hide Scan, Walk, Quiet, EndsInString, LhsStart, Convert, Follows, Text, ArgsOf, Trim, TrimStart, TrimEnd;
    var lit := Literal(body);
    var buffer := lit + Spaces(stage.before);
    var start := LhsStart(buffer, |buffer|, 0);
    OnePipe(lit, stage, rest);
    WalkLiteral(body);
    WalkPadded(lit, stage.before);
    assert [] + buffer == buffer;
    OperandIsWhole([], buffer);
    if start == 0 {
      assert buffer[start..] == buffer && buffer[..start] == [];
      TrimSpaces(lit, stage.before);
      TrimIsIdle(lit);
    } else {
      GoodStage(stage);
      var call := Call(stage.name, Trim(buffer[start..]), ArgsOf(stage));
      assert (buffer[..start] + call + rest)[0] == '"';
      assert (Call(stage.name, lit, ArgsOf(stage)) + rest)[0] == stage.name[0];
    }
  }

  lemma WalkPadded(x: string, n: nat)
    ensures Walk(x + Spaces(n), 0) == Walk(x, 0)
  {
    hide Walk;
    SpacesAreQuiet(n, [], ' ');
    WalkPlain(Spaces(n), 0);
    WalkConcat(x, Spaces(n), 0);
  }

  /** In particular without any of = ; , { ( ) [ ] in it. */
  lemma PlainLiteralIsWhole(body: string)
    requires forall i :: 0 <= i < |body| ==> !Opens(body[i]) && !Closes(body[i]) && !Separates(body[i])
    ensures Walk(Literal(body), 0) == Some(0)
  {
    WalkPlain(body, 0);
    WalkLiteral(body);
  }

  /** "a, b" |> f() becomes "a,f(b"): the literal is cut at its comma. */
  lemma LiteralIsCut()
    ensures Convert("\"a, b\" |> f()") == "\"a,f(b\")"
  {
    assert Quiet([], [], false, ' ');
    hide Convert, Text, Quiet, EndsInString, LhsStart, Trim, Call, ArgsOf, Spaces, Good, Follows;
    var stage := Stage(1, 1, "f", Some(""));
    var head := "\"a, b\"";
    CallOfF(stage);
    CutTexts();
    HeadIsQuiet(Text([stage], []));
    OnePipe(head, stage, []);
    CutAtComma();
    TrimExample();
  }

  lemma CutTexts()
    ensures "\"a, b\"" + " |> f()" == "\"a, b\" |> f()" && "\"a, b\"" + " " == "\"a, b\" "
    ensures "\"a, b\" "[3..] == " b\" " && "\"a, b\" "[..3] == "\"a,"
    ensures "\"a," + "f(b\")" + [] == "\"a,f(b\")"
  {
  }

  lemma CallOfF(stage: Stage)
    requires stage == Stage(1, 1, "f", Some(""))
    ensures Text([stage], []) == " |> f()" && Spaces(1) == " "
    ensures Good(stage) && Follows(stage, []) && ArgsOf(stage) == [] && Call("f", "b\"", []) == "f(b\")"
  {
    OneStageText(stage, []);
    assert Spaces(1) == " " by {
      assert Spaces(0) == [];
    }
    assert CallText(stage, []) == "f()" by {
      assert ['('] + ([] + ([')'] + [])) == "()";
    }
  }

  lemma HeadIsQuiet(after: string)
    ensures Quiet("\"a, b\"", after, false, ' ') && !EndsInString("\"a, b\"", false, ' ')
  {
    assert "\"a, b\""[1..] == "a, b" + "\"" && "\""[1..] == "";
    QuietInside("a, b", "\"", after, '"');
  }

  /** Inside a literal, text without a quote changes nothing. */
  lemma {:induction false} QuietInside(s: string, t: string, after: string, prev: char)
    requires '"' !in s
    ensures Quiet(s + t, after, true, prev) == Quiet(t, after, true, LastOr(s, prev))
    ensures EndsInString(s + t, true, prev) == EndsInString(t, true, LastOr(s, prev))
  {
    if s == [] {
      assert s + t == t;
    } else {
      assert (s + t)[1..] == s[1..] + t;
      QuietInside(s[1..], t, after, s[0]);
    }
  }

  lemma CutAtComma()
    ensures LhsStart("\"a, b\" ", 7, 0) == 3
  {
    var b := "\"a, b\" ";
    assert LhsStart(b, 3, 0) == 3;
    assert LhsStart(b, 4, 0) == 3;
    assert LhsStart(b, 5, 0) == 3;
    assert LhsStart(b, 6, 0) == 3;
  }

  lemma TrimExample()
    ensures Trim(" b\" ") == "b\""
  {
    assert " b\" "[1..] == "b\" ";
    assert "b\" "[..2] == "b\"";
  }

  // Calls with parentheses.

  lemma {:induction false} ArgsLengthExact(a: string, tail: string, depth: nat)
    requires depth >= 1
    ensures ArgsLength(a + ([')'] + tail), depth) == |a| <==> Enclosed(a, depth)
  {
    var all := a + ([')'] + tail);
    if a == [] {
      assert all[0] == ')';
    } else {
      assert all[0] == a[0] && all[1..] == a[1..] + ([')'] + tail);
      if a[0] != ')' || depth > 1 {
        ArgsLengthExact(a[1..], tail, if a[0] == '(' then depth + 1 else if a[0] == ')' then depth - 1 else depth);
      }
    }
  }

  lemma PartsOfRest(s: string, m: nat, k: nat)
    requires m + k <= |s|
    ensures s[m..m + k] == s[m..][..k]
    ensures m + k < |s| ==> s[m + k + 1..] == s[m..][k + 1..]
  {
  }

  lemma CallParts(s: string, name: string, inner: string)
    requires NameLength(s) == |name| < |s| && s[|name|] == '(' && s[..|name|] == name && s[|name| + 1..] == inner
    ensures var k := ArgsLength(inner, 1);
            PipeRhs(s) == Rhs(Trim(name), Trim(inner[..k]), if k < |inner| then inner[k + 1..] else [])
  {
    hide Trim, NameLength, ArgsLength;
    PartsOfRest(s, |name| + 1, ArgsLength(inner, 1));
  }

  lemma ParenthesisAfter(name: string, inner: string)
    ensures var text := name + (['('] + inner);
            |text| == |name| + 1 + |inner| && text[|name|] == '(' && text[|name| + 1..] == inner
  {
  }

  lemma ArgumentsRead(name: string, inner: string)
    requires Readable(name)
    ensures var k := ArgsLength(inner, 1);
            PipeRhs(name + (['('] + inner)) == Rhs(name, Trim(inner[..k]), if k < |inner| then inner[k + 1..] else [])
  {
    hide Trim, NameLength, ArgsLength, Readable, PipeRhs;
    NameIsTaken(name, ['('] + inner);
    ParenthesisAfter(name, inner);
    CallParts(name + (['('] + inner), name, inner);
  }

  /** A call with parentheses is read as it was written exactly when the parentheses in its arguments
      match, those in string literals included. */
  lemma CallExact(name: string, a: string, tail: string)
    requires Readable(name)
    ensures PipeRhs(name + (['('] + (a + ([')'] + tail)))) == Rhs(name, Trim(a), tail) <==> Enclosed(a, 1)
  {
    hide PipeRhs, Trim, ArgsLength, Readable, Enclosed;
    var inner := a + ([')'] + tail);
    var k := ArgsLength(inner, 1);
    ArgsLengthExact(a, tail, 1);
    ArgumentsRead(name, inner);
    if k == |a| {
      assert inner[..k] == a && inner[k + 1..] == tail;
    } else if k == |inner| && tail == [] {
      assert inner[..k] == a + [')'];
      LongerWhenTrimmed(a);
    }
  }

  lemma LongerWhenTrimmed(a: string)
    ensures Trim(a + [')']) != Trim(a)
  {
    TrimStartKeeps(a);
    TrimEndShortens(TrimStart(a));
    var t := TrimStart(a);
    assert (t + [')'])[|t|] == ')';
  }

  lemma {:induction false} TrimStartKeeps(a: string)
    ensures TrimStart(a + [')']) == TrimStart(a) + [')']
  {
    if a != [] {
      assert (a + [')'])[1..] == a[1..] + [')'];
      TrimStartKeeps(a[1..]);
    }
  }

  lemma {:induction false} TrimEndShortens(s: string)
    ensures |TrimEnd(s)| <= |s|
  {
    if s != [] && IsSpace(s[|s| - 1]) {
      TrimEndShortens(s[..|s| - 1]);
    }
  }

  // Calls without parentheses.

  predicate EndsBareCall(tail: string) {
    tail == [] || (EndsName(tail[0]) && tail[0] != '(')
  }

  lemma {:induction false} NameLengthBeyond(name: string, tail: string)
    requires forall i :: 0 <= i < |name| ==> !EndsName(name[i])
    ensures NameLength(name + tail) == |name| + NameLength(tail)
  {
    if name == [] {
      assert name + tail == tail;
    } else {
      assert (name + tail)[1..] == name[1..] + tail;
      NameLengthBeyond(name[1..], tail);
    }
  }

  /** What is read of a name and more is the name and the beginning of that. */
  lemma TrimName(name: string, more: string) returns (j: nat)
    requires Readable(name)
    ensures j <= |more| && Trim(name + more) == name + more[..j]
  {
    assert TrimStart(name + more) == name + more;
    j := TrimEndName(name, more);
  }

  lemma {:induction false} TrimEndName(name: string, more: string) returns (j: nat)
    requires Readable(name)
    ensures j <= |more| && TrimEnd(name + more) == name + more[..j]
    decreases |more|
  {
    j := |more|;
    var all := name + more;
    assert more[..j] == more;
    if more == [] {
      assert all == name;
    } else if IsSpace(all[|all| - 1]) {
      assert all[..|all| - 1] == name + more[..|more| - 1];
      j := TrimEndName(name, more[..|more| - 1]);
      assert more[..|more| - 1][..j] == more[..j];
    }
  }

  /** How a name and what follows it are read, when that does not end the name: less is left. */
  lemma BareRead(name: string, tail: string) returns (j: nat)
    requires Readable(name) && !EndsBareCall(tail)
    ensures var rhs := PipeRhs(name + tail);
            && j <= |tail| && rhs.name == name + tail[..j] && |rhs.rest| < |tail|
            && (tail[0] == '(' ==> j == 0)
  {
    hide Trim, ArgsLength;
    var s := name + tail;
    var k := NameLength(tail);
    NameLengthBeyond(name, tail);
    assert s[..|name| + k] == name + tail[..k];
    j := TrimName(name, tail[..k]);
    assert tail[..k][..j] == tail[..j];
  }

  /** A call without parentheses is read as such exactly when nothing follows, or something that ends a
      name and is no parenthesis. */
  lemma BareCallExact(name: string, tail: string)
    requires Readable(name)
    ensures PipeRhs(name + tail) == Rhs(name, [], tail) <==> EndsBareCall(tail)
  {
    hide PipeRhs;
    if EndsBareCall(tail) {
      RhsOfBareCall(name, tail);
    } else {
      var j := BareRead(name, tail);
    }
  }

  /** Otherwise the text comes out another one, whatever else is in the rest. */
  lemma BareCallDiffers(name: string, x: string, rest: string, result: string)
    requires IsName(name) && !EndsBareCall(rest)
    ensures var rhs := PipeRhs(name + rest);
            Scan(rhs.rest, false, Call(rhs.name, x, rhs.args), result) != result + Call(name, x, []) + rest
  {
    hide Scan, PipeRhs, Call, Quiet, IsName, Count;
    NamesAreReadable(name);
    var rhs := PipeRhs(name + rest);
    var read, meant := Call(rhs.name, x, rhs.args), Call(name, x, []);
    if Quiet(rhs.rest, [], false, ' ') {
      RestMoves(rhs.rest, read, result);
      CallsDiffer(name, x, rest);
      assert result + meant + rest == result + (meant + rest);
      SameFront(result, read + rhs.rest, meant + rest);
    } else {
      QuietAnyPrev(rhs.rest, ' ', LastOr(read, ' '));
      ScanLoses(rhs.rest, false, read, result);
      CountCall(rhs.name, x, rhs.args);
      CountCall(name, x, []);
      CountRhs(name + rest);
      CountNothing();
      CountConcat(name, rest);
      CountConcat(result + meant, rest);
      CountConcat(result, meant);
    }
  }

  lemma SameFront(a: string, b: string, c: string)
    ensures a + b == a + c <==> b == c
  {
    if a + b == a + c {
      assert (a + b)[|a|..] == b && (a + c)[|a|..] == c;
    }
  }

  lemma QuietAnyPrev(s: string, prev: char, other: char)
    ensures Quiet(s, [], false, prev) == Quiet(s, [], false, other)
  {
  }

  lemma CallsDiffer(name: string, x: string, rest: string)
    requires IsName(name) && Readable(name) && !EndsBareCall(rest)
    ensures var rhs := PipeRhs(name + rest);
            Call(rhs.name, x, rhs.args) + rhs.rest != Call(name, x, []) + rest
  {
    hide PipeRhs, IsName;
    var rhs := PipeRhs(name + rest);
    var j := BareRead(name, rest);
    var read, meant := Call(rhs.name, x, rhs.args) + rhs.rest, Call(name, x, []) + rest;
    assert meant[|name|] == '(';
    if j > 0 {
      assert read[|name|] == rest[0] != '(';
    } else if rhs.args != [] {
      assert rhs.name == name;
      assert read[|name| + 1 + |x|] == ',' && meant[|name| + 1 + |x|] == ')';
    } else {
      assert rhs.name == name;
      assert |read| < |meant|;
    }
  }

  lemma {:induction false} TextAppend(stages: seq<Stage>, last: Stage, rest: string)
    ensures Text(stages + [last], rest) == Text(stages, Text([last], rest))
  {
    hide CallText, Spaces;
    if stages == [] {
      assert stages + [last] == [last];
    } else {
      assert (stages + [last])[1..] == stages[1..] + [last];
      TextAppend(stages[1..], last, rest);
    }
  }

  lemma {:induction false} NestedAppend(x: string, stages: seq<Stage>, last: Stage)
    ensures Nested(x, stages + [last]) == Call(last.name, Nested(x, stages), ArgsOf(last))
    decreases |stages|
  {
    hide Call, ArgsOf;
    if stages == [] {
      assert stages + [last] == [last] && [last][1..] == [];
    } else {
      assert (stages + [last])[1..] == stages[1..] + [last];
      NestedAppend(Call(stages[0].name, x, ArgsOf(stages[0])), stages[1..], last);
    }
  }

  lemma BareStage(last: Stage)
    requires last.args.None?
    ensures ArgsOf(last) == [] && forall tail :: CallText(last, tail) == last.name + tail
    ensures forall tail :: Follows(last, tail) <==> EndsBareCall(tail)
  {
  }

  lemma AnotherStageFollows(stage: Stage, last: Stage, rest: string)
    ensures Follows(stage, Text([last], rest))
  {
    OneStageText(last, rest);
    var more := ['|', '>'] + (Spaces(last.after) + CallText(last, rest));
    assert (Spaces(last.before) + more)[0] == if last.before == 0 then '|' else ' ';
  }

  /** A chain that ends in a call without parentheses becomes the nested calls exactly when what follows
      ends a name and is no parenthesis, or nothing follows. */
  lemma BareChainExact(prefix: string, x: string, stages: seq<Stage>, last: Stage, rest: string)
    requires last.args.None? && Good(last) && forall i :: 0 <= i < |stages| ==> Good(stages[i])
    requires Boundary(prefix) && Walk(x, 0) == Some(0)
    requires Quiet(prefix + x, Text(stages + [last], rest), false, ' ') && !EndsInString(prefix + x, false, ' ')
    requires Quiet(rest, [], false, ' ')
    ensures Convert(prefix + x + Text(stages + [last], rest)) == prefix + Nested(Trim(x), stages + [last]) + rest
            <==> EndsBareCall(rest)
  {
    hide Scan, Walk, Trim, Quiet, EndsInString, Text, Nested, Good, Follows, Boundary, Convert, EndsBareCall;
    hide CallText, ArgsOf;
    hide PipeRhs, Call, Spaces;
    BareStage(last);
    if EndsBareCall(rest) {
      assert (stages + [last])[|stages + [last]| - 1] == last;
      PipeChain(prefix, x, stages + [last], rest);
    } else {
      EarlyReturnIsSound(prefix + x + Text(stages + [last], rest));
      QuietMoves(prefix + x, Text(stages + [last], rest), false, [], []);
      assert [] + (prefix + x) == prefix + x && [] + prefix == prefix;
      TextAppend(stages, last, rest);
      if stages != [] {
        AnotherStageFollows(stages[|stages| - 1], last, rest);
      }
      var p, y, r := ChainReaches(prefix, x, stages, Text([last], rest), []);
      OneStageText(last, rest);
      GoodStage(last);
      StageRead(p, y, last, rest, r);
      NestedAppend(Trim(x), stages, last);
      BareCallDiffers(last.name, Trim(y), rest, r + p);
    }
  }

  /** Whatever lies behind a call without parentheses up to the end of a name is taken into its name:
      (x |> f) becomes (f)(x). */
  lemma BareCallInParentheses(prefix: string, x: string, before: nat, after: nat, name: string, more: string,
                              rest: string)
    requires Boundary(prefix) && Walk(x, 0) == Some(0) && Readable(name + more) && EndsBareCall(rest)
    requires Quiet(prefix + x, Spaces(before) + (['|', '>'] + (Spaces(after) + (name + more + rest))), false, ' ')
    requires !EndsInString(prefix + x, false, ' ') && Quiet(rest, [], false, ' ')
    ensures Convert(prefix + x + (Spaces(before) + (['|', '>'] + (Spaces(after) + (name + more + rest)))))
            == prefix + (name + more + "(" + Trim(x) + ")") + rest
  {
    hide Scan, Walk, Trim, Quiet, EndsInString, Boundary, Convert, Spaces, Readable;
    var stage := Stage(before, after, name + more, None);
    var text := Spaces(before) + (['|', '>'] + (Spaces(after) + CallText(stage, rest)));
    EarlyReturnIsSound(prefix + x + text);
    QuietMoves(prefix + x, text, false, [], []);
    assert [] + (prefix + x) == prefix + x;
    StageStep(prefix, x, stage, rest, []);
    var call := Call(name + more, Trim(x), []);
    assert call == name + more + "(" + Trim(x) + ")";
    RestMoves(rest, call, [] + prefix);
    assert [] + prefix + (call + rest) == prefix + call + rest;
  }
}
