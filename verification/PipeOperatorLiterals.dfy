/** Where the pipe operator's scanner stands in a line, and when it knows whether that is inside a string literal. */
module PipeOperatorLiterals {
  import opened Wrappers
  import opened PipeOperator
  import opened PipeOperatorLaws

  /** All states of the scanner, from `st` to the end of the line. */
  function States(st: State): (states: seq<State>)
    ensures |states| >= 1 && states[0] == st
    decreases |st.chars|
  {
    [st] + if st.chars == [] then [] else States(Advance(st))
  }

  /** The last of them holds the converted line. */
  lemma {:induction false} LastStateIsScan(st: State)
    ensures var states := States(st);
            var last := states[|states| - 1];
            && last.chars == []
            && Scan(st.chars, st.inString, st.buffer, st.result) == last.result + last.buffer
    decreases |st.chars|
  {
    hide Advance;
    if st.chars != [] {
      LastStateIsScan(Advance(st));
    }
  }

  // The same walk, on the text alone.

  /** A place in the line, and whether the scanner there takes itself to be inside a literal. */
  datatype Stand = Stand(at: nat, inside: bool)

  /** Where the scan goes on behind the call that it reads at a pipe. */
  function Resume(line: string, at: nat): (place: nat)
    requires at + 2 <= |line|
    ensures at + 2 <= place <= |line|
  {
    SkippingShortens(line[at + 2..]);
    |line| - |PipeRhs(SkipSpaces(line[at + 2..])).rest|
  }

  predicate ReadsCall(line: string, st: Stand) {
    st.at < |line| && !st.inside && AtPipe(line[st.at..])
  }

  function Move(line: string, st: Stand): (next: Stand)
    requires st.at < |line|
    ensures st.at < next.at <= |line|
  {
    if line[st.at] == '"' then Stand(st.at + 1, !st.inside || (st.at > 0 && line[st.at - 1] == '\\'))
    else if ReadsCall(line, st) then Stand(Resume(line, st.at), false)
    else Stand(st.at + 1, st.inside)
  }

  function Stands(line: string, st: Stand): (stands: seq<Stand>)
    requires st.at <= |line|
    ensures |stands| >= 1 && stands[0] == st && forall k :: 0 <= k < |stands| ==> stands[k].at <= |line|
    decreases |line| - st.at
  {
    [st] + if st.at == |line| then [] else Stands(line, Move(line, st))
  }

  function Trail(line: string): (stands: seq<Stand>)
    ensures |stands| >= 1 && stands[0] == Stand(0, false) && forall k :: 0 <= k < |stands| ==> stands[k].at <= |line|
  {
    Stands(line, Stand(0, false))
  }

  /** The state that belongs to a stand. */
  predicate StandsAt(line: string, st: Stand, state: State) {
    && st.at <= |line| && state.chars == line[st.at..] && state.inString == st.inside
    && (st.inside ==> st.at > 0 && state.buffer != [] && state.buffer[|state.buffer| - 1] == line[st.at - 1])
  }

  lemma {:induction false} SkippedIsFront(s: string)
    ensures |SkipSpaces(s)| <= |s| && SkipSpaces(s) == s[|s| - |SkipSpaces(s)|..]
  {
    if s != [] && s[0] == ' ' {
      SkippedIsFront(s[1..]);
    }
  }

  lemma RestIsBack(s: string)
    ensures PipeRhs(s).rest == s[|s| - |PipeRhs(s).rest|..]
  {
    hide Trim, NameLength, ArgsLength;
  }

  lemma ResumesBehind(line: string, at: nat)
    requires at + 2 <= |line|
    ensures PipeRhs(SkipSpaces(line[at + 2..])).rest == line[Resume(line, at)..]
  {
    hide PipeRhs;
    SkippedIsFront(line[at + 2..]);
    RestIsBack(SkipSpaces(line[at + 2..]));
  }

  lemma MoveIsAdvance(line: string, st: Stand, state: State)
    requires StandsAt(line, st, state) && st.at < |line|
    ensures StandsAt(line, Move(line, st), Advance(state))
  {
    hide LhsStart, PipeRhs, Call, Trim, Resume;
    assert line[st.at..][1..] == line[st.at + 1..];
    if ReadsCall(line, st) {
      ResumesBehind(line, st.at);
      assert line[st.at..][2..] == line[st.at + 2..];
    }
  }

  /** The walk on the text is where the scanner goes, place by place and flag by flag. */
  lemma {:induction false} StandsAreStates(line: string, st: Stand, state: State)
    requires StandsAt(line, st, state)
    ensures |Stands(line, st)| == |States(state)|
    ensures forall k :: 0 <= k < |States(state)| ==> StandsAt(line, Stands(line, st)[k], States(state)[k])
    decreases |line| - st.at
  {
    hide Advance, Move;
    if st.at < |line| {
      MoveIsAdvance(line, st, state);
      StandsAreStates(line, Move(line, st), Advance(state));
    }
  }

  lemma TrailIsScan(line: string)
    ensures var states := States(State(line, false, [], []));
            && |Trail(line)| == |states|
            && forall k :: 0 <= k < |states| ==> StandsAt(line, Trail(line)[k], states[k])
  {
    hide States, Stands;
    assert line[0..] == line;
    StandsAreStates(line, Stand(0, false), State(line, false, [], []));
  }

  lemma {:induction false} StandsGoOn(line: string, st: Stand, k: nat)
    requires st.at <= |line| && k < |Stands(line, st)|
    ensures Stands(line, st)[k].at < |line| <==> k + 1 < |Stands(line, st)|
    ensures k + 1 < |Stands(line, st)| ==> Stands(line, st)[k + 1] == Move(line, Stands(line, st)[k])
    decreases k
  {
    hide Move;
    if k > 0 {
      StandsGoOn(line, Move(line, st), k - 1);
    }
  }

  // Up to the first pipe that is taken for code, the scanner moves place by place.

  lemma {:induction false} StandsUntilPipe(line: string, i: nat)
    requires i <= |line| && forall k: nat :: k < i ==> !(AtPipe(line[k..]) && !Flag(line, k))
    ensures i < |Trail(line)| && Trail(line)[i] == Stand(i, Flag(line, i))
  {
    hide Flag, Stands, Resume;
    if i == 0 {
      assert line[..0] == [];
      FlagStarts();
    } else {
      StandsUntilPipe(line, i - 1);
      StandsGoOn(line, Stand(0, false), i - 1);
      FlagStep(line, i - 1);
    }
  }

  lemma FlagStarts()
    ensures forall line {:trigger Flag(line, 0)} :: !Flag(line, 0)
  {
  }

  // Whether the flag is right.

  predicate Right(line: string, st: Stand) {
    st.at <= |line| && (st.inside <==> InLiteral(line, st.at))
  }

  /** A closing quote behind an escaped backslash, or a call that ends inside a literal. */
  predicate Misleads(line: string, st: Stand) {
    ClosesAfterEscape(line, st.at) || (ReadsCall(line, st) && InLiteral(line, Resume(line, st.at)))
  }

  lemma EscapedBehindBackslash(line: string, i: nat)
    requires i <= |line| && Lex(line[..i]) == Escaped
    ensures i > 0 && line[i - 1] == '\\'
  {
  }

  lemma LexStep(line: string, i: nat)
    requires i < |line|
    ensures Lex(line[..i + 1]) == Next(Lex(line[..i]), line[i])
    ensures Lex(line[..0]) == Outside
  {
    assert line[..i + 1][..i] == line[..i];
  }

  lemma MoveKeepsRight(line: string, st: Stand)
    requires st.at < |line| && Right(line, st)
    ensures Right(line, Move(line, st)) <==> !Misleads(line, st)
  {
    hide Resume, Lex;
    LexStep(line, st.at);
    if Lex(line[..st.at]) == Escaped {
      EscapedBehindBackslash(line, st.at);
    }
  }

  /** Wherever the scanner stands it knows whether it is inside a literal, a backslash escaping what
      follows it, exactly when no closing quote that it reads stands behind an escaped backslash and
      every call that it reads ends outside of literals. */
  lemma FlagIsExact(line: string)
    ensures (forall k | 0 <= k < |Trail(line)| :: Right(line, Trail(line)[k]))
            <==> forall k | 0 <= k < |Trail(line)| :: !Misleads(line, Trail(line)[k])
  {
    hide Right, Misleads, Move, Stands;
    var stands := Trail(line);
    if forall k | 0 <= k < |stands| :: !Misleads(line, stands[k]) {
      forall k | 0 <= k < |stands|
        ensures Right(line, stands[k])
      {
        NotMisled(line, k);
      }
    }
    if forall k | 0 <= k < |stands| :: Right(line, stands[k]) {
      forall k | 0 <= k < |stands|
        ensures !Misleads(line, stands[k])
      {
        StandsGoOn(line, Stand(0, false), k);
        if stands[k].at < |line| {
          MoveKeepsRight(line, stands[k]);
        } else {
          EndIsPlain(line, stands[k]);
        }
      }
    }
  }

  lemma EndIsPlain(line: string, st: Stand)
    requires st.at >= |line|
    ensures !Misleads(line, st)
  {
  }

  lemma {:induction false} NotMisled(line: string, k: nat)
    requires k < |Trail(line)| && forall j | 0 <= j < |Trail(line)| :: !Misleads(line, Trail(line)[j])
    ensures Right(line, Trail(line)[k])
  {
    hide Misleads, Move, Stands, Right;
    if k == 0 {
      StartIsRight(line);
    } else {
      NotMisled(line, k - 1);
      StandsGoOn(line, Stand(0, false), k - 1);
      MoveKeepsRight(line, Trail(line)[k - 1]);
    }
  }

  lemma StartIsRight(line: string)
    ensures Right(line, Stand(0, false))
  {
    assert line[..0] == [];
  }

  // What becomes of the pipes.

  /** The scanner reads a call at this place. */
  predicate Rewritten(line: string, i: nat) {
    exists k | 0 <= k < |Trail(line)| :: Trail(line)[k].at == i && ReadsCall(line, Trail(line)[k])
  }

  /** The place lies within the text of such a call. */
  predicate Swallowed(line: string, i: nat) {
    exists k | 0 <= k < |Trail(line)| :: Swallows(line, Trail(line)[k], i)
  }

  predicate Swallows(line: string, st: Stand, i: nat) {
    ReadsCall(line, st) && st.at < i < Resume(line, st.at)
  }

  /** The scanner comes to every place, or takes it up into a call. */
  lemma {:induction false} EveryPlaceIsRead(line: string, st: Stand, i: nat) returns (k: nat)
    requires st.at <= i <= |line|
    ensures k < |Stands(line, st)|
    ensures Stands(line, st)[k].at == i || Swallows(line, Stands(line, st)[k], i)
    decreases |line| - st.at
  {
    hide Resume;
    k := 0;
    if st.at < i {
      var next := Move(line, st);
      if next.at <= i {
        k := EveryPlaceIsRead(line, next, i);
        k := k + 1;
      }
    }
  }

  predicate ReadsNone(line: string, stands: seq<Stand>) {
    forall k | 0 <= k < |stands| :: !ReadsCall(line, stands[k])
  }

  /** A line is left as it is exactly when the scanner reads no call in it. */
  lemma UnchangedByTrail(line: string)
    ensures Convert(line) == line <==> forall i: nat :: !Rewritten(line, i)
  {
    hide Convert, Quiet, ReadsCall, Stands;
    assert line[0..] == line;
    UnchangedExactly(line);
    QuietIsTrail(line, Stand(0, false), ' ');
    var stands := Trail(line);
    forall k | 0 <= k < |stands| && ReadsCall(line, stands[k])
      ensures Rewritten(line, stands[k].at)
    {
    }
  }

  lemma {:induction false} QuietIsTrail(line: string, st: Stand, prev: char)
    requires st.at <= |line| && (st.inside ==> st.at > 0 && prev == line[st.at - 1])
    ensures Quiet(line[st.at..], [], st.inside, prev) <==> ReadsNone(line, Stands(line, st))
    decreases |line| - st.at
  {
    hide Resume, ReadsNone;
    var s := line[st.at..];
    assert s + [] == s;
    if st.at == |line| {
      NoneOfMore(line, st, []);
      NoneOfNone(line);
      assert Stands(line, st) == [st] + [];
    } else {
      NoneOfMore(line, st, Stands(line, Move(line, st)));
      if !ReadsCall(line, st) {
        assert s[1..] == line[st.at + 1..];
        QuietIsTrail(line, Move(line, st), line[st.at]);
      }
    }
  }

  lemma NoneOfNone(line: string)
    ensures ReadsNone(line, [])
  {
  }

  lemma NoneOfMore(line: string, st: Stand, rest: seq<Stand>)
    ensures ReadsNone(line, [st] + rest) <==> !ReadsCall(line, st) && ReadsNone(line, rest)
  {
    hide ReadsCall;
    var all := [st] + rest;
    assert all[0] == st;
    assert forall k | 0 <= k < |rest| :: rest[k] == all[k + 1];
  }

  /** Where nothing that the scanner reads misleads it, whatever the number of chains: no pipe inside a
      literal is rewritten, and every other is, or lies within the text of a call behind one that is. */
  lemma LiteralsAreKept(line: string)
    requires forall k | 0 <= k < |Trail(line)| :: !Misleads(line, Trail(line)[k])
    ensures forall i: nat | Rewritten(line, i) :: i < |line| && AtPipe(line[i..]) && !InLiteral(line, i)
    ensures forall i: nat | i < |line| && AtPipe(line[i..]) && !InLiteral(line, i) ::
              Rewritten(line, i) || Swallowed(line, i)
  {
    hide Misleads, Stands, InLiteral, Resume, AtPipe;
    FlagIsExact(line);
    forall i: nat | i < |line| && AtPipe(line[i..]) && !InLiteral(line, i)
      ensures Rewritten(line, i) || Swallowed(line, i)
    {
      var k := EveryPlaceIsRead(line, Stand(0, false), i);
      assert Right(line, Trail(line)[k]);
    }
  }

  // A parenthesis in a literal among the arguments.

  /** In x |> f(")") + "y |> z" no closing quote follows an escaped backslash, and up to the first pipe the
      scanner would be right about every place; but the call it reads ends at the parenthesis in the first
      literal, the second is taken for code, and the line becomes z"(f(x, ")") + "y). */
  lemma ParenthesisEndsCall()
    ensures var line := "x |> f(\")\") + \"y |> z\"";
            && (forall i: nat :: !ClosesAfterEscape(line, i))
            && (forall i: nat | i <= |line| :: Flag(line, i) <==> InLiteral(line, i))
            && AtPipe(line[17..]) && InLiteral(line, 17)
            && Convert(line) == "z\"(f(x, \")\") + \"y)"
  {
    var line := "x |> f(\")\") + \"y |> z\"";
    assert forall i: nat :: !ClosesAfterEscape(line, i);
    hide Flag, InLiteral, Convert, Scan, Quiet, EndsInString, ClosesAfterEscape;
    PrefixFlagIsExact(line);
    SecondPipeIsQuoted();
    EarlyReturnIsSound(line);
    FirstCallIsCut();
    SecondCallIsRead();
  }

  lemma SecondPipeIsQuoted()
    ensures var line := "x |> f(\")\") + \"y |> z\""; AtPipe(line[17..]) && InLiteral(line, 17)
  {
    var line := "x |> f(\")\") + \"y |> z\"";
    LinePrefixes();
    hide Lex;
    LexOfPrefixes(line);
  }

  lemma LinePrefixes()
    ensures var line := "x |> f(\")\") + \"y |> z\"";
            && |line| == 22 && AtPipe(line[17..])
            && line[7] == '"' && line[8] == ')' && line[9] == '"' && line[14] == '"'
            && line[..7] == "" + "x |> f(" && line[..14] == line[..10] + ") + " && line[..17] == line[..15] + "y "
  {
  }

  lemma LexOfPrefixes(line: string)
    requires |line| == 22 && line[7] == '"' && line[8] == ')' && line[9] == '"' && line[14] == '"'
    requires line[..7] == "" + "x |> f(" && line[..14] == line[..10] + ") + " && line[..17] == line[..15] + "y "
    ensures Lex(line[..17]) == Inside
  {
    assert Lex("") == Outside;
    hide Lex;
    LexPlain("", "x |> f(");
    LexStep(line, 7);
    LexStep(line, 8);
    LexStep(line, 9);
    LexPlain(line[..10], ") + ");
    LexStep(line, 14);
    LexPlain(line[..15], "y ");
  }

  lemma FirstCallIsCut()
    ensures Scan("x |> f(\")\") + \"y |> z\"", false, [], []) == Scan("\") + \"y |> z\"", false, "f(x, \")", [])
  {
    hide Scan, Trim, Call, PipeRhs, LhsStart, Quiet, EndsInString;
    var call, tail := " f(\")\") + \"y |> z\"", "\") + \"y |> z\"";
    FirstTexts();
    FirstOperand(call);
    FirstCall();
    QuietMoves("x ", ['|', '>'] + call, false, [], []);
    PipeStep(call, "x ", []);
    RhsOfCall("f", "\"", tail);
  }

  lemma FirstTexts()
    ensures var call, tail := " f(\")\") + \"y |> z\"", "\") + \"y |> z\"";
            && "x |> f(\")\") + \"y |> z\"" == "x " + (['|', '>'] + call) && [] + "x " == "x "
            && SkipSpaces(call) == "f" + (['('] + ("\"" + ([')'] + tail)))
  {
    hide SkipSpaces;
    var call, rest := " f(\")\") + \"y |> z\"", "f(\")\") + \"y |> z\"";
    OneSpace();
    assert call == " " + rest;
    SkipSpacesOf(1, rest);
  }

  lemma OneSpace()
    ensures Spaces(1) == " "
  {
    assert Spaces(0) == [];
  }

  lemma FirstOperand(after: string)
    ensures Quiet("x ", ['|', '>'] + after, false, ' ') && !EndsInString("x ", false, ' ')
    ensures LhsStart("x ", 2, 0) == 0 && Trim("x ") == "x" && "x "[0..] == "x " && "x "[..0] == [] && [] + [] == ""
  {
    assert "x "[1..] == " " && " "[1..] == "" && "x "[..1] == "x";
    assert LhsStart("x ", 1, 0) == 0;
    assert !AtPipe("x " + (['|', '>'] + after)) && !AtPipe(" " + (['|', '>'] + after));
  }

  lemma FirstCall()
    ensures Readable("f") && Enclosed("\"", 1) && Trim("\"") == "\"" && Call("f", "x", "\"") == "f(x, \")"
  {
    TrimIsIdle("\"");
    assert "\""[1..] == "";
  }

  lemma SecondCallIsRead()
    ensures Scan("\") + \"y |> z\"", false, "f(x, \")", []) == "z\"(f(x, \")\") + \"y)"
  {
    hide Scan, Trim, Call, PipeRhs, LhsStart, Quiet, EndsInString;
    var buffer := "f(x, \")\") + \"y ";
    SecondTexts();
    QuietMoves("\") + \"y ", "|> z\"", false, "f(x, \")", []);
    PipeStep(" z\"", buffer, []);
    RhsOfBareCall("z\"", []);
    WholeBuffer();
    assert Scan("|> z\"", false, buffer, []) == Scan([], false, "z\"(f(x, \")\") + \"y)", [] + []);
    ScanEnds(false, "z\"(f(x, \")\") + \"y)", [] + []);
  }

  lemma SecondTexts()
    ensures "\") + \"y |> z\"" == "\") + \"y " + "|> z\"" && ['|', '>'] + " z\"" == "|> z\""
    ensures "f(x, \")" + "\") + \"y " == "f(x, \")\") + \"y "
    ensures SkipSpaces(" z\"") == "z\"" + [] && Readable("z\"")
    ensures Quiet("\") + \"y ", "|> z\"", false, ')') && !EndsInString("\") + \"y ", false, ')')
  {
    assert " z\""[1..] == "z\"";
    assert "\") + \"y "[1..] == ") + " + "\"y " && "\"y "[1..] == "y " && "y "[1..] == " " && " "[1..] == "";
    assert Quiet(" ", "|> z\"", false, 'y') && !EndsInString(" ", false, 'y');
    assert Quiet("y ", "|> z\"", false, '"') && !EndsInString("y ", false, '"');
    QuietInside(") + ", "\"y ", "|> z\"", '"');
  }

  lemma WholeBuffer()
    ensures var buffer := "f(x, \")\") + \"y ";
            && LhsStart(buffer, |buffer|, 0) == 0 && buffer[0..] == buffer && buffer[..0] == []
            && Call("z\"", Trim(buffer), []) == "z\"(f(x, \")\") + \"y)"
  {
    hide Trim, LhsStart, Walk;
    var buffer, text := "f(x, \")\") + \"y ", "f(x, \")\") + \"y";
    assert buffer == text + [' '];
    TrimOneMore(text);
    TrimIsIdle(text);
    BufferWalks();
    assert [] + buffer == buffer;
    OperandIsWhole([], buffer);
  }

  lemma BufferWalks()
    ensures Walk("f(x, \")\") + \"y ", 0).Some?
  {
    WalkPlain(" + \"y ", 0);
    WalkPlain("\"", 1);
    WalkPlain("x, \"", 2);
    WalkPlain("f", 1);
    OpenAndClose();
    hide Walk;
    var part := ")" + " + \"y ";
    WalkConcat(")", " + \"y ", 0);
    WalkConcat("\"", part, 0);
    WalkConcat(")", "\"" + part, 0);
    WalkConcat("x, \"", ")" + ("\"" + part), 0);
    WalkConcat("(", "x, \"" + (")" + ("\"" + part)), 0);
    WalkConcat("f", "(" + ("x, \"" + (")" + ("\"" + part))), 0);
    assert "f" + ("(" + ("x, \"" + (")" + ("\"" + part)))) == "f(x, \")\") + \"y ";
  }

  lemma OpenAndClose()
    ensures Walk(")", 0) == Some(1) && Walk(")", 1) == Some(2) && Walk("(", 2) == Some(1)
  {
    assert ")"[..0] == [] && "("[..0] == [];
  }
}
