/** The pipe operator's text rules with their characters written out. */
module PipeOperatorText {
  import opened Wrappers
  import opened PipeOperator
  import opened PipeOperatorLaws

  // Whitespace.

  predicate Blank(s: string) {
    forall i :: 0 <= i < |s| ==> s[i] == ' ' || s[i] as int in {9, 10, 11, 12, 13}
  }

  lemma {:induction false} TrimStartCuts(s: string) returns (a: string)
    ensures Blank(a) && s == a + TrimStart(s)
    ensures TrimStart(s) == [] || !Blank(TrimStart(s)[..1])
  {
    a := [];
    if s != [] && IsSpace(s[0]) {
      a := TrimStartCuts(s[1..]);
      a := [s[0]] + a;
      assert s == [s[0]] + s[1..];
    } else if s != [] {
      assert s[..1][0] == s[0];
    }
  }

  lemma {:induction false} TrimEndCuts(s: string) returns (b: string)
    ensures Blank(b) && s == TrimEnd(s) + b
    ensures TrimEnd(s) == [] || !Blank(TrimEnd(s)[|TrimEnd(s)| - 1..])
  {
    b := [];
    if s != [] && IsSpace(s[|s| - 1]) {
      b := TrimEndCuts(s[..|s| - 1]);
      b := b + [s[|s| - 1]];
      assert s == s[..|s| - 1] + [s[|s| - 1]];
    } else if s != [] {
      assert s[|s| - 1..][0] == s[|s| - 1];
    }
  }

  /** Trimming takes blanks off both ends, and all of them. */
  lemma TrimCuts(s: string) returns (a: string, b: string)
    ensures Blank(a) && Blank(b) && s == a + Trim(s) + b
    ensures Trim(s) == [] || (!Blank(Trim(s)[..1]) && !Blank(Trim(s)[|Trim(s)| - 1..]))
  {
    hide TrimStart, TrimEnd, Blank;
    a := TrimStartCuts(s);
    b := TrimEndCuts(TrimStart(s));
    var t := TrimStart(s);
    assert s == a + (Trim(s) + b) == a + Trim(s) + b;
    if Trim(s) != [] {
      assert t[..1] == Trim(s)[..1];
    }
  }

  // Names.

  /** A name is read up to the first of these characters; what it is made of does not matter otherwise. */
  lemma NameStops(name: string, tail: string)
    requires forall i :: 0 <= i < |name| ==> name[i] !in {'(', ';', ',', ' ', '|'}
    requires tail == [] || tail[0] in {';', ',', ' ', '|'}
    ensures PipeRhs(name + tail) == Rhs(Trim(name), [], tail)
  {
    hide Trim, ArgsLength;
    NameLengthOf(name, tail);
    assert (name + tail)[..|name|] == name && (name + tail)[|name|..] == tail;
    assert tail != [] ==> (name + tail)[|name|] == tail[0];
  }

  // The operand.

  predicate Bare(s: string) {
    forall i :: 0 <= i < |s| ==> s[i] !in {'=', ';', ',', '{', '(', ')', '[', ']'}
  }

  predicate Word(s: string) {
    s != []
    && forall i :: 0 <= i < |s| ==>
         'a' <= s[i] <= 'z' || 'A' <= s[i] <= 'Z' || '0' <= s[i] <= '9' || s[i] == '_'
  }

  lemma BareWalks(x: string, depth: nat)
    requires Bare(x)
    ensures Walk(x, depth) == Some(depth)
  {
    WalkPlain(x, depth);
  }

  /** The scan to the left stops right behind any of six characters, and behind no other. */
  lemma OperandStops(p: string, c: char, x: string)
    requires Bare(x)
    ensures LhsStart(p + [c] + x, |p| + 1 + |x|, 0) == |p| + 1 <==> c in {'=', ';', ',', '{', '(', '['}
    ensures c !in {'=', ';', ',', '{', '(', '['} ==> LhsStart(p + [c] + x, |p| + 1 + |x|, 0) <= |p|
  {
    hide LhsStart;
    BareWalks(x, 0);
    LhsStartByWalk(p + [c], x, 0);
    LastStops(p + [c]);
  }

  lemma LastStops(s: string)
    requires s != []
    ensures var c := s[|s| - 1];
            && (c in {'=', ';', ',', '{', '(', '['} ==> LhsStart(s, |s|, 0) == |s|)
            && (c !in {'=', ';', ',', '{', '(', '['} ==> LhsStart(s, |s|, 0) <= |s| - 1)
  {
  }

  /** The text of one pipe with a call behind it. */
  function PipeText(name: string, args: string, rest: string): string {
    " |> " + name + "(" + args + ")" + rest
  }

  lemma OneBlank()
    ensures Spaces(1) == " "
  {
    assert Spaces(0) == [];
  }

  lemma WordStage(name: string, args: string) returns (stage: Stage)
    requires Word(name) && (forall i :: 0 <= i < |args| ==> args[i] !in {'(', ')', '[', ']'})
    ensures stage == Stage(1, 1, name, Some(args)) && Good(stage)
  {
    stage := Stage(1, 1, name, Some(args));
    ArgsAreGood(args);
  }

  lemma StageText(stage: Stage, rest: string)
    requires stage.before == 1 && stage.after == 1 && stage.args.Some?
    ensures Text([stage], rest) == PipeText(stage.name, stage.args.value, rest) && Follows(stage, rest)
  {
    OneStageText(stage, rest);
    OneBlank();
    hide Spaces, Text;
    var call := stage.name + (['('] + (stage.args.value + ([')'] + rest)));
    assert " " + (['|', '>'] + (" " + call)) == " |> " + call;
    assert " |> " + call == PipeText(stage.name, stage.args.value, rest);
  }

  lemma {:induction false} UnbracketedIsEnclosed(a: string)
    requires forall i :: 0 <= i < |a| ==> a[i] !in {'(', ')', '[', ']'}
    ensures Enclosed(a, 1)
  {
    if a != [] {
      UnbracketedIsEnclosed(a[1..]);
    }
  }

  lemma ArgsAreGood(args: string)
    requires forall i :: 0 <= i < |args| ==> args[i] !in {'(', ')', '[', ']'}
    ensures Enclosed(args, 1) && Walk(Trim(args), 1) == Some(1)
  {
    hide Trim;
    UnbracketedIsEnclosed(args);
    var a, b := TrimCuts(args);
    assert forall i :: 0 <= i < |Trim(args)| ==> Trim(args)[i] == args[|a| + i];
    WalkPlain(Trim(args), 1);
  }

  /** The call that a pipe becomes. */
  function WrittenCall(name: string, x: string, args: string): string {
    name + "(" + Trim(x) + (if Trim(args) == [] then "" else ", " + Trim(args)) + ")"
  }

  /** In p c x |> f(a) the operand is x alone, and the line becomes p c f(x, a), exactly when c is one of
      = ; , { ( [ : for any quiet text p, operand x without those characters and their closing brackets,
      name f and arguments a without brackets, and quiet rest. */
  lemma OperandBehind(p: string, c: char, x: string, name: string, args: string, rest: string)
    requires Bare(x) && Word(name) && (forall i :: 0 <= i < |args| ==> args[i] !in {'(', ')', '[', ']'})
    requires Quiet(p + [c] + x, PipeText(name, args, rest), false, ' ') && !EndsInString(p + [c] + x, false, ' ')
    requires Quiet(rest, [], false, ' ')
    ensures Convert(p + [c] + x + PipeText(name, args, rest)) == p + [c] + WrittenCall(name, x, args) + rest
            <==> c in {'=', ';', ',', '{', '(', '['}
  {
    hide Trim, Quiet, EndsInString, Convert, LhsStart, PipeText, Call, Good, Follows, Text, Blank;
    var stage := WordStage(name, args);
    StageText(stage, rest);
    var head := p + [c] + x;
    OnePipe(head, stage, rest);
    OneBlank();
    var x1, buffer := x + " ", p + [c] + (x + " ");
    assert head + " " == buffer == p + [c] + x1;
    OperandStops(p, c, x1);
    var start := LhsStart(buffer, |buffer|, 0);
    TrimOneMore(x);
    if start == |p| + 1 {
      assert buffer[start..] == x1 && buffer[..start] == p + [c];
      CallWritten(name, x, args);
    } else {
      NotSplit(p, c, x1, start, name, args, rest);
    }
  }

  lemma CallWritten(name: string, x: string, args: string)
    ensures Call(name, Trim(x), Trim(args)) == WrittenCall(name, x, args)
  {
    hide Trim;
  }

  /** Where the operand reaches further to the left, the line comes out another one: where the call's
      parenthesis should stand there is no parenthesis. */
  lemma NotSplit(p: string, c: char, x: string, start: nat, name: string, args: string, rest: string)
    requires Bare(x) && Word(name) && start <= |p| && c !in {'=', ';', ',', '{', '(', '['}
    ensures var buffer := p + [c] + x;
            buffer[..start] + Call(name, Trim(buffer[start..]), Trim(args)) + rest
            != p + [c] + WrittenCall(name, x, args) + rest
  {
    hide Trim;
    var buffer := p + [c] + x;
    var wide := buffer[start..];
    var a, b := TrimCuts(wide);
    var got := buffer[..start] + Call(name, Trim(wide), Trim(args)) + rest;
    var meant := p + [c] + WrittenCall(name, x, args) + rest;
    var k := |p| + 1 + |name|;
    assert meant[k] == '(';
    var j := |p| - start;
    assert |Trim(wide)| > j ==> got[k] == Trim(wide)[j] == wide[|a| + j];
    assert |Trim(wide)| > j ==> wide[|a| + j] == buffer[start + |a| + j] != '(';
    var a', b' := TrimCuts(x);
  }

  /** Between matching parentheses or brackets of the operand separators do not count: p c u(v) |> f(a)
      becomes p c f(u(v), a). */
  lemma BracketedOperand(p: string, c: char, u: string, open: char, v: string, name: string, args: string, rest: string)
    requires open in {'(', '['} && c in {'=', ';', ',', '{', '(', '['}
    requires Bare(u) && Word(name) && (forall i :: 0 <= i < |args| ==> args[i] !in {'(', ')', '[', ']'})
    requires forall i :: 0 <= i < |v| ==> v[i] !in {'(', ')', '[', ']'}
    requires var x := u + [open] + v + [if open == '(' then ')' else ']'];
             && Quiet(p + [c] + x, PipeText(name, args, rest), false, ' ')
             && !EndsInString(p + [c] + x, false, ' ') && Quiet(rest, [], false, ' ')
    ensures var x := u + [open] + v + [if open == '(' then ')' else ']'];
            Convert(p + [c] + x + PipeText(name, args, rest)) == p + [c] + WrittenCall(name, x, args) + rest
  {
    hide Trim, Quiet, EndsInString, Convert, LhsStart, PipeText, Call, Good, Follows, Text, Walk;
    var stage := WordStage(name, args);
    StageText(stage, rest);
    var x := u + [open] + v + [if open == '(' then ')' else ']'];
    BracketsWalk(u, open, v);
    assert (p + [c])[|p|] == c;
    assert [stage][1..] == [];
    PipeChain(p + [c], x, [stage], rest);
    CallWritten(name, x, args);
    assert Nested(Call(name, Trim(x), Trim(args)), []) == Call(name, Trim(x), Trim(args));
  }

  lemma BracketsWalk(u: string, open: char, v: string)
    requires open in {'(', '['} && Bare(u) && forall i :: 0 <= i < |v| ==> v[i] !in {'(', ')', '[', ']'}
    ensures Walk(u + [open] + v + [if open == '(' then ')' else ']'], 0) == Some(0)
  {
    var close := if open == '(' then ')' else ']';
    OneBracket(open, close);
    WalkPlain(v, 1);
    BareWalks(u, 0);
    hide Walk;
    WalkConcat(u + [open] + v, [close], 0);
    WalkConcat(u + [open], v, 1);
    WalkConcat(u, [open], 1);
  }

  lemma OneBracket(open: char, close: char)
    requires open in {'(', '['} && close == if open == '(' then ')' else ']'
    ensures Walk([open], 1) == Some(0) && Walk([close], 0) == Some(1)
  {
    assert [open][..0] == [] && [close][..0] == [];
  }
}
