/** Whole programs run through the engine and the assembler. */
module Scenarios {
  import opened Results
  import opened Machine
  import opened Engine
  import opened Assembler
  import TextLemmas
  import EngineLemmas
  import Listing
  import Seqs

  function Prog(cmds: seq<Instr>): Program {
    Program([], cmds, map[], [])
  }

  /** `SET af` makes `af` true in one step. */
  lemma SetFlag()
    ensures Run(Prog([Uni(Set, RegPtr(Af))]), Initial, 1).Ok?
    ensures Run(Prog([Uni(Set, RegPtr(Af))]), Initial, 1).value.af == 1
  {
  }

  /** `MOV ebx 5`, `INC ebx`, `PRINT ebx` prints the single line `6`. */
  lemma MoveIncrementPrint()
    ensures Execute(Prog([Bi(Mov, RegPtr(Ebx), Constant(5)), Uni(Inc, RegPtr(Ebx)), Uni(Print, RegPtr(Ebx))]), [], 3) == Ok(["6"])
  {
    var p := Prog([Bi(Mov, RegPtr(Ebx), Constant(5)), Uni(Inc, RegPtr(Ebx)), Uni(Print, RegPtr(Ebx))]);
    var s0 := Install([]).value;
    var s1 := Step(p, s0).value;
    var s2 := Step(p, s1).value;
    var s3 := Step(p, s2).value;
    assert s3.output == [6];
    assert Run(p, s0, 3) == Ok(s3);
    assert Text.SignedDecimal(6) == "6";
    assert Lines([6])[0] == "6";
    assert Lines([6]) == ["6"];
  }

  /** `DEC ecx` then `JNZ` back: `JNZ` jumps while `af` is zero, and `DEC` never sets `af`. */
  const JnzLoop: Program := Prog([Uni(Dec, RegPtr(Ecx)), Uni(Jnz, Constant(0))])

  /** With `af` clear the `DEC ecx` / `JNZ` loop never falls through, however many steps it is given. */
  lemma {:induction false} JnzLoopNeverHalts(s: State, fuel: nat)
    requires s.af == 0 && !s.jumped && (s.ip == 0 || s.ip == 1)
    ensures Run(JnzLoop, s, fuel) == Err(StepLimitReached)
    decreases fuel
  {
    if fuel > 0 {
      var t := Step(JnzLoop, s).value;
      assert t.af == 0 && !t.jumped && (t.ip == 0 || t.ip == 1);
      JnzLoopNeverHalts(t, fuel - 1);
    }
  }

  /** A counting loop in this instruction set: `DEC ecx`, `NEQ ecx 0`, `JZ` back while `af` is set. */
  const Countdown: Program := Prog([Uni(Dec, RegPtr(Ecx)), Bi(Neq, RegPtr(Ecx), Constant(0)), Uni(Jz, Constant(0))])

  /** From `ecx = n`, the loop runs `DEC` exactly `n` times: it stops after `3n` steps, not before, with `ecx = 0`. */
  lemma {:induction false} CountdownRuns(s: State, n: nat)
    requires n >= 1 && s.ip == 0 && s.ecx == n && !s.jumped
    ensures Run(Countdown, s, 3 * n).Ok?
    ensures Run(Countdown, s, 3 * n).value.ecx == 0
    ensures Run(Countdown, s, 3 * n).value.ip == 3
    ensures Run(Countdown, s, 3 * n - 1) == Err(StepLimitReached)
    decreases n
  {
    var p := Countdown;
    var s1 := Step(p, s).value;
    var s2 := Step(p, s1).value;
    assert s2.ip == 2 && s2.ecx == n - 1 && s2.af == (if n - 1 != 0 then 1 else 0);
    var s3 := Step(p, s2).value;
    assert Run(p, s, 3 * n) == Run(p, s1, 3 * n - 1) == Run(p, s2, 3 * n - 2) == Run(p, s3, 3 * n - 3);
    assert Run(p, s, 3 * n - 1) == Run(p, s1, 3 * n - 2) == Run(p, s2, 3 * n - 3);
    if n > 1 {
      assert s3.ip == 0 && s3.ecx == n - 1;
      CountdownRuns(s3, n - 1);
      assert Run(p, s2, 3 * n - 3) == Run(p, s3, 3 * (n - 1) - 1);
    } else {
      assert s3.ip == 3;
    }
  }

  /** Counting down from 3 executes `DEC` three times and then falls off the end. */
  lemma CountdownFromThree()
    ensures Run(Countdown, Initial.With(Ecx, 3), 9).Ok?
    ensures Run(Countdown, Initial.With(Ecx, 3), 9).value.ecx == 0
    ensures Run(Countdown, Initial.With(Ecx, 3), 8) == Err(StepLimitReached)
  {
    CountdownRuns(Initial.With(Ecx, 3), 3);
  }

  /** A subroutine at 3 sets `eax` and returns; the main line prints `eax` and jumps past the end. */
  const CallProg: Program := Prog([Uni(Call, Constant(3)), Uni(Print, RegPtr(Eax)), Uni(Jump, Constant(5)),
                                   Bi(Mov, RegPtr(Eax), Constant(7)), Ret])

  /** `CALL` into a subroutine that sets `eax` and returns; execution resumes after the `CALL` and prints 7. */
  lemma CallReturnResumes()
    ensures Execute(CallProg, [], 5) == Ok(["7"])
  {
    var s0 := Install([]).value;
    CallRun(s0);
    ExecuteIs(CallProg, [], 5, Run(CallProg, s0, 5).value);
    assert Text.SignedDecimal(7) == "7";
    assert Lines([7]) == ["7"];
  }

  /** From a fresh state, `CallProg` prints 7 and ends with the stack as it found it. */
  lemma CallRun(s0: State)
    requires s0.ip == 0 && s0.stack == [] && !s0.jumped && s0.output == []
    ensures Run(CallProg, s0, 5).Ok?
    ensures Run(CallProg, s0, 5).value.output == [7]
    ensures Run(CallProg, s0, 5).value.stack == []
  {
    var p := CallProg;
    var s1 := s0.(ip := 3, stack := [0]);
    var s2 := s1.(eax := 7, ip := 4);
    var s3 := s2.(ip := 1, stack := []);
    var s4 := s3.(output := [7], ip := 2);
    var s5 := s4.(ip := 5);
    assert [0][..0] == [];
    CallSteps(s0);
    CallSteps(s1);
    CallSteps(s2);
    CallSteps(s3);
    CallSteps(s4);
    EngineLemmas.RunUnfold(p, s0, 5);
    EngineLemmas.RunUnfold(p, s1, 4);
    EngineLemmas.RunUnfold(p, s2, 3);
    EngineLemmas.RunUnfold(p, s3, 2);
    EngineLemmas.RunUnfold(p, s4, 1);
    assert Run(p, s5, 0) == Ok(s5);
  }

  /** `Execute` is the run from the installed image, read out as lines. */
  lemma ExecuteIs(p: Program, image: seq<int>, fuel: nat, t: State)
    requires Install(image).Ok? && Run(p, Install(image).value, fuel) == Ok(t)
    ensures Execute(p, image, fuel) == Ok(Lines(t.output))
  {
  }

  /** The effect of each instruction of `CallProg`. */
  lemma CallSteps(s: State)
    requires !s.jumped
    ensures s.ip == 0 ==> Step(CallProg, s) == Ok(s.(ip := 3, stack := s.stack + [0]))
    ensures s.ip == 1 ==> Step(CallProg, s) == Ok(s.(output := s.output + [s.eax], ip := 2))
    ensures s.ip == 2 ==> Step(CallProg, s) == Ok(s.(ip := 5))
    ensures s.ip == 3 ==> Step(CallProg, s) == Ok(s.(eax := 7, ip := 4))
    ensures s.ip == 4 && |s.stack| > 0 ==>
      Step(CallProg, s) == Ok(s.(ip := s.stack[|s.stack| - 1] + 1, stack := s.stack[..|s.stack| - 1]))
  {
  }

  /** `PUSH ecx` then `POP edx` copies `ecx` into `edx` and leaves the stack empty again. */
  lemma PushPopCopies()
    ensures var p := Prog([Bi(Mov, RegPtr(Ecx), Constant(42)), Uni(Push, RegPtr(Ecx)), Uni(Pop, RegPtr(Edx))]);
      Run(p, Initial, 3).Ok? && Run(p, Initial, 3).value.edx == 42 && Run(p, Initial, 3).value.stack == []
  {
    var p := Prog([Bi(Mov, RegPtr(Ecx), Constant(42)), Uni(Push, RegPtr(Ecx)), Uni(Pop, RegPtr(Edx))]);
    var s1 := Step(p, Initial).value;
    var s2 := Step(p, s1).value;
    var s3 := Step(p, s2).value;
    assert s3.edx == 42 && s3.stack == [] && s3.ip == 3;
    assert Run(p, Initial, 3) == Ok(s3);
  }

  /**
   * Calls and pushes share one stack: a subroutine that pushes 5 and returns
   * resumes at 6, not after its `CALL`, and leaves the return address behind.
   */
  lemma SharedStack()
    ensures var p := Prog([Uni(Call, Constant(2)), Uni(Jump, Constant(10)), Uni(Push, Constant(5)), Ret]);
      Run(p, Initial, 3).Ok? && Run(p, Initial, 3).value.ip == 6 && Run(p, Initial, 3).value.stack == [0]
  {
    var p := Prog([Uni(Call, Constant(2)), Uni(Jump, Constant(10)), Uni(Push, Constant(5)), Ret]);
    var s1 := Step(p, Initial).value;
    var s2 := Step(p, s1).value;
    assert s2.stack == [0, 5];
    var s3 := Step(p, s2).value;
    assert s3.ip == 6 && s3.stack == [0];
    assert Run(p, Initial, 3) == Ok(s3);
  }

  /** The counting loop written as source text assembles to the `Countdown` instructions. */
  lemma AssembleCountdown()
    ensures Assemble(CountdownText) ==
      Ok(Program(CountdownText, Countdown.commands, map["loop:" := 0], [1, 2, 3]))
  {
    ScanCountdown();
    ResolveCountdown();
  }

  const CountdownText: seq<string> := ["loop:", "DEC ecx", "NEQ ecx 0", "JZ loop:"]

  const CountdownTokens: seq<seq<string>> := [["DEC", "ecx"], ["NEQ", "ecx", "0"], ["JZ", "loop:"]]

  lemma ScanCountdown()
    ensures Scan(CountdownText) == Ok(ScanState(CountdownText, map["loop:" := 0], CountdownTokens, [1, 2, 3]))
  {
    assert IsLabel("loop:") by { assert "loop:"[..4] == "loop"; }
    DecLine();
    NeqLine();
    JzLine();
    ScanLabelThenThree("loop:", "DEC ecx", ["DEC", "ecx"], "NEQ ecx 0", ["NEQ", "ecx", "0"], "JZ loop:", ["JZ", "loop:"]);
  }

  /** A label line followed by three instruction lines: the label names instruction 0. */
  lemma ScanLabelThenThree(lab: string, l1: string, w1: seq<string>, l2: string, w2: seq<string>,
                           l3: string, w3: seq<string>)
    requires IsLabel(lab) && InstrWords(l1, w1) && InstrWords(l2, w2) && InstrWords(l3, w3)
    ensures Scan([lab, l1, l2, l3]) == Ok(ScanState([lab, l1, l2, l3], map[lab := 0], [w1, w2, w3], [1, 2, 3]))
  {
    ScanLabelThenTwo(lab, l1, w1, l2, w2);
    var st3 := ScanState([lab, l1, l2], map[lab := 0], [w1, w2], [1, 2]);
    ScanInstr([lab, l1, l2], st3, l3, w3);
    Seqs.Snoc4(lab, l1, l2, l3);
    Seqs.Snoc3(w1, w2, w3);
    Seqs.Snoc3<nat>(1, 2, 3);
  }

  lemma ScanLabelThenTwo(lab: string, l1: string, w1: seq<string>, l2: string, w2: seq<string>)
    requires IsLabel(lab) && InstrWords(l1, w1) && InstrWords(l2, w2)
    ensures Scan([lab, l1, l2]) == Ok(ScanState([lab, l1, l2], map[lab := 0], [w1, w2], [1, 2]))
  {
    ScanLabelThenOne(lab, l1, w1);
    var st2 := ScanState([lab, l1], map[lab := 0], [w1], [1]);
    ScanInstr([lab, l1], st2, l2, w2);
    Seqs.Snoc3(lab, l1, l2);
    Seqs.Snoc2(w1, w2);
    Seqs.Snoc2<nat>(1, 2);
  }

  lemma ScanLabelThenOne(lab: string, l1: string, w1: seq<string>)
    requires IsLabel(lab) && InstrWords(l1, w1)
    ensures Scan([lab, l1]) == Ok(ScanState([lab, l1], map[lab := 0], [w1], [1]))
  {
    var st0 := ScanState([], map[], [], []);
    assert Scan([]) == Ok(st0);
    ScanSnoc([], lab, st0);
    Seqs.Snoc1(lab);
    var st1 := ScanState([lab], map[lab := 0], [], []);
    assert Scan([lab]) == Ok(st1);
    ScanInstr([lab], st1, l1, w1);
    Seqs.Snoc2(lab, l1);
    Seqs.Snoc1(w1);
    Seqs.Snoc1<nat>(1);
  }

  /** Scanning a further instruction line appends its words and line number. */
  lemma ScanInstr(lines: seq<string>, st: ScanState, line: string, ws: seq<string>)
    requires Scan(lines) == Ok(st) && InstrWords(line, ws)
    ensures Scan(lines + [line]) == Ok(st.(code := st.code + [line], tokens := st.tokens + [ws],
                                           commandToLine := st.commandToLine + [|st.code|]))
  {
    ScanSnoc(lines, line, st);
    ScanStep(st, line, ws);
  }

  /** The instruction lines of the counting loop and their words. */
  predicate InstrWords(line: string, ws: seq<string>) {
    && line == Text.Unwords(ws) && |line| > 0 && line[|line| - 1] != '\r' && !IsLabel(line)
    && (forall k :: 0 <= k < |ws| ==> Text.IsToken(ws[k]))
    && Accepted(ws)
  }

  lemma DecLine()
    ensures InstrWords("DEC ecx", ["DEC", "ecx"])
  {
    assert Text.Unwords(["DEC", "ecx"]) == "DEC ecx";
  }

  lemma NeqLine()
    ensures InstrWords("NEQ ecx 0", ["NEQ", "ecx", "0"])
  {
    assert Text.Unwords(["NEQ", "ecx", "0"]) == "NEQ ecx 0";
  }

  lemma JzLine()
    ensures InstrWords("JZ loop:", ["JZ", "loop:"])
  {
    assert Text.Unwords(["JZ", "loop:"]) == "JZ loop:";
    assert !IsLabel("JZ loop:") by { assert "JZ loop:"[..7][2] == ' '; }
  }

  /** Scanning one instruction line whose words are `ws`. */
  lemma ScanStep(st: ScanState, line: string, ws: seq<string>)
    requires InstrWords(line, ws)
    ensures ScanLine(st, line) == Ok(st.(code := st.code + [line], tokens := st.tokens + [ws],
                                         commandToLine := st.commandToLine + [|st.code|]))
  {
    TextLemmas.TokenizeUnwords(ws);
  }

  lemma ResolveCountdown()
    ensures ResolveAll(map["loop:" := 0], CountdownTokens) == Ok(Countdown.commands)
  {
    var labels := map["loop:" := 0];
    var t0, t1, t2 := ["DEC", "ecx"], ["NEQ", "ecx", "0"], ["JZ", "loop:"];
    var i0, i1, i2 := Uni(Dec, RegPtr(Ecx)), Bi(Neq, RegPtr(Ecx), Constant(0)), Uni(Jz, Constant(0));
    ResolveDec(labels);
    ResolveNeq(labels);
    ResolveJz(labels);
    ResolveCons(labels, t2, [], i2, []);
    Seqs.Cons1(t2);
    Seqs.Cons1(i2);
    ResolveCons(labels, t1, [t2], i1, [i2]);
    Seqs.Snoc2(t1, t2);
    Seqs.Snoc2(i1, i2);
    ResolveCons(labels, t0, [t1, t2], i0, [i1, i2]);
    Seqs.Cons3(t0, t1, t2);
    Seqs.Cons3(i0, i1, i2);
  }

  /** The resolve pass takes the lines one at a time. */
  lemma ResolveCons(labels: map<string, nat>, t: seq<string>, rest: seq<seq<string>>, i: Instr, more: seq<Instr>)
    requires Shaped(t) && !IsLabel(t[0]) && Resolve(labels, t) == Ok(i)
    requires forall k :: 0 <= k < |rest| ==> Shaped(rest[k])
    requires ResolveAll(labels, rest) == Ok(more)
    ensures forall k :: 0 <= k < |[t] + rest| ==> Shaped(([t] + rest)[k])
    ensures ResolveAll(labels, [t] + rest) == Ok([i] + more)
  {
    assert ([t] + rest)[0] == t && ([t] + rest)[1..] == rest;
  }

  lemma ResolveDec(labels: map<string, nat>)
    ensures Shaped(["DEC", "ecx"]) && !IsLabel("DEC")
    ensures Resolve(labels, ["DEC", "ecx"]) == Ok(Uni(Dec, RegPtr(Ecx)))
  {
    DecLine();
    MnemonicNotLabel("DEC");
    Listing.ParseRegister(labels, Ecx);
  }

  lemma ResolveNeq(labels: map<string, nat>)
    ensures Shaped(["NEQ", "ecx", "0"]) && !IsLabel("NEQ")
    ensures Resolve(labels, ["NEQ", "ecx", "0"]) == Ok(Bi(Neq, RegPtr(Ecx), Constant(0)))
  {
    NeqLine();
    MnemonicNotLabel("NEQ");
    Listing.ParseRegister(labels, Ecx);
    Listing.ParseConstant(labels, 0);
    assert Text.SignedDecimal(0) == "0";
  }

  lemma ResolveJz(labels: map<string, nat>)
    requires labels == map["loop:" := 0]
    ensures Shaped(["JZ", "loop:"]) && !IsLabel("JZ")
    ensures Resolve(labels, ["JZ", "loop:"]) == Ok(Uni(Jz, Constant(0)))
  {
    JzLine();
    MnemonicNotLabel("JZ");
    assert IsLabel("loop:") by { assert "loop:"[..4] == "loop"; }
  }

  /** Only the instruction list matters to execution, not the text or the label table. */
  lemma {:induction false} RunSeesOnlyCommands(p: Program, q: Program, s: State, fuel: nat)
    requires p.commands == q.commands
    ensures Run(p, s, fuel) == Run(q, s, fuel)
    decreases fuel
  {
    if Running(p, s) && fuel > 0 {
      assert Step(p, s) == Step(q, s);
      if Step(p, s).Ok? {
        RunSeesOnlyCommands(p, q, Step(p, s).value, fuel - 1);
      }
    }
  }

  /** The assembled counting-loop text counts `ecx` down from `n` to zero in `3n` steps. */
  lemma AssembledCountdownRuns(n: nat)
    requires n >= 1
    ensures Assemble(CountdownText).Ok?
    ensures var r := Run(Assemble(CountdownText).value, Initial.With(Ecx, n), 3 * n);
      r.Ok? && r.value.ecx == 0
  {
    AssembleCountdown();
    CountdownRuns(Initial.With(Ecx, n), n);
    RunSeesOnlyCommands(Assemble(CountdownText).value, Countdown, Initial.With(Ecx, n), 3 * n);
  }
}
