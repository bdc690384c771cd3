/**
 * The two-pass assembler: a scan pass that binds labels and checks each
 * instruction line's operand count, and a resolve pass that turns operand
 * tokens into references and binds each mnemonic to its operands.
 */
module Assembler {
  import opened Results
  import opened Machine
  import opened Engine
  import opened Text
  import Seqs

  datatype AsmError =
    | InvalidCommand(line: string)     // unknown mnemonic or wrong operand count
    | UnknownLabel(name: string)
    | UnknownRegister(name: string)
    | UnknownOperand(token: string)    // a token of no known shape

  /** Mnemonics taking two operands. */
  const BiMethods: map<string, BiOp> := map[
    "MOV" := Mov, "ADD" := Add, "SUB" := Sub, "MUL" := Mul, "DIV" := Div, "MOD" := Mod,
    "AND" := And, "OR" := Or, "EQ" := Eq, "NEQ" := Neq, "LESS" := Less, "LEQ" := Leq]

  /** Mnemonics taking one operand. */
  const UniMethods: map<string, UnOp> := map[
    "JUMP" := Jump, "JZ" := Jz, "JNZ" := Jnz, "PUSH" := Push, "POP" := Pop, "CALL" := Call,
    "INC" := Inc, "DEC" := Dec, "NEG" := Neg, "SET" := Set, "UNSET" := Unset, "NOT" := Not,
    "PRINT" := Print]

  /** Mnemonics taking no operand. */
  const NullMethods: map<string, Instr> := map["RETURN" := Ret]

  /** Register and flag names. */
  const Registers: map<string, Reg> := map[
    "eax" := Eax, "ebx" := Ebx, "ecx" := Ecx, "edx" := Edx, "eex" := Eex, "efx" := Efx,
    "ip" := Ip, "af" := Af, "bf" := Bf, "cf" := Cf, "df" := Df]

  /** Largest `unsigned int`; an empty token list's argument count `0 - 1` wraps to it. */
  const UintMax: nat := 0xFFFF_FFFF

  // Token shapes, as in the parser's `is_*` predicates.

  /** `letters:` */
  predicate IsLabel(t: string) {
    |t| > 0 && t[|t| - 1] == ':' && AllLetters(t[..|t| - 1])
  }

  /** An optional leading `-` (or a first digit) followed by digits. */
  predicate IsNumber(t: string) {
    |t| > 0 && (IsDigit(t[0]) || t[0] == '-') && AllDigits(t[1..])
  }

  /** `[digits]` */
  predicate IsNumberBr(t: string) {
    |t| >= 2 && t[0] == '[' && t[|t| - 1] == ']' && AllDigits(t[1..|t| - 1])
  }

  /** `letters` */
  predicate IsWord(t: string) {
    AllLetters(t)
  }

  /** `[letters]` */
  predicate IsWordBr(t: string) {
    |t| >= 2 && t[0] == '[' && t[|t| - 1] == ']' && AllLetters(t[1..|t| - 1])
  }

  /**
   * The integer written in `t` between `lm` leading and `rm` trailing
   * characters, with an optional `-` at position `lm`.
   */
  function StringToInt(t: string, lm: nat, rm: nat): (v: int)
    requires lm < |t| && lm + rm <= |t|
    ensures t[lm] != '-' && AllDigits(t[lm..|t| - rm]) ==> v >= 0
  {
    var negative := t[lm] == '-';
    var from := if negative then lm + 1 else lm;
    var value := if from + rm <= |t| then DigitsValue(t[from..|t| - rm]) else 0;
    if negative then -value else value
  }

  function GetRegister(name: string): (r: Result<Reg, AsmError>)
    ensures r.Ok? <==> name in Registers
    ensures r.Err? ==> r.error == UnknownRegister(name)
  {
    if name in Registers then Ok(Registers[name]) else Err(UnknownRegister(name))
  }

  /** Resolves one operand token; the shapes are tried in the order label, number, `[number]`, word, `[word]`. */
  function ParseArgument(labels: map<string, nat>, t: string): (r: Result<Ref, AsmError>)
    requires |t| > 0
  {
    if IsLabel(t) then
      if t in labels then Ok(Constant(labels[t])) else Err(UnknownLabel(t))
    else if IsNumber(t) then
      Ok(Constant(StringToInt(t, 0, 0)))
    else if IsNumberBr(t) then
      Ok(MemConstant(StringToInt(t, 1, 1)))
    else if IsWord(t) then
      var reg :- GetRegister(t);
      Ok(RegPtr(reg))
    else if IsWordBr(t) then
      var reg :- GetRegister(t[1..|t| - 1]);
      Ok(MemRegPtr(reg))
    else
      Err(UnknownOperand(t))
  }

  /** The argument count as an `unsigned int`: the token count minus one, wrapping for no tokens. */
  function ArgCount(toks: seq<string>): nat {
    if |toks| == 0 then UintMax else |toks| - 1
  }

  /** The mnemonic is in the table for exactly this many operands. */
  predicate Accepted(toks: seq<string>) {
    var argc := ArgCount(toks);
    || (argc == 2 && toks[0] in BiMethods)
    || (argc == 1 && toks[0] in UniMethods)
    || (argc == 0 && toks[0] in NullMethods)
  }

  /** An accepted instruction line, as tokenisation leaves it. */
  predicate Shaped(toks: seq<string>) {
    |toks| > 0 && Accepted(toks) && forall k :: 0 <= k < |toks| ==> IsToken(toks[k])
  }

  /** What the scan pass has built so far. */
  datatype ScanState = ScanState(
    code: seq<string>,
    labels: map<string, nat>,
    tokens: seq<seq<string>>,
    commandToLine: seq<nat>)

  /** Scan one source line (the line's index is `|st.code|`). */
  function ScanLine(st: ScanState, raw: string): Result<ScanState, AsmError> {
    var line := StripCR(raw);
    var code := st.code + [line];
    if |line| == 0 then
      Ok(st.(code := code))
    else if IsLabel(line) then
      // a label names the index of the next instruction
      Ok(st.(code := code, labels := st.labels[line := |st.tokens|]))
    else
      var toks := Tokenize(line);
      if Accepted(toks) then
        Ok(st.(code := code, tokens := st.tokens + [toks], commandToLine := st.commandToLine + [|st.code|]))
      else
        Err(InvalidCommand(line))
  }

  /** The facts the scan pass keeps about its lines. */
  predicate ScanInvariant(lines: seq<string>, st: ScanState) {
    && |st.code| == |lines|
    && (forall j :: 0 <= j < |lines| ==> st.code[j] == StripCR(lines[j]))
    && |st.tokens| == |st.commandToLine|
    && (forall k :: 0 <= k < |st.commandToLine| ==>
          && st.commandToLine[k] < |lines|
          && st.tokens[k] == Tokenize(st.code[st.commandToLine[k]])
          && Shaped(st.tokens[k]))
    && (forall l :: l in st.labels ==> st.labels[l] <= |st.tokens|)
  }

  /** The scan pass over all lines; stops at the first malformed line. */
  function Scan(lines: seq<string>): (r: Result<ScanState, AsmError>)
    ensures r.Ok? ==> ScanInvariant(lines, r.value)
    decreases |lines|
  {
    if |lines| == 0 then Ok(ScanState([], map[], [], []))
    else
      var st :- Scan(lines[..|lines| - 1]);
      ScanLineKeepsInvariant(lines[..|lines| - 1], st, lines[|lines| - 1]);
      Seqs.LastSplit(lines);
      ScanLine(st, lines[|lines| - 1])
  }

  /** Scanning a further line continues from the scan of the lines before it. */
  lemma ScanSnoc(lines: seq<string>, line: string, st: ScanState)
    requires Scan(lines) == Ok(st)
    ensures Scan(lines + [line]) == ScanLine(st, line)
  {
    assert (lines + [line])[..|lines|] == lines;
  }

  lemma ScanLineKeepsInvariant(lines: seq<string>, st: ScanState, raw: string)
    requires ScanInvariant(lines, st)
    ensures ScanLine(st, raw).Ok? ==> ScanInvariant(lines + [raw], ScanLine(st, raw).value)
  {
    if ScanLine(st, raw).Err? {
      return;
    }
    var line := StripCR(raw);
    var st2 := ScanLine(st, raw).value;
    var lines2 := lines + [raw];
    assert st2.code == st.code + [line];
    forall j | 0 <= j < |lines2|
      ensures st2.code[j] == StripCR(lines2[j])
    {
      if j < |lines| {
        assert lines2[j] == lines[j];
      }
    }
    if |line| > 0 && !IsLabel(line) {
      var toks := Tokenize(line);
      assert st2.tokens == st.tokens + [toks];
      assert st2.commandToLine == st.commandToLine + [|lines|];
      forall k | 0 <= k < |st2.commandToLine|
        ensures st2.commandToLine[k] < |lines2|
        ensures st2.tokens[k] == Tokenize(st2.code[st2.commandToLine[k]])
        ensures Shaped(st2.tokens[k])
      {
        if k < |st.commandToLine| {
          assert st2.tokens[k] == st.tokens[k];
          assert st2.commandToLine[k] == st.commandToLine[k];
        }
      }
    }
  }

  /** Binds the mnemonic of an accepted line to its resolved operands. */
  function Resolve(labels: map<string, nat>, toks: seq<string>): Result<Instr, AsmError>
    requires Shaped(toks)
  {
    var argc := ArgCount(toks);
    if argc == 2 then
      var x :- ParseArgument(labels, toks[1]);
      var y :- ParseArgument(labels, toks[2]);
      Ok(Bi(BiMethods[toks[0]], x, y))
    else if argc == 1 then
      var x :- ParseArgument(labels, toks[1]);
      Ok(Uni(UniMethods[toks[0]], x))
    else
      Ok(NullMethods[toks[0]])
  }

  /** The resolve pass, in line order; stops at the first operand that does not resolve. */
  function ResolveAll(labels: map<string, nat>, lines: seq<seq<string>>): Result<seq<Instr>, AsmError>
    requires forall k :: 0 <= k < |lines| ==> Shaped(lines[k])
    decreases |lines|
  {
    if |lines| == 0 then Ok([])
    else
    assert Shaped(lines[0]);
    if IsLabel(lines[0][0]) then
      // the source skips such lines; no accepted line starts with a label
      ResolveAll(labels, lines[1..])
    else
      var i :- Resolve(labels, lines[0]);
      var rest :- ResolveAll(labels, lines[1..]);
      Ok([i] + rest)
  }

  /** A mnemonic never has the shape of a label. */
  lemma MnemonicNotLabel(m: string)
    requires m in BiMethods || m in UniMethods || m in NullMethods
    ensures !IsLabel(m)
  {
  }

  /**
   * Resolving an accepted line succeeds exactly when each operand resolves,
   * fails with the first operand's error otherwise, and binds the mnemonic
   * of the line's arity to the operands in order.
   */
  lemma ResolveMeaning(labels: map<string, nat>, toks: seq<string>)
    requires Shaped(toks)
    ensures Resolve(labels, toks).Ok? <==> forall k :: 1 <= k < |toks| ==> ParseArgument(labels, toks[k]).Ok?
    ensures Resolve(labels, toks).Err? ==>
      (exists k :: 1 <= k < |toks|
        && ParseArgument(labels, toks[k]) == Err(Resolve(labels, toks).error)
        && forall i :: 1 <= i < k ==> ParseArgument(labels, toks[i]).Ok?)
    ensures Resolve(labels, toks).Ok? && |toks| == 3 ==>
      (Resolve(labels, toks).value ==
        Bi(BiMethods[toks[0]], ParseArgument(labels, toks[1]).value, ParseArgument(labels, toks[2]).value))
    ensures Resolve(labels, toks).Ok? && |toks| == 2 ==>
      (Resolve(labels, toks).value == Uni(UniMethods[toks[0]], ParseArgument(labels, toks[1]).value))
    ensures |toks| == 1 ==> Resolve(labels, toks) == Ok(Ret)
  {
    ResolveOperands(labels, toks);
    ResolveBinds(labels, toks);
  }

  lemma ResolveOperands(labels: map<string, nat>, toks: seq<string>)
    requires Shaped(toks)
    ensures Resolve(labels, toks).Ok? <==> forall k :: 1 <= k < |toks| ==> ParseArgument(labels, toks[k]).Ok?
    ensures Resolve(labels, toks).Err? ==>
      (exists k :: 1 <= k < |toks|
        && ParseArgument(labels, toks[k]) == Err(Resolve(labels, toks).error)
        && forall i :: 1 <= i < k ==> ParseArgument(labels, toks[i]).Ok?)
  {
    var r := Resolve(labels, toks);
    if |toks| == 3 {
      var x, y := ParseArgument(labels, toks[1]), ParseArgument(labels, toks[2]);
      if x.Err? {
        assert r == Err(x.error);
      } else if y.Err? {
        assert r == Err(y.error);
      }
    } else if |toks| == 2 {
      var x := ParseArgument(labels, toks[1]);
      if x.Err? {
        assert r == Err(x.error);
      }
    }
  }

  lemma ResolveBinds(labels: map<string, nat>, toks: seq<string>)
    requires Shaped(toks)
    ensures Resolve(labels, toks).Ok? && |toks| == 3 ==>
      (Resolve(labels, toks).value ==
        Bi(BiMethods[toks[0]], ParseArgument(labels, toks[1]).value, ParseArgument(labels, toks[2]).value))
    ensures Resolve(labels, toks).Ok? && |toks| == 2 ==>
      (Resolve(labels, toks).value == Uni(UniMethods[toks[0]], ParseArgument(labels, toks[1]).value))
    ensures |toks| == 1 ==> Resolve(labels, toks) == Ok(Ret)
  {
  }

  /**
   * The resolve pass resolves every accepted line on its own, against the same
   * label table: it succeeds exactly when every line resolves, instruction `k`
   * is line `k`'s resolution, and a failure is the first failing line's error.
   */
  lemma ResolveAllAt(labels: map<string, nat>, lines: seq<seq<string>>)
    requires forall k :: 0 <= k < |lines| ==> Shaped(lines[k])
    ensures ResolveAll(labels, lines).Ok? <==> forall k :: 0 <= k < |lines| ==> Resolve(labels, lines[k]).Ok?
    ensures ResolveAll(labels, lines).Ok? ==>
      && |ResolveAll(labels, lines).value| == |lines|
      && forall k :: 0 <= k < |lines| ==> Resolve(labels, lines[k]) == Ok(ResolveAll(labels, lines).value[k])
    ensures ResolveAll(labels, lines).Err? ==>
      (exists k :: 0 <= k < |lines|
        && Resolve(labels, lines[k]) == Err(ResolveAll(labels, lines).error)
        && forall i :: 0 <= i < k ==> Resolve(labels, lines[i]).Ok?)
  {
    ResolveAllValues(labels, lines);
    ResolveAllFirstError(labels, lines);
  }

  lemma {:induction false} ResolveAllValues(labels: map<string, nat>, lines: seq<seq<string>>)
    requires forall k :: 0 <= k < |lines| ==> Shaped(lines[k])
    ensures ResolveAll(labels, lines).Ok? ==>
      && |ResolveAll(labels, lines).value| == |lines|
      && forall k :: 0 <= k < |lines| ==> Resolve(labels, lines[k]) == Ok(ResolveAll(labels, lines).value[k])
    decreases |lines|
  {
    if |lines| > 0 {
      var rest := lines[1..];
      MnemonicNotLabel(lines[0][0]);
      ResolveAllValues(labels, rest);
      assert forall k :: 0 <= k < |rest| ==> rest[k] == lines[k + 1];
    }
  }

  lemma {:induction false} ResolveAllFirstError(labels: map<string, nat>, lines: seq<seq<string>>)
    requires forall k :: 0 <= k < |lines| ==> Shaped(lines[k])
    ensures ResolveAll(labels, lines).Err? ==>
      (exists k :: 0 <= k < |lines|
        && Resolve(labels, lines[k]) == Err(ResolveAll(labels, lines).error)
        && forall i :: 0 <= i < k ==> Resolve(labels, lines[i]).Ok?)
    decreases |lines|
  {
    if |lines| > 0 && ResolveAll(labels, lines).Err? {
      var rest := lines[1..];
      MnemonicNotLabel(lines[0][0]);
      if Resolve(labels, lines[0]).Ok? {
        assert ResolveAll(labels, rest).Err? && ResolveAll(labels, lines).error == ResolveAll(labels, rest).error;
        ResolveAllFirstError(labels, rest);
        var k :| 0 <= k < |rest|
          && Resolve(labels, rest[k]) == Err(ResolveAll(labels, rest).error)
          && forall i :: 0 <= i < k ==> Resolve(labels, rest[i]).Ok?;
        assert lines[k + 1] == rest[k];
        assert forall i :: 1 <= i < k + 1 ==> lines[i] == rest[i - 1];
        assert Resolve(labels, lines[k + 1]) == Err(ResolveAll(labels, lines).error);
      } else {
        assert Resolve(labels, lines[0]) == Err(ResolveAll(labels, lines).error);
      }
    }
  }

  /** Every accepted line yields exactly one instruction. */
  lemma {:induction false} ResolveAllLength(labels: map<string, nat>, lines: seq<seq<string>>)
    requires forall k :: 0 <= k < |lines| ==> Shaped(lines[k])
    requires ResolveAll(labels, lines).Ok?
    ensures |ResolveAll(labels, lines).value| == |lines|
    decreases |lines|
  {
    if |lines| > 0 {
      MnemonicNotLabel(lines[0][0]);
      ResolveAllLength(labels, lines[1..]);
    }
  }

  /** Assembles source lines into a program. */
  function Assemble(lines: seq<string>): (r: Result<Program, AsmError>)
    ensures r.Ok? ==> |r.value.commands| == |r.value.commandToLine|
    ensures r.Ok? ==> |r.value.code| == |lines|
    ensures r.Ok? ==> forall k :: 0 <= k < |r.value.commandToLine| ==> r.value.commandToLine[k] < |lines|
    ensures r.Ok? ==> forall k :: 0 <= k < |r.value.commandToLine| ==>
      Shaped(Tokenize(r.value.code[r.value.commandToLine[k]]))
    ensures r.Ok? ==> forall k :: 0 <= k < |r.value.commands| ==>
      Resolve(r.value.labels, Tokenize(r.value.code[r.value.commandToLine[k]])) == Ok(r.value.commands[k])
  {
    var st :- Scan(lines);
    var cmds :- ResolveAll(st.labels, st.tokens);
    ResolveAllLength(st.labels, st.tokens);
    ResolveAllAt(st.labels, st.tokens);
    Ok(Program(st.code, cmds, st.labels, st.commandToLine))
  }
}
