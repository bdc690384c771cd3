/**
 * The execution engine: instructions, their semantics, the step that
 * advances the instruction pointer, and the run loop.
 */
module Engine {
  import opened Results
  import opened Machine
  import Text

  /** Mnemonics taking two operands. */
  datatype BiOp = Mov | Add | Sub | Mul | Div | Mod | And | Or | Eq | Neq | Less | Leq

  /** Mnemonics taking one operand. */
  datatype UnOp = Jump | Jz | Jnz | Push | Pop | Call | Inc | Dec | Neg | Set | Unset | Not | Print

  /** A mnemonic bound to its resolved operands; `Ret` is the one operand-less instruction. */
  datatype Instr = Bi(bop: BiOp, x: Ref, y: Ref) | Uni(uop: UnOp, x: Ref) | Ret

  /**
   * The assembled program: source lines, instructions, the label table and,
   * for each instruction, the index of the source line it came from.
   */
  datatype Program = Program(
    code: seq<string>,
    commands: seq<Instr>,
    labels: map<string, nat>,
    commandToLine: seq<nat>)

  function Abs(a: int): nat {
    if a < 0 then -a else a
  }

  /** Integer division rounding toward zero, as C++ `/` does. */
  function TruncDiv(a: int, b: int): (q: int)
    requires b != 0
    ensures Abs(q) == Abs(a) / Abs(b)
    ensures q != 0 ==> (q < 0 <==> (a < 0) != (b < 0))
  {
    var m := Abs(a) / Abs(b);
    DivModFacts(Abs(a), Abs(b));
    NonNegativeQuotient(Abs(a), Abs(b));
    if (a < 0) == (b < 0) then m else -m
  }

  lemma NonNegativeQuotient(A: int, B: int)
    requires A >= 0 && B > 0
    ensures A / B >= 0
  {
  }

  /** The C++ `%`: the remainder that goes with `TruncDiv`, which is the remainder of the magnitudes with the dividend's sign. */
  function TruncMod(a: int, b: int): (r: int)
    requires b != 0
    ensures r == if a < 0 then -(Abs(a) % Abs(b)) else Abs(a) % Abs(b)
  {
    RemainderOfMagnitudes(a, b);
    a - b * TruncDiv(a, b)
  }

  lemma RemainderOfMagnitudes(a: int, b: int)
    requires b != 0
    ensures a - b * TruncDiv(a, b) == if a < 0 then -(Abs(a) % Abs(b)) else Abs(a) % Abs(b)
  {
    var A: int, B: int := Abs(a), Abs(b);
    var q: int := A / B;
    DivModFacts(A, B);
    if (a < 0) == (b < 0) {
      assert TruncDiv(a, b) == q;
      SignedProduct(b, q, B);
      assert b * q == (if b < 0 then -(B * q) else B * q);
    } else {
      assert TruncDiv(a, b) == -q;
      SignedProduct(b, -q, B);
      NegMul(B, q);
      assert b * -q == (if b < 0 then B * q else -(B * q));
    }
  }

  lemma SignedProduct(b: int, d: int, B: int)
    requires B == Abs(b)
    ensures b * d == if b < 0 then -(B * d) else B * d
  {
    if b < 0 {
      NegMul(B, d);
    }
  }

  lemma DivModFacts(A: int, B: int)
    requires A >= 0 && B > 0
    ensures A == B * (A / B) + A % B && 0 <= A % B < B
  {
  }

  lemma NegMul(x: int, y: int)
    ensures (-x) * y == -(x * y) && x * (-y) == -(x * y)
  {
  }

  /** C truthiness turned into the 0/1 a comparison yields. */
  function Bit(b: bool): int {
    if b then 1 else 0
  }

  /** Operations whose result goes to `eax`. */
  predicate IsArith(op: BiOp) {
    op.Add? || op.Sub? || op.Mul? || op.Div? || op.Mod?
  }

  /** Operations whose result goes to `af`. */
  predicate IsLogic(op: BiOp) {
    op.And? || op.Or? || op.Eq? || op.Neq? || op.Less? || op.Leq?
  }

  function Arith(op: BiOp, a: int, b: int): Result<int, Fault>
    requires IsArith(op)
  {
    match op
    case Add => Ok(a + b)
    case Sub => Ok(a - b)
    case Mul => Ok(a * b)
    case Div => if b == 0 then Err(DivisionByZero) else Ok(TruncDiv(a, b))
    case Mod => if b == 0 then Err(DivisionByZero) else Ok(TruncMod(a, b))
  }

  function Compare(op: BiOp, a: int, b: int): bool
    requires op.Eq? || op.Neq? || op.Less? || op.Leq?
  {
    match op
    case Eq => a == b
    case Neq => a != b
    case Less => a < b
    case Leq => a <= b
  }

  /** A two-operand instruction never prints. */
  function ExecBi(s: State, op: BiOp, x: Ref, y: Ref): (r: Result<State, Fault>)
    ensures r.Ok? ==> r.value.output == s.output
  {
    match op
    case Mov =>
      // the source operand is read before the destination is resolved
      var v :- Read(s, y);
      Write(s, x, v)
    case Add | Sub | Mul | Div | Mod =>
      var a :- Read(s, x);
      var b :- Read(s, y);
      var v :- Arith(op, a, b);
      Ok(s.With(Eax, v))
    case And =>
      // `&&` short-circuits: a false first operand leaves the second unread
      var a :- Read(s, x);
      if a == 0 then Ok(s.With(Af, 0))
      else
        var b :- Read(s, y);
        Ok(s.With(Af, Bit(b != 0)))
    case Or =>
      var a :- Read(s, x);
      if a != 0 then Ok(s.With(Af, 1))
      else
        var b :- Read(s, y);
        Ok(s.With(Af, Bit(b != 0)))
    case Eq | Neq | Less | Leq =>
      var a :- Read(s, x);
      var b :- Read(s, y);
      Ok(s.With(Af, Bit(Compare(op, a, b))))
  }

  /** Sets `ip` to the operand's value and raises `jumped`. */
  function JumpTo(s: State, x: Ref): Result<State, Fault> {
    var target :- Read(s, x);
    Ok(s.(ip := target, jumped := true))
  }

  /** Only `PRINT` changes the output, and only by appending. */
  function ExecUni(s: State, op: UnOp, x: Ref): (r: Result<State, Fault>)
    ensures r.Ok? && !op.Print? ==> r.value.output == s.output
    ensures r.Ok? && op.Print? ==> s.output <= r.value.output
  {
    match op
    case Jump => JumpTo(s, x)
    case Jz => if s.af != 0 then JumpTo(s, x) else Ok(s)
    case Jnz => if s.af == 0 then JumpTo(s, x) else Ok(s)
    case Call => JumpTo(s.(stack := s.stack + [s.ip]), x)
    case Push =>
      var v :- Read(s, x);
      Ok(s.(stack := s.stack + [v]))
    case Pop =>
      if |s.stack| == 0 then Err(StackUnderflow)
      else
        var t :- Write(s, x, s.stack[|s.stack| - 1]);
        Ok(t.(stack := s.stack[..|s.stack| - 1]))
    case Inc =>
      var c :- Locate(s, x);
      Ok(s.Store(c, s.Load(c) + 1))
    case Dec =>
      var c :- Locate(s, x);
      Ok(s.Store(c, s.Load(c) - 1))
    case Neg =>
      var v :- Read(s, x);
      Write(s, x, -v)
    case Set => Write(s, x, 1)
    case Unset => Write(s, x, 0)
    case Not =>
      var v :- Read(s, x);
      Ok(s.With(Af, Bit(v == 0)))
    case Print =>
      var v :- Read(s, x);
      Ok(s.(output := s.output + [v]))
  }

  /** The effect of one instruction, before `ip` is advanced. */
  function Exec(s: State, i: Instr): (r: Result<State, Fault>)
    ensures r.Ok? ==> s.output <= r.value.output
    ensures r.Ok? && r.value.output != s.output ==> i.Uni? && i.uop.Print?
  {
    match i
    case Bi(op, x, y) => ExecBi(s, op, x, y)
    case Uni(op, x) => ExecUni(s, op, x)
    case Ret =>
      if |s.stack| == 0 then Err(StackUnderflow)
      else Ok(s.(ip := s.stack[|s.stack| - 1], stack := s.stack[..|s.stack| - 1]))
  }

  /** The run loop's guard; the source compares `ip` as unsigned, so a negative `ip` stops the loop too. */
  predicate Running(p: Program, s: State) {
    0 <= s.ip < |p.commands|
  }

  /** One step: execute the instruction at `ip`, then advance `ip` unless it jumped. */
  function Step(p: Program, s: State): (r: Result<State, Fault>)
    requires Running(p, s)
    ensures r.Ok? ==> !r.value.jumped
    ensures r.Ok? ==> s.output <= r.value.output
  {
    var t :- Exec(s, p.commands[s.ip]);
    if t.jumped then Ok(t.(jumped := false)) else Ok(t.(ip := t.ip + 1))
  }

  /** Steps until `ip` leaves the program, for at most `fuel` steps. */
  function Run(p: Program, s: State, fuel: nat): (r: Result<State, Fault>)
    ensures r.Ok? ==> !Running(p, r.value)
    ensures r.Ok? ==> s.output <= r.value.output
    ensures r == Err(StepLimitReached) ==> Running(p, s)
    decreases fuel
  {
    if !Running(p, s) then Ok(s)
    else if fuel == 0 then Err(StepLimitReached)
    else
      var t :- Step(p, s);
      Run(p, t, fuel - 1)
  }

  function Zeros(n: nat): (z: seq<int>)
  {
    seq(n, _ => 0)
  }

  /** All registers, flags and cells zero; empty stack and output. */
  const Initial: State :=
    State(0, 0, 0, 0, 0, 0, 0, 0, 0, 0, 0, Zeros(MemSize), [], false, [])

  /** Copies the starting memory image to addresses 0, 1, ... of the initial state. */
  function Install(image: seq<int>): (r: Result<State, Fault>)
    ensures r.Ok? <==> |image| <= MemSize
    ensures r.Ok? ==> forall a :: 0 <= a < |image| ==> r.value.memory[a] == image[a]
    ensures r.Ok? ==> forall a :: |image| <= a < MemSize ==> r.value.memory[a] == 0
    ensures r.Ok? ==> r.value == Initial.(memory := r.value.memory)
  {
    if |image| > MemSize then Err(AddressOutOfRange(MemSize))
    else Ok(Initial.(memory := image + Zeros(MemSize - |image|)))
  }

  /** The printed lines, one decimal numeral per `PRINT`, in order. */
  function Lines(out: seq<int>): (r: seq<string>)
  {
    seq(|out|, k requires 0 <= k < |out| => Text.SignedDecimal(out[k]))
  }

  /** Installs the image, runs the program within `fuel` steps and returns its output lines. */
  function Execute(p: Program, image: seq<int>, fuel: nat): (r: Result<seq<string>, Fault>)
    ensures |image| > MemSize ==> r == Err(AddressOutOfRange(MemSize))
    ensures r.Ok? ==> Install(image).Ok? && Run(p, Install(image).value, fuel).Ok?
    ensures r.Ok? ==> |r.value| == |Run(p, Install(image).value, fuel).value.output|
    ensures r.Ok? ==> forall k :: 0 <= k < |r.value| ==>
      r.value[k] == Text.SignedDecimal(Run(p, Install(image).value, fuel).value.output[k])
  {
    var s :- Install(image);
    var t :- Run(p, s, fuel);
    Ok(Lines(t.output))
  }
}
