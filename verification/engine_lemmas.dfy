/** Properties of the instruction semantics, the step and the run loop. */
module EngineLemmas {
  import opened Results
  import opened Machine
  import opened Engine
  import MachineLemmas

  /** `TruncDiv`/`TruncMod` are C++ division: the quotient rounds toward zero and the remainder takes the dividend's sign. */
  lemma TruncDivMod(a: int, b: int)
    requires b != 0
    ensures a == b * TruncDiv(a, b) + TruncMod(a, b)
    ensures Abs(TruncMod(a, b)) < Abs(b)
    ensures TruncMod(a, b) != 0 ==> (TruncMod(a, b) < 0 <==> a < 0)
    ensures Abs(TruncDiv(a, b)) == Abs(a) / Abs(b)
  {
    DivModFacts(Abs(a), Abs(b));
  }

  /** Where truncating and Dafny's Euclidean operators part ways. */
  lemma TruncDiffersFromEuclid()
    ensures TruncDiv(-7, 2) == -3 && -7 / 2 == -4
    ensures TruncMod(-7, 2) == -1 && -7 % 2 == 1
    ensures TruncDiv(7, -2) == -3 && TruncMod(7, -2) == 1
  {
  }

  /** Arithmetic reads both operands and writes only `eax`; `DIV`/`MOD` by zero trap. */
  lemma ArithWritesOnlyEax(s: State, op: BiOp, x: Ref, y: Ref, a: int, b: int)
    requires IsArith(op)
    requires Read(s, x) == Ok(a) && Read(s, y) == Ok(b)
    ensures Exec(s, Bi(op, x, y)).Err? <==> (op.Div? || op.Mod?) && b == 0
    ensures Exec(s, Bi(op, x, y)).Err? ==> Exec(s, Bi(op, x, y)).error == DivisionByZero
    ensures Exec(s, Bi(op, x, y)).Ok? ==>
      var t := Exec(s, Bi(op, x, y)).value;
      && Confined(s, t, RegCell(Eax))
      && (op.Add? ==> t.eax == a + b)
      && (op.Sub? ==> t.eax == a - b)
      && (op.Mul? ==> t.eax == a * b)
      && (op.Div? ==> t.eax == TruncDiv(a, b))
      && (op.Mod? ==> t.eax == TruncMod(a, b))
  {
    var r := Exec(s, Bi(op, x, y));
    if r.Ok? {
      var v := Arith(op, a, b).value;
      assert r.value == s.With(Eax, v);
      assert s.Store(RegCell(Eax), v) == s.With(Eax, v);
    }
  }

  /** C truthiness of the logical operations. */
  predicate Truth(op: BiOp, a: int, b: int)
    requires IsLogic(op)
  {
    match op
    case And => a != 0 && b != 0
    case Or => a != 0 || b != 0
    case Eq => a == b
    case Neq => a != b
    case Less => a < b
    case Leq => a <= b
  }

  /** Logical operations write only `af`, always 0 or 1, and 1 exactly when the relation holds. */
  lemma LogicWritesOnlyAf(s: State, op: BiOp, x: Ref, y: Ref, a: int, b: int)
    requires IsLogic(op)
    requires Read(s, x) == Ok(a) && Read(s, y) == Ok(b)
    ensures Exec(s, Bi(op, x, y)).Ok?
    ensures var t := Exec(s, Bi(op, x, y)).value;
      && Confined(s, t, RegCell(Af))
      && (t.af == 0 || t.af == 1)
      && (t.af == 1 <==> Truth(op, a, b))
  {
    var t := Exec(s, Bi(op, x, y)).value;
    assert t == s.With(Af, t.af);
    assert s.Store(RegCell(Af), t.af) == s.With(Af, t.af);
  }

  /** `AND` with a false first operand and `OR` with a true one never read the second. */
  lemma LogicShortCircuits(s: State, x: Ref, y: Ref, a: int)
    requires Read(s, x) == Ok(a)
    ensures a == 0 ==> Exec(s, Bi(And, x, y)) == Ok(s.With(Af, 0))
    ensures a != 0 ==> Exec(s, Bi(Or, x, y)) == Ok(s.With(Af, 1))
  {
  }

  /** `NOT` writes only `af`: 1 exactly when its operand is zero. */
  lemma NotWritesOnlyAf(s: State, x: Ref, a: int)
    requires Read(s, x) == Ok(a)
    ensures Exec(s, Uni(Not, x)).Ok?
    ensures var t := Exec(s, Uni(Not, x)).value;
      Confined(s, t, RegCell(Af)) && (t.af == 1 <==> a == 0) && (t.af == 0 || t.af == 1)
  {
    var t := Exec(s, Uni(Not, x)).value;
    assert s.Store(RegCell(Af), t.af) == s.With(Af, t.af);
  }

  /** The operations that change their own operand in place. */
  predicate InPlace(op: UnOp) {
    op.Inc? || op.Dec? || op.Neg? || op.Set? || op.Unset?
  }

  /** The new content of the operand cell. */
  function Updated(op: UnOp, old_: int): int
    requires InPlace(op)
  {
    match op
    case Inc => old_ + 1
    case Dec => old_ - 1
    case Neg => -old_
    case Set => 1
    case Unset => 0
  }

  /** `INC`/`DEC`/`NEG`/`SET`/`UNSET` change their one operand cell and nothing else; they fail exactly as resolving it fails. */
  lemma InPlaceWritesOnlyOperand(s: State, op: UnOp, x: Ref)
    requires InPlace(op)
    ensures Locate(s, x).Err? ==> Exec(s, Uni(op, x)) == Err(Locate(s, x).error)
    ensures Locate(s, x).Ok? ==>
      var c := Locate(s, x).value;
      && Exec(s, Uni(op, x)).Ok?
      && Confined(s, Exec(s, Uni(op, x)).value, c)
      && Exec(s, Uni(op, x)).value.Load(c) == Updated(op, s.Load(c))
  {
    if !x.Constant? {
      MachineLemmas.ReadThroughCell(s, x);
    }
  }

  /** `MOV` stores the source's value through the destination and changes nothing else. */
  lemma MovCopies(s: State, x: Ref, y: Ref, v: int)
    requires Read(s, y) == Ok(v)
    ensures Exec(s, Bi(Mov, x, y)) == Write(s, x, v)
    ensures Exec(s, Bi(Mov, x, y)).Ok? ==> Read(Exec(s, Bi(Mov, x, y)).value, x) == Ok(v)
  {
    if Write(s, x, v).Ok? {
      MachineLemmas.ReadAfterWrite(s, x, v);
    }
  }

  /** `POP` and `RETURN` on an empty stack are errors. */
  lemma EmptyStackFails(s: State, x: Ref)
    requires |s.stack| == 0
    ensures Exec(s, Uni(Pop, x)) == Err(StackUnderflow)
    ensures Exec(s, Ret) == Err(StackUnderflow)
  {
  }

  /** `PRINT` succeeds exactly when its operand reads, and then appends exactly that value and changes nothing else. */
  lemma PrintAppends(s: State, x: Ref)
    ensures Exec(s, Uni(Print, x)).Ok? <==> Read(s, x).Ok?
    ensures Read(s, x).Ok? ==> Exec(s, Uni(Print, x)) == Ok(s.(output := s.output + [Read(s, x).value]))
    ensures Read(s, x).Err? ==> Exec(s, Uni(Print, x)) == Err(Read(s, x).error)
  {
  }

  /** The instruction transfers control in state `s`. */
  predicate Taken(s: State, i: Instr) {
    && i.Uni?
    && (i.uop.Jump? || i.uop.Call? || (i.uop.Jz? && s.af != 0) || (i.uop.Jnz? && s.af == 0))
  }

  /** The instruction assigns `ip` without jumping: `RETURN`, or a write whose destination is the `ip` register. */
  predicate WritesIp(i: Instr) {
    || i.Ret?
    || (i.Bi? && i.bop.Mov? && i.x == RegPtr(Ip))
    || (i.Uni? && (i.uop.Pop? || InPlace(i.uop)) && i.x == RegPtr(Ip))
  }

  /** Instructions that neither jump nor write `ip` leave `ip` and `jumped` alone. */
  lemma ExecKeepsIp(s: State, i: Instr)
    requires Exec(s, i).Ok?
    requires !Taken(s, i) && !WritesIp(i)
    ensures Exec(s, i).value.ip == s.ip
    ensures Exec(s, i).value.jumped == s.jumped
  {
    var t := Exec(s, i).value;
    match i
    case Bi(op, x, y) =>
      if op.Mov? {
        assert Locate(s, x).value != RegCell(Ip);
      }
    case Uni(op, x) =>
      if op.Pop? {
        assert Locate(s, x).value != RegCell(Ip);
      } else if InPlace(op) {
        InPlaceWritesOnlyOperand(s, op, x);
        assert Locate(s, x).value != RegCell(Ip);
      }
    case Ret =>
  }

  /**
   * After a step `jumped` is clear; a taken jump leaves `ip` at its target;
   * an instruction that neither jumps nor writes `ip` advances it by one;
   * `RETURN` resumes one past the popped address.
   */
  lemma StepIpDiscipline(p: Program, s: State)
    requires Running(p, s) && !s.jumped
    requires Step(p, s).Ok?
    ensures !Step(p, s).value.jumped
    ensures Taken(s, p.commands[s.ip]) ==>
      Read(s, p.commands[s.ip].x).Ok? && Step(p, s).value.ip == Read(s, p.commands[s.ip].x).value
    ensures !Taken(s, p.commands[s.ip]) && !WritesIp(p.commands[s.ip]) ==> Step(p, s).value.ip == s.ip + 1
    ensures p.commands[s.ip].Ret? ==> Step(p, s).value.ip == s.stack[|s.stack| - 1] + 1
  {
    var i := p.commands[s.ip];
    if !Taken(s, i) && !WritesIp(i) {
      ExecKeepsIp(s, i);
    }
  }

  /** Conditional jumps: `JZ` jumps exactly when `af` is non-zero, `JNZ` exactly when it is zero. */
  lemma ConditionalJumps(s: State, x: Ref, target: int)
    requires Read(s, x) == Ok(target)
    ensures Exec(s, Uni(Jz, x)) == (if s.af != 0 then Ok(s.(ip := target, jumped := true)) else Ok(s))
    ensures Exec(s, Uni(Jnz, x)) == (if s.af == 0 then Ok(s.(ip := target, jumped := true)) else Ok(s))
  {
  }

  /** `MOV ip v` is not a jump: the step adds one to the value written. */
  lemma MovIpIsNotAJump(p: Program, s: State, y: Ref, v: int)
    requires Running(p, s) && !s.jumped
    requires p.commands[s.ip] == Bi(Mov, RegPtr(Ip), y)
    requires Read(s, y) == Ok(v)
    ensures Step(p, s).Ok? && Step(p, s).value.ip == v + 1
  {
  }

  /**
   * `CALL` pushes its own address and jumps; a later `RETURN` that finds the
   * same stack resumes right after the `CALL` with the stack as before.
   */
  lemma CallThenReturn(p: Program, s: State, u: State)
    requires Running(p, s) && !s.jumped && p.commands[s.ip].Uni? && p.commands[s.ip].uop.Call?
    requires Step(p, s).Ok?
    requires Running(p, u) && !u.jumped && p.commands[u.ip].Ret?
    requires u.stack == Step(p, s).value.stack
    ensures Step(p, s).value.stack == s.stack + [s.ip]
    ensures Step(p, s).value.ip == Read(s, p.commands[s.ip].x).value
    ensures Step(p, u).Ok?
    ensures Step(p, u).value.ip == s.ip + 1
    ensures Step(p, u).value.stack == s.stack
  {
    assert u.stack[..|u.stack| - 1] == s.stack;
  }

  /**
   * `PUSH x` then `POP y` (with `y` not the `ip` register) leaves in `y`'s
   * cell the value `x` had, and the stack as it was.
   */
  lemma PushThenPop(p: Program, s: State)
    requires Running(p, s) && !s.jumped && p.commands[s.ip].Uni? && p.commands[s.ip].uop.Push?
    requires Step(p, s).Ok?
    requires Running(p, Step(p, s).value)
    requires var s1 := Step(p, s).value;
      p.commands[s1.ip].Uni? && p.commands[s1.ip].uop.Pop? && p.commands[s1.ip].x != RegPtr(Ip)
    requires Step(p, Step(p, s).value).Ok?
    ensures var s1 := Step(p, s).value;
      var s2 := Step(p, s1).value;
      && s1.ip == s.ip + 1
      && s2.stack == s.stack
      && Locate(s1, p.commands[s1.ip].x).Ok?
      && s2.Load(Locate(s1, p.commands[s1.ip].x).value) == Read(s, p.commands[s.ip].x).value
  {
    var s1 := Step(p, s).value;
    var v := Read(s, p.commands[s.ip].x).value;
    assert s1 == s.(stack := s.stack + [v], ip := s.ip + 1);
    var y := p.commands[s1.ip].x;
    var c := Locate(s1, y).value;
    assert c != RegCell(Ip);
    assert s1.stack[|s1.stack| - 1] == v;
    assert s1.stack[..|s1.stack| - 1] == s.stack;
  }

  /** More fuel never changes a finished run. */
  lemma {:induction false} RunFuelMonotone(p: Program, s: State, f: nat, g: nat)
    requires f <= g
    requires Run(p, s, f).Ok?
    ensures Run(p, s, g) == Run(p, s, f)
    decreases f
  {
    if Running(p, s) {
      RunUnfold(p, s, f);
      RunUnfold(p, s, g);
      RunFuelMonotone(p, Step(p, s).value, f - 1, g - 1);
    }
  }

  /** One step of a run that is still going: a finished run took a successful step and then finished from there. */
  lemma RunUnfold(p: Program, s: State, fuel: nat)
    requires Running(p, s) && fuel > 0
    ensures Run(p, s, fuel).Ok? ==> Step(p, s).Ok?
    ensures Step(p, s).Ok? ==> Run(p, s, fuel) == Run(p, Step(p, s).value, fuel - 1)
  {
  }

  /** A finished run that starts with `jumped` clear also ends with it clear. */
  lemma {:induction false} RunEndsUnjumped(p: Program, s: State, fuel: nat)
    requires Run(p, s, fuel).Ok?
    requires !s.jumped
    ensures !Run(p, s, fuel).value.jumped
    decreases fuel
  {
    if Running(p, s) {
      RunEndsUnjumped(p, Step(p, s).value, fuel - 1);
    }
  }
}
