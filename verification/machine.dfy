/**
 * The addressing model: the machine's registers and memory, the four kinds
 * of operand reference, and read/write access through a reference.
 */
module Machine {
  import opened Results

  /** Number of memory cells. */
  const MemSize: nat := 10000

  type Memory = m: seq<int> | |m| == MemSize witness seq(MemSize, _ => 0)

  /** The named register and flag slots, `ip` included. */
  datatype Reg = Eax | Ebx | Ecx | Edx | Eex | Efx | Ip | Af | Bf | Cf | Df

  /** Faults that stop execution. */
  datatype Fault =
    | ConstantWrite              // a write through a constant reference
    | AddressOutOfRange(addr: int)
    | StackUnderflow
    | DivisionByZero
    | StepLimitReached           // the run ran out of its step budget

  /** A storage location that can be written: one register or one memory cell. */
  datatype Cell = RegCell(reg: Reg) | MemCell(addr: nat)

  predicate ValidCell(c: Cell) {
    c.MemCell? ==> c.addr < MemSize
  }

  predicate InBounds(a: int) {
    0 <= a < MemSize
  }

  /** The complete machine state. */
  datatype State = State(
    eax: int, ebx: int, ecx: int, edx: int, eex: int, efx: int,
    ip: int,
    af: int, bf: int, cf: int, df: int,
    memory: Memory,
    stack: seq<int>,
    jumped: bool,
    output: seq<int>)
  {
    function Get(r: Reg): int {
      match r
      case Eax => eax
      case Ebx => ebx
      case Ecx => ecx
      case Edx => edx
      case Eex => eex
      case Efx => efx
      case Ip => ip
      case Af => af
      case Bf => bf
      case Cf => cf
      case Df => df
    }

    /** This state with register `r` set to `v`; every other slot is kept. */
    function With(r: Reg, v: int): (t: State)
      ensures t.Get(r) == v
      ensures forall q :: q != r ==> t.Get(q) == Get(q)
      ensures t.memory == memory && t.stack == stack
      ensures t.jumped == jumped && t.output == output
    {
      match r
      case Eax => this.(eax := v)
      case Ebx => this.(ebx := v)
      case Ecx => this.(ecx := v)
      case Edx => this.(edx := v)
      case Eex => this.(eex := v)
      case Efx => this.(efx := v)
      case Ip => this.(ip := v)
      case Af => this.(af := v)
      case Bf => this.(bf := v)
      case Cf => this.(cf := v)
      case Df => this.(df := v)
    }

    function Load(c: Cell): int
      requires ValidCell(c)
    {
      match c
      case RegCell(r) => Get(r)
      case MemCell(a) => memory[a]
    }

    /** Stores `v` into exactly the cell `c`; nothing else changes. */
    function Store(c: Cell, v: int): (t: State)
      requires ValidCell(c)
      ensures t.Load(c) == v
      ensures Confined(this, t, c)
    {
      match c
      case RegCell(r) => With(r, v)
      case MemCell(a) => this.(memory := memory[a := v])
    }
  }

  /** `t` differs from `s` at most in the cell `c`. */
  predicate Confined(s: State, t: State, c: Cell) {
    && t.stack == s.stack
    && t.output == s.output
    && t.jumped == s.jumped
    && (forall r: Reg :: RegCell(r) != c ==> t.Get(r) == s.Get(r))
    && (forall a :: 0 <= a < MemSize && MemCell(a) != c ==> t.memory[a] == s.memory[a])
  }

  /** An operand, resolved at assembly time. */
  datatype Ref =
    | Constant(value: int)        // 42
    | MemConstant(index: nat)     // [42]
    | RegPtr(reg: Reg)            // eax
    | MemRegPtr(reg: Reg)         // [eax]

  /** The value an operand denotes in state `s` (`rref`). */
  function Read(s: State, x: Ref): (r: Result<int, Fault>)
    ensures r.Err? ==> (x.MemConstant? || x.MemRegPtr?) && r.error.AddressOutOfRange?
    ensures x.Constant? ==> r == Ok(x.value)
    ensures x.RegPtr? ==> r == Ok(s.Get(x.reg))
    ensures x.MemConstant? ==> (r.Ok? <==> x.index < MemSize) && (r.Ok? ==> r.value == s.memory[x.index])
    ensures x.MemRegPtr? ==> (r.Ok? <==> InBounds(s.Get(x.reg))) && (r.Ok? ==> r.value == s.memory[s.Get(x.reg)])
  {
    match x
    case Constant(v) => Ok(v)
    case MemConstant(i) => if i < MemSize then Ok(s.memory[i]) else Err(AddressOutOfRange(i))
    case RegPtr(r) => Ok(s.Get(r))
    case MemRegPtr(r) =>
      var a := s.Get(r);
      if InBounds(a) then Ok(s.memory[a]) else Err(AddressOutOfRange(a))
  }

  /** The cell an operand designates for writing in state `s` (`wref`). */
  function Locate(s: State, x: Ref): (r: Result<Cell, Fault>)
    ensures r.Ok? ==> ValidCell(r.value)
    ensures x.Constant? <==> r == Err(ConstantWrite)
    ensures x.RegPtr? ==> r == Ok(RegCell(x.reg))
    ensures r.Ok? && r.value.MemCell? ==> x.MemConstant? || x.MemRegPtr?
  {
    match x
    case Constant(_) => Err(ConstantWrite)
    case MemConstant(i) => if i < MemSize then Ok(MemCell(i)) else Err(AddressOutOfRange(i))
    case RegPtr(r) => Ok(RegCell(r))
    case MemRegPtr(r) =>
      var a := s.Get(r);
      if InBounds(a) then Ok(MemCell(a)) else Err(AddressOutOfRange(a))
  }

  /** Assigns `v` through the operand `x` (`wref(x) = v`). */
  function Write(s: State, x: Ref, v: int): (r: Result<State, Fault>)
    ensures r.Ok? <==> Locate(s, x).Ok?
    ensures r.Ok? ==> Confined(s, r.value, Locate(s, x).value)
    ensures r.Ok? ==> r.value.Load(Locate(s, x).value) == v
  {
    var c :- Locate(s, x);
    Ok(s.Store(c, v))
  }
}
