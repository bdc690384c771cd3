/** Properties of reading and writing through references. */
module MachineLemmas {
  import opened Results
  import opened Machine

  /** A constant is never assignable, whatever its value and the state. */
  lemma WriteConstantFails(s: State, c: int, v: int)
    ensures Write(s, Constant(c), v) == Err(ConstantWrite)
  {
  }

  /** Reading a writable reference reads the very cell a write through it would change. */
  lemma ReadThroughCell(s: State, x: Ref)
    requires !x.Constant?
    ensures Read(s, x).Ok? <==> Locate(s, x).Ok?
    ensures Read(s, x).Ok? ==> Read(s, x).value == s.Load(Locate(s, x).value)
    ensures Read(s, x).Err? ==> Read(s, x).error == Locate(s, x).error
  {
  }

  /** `[reg]` reads the register first and then the memory cell it addresses. */
  lemma ReadIndirect(s: State, r: Reg)
    ensures InBounds(s.Get(r)) ==> Read(s, MemRegPtr(r)) == Read(s, MemConstant(s.Get(r)))
    ensures !InBounds(s.Get(r)) ==> Read(s, MemRegPtr(r)) == Err(AddressOutOfRange(s.Get(r)))
  {
  }

  /** Each writable kind designates exactly one cell: a register, a fixed cell, or the cell the register addresses. */
  lemma LocateKinds(s: State, x: Ref)
    ensures x.RegPtr? ==> Locate(s, x) == Ok(RegCell(x.reg))
    ensures x.MemConstant? ==> Locate(s, x) == (if x.index < MemSize then Ok(MemCell(x.index)) else Err(AddressOutOfRange(x.index)))
    ensures x.MemRegPtr? ==> Locate(s, x) == (if InBounds(s.Get(x.reg)) then Ok(MemCell(s.Get(x.reg))) else Err(AddressOutOfRange(s.Get(x.reg))))
  {
  }

  /** What was written through a reference is what reads back through it. */
  lemma ReadAfterWrite(s: State, x: Ref, v: int)
    requires Write(s, x, v).Ok?
    ensures Read(Write(s, x, v).value, x) == Ok(v)
  {
    var c := Locate(s, x).value;
    var t := Write(s, x, v).value;
    match x
    case MemRegPtr(r) =>
      assert c.MemCell? && RegCell(r) != c;
      assert t.Get(r) == s.Get(r);
    case _ =>
  }

  /** A write leaves every other reference's cell alone. */
  lemma WriteLeavesOtherCells(s: State, x: Ref, v: int, d: Cell)
    requires Write(s, x, v).Ok?
    requires ValidCell(d) && d != Locate(s, x).value
    ensures Write(s, x, v).value.Load(d) == s.Load(d)
  {
  }
}
