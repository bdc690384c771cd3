/**
 * The inverse of the assembler: an instruction printed back as a source
 * line, and the round trip from instructions to text and back.
 */
module Listing {
  import opened Results
  import opened Machine
  import opened Text
  import TextLemmas
  import opened Engine
  import opened Assembler
  import AssemblerLemmas
  import Seqs

  function RegName(r: Reg): string {
    match r
    case Eax => "eax"
    case Ebx => "ebx"
    case Ecx => "ecx"
    case Edx => "edx"
    case Eex => "eex"
    case Efx => "efx"
    case Ip => "ip"
    case Af => "af"
    case Bf => "bf"
    case Cf => "cf"
    case Df => "df"
  }

  function BiName(op: BiOp): string {
    match op
    case Mov => "MOV"
    case Add => "ADD"
    case Sub => "SUB"
    case Mul => "MUL"
    case Div => "DIV"
    case Mod => "MOD"
    case And => "AND"
    case Or => "OR"
    case Eq => "EQ"
    case Neq => "NEQ"
    case Less => "LESS"
    case Leq => "LEQ"
  }

  function UniName(op: UnOp): string {
    match op
    case Jump => "JUMP"
    case Jz => "JZ"
    case Jnz => "JNZ"
    case Push => "PUSH"
    case Pop => "POP"
    case Call => "CALL"
    case Inc => "INC"
    case Dec => "DEC"
    case Neg => "NEG"
    case Set => "SET"
    case Unset => "UNSET"
    case Not => "NOT"
    case Print => "PRINT"
  }

  /** The operand as source text. */
  function FormatRef(x: Ref): string {
    match x
    case Constant(v) => SignedDecimal(v)
    case MemConstant(i) => "[" + Decimal(i) + "]"
    case RegPtr(r) => RegName(r)
    case MemRegPtr(r) => "[" + RegName(r) + "]"
  }

  /** The words of an instruction's source line: mnemonic, then operands. */
  function Words(i: Instr): seq<string> {
    match i
    case Bi(op, x, y) => [BiName(op), FormatRef(x), FormatRef(y)]
    case Uni(op, x) => [UniName(op), FormatRef(x)]
    case Ret => ["RETURN"]
  }

  function FormatInstr(i: Instr): string {
    Unwords(Words(i))
  }

  /** One source line per instruction. */
  function Render(instrs: seq<Instr>): (lines: seq<string>)
    ensures |lines| == |instrs|
    ensures forall k :: 0 <= k < |instrs| ==> lines[k] == FormatInstr(instrs[k])
    decreases |instrs|
  {
    if |instrs| == 0 then [] else Render(instrs[..|instrs| - 1]) + [FormatInstr(instrs[|instrs| - 1])]
  }

  /** 0, 1, ..., n - 1. */
  function Indices(n: nat): (r: seq<nat>)
    ensures |r| == n && forall k :: 0 <= k < n ==> r[k] == k
  {
    if n == 0 then [] else Indices(n - 1) + [n - 1]
  }

  lemma RegNameRoundTrip(r: Reg)
    ensures RegName(r) in Registers && Registers[RegName(r)] == r
    ensures |RegName(r)| > 0 && AllLetters(RegName(r))
  {
  }

  lemma MnemonicRoundTrip(i: Instr)
    ensures i.Bi? ==> BiName(i.bop) in BiMethods && BiMethods[BiName(i.bop)] == i.bop
    ensures i.Uni? ==> UniName(i.uop) in UniMethods && UniMethods[UniName(i.uop)] == i.uop
    ensures i.Ret? ==> "RETURN" in NullMethods && NullMethods["RETURN"] == Ret
  {
    if i.Bi? {
      BiNameRoundTrip(i.bop);
    } else if i.Uni? {
      UniNameRoundTrip(i.uop);
    }
  }

  lemma BiNameRoundTrip(op: BiOp)
    ensures BiName(op) in BiMethods && BiMethods[BiName(op)] == op
  {
  }

  lemma UniNameRoundTrip(op: UnOp)
    ensures UniName(op) in UniMethods && UniMethods[UniName(op)] == op
  {
  }

  /** A bracketed digit string is the memory cell it spells. */
  lemma ParseBracketDigits(labels: map<string, nat>, d: string)
    requires AllDigits(d)
    ensures ParseArgument(labels, "[" + d + "]") == Ok(MemConstant(DigitsValue(d)))
  {
    var t := "[" + d + "]";
    assert t[1..|t| - 1] == d;
    assert t[1..|t| - 1 - 0] == d;
    assert !IsLabel(t) && !IsNumber(t) && IsNumberBr(t);
    assert StringToInt(t, 1, 1) == DigitsValue(d);
  }

  /** A bracketed register name is the indirect reference through that register. */
  lemma ParseBracketRegister(labels: map<string, nat>, r: Reg)
    ensures ParseArgument(labels, "[" + RegName(r) + "]") == Ok(MemRegPtr(r))
  {
    var name := RegName(r);
    RegNameRoundTrip(r);
    var t := "[" + name + "]";
    assert t[1..|t| - 1] == name;
    assert !IsDigit(t[1]);
    assert !IsLabel(t) && !IsNumber(t) && !IsNumberBr(t) && !IsWord(t) && IsWordBr(t);
  }

  lemma ParseRegister(labels: map<string, nat>, r: Reg)
    ensures ParseArgument(labels, RegName(r)) == Ok(RegPtr(r))
  {
    RegNameRoundTrip(r);
  }

  /** A constant prints as its signed numeral, which reads back as the constant. */
  lemma NegativeDecimal(v: int)
    requires v < 0
    ensures |SignedDecimal(v)| >= 2 && SignedDecimal(v)[0] == '-' && SignedDecimal(v)[1..] == Decimal(-v)
  {
  }

  /** Every output line of a finished execution reads back, as an operand, as exactly the value that was printed. */
  lemma ExecuteReadsBack(p: Program, image: seq<int>, fuel: nat, labels: map<string, nat>)
    requires Execute(p, image, fuel).Ok?
    ensures var lines := Execute(p, image, fuel).value;
      var out := Run(p, Install(image).value, fuel).value.output;
      |lines| == |out| && forall k :: 0 <= k < |lines| ==> ParseArgument(labels, lines[k]) == Ok(Constant(out[k]))
  {
    var lines := Execute(p, image, fuel).value;
    var out := Run(p, Install(image).value, fuel).value.output;
    forall k | 0 <= k < |lines|
      ensures ParseArgument(labels, lines[k]) == Ok(Constant(out[k]))
    {
      ParseConstant(labels, out[k]);
    }
  }

  lemma ParseConstant(labels: map<string, nat>, v: int)
    ensures ParseArgument(labels, SignedDecimal(v)) == Ok(Constant(v))
  {
    if v < 0 {
      ParseNegativeConstant(labels, v);
    } else {
      TextLemmas.DecimalValue(v);
      AssemblerLemmas.ParseDigits(labels, Decimal(v));
    }
  }

  lemma ParseNegativeConstant(labels: map<string, nat>, v: int)
    requires v < 0
    ensures ParseArgument(labels, SignedDecimal(v)) == Ok(Constant(v))
  {
    var t := SignedDecimal(v);
    NegativeDecimal(v);
    TextLemmas.DecimalValue(-v);
    assert DigitsValue(t[1..]) == -v;
    AssemblerLemmas.ParseNegativeDigits(labels, t);
  }

  lemma DigitsAreToken(d: string)
    requires |d| > 0 && AllDigits(d)
    ensures IsToken(d)
  {
    forall i | 0 <= i < |d|
      ensures !IsSpace(d[i])
    {
      assert IsDigit(d[i]);
    }
  }

  lemma FormatRefIsToken(x: Ref)
    ensures IsToken(FormatRef(x))
  {
    match x
    case Constant(v) =>
      if v < 0 {
        DigitsAreToken(Decimal(-v));
        SignToken(Decimal(-v));
      } else {
        DigitsAreToken(Decimal(v));
      }
    case MemConstant(i) =>
      DigitsAreToken(Decimal(i));
      BracketToken(Decimal(i));
    case RegPtr(r) =>
    case MemRegPtr(r) =>
      BracketToken(RegName(r));
  }

  lemma SignToken(w: string)
    requires IsToken(w)
    ensures IsToken("-" + w)
  {
    var t := "-" + w;
    assert forall k :: 1 <= k < |t| ==> t[k] == w[k - 1];
  }

  lemma BracketToken(w: string)
    requires forall k :: 0 <= k < |w| ==> !IsSpace(w[k])
    ensures IsToken("[" + w + "]")
  {
    var t := "[" + w + "]";
    assert forall k :: 1 <= k < |t| - 1 ==> t[k] == w[k - 1];
  }

  /** Every operand prints as one word that resolves back to it, whatever the label table. */
  lemma FormatRefParses(labels: map<string, nat>, x: Ref)
    ensures IsToken(FormatRef(x))
    ensures ParseArgument(labels, FormatRef(x)) == Ok(x)
  {
    FormatRefIsToken(x);
    match x
    case Constant(v) =>
      ParseConstant(labels, v);
    case MemConstant(i) =>
      TextLemmas.DecimalValue(i);
      ParseBracketDigits(labels, Decimal(i));
    case RegPtr(r) =>
      ParseRegister(labels, r);
    case MemRegPtr(r) =>
      ParseBracketRegister(labels, r);
  }

  /** The last character, which decides label shape and the carriage-return strip. */
  predicate PlainEnd(w: string) {
    |w| > 0 && w[|w| - 1] != ':' && w[|w| - 1] != '\r'
  }

  lemma FormatRefPlainEnd(x: Ref)
    ensures PlainEnd(FormatRef(x))
  {
    match x
    case Constant(v) =>
      var d := Decimal(if v < 0 then -v else v);
      assert FormatRef(x)[|FormatRef(x)| - 1] == d[|d| - 1];
      assert IsDigit(d[|d| - 1]);
    case MemConstant(i) =>
    case RegPtr(r) =>
    case MemRegPtr(r) =>
  }

  lemma {:induction false} UnwordsEnd(ws: seq<string>)
    requires |ws| > 0 && forall k :: 0 <= k < |ws| ==> |ws[k]| > 0
    ensures |Unwords(ws)| > 0
    ensures Unwords(ws)[|Unwords(ws)| - 1] == ws[|ws| - 1][|ws[|ws| - 1]| - 1]
    decreases |ws|
  {
    if |ws| > 1 {
      UnwordsEnd(ws[1..]);
    }
  }

  lemma MnemonicIsToken(i: Instr)
    ensures IsToken(Words(i)[0])
  {
    match i
    case Bi(op, _, _) =>
      BiNameUpper(op);
      UpperIsToken(BiName(op));
    case Uni(op, _) =>
      UniNameUpper(op);
      UpperIsToken(UniName(op));
    case Ret =>
      assert Upper("RETURN");
      UpperIsToken("RETURN");
  }

  lemma UpperIsToken(m: string)
    requires Upper(m)
    ensures IsToken(m)
  {
    forall k | 0 <= k < |m|
      ensures !IsSpace(m[k])
    {
      assert 'A' <= m[k] <= 'Z';
    }
  }

  /** Upper-case ASCII letters only. */
  predicate Upper(m: string) {
    |m| > 0 && forall k :: 0 <= k < |m| ==> 'A' <= m[k] <= 'Z'
  }

  lemma BiNameUpper(op: BiOp)
    ensures Upper(BiName(op))
  {
  }

  lemma UniNameUpper(op: UnOp)
    ensures Upper(UniName(op))
  {
  }

  lemma WordsShaped(i: Instr)
    ensures Shaped(Words(i))
    ensures PlainEnd(Words(i)[|Words(i)| - 1])
  {
    MnemonicIsToken(i);
    MnemonicRoundTrip(i);
    match i
    case Bi(op, x, y) =>
      FormatRefIsToken(x);
      FormatRefIsToken(y);
      FormatRefPlainEnd(y);
    case Uni(op, x) =>
      FormatRefIsToken(x);
      FormatRefPlainEnd(x);
    case Ret =>
  }

  /** A printed instruction is a well-formed instruction line whose words are its mnemonic and operands. */
  lemma FormatInstrLine(i: Instr)
    ensures Tokenize(FormatInstr(i)) == Words(i)
    ensures Shaped(Words(i))
    ensures |FormatInstr(i)| > 0 && !IsLabel(FormatInstr(i))
    ensures StripCR(FormatInstr(i)) == FormatInstr(i)
  {
    var ws := Words(i);
    WordsShaped(i);
    TextLemmas.TokenizeUnwords(ws);
    UnwordsEnd(ws);
  }

  /** The words of an instruction resolve back to it, whatever the label table. */
  lemma ResolveWords(labels: map<string, nat>, i: Instr)
    ensures Shaped(Words(i))
    ensures Resolve(labels, Words(i)) == Ok(i)
  {
    WordsShaped(i);
    MnemonicRoundTrip(i);
    match i
    case Bi(op, x, y) =>
      FormatRefParses(labels, x);
      FormatRefParses(labels, y);
    case Uni(op, x) =>
      FormatRefParses(labels, x);
    case Ret =>
  }

  /** The words of each line, in order. */
  function TokensOf(lines: seq<string>): (r: seq<seq<string>>)
    ensures |r| == |lines| && forall k :: 0 <= k < |lines| ==> r[k] == Tokenize(lines[k])
    decreases |lines|
  {
    if |lines| == 0 then [] else TokensOf(lines[..|lines| - 1]) + [Tokenize(lines[|lines| - 1])]
  }

  /** The line is a well-formed instruction line: not blank, not a label, no carriage return, right arity. */
  predicate InstrText(l: string) {
    |l| > 0 && !IsLabel(l) && StripCR(l) == l && Accepted(Tokenize(l))
  }

  /** Lines that are all well-formed instructions scan to one instruction each, with no labels. */
  lemma {:induction false} ScanInstructionLines(lines: seq<string>)
    requires forall j :: 0 <= j < |lines| ==> InstrText(lines[j])
    ensures Scan(lines) == Ok(ScanState(lines, map[], TokensOf(lines), Indices(|lines|)))
    decreases |lines|
  {
    if |lines| > 0 {
      var n := |lines| - 1;
      var pre := lines[..n];
      assert forall j :: 0 <= j < |pre| ==> pre[j] == lines[j];
      ScanInstructionLines(pre);
      ScanInstructionExtend(pre, lines[n]);
      Seqs.LastSplit(lines);
    }
  }

  /** One more instruction line extends the words and the identity line map. */
  lemma ScanInstructionExtend(pre: seq<string>, line: string)
    requires Scan(pre) == Ok(ScanState(pre, map[], TokensOf(pre), Indices(|pre|)))
    requires InstrText(line)
    ensures Scan(pre + [line]) == Ok(ScanState(pre + [line], map[], TokensOf(pre + [line]), Indices(|pre| + 1)))
  {
    var st := ScanState(pre, map[], TokensOf(pre), Indices(|pre|));
    ScanSnoc(pre, line, st);
    ScanInstructionLine(st, line);
    assert (pre + [line])[..|pre|] == pre;
    assert TokensOf(pre + [line]) == TokensOf(pre) + [Tokenize(line)];
    assert Indices(|pre| + 1) == Indices(|pre|) + [|pre|];
  }

  /** An instruction line adds its words and its line index, and binds no label. */
  lemma ScanInstructionLine(st: ScanState, line: string)
    requires InstrText(line)
    ensures ScanLine(st, line) == Ok(st.(code := st.code + [line], tokens := st.tokens + [Tokenize(line)],
                                         commandToLine := st.commandToLine + [|st.code|]))
  {
  }

  /** Word lists of instructions resolve to those instructions. */
  lemma {:induction false} ResolveAllWords(labels: map<string, nat>, tokss: seq<seq<string>>, instrs: seq<Instr>)
    requires |tokss| == |instrs| && forall k :: 0 <= k < |instrs| ==> tokss[k] == Words(instrs[k])
    ensures forall k :: 0 <= k < |tokss| ==> Shaped(tokss[k])
    ensures ResolveAll(labels, tokss) == Ok(instrs)
    decreases |tokss|
  {
    forall k | 0 <= k < |tokss|
      ensures Shaped(tokss[k])
    {
      WordsShaped(instrs[k]);
    }
    if |tokss| > 0 {
      ResolveWords(labels, instrs[0]);
      MnemonicNotLabel(tokss[0][0]);
      ResolveAllWords(labels, tokss[1..], instrs[1..]);
      Seqs.FirstSplit(instrs);
    }
  }

  /** Assembling a printed program gives back its instructions, one per line, with no labels. */
  lemma AssembleRender(instrs: seq<Instr>)
    ensures Assemble(Render(instrs)) == Ok(Program(Render(instrs), instrs, map[], Indices(|instrs|)))
  {
    var lines := Render(instrs);
    forall j | 0 <= j < |lines|
      ensures InstrText(lines[j])
    {
      FormatInstrLine(instrs[j]);
    }
    ScanInstructionLines(lines);
    var tokss := TokensOf(lines);
    forall k | 0 <= k < |instrs|
      ensures tokss[k] == Words(instrs[k])
    {
      FormatInstrLine(instrs[k]);
    }
    ResolveAllWords(map[], tokss, instrs);
    AssembleFrom(lines, ScanState(lines, map[], tokss, Indices(|lines|)), instrs);
  }

  /** Assembling is scanning, then resolving the scanned lines. */
  lemma AssembleFrom(lines: seq<string>, st: ScanState, instrs: seq<Instr>)
    requires Scan(lines) == Ok(st)
    requires forall k :: 0 <= k < |st.tokens| ==> Shaped(st.tokens[k])
    requires ResolveAll(st.labels, st.tokens) == Ok(instrs)
    ensures Assemble(lines) == Ok(Program(st.code, instrs, st.labels, st.commandToLine))
  {
  }
}
