/** Properties of operand classification and of the scan pass. */
module AssemblerLemmas {
  import opened Results
  import opened Machine
  import opened Text
  import opened Engine
  import opened Assembler

  /**
   * The operand shapes are disjoint except for `[]`, which is both a bracketed
   * number and a bracketed word; the try-order makes it the memory cell 0.
   */
  lemma ShapesDisjoint(t: string)
    requires |t| > 0
    ensures IsLabel(t) ==> !IsNumber(t) && !IsNumberBr(t) && !IsWord(t) && !IsWordBr(t)
    ensures IsNumber(t) ==> !IsNumberBr(t) && !IsWord(t) && !IsWordBr(t)
    ensures IsWord(t) ==> !IsNumberBr(t) && !IsWordBr(t)
    ensures IsNumberBr(t) && IsWordBr(t) <==> t == "[]"
  {
    if IsLabel(t) {
      assert !IsLetter(t[|t| - 1]);
    }
    if IsNumber(t) {
      assert !IsLetter(t[0]);
    }
    if IsNumberBr(t) && |t| > 2 {
      assert IsDigit(t[1]) && !IsLetter(t[1]);
    }
  }

  /** The edge cases of the grammar: a lone `-` is the number 0, `[]` is cell 0, `:` is a label. */
  lemma GrammarEdgeCases(labels: map<string, nat>)
    ensures ParseArgument(labels, "-") == Ok(Constant(0))
    ensures ParseArgument(labels, "[]") == Ok(MemConstant(0))
    ensures ParseArgument(labels, ":") == if ":" in labels then Ok(Constant(labels[":"])) else Err(UnknownLabel(":"))
  {
    assert "-"[1..] == "";
    assert "[]"[1..1] == "";
    assert ":"[..0] == "";
  }

  /** A label token is tried first: it is the index bound to it, or an unknown-label error. */
  lemma ParseLabel(labels: map<string, nat>, t: string)
    requires IsLabel(t)
    ensures t in labels ==> ParseArgument(labels, t) == Ok(Constant(labels[t]))
    ensures t !in labels ==> ParseArgument(labels, t) == Err(UnknownLabel(t))
  {
  }

  /** A digit string is the decimal constant it spells. */
  lemma ParseDigits(labels: map<string, nat>, d: string)
    requires |d| > 0 && AllDigits(d)
    ensures ParseArgument(labels, d) == Ok(Constant(DigitsValue(d)))
  {
    assert !IsLabel(d) by {
      assert IsDigit(d[|d| - 1]);
    }
    assert IsNumber(d);
    assert d[0..|d|] == d;
    assert StringToInt(d, 0, 0) == DigitsValue(d);
  }

  /** A `-` followed by a digit string is the negated constant. */
  lemma ParseNegativeDigits(labels: map<string, nat>, t: string)
    requires |t| >= 2 && t[0] == '-' && AllDigits(t[1..])
    ensures ParseArgument(labels, t) == Ok(Constant(-DigitsValue(t[1..])))
  {
    NegativeNumeral(t);
    NumberBranch(labels, t);
  }

  /** A number token that is not a label resolves through the number branch. */
  lemma NumberBranch(labels: map<string, nat>, t: string)
    requires IsNumber(t) && !IsLabel(t)
    ensures ParseArgument(labels, t) == Ok(Constant(StringToInt(t, 0, 0)))
  {
  }

  lemma NegativeNumeral(t: string)
    requires |t| >= 2 && t[0] == '-' && AllDigits(t[1..])
    ensures !IsLabel(t) && IsNumber(t)
    ensures StringToInt(t, 0, 0) == -DigitsValue(t[1..])
  {
    assert t[1..|t| - 0] == t[1..];
    assert t[|t| - 1] == t[1..][|t| - 2];
  }

  /** Operand classification succeeds exactly for a known label, a number, a cell address, or a known register, direct or bracketed. */
  lemma ParseArgumentSucceeds(labels: map<string, nat>, t: string)
    requires |t| > 0
    ensures ParseArgument(labels, t).Ok? <==>
      || (IsLabel(t) && t in labels)
      || IsNumber(t)
      || IsNumberBr(t)
      || (IsWord(t) && t in Registers)
      || (IsWordBr(t) && t[1..|t| - 1] in Registers)
    ensures ParseArgument(labels, t).Err? ==>
      var e := ParseArgument(labels, t).error;
      || (e == UnknownLabel(t) && IsLabel(t))
      || (e == UnknownRegister(t) && IsWord(t))
      || (IsWordBr(t) && e == UnknownRegister(t[1..|t| - 1]))
      || (e == UnknownOperand(t) && !IsLabel(t) && !IsNumber(t) && !IsNumberBr(t) && !IsWord(t) && !IsWordBr(t))
  {
    ShapesDisjoint(t);
  }

  /** The line is blank, a label, or an instruction with the right operand count. */
  predicate LineOk(l: string) {
    |l| == 0 || IsLabel(l) || Accepted(Tokenize(l))
  }

  /** Scanning one line fails exactly on a malformed line, and then names it. */
  lemma ScanLineOk(st: ScanState, raw: string)
    ensures ScanLine(st, raw).Ok? <==> LineOk(StripCR(raw))
    ensures ScanLine(st, raw).Err? ==> ScanLine(st, raw).error == InvalidCommand(StripCR(raw))
  {
  }

  /** The scan pass succeeds exactly when every line is blank, a label, or a well-formed instruction. */
  lemma {:induction false} ScanAcceptsIff(lines: seq<string>)
    ensures Scan(lines).Ok? <==> forall j :: 0 <= j < |lines| ==> LineOk(StripCR(lines[j]))
    decreases |lines|
  {
    if |lines| > 0 {
      var n := |lines| - 1;
      var pre := lines[..n];
      ScanAcceptsIff(pre);
      if Scan(pre).Ok? {
        ScanLineOk(Scan(pre).value, lines[n]);
      }
      AllLinesOkLast(lines, pre);
    }
  }

  /** Every line is well-formed exactly when all but the last are and the last is. */
  lemma AllLinesOkLast(lines: seq<string>, pre: seq<string>)
    requires |lines| > 0 && pre == lines[..|lines| - 1]
    ensures (forall j :: 0 <= j < |lines| ==> LineOk(StripCR(lines[j]))) <==>
      (forall j :: 0 <= j < |pre| ==> LineOk(StripCR(pre[j]))) && LineOk(StripCR(lines[|lines| - 1]))
  {
    assert forall j :: 0 <= j < |pre| ==> pre[j] == lines[j];
  }

  /** A failing scan names the first malformed line. */
  lemma {:induction false} ScanFirstError(lines: seq<string>)
    requires Scan(lines).Err?
    ensures exists j :: (0 <= j < |lines|
      && Scan(lines).error == InvalidCommand(StripCR(lines[j]))
      && !LineOk(StripCR(lines[j]))
      && forall i :: 0 <= i < j ==> LineOk(StripCR(lines[i])))
    decreases |lines|
  {
    var n := |lines| - 1;
    var pre := lines[..n];
    var j: nat;
    if Scan(pre).Err? {
      ScanFirstError(pre);
      j :| 0 <= j < |pre|
        && Scan(pre).error == InvalidCommand(StripCR(pre[j]))
        && !LineOk(StripCR(pre[j]))
        && forall i :: 0 <= i < j ==> LineOk(StripCR(pre[i]));
      assert Scan(lines) == Err(Scan(pre).error);
      assert lines[j] == pre[j];
      assert forall i :: 0 <= i < j ==> lines[i] == pre[i];
    } else {
      j := n;
      assert Scan(lines) == ScanLine(Scan(pre).value, lines[n]);
      ScanAcceptsIff(pre);
      ScanLineOk(Scan(pre).value, lines[n]);
      assert forall i :: 0 <= i < n ==> lines[i] == pre[i];
    }
    assert j < |lines|;
    assert Scan(lines).error == InvalidCommand(StripCR(lines[j]));
    assert !LineOk(StripCR(lines[j]));
    assert forall i :: 0 <= i < j ==> LineOk(StripCR(lines[i]));
  }

  /** The line holds an instruction: it is neither blank nor a label. */
  predicate IsInstrLine(l: string) {
    |l| > 0 && !IsLabel(l)
  }

  /** `c2l` lists, in increasing order, exactly the instruction lines of `code`. */
  predicate ListsInstrLines(code: seq<string>, c2l: seq<nat>) {
    && (forall k :: 0 <= k < |c2l| ==> c2l[k] < |code|)
    && (forall k1, k2 :: 0 <= k1 < k2 < |c2l| ==> c2l[k1] < c2l[k2])
    && (forall j :: 0 <= j < |code| ==> (IsInstrLine(code[j]) <==> j in c2l))
  }

  lemma ScanLineCommandLines(st: ScanState, raw: string)
    requires ListsInstrLines(st.code, st.commandToLine)
    requires ScanLine(st, raw).Ok?
    ensures ListsInstrLines(ScanLine(st, raw).value.code, ScanLine(st, raw).value.commandToLine)
  {
    var st2 := ScanLine(st, raw).value;
    var n := |st.code|;
    assert st2.code == st.code + [StripCR(raw)];
    if IsInstrLine(st2.code[n]) {
      assert st2.commandToLine == st.commandToLine + [n];
      forall j | 0 <= j < |st2.code|
        ensures IsInstrLine(st2.code[j]) <==> j in st2.commandToLine
      {
        if j < n {
          assert st2.code[j] == st.code[j];
        } else {
          assert st2.commandToLine[|st.commandToLine|] == n;
        }
      }
    } else {
      assert st2.commandToLine == st.commandToLine;
      forall j | 0 <= j < |st2.code|
        ensures IsInstrLine(st2.code[j]) <==> j in st2.commandToLine
      {
        if j < n {
          assert st2.code[j] == st.code[j];
        }
      }
    }
  }

  /** Instruction `k` comes from the `k`-th instruction line; blank and label lines take no slot. */
  lemma {:induction false} ScanCommandLines(lines: seq<string>)
    requires Scan(lines).Ok?
    ensures ListsInstrLines(Scan(lines).value.code, Scan(lines).value.commandToLine)
    decreases |lines|
  {
    if |lines| > 0 {
      var pre := lines[..|lines| - 1];
      ScanCommandLines(pre);
      ScanLineCommandLines(Scan(pre).value, lines[|lines| - 1]);
    }
  }

  /** Line `j` is a label line that no later line repeats. */
  predicate LastLabelAt(code: seq<string>, j: int) {
    && 0 <= j < |code|
    && IsLabel(code[j])
    && forall k :: j < k < |code| ==> code[k] != code[j]
  }

  /** `v` is the index of the first instruction after line `j`. */
  predicate NextInstr(c2l: seq<nat>, j: int, v: nat) {
    && v <= |c2l|
    && (forall k :: 0 <= k < v ==> c2l[k] < j)
    && (forall k :: v <= k < |c2l| ==> c2l[k] > j)
  }

  /** The label facts of the scan pass, for one state. */
  predicate LabelsBound(st: ScanState) {
    && (forall j :: 0 <= j < |st.code| && LastLabelAt(st.code, j) ==>
          st.code[j] in st.labels && NextInstr(st.commandToLine, j, st.labels[st.code[j]]))
    && (forall l :: l in st.labels ==> exists j :: 0 <= j < |st.code| && st.code[j] == l && IsLabel(l))
    && (forall k :: 0 <= k < |st.commandToLine| ==> st.commandToLine[k] < |st.code|)
    && |st.tokens| == |st.commandToLine|
  }

  /** A label line keeps its binding when a later, different line is scanned. */
  lemma ScanLineKeepsBinding(st: ScanState, raw: string, j: nat)
    requires LabelsBound(st)
    requires ScanLine(st, raw).Ok?
    requires j < |st.code| && LastLabelAt(ScanLine(st, raw).value.code, j)
    ensures var st2 := ScanLine(st, raw).value;
      st2.code[j] in st2.labels && NextInstr(st2.commandToLine, j, st2.labels[st2.code[j]])
  {
    var st2 := ScanLine(st, raw).value;
    var n := |st.code|;
    var line := StripCR(raw);
    assert st2.code == st.code + [line];
    assert st2.code[j] == st.code[j];
    forall k | j < k < n
      ensures st.code[k] != st.code[j]
    {
      assert st2.code[k] == st.code[k];
    }
    assert LastLabelAt(st.code, j);
    var l := st.code[j];
    var v := st.labels[l];
    assert st2.code[n] == line;
    assert line != l;
    assert st2.labels[l] == v;
    assert NextInstr(st.commandToLine, j, v);
    if st2.commandToLine != st.commandToLine {
      assert st2.commandToLine == st.commandToLine + [n];
      forall k | 0 <= k < v
        ensures st2.commandToLine[k] < j
      {
        assert st2.commandToLine[k] == st.commandToLine[k];
      }
      forall k | v <= k < |st2.commandToLine|
        ensures st2.commandToLine[k] > j
      {
        if k < |st.commandToLine| {
          assert st2.commandToLine[k] == st.commandToLine[k];
        }
      }
    }
  }

  lemma ScanLineLabels(st: ScanState, raw: string)
    requires LabelsBound(st)
    requires ScanLine(st, raw).Ok?
    ensures LabelsBound(ScanLine(st, raw).value)
  {
    ScanLineBindings(st, raw);
    ScanLineNames(st, raw);
    var st2 := ScanLine(st, raw).value;
    assert forall k :: 0 <= k < |st.commandToLine| ==> st2.commandToLine[k] == st.commandToLine[k];
  }

  /** After one more line, every last label line is still bound to the next instruction. */
  lemma ScanLineBindings(st: ScanState, raw: string)
    requires LabelsBound(st)
    requires ScanLine(st, raw).Ok?
    ensures var st2 := ScanLine(st, raw).value;
      forall j :: 0 <= j < |st2.code| && LastLabelAt(st2.code, j) ==>
        st2.code[j] in st2.labels && NextInstr(st2.commandToLine, j, st2.labels[st2.code[j]])
  {
    var st2 := ScanLine(st, raw).value;
    var n := |st.code|;
    var line := StripCR(raw);
    assert st2.code == st.code + [line];
    forall j | 0 <= j < |st2.code| && LastLabelAt(st2.code, j)
      ensures st2.code[j] in st2.labels && NextInstr(st2.commandToLine, j, st2.labels[st2.code[j]])
    {
      if j < n {
        ScanLineKeepsBinding(st, raw, j);
      } else {
        assert st2.code[j] == line && IsLabel(line);
        assert st2.labels[line] == |st.commandToLine|;
        assert st2.commandToLine == st.commandToLine;
      }
    }
  }

  /** After one more line, the table still names only label lines of the text. */
  lemma ScanLineNames(st: ScanState, raw: string)
    requires LabelsBound(st)
    requires ScanLine(st, raw).Ok?
    ensures var st2 := ScanLine(st, raw).value;
      forall l :: l in st2.labels ==> exists j :: 0 <= j < |st2.code| && st2.code[j] == l && IsLabel(l)
  {
    var st2 := ScanLine(st, raw).value;
    var n := |st.code|;
    assert st2.code == st.code + [StripCR(raw)];
    forall l | l in st2.labels
      ensures exists j :: 0 <= j < |st2.code| && st2.code[j] == l && IsLabel(l)
    {
      if l in st.labels {
        var j :| 0 <= j < |st.code| && st.code[j] == l && IsLabel(l);
        assert st2.code[j] == l;
      } else {
        assert st2.code[n] == l;
      }
    }
  }

  /**
   * Every label line is in the table; a label maps to the index of the first
   * instruction after its last occurrence; the table holds nothing else.
   */
  lemma {:induction false} ScanLabels(lines: seq<string>)
    requires Scan(lines).Ok?
    ensures LabelsBound(Scan(lines).value)
    decreases |lines|
  {
    if |lines| > 0 {
      var pre := lines[..|lines| - 1];
      ScanLabels(pre);
      ScanLineLabels(Scan(pre).value, lines[|lines| - 1]);
    } else {
      assert Scan(lines).value == ScanState([], map[], [], []);
    }
  }
}
