/** Round trips of the numeral and tokenisation helpers. */
module TextLemmas {
  import opened Text

  /** Reading back a formatted numeral gives the number. */
  lemma {:induction false} DecimalValue(n: nat)
    ensures DigitsValue(Decimal(n)) == n
    decreases n
  {
    if n >= 10 {
      var d := Decimal(n);
      assert d == Decimal(n / 10) + [DigitChar(n % 10)];
      assert d[..|d| - 1] == Decimal(n / 10);
      DecimalValue(n / 10);
    }
  }

  /** The word at the front of `t + rest` is exactly `t` when `rest` is empty or starts with a space. */
  lemma {:induction false} WordLengthOfToken(t: string, rest: string)
    requires forall i :: 0 <= i < |t| ==> !IsSpace(t[i])
    requires |rest| == 0 || IsSpace(rest[0])
    ensures WordLength(t + rest) == |t|
    decreases |t|
  {
    if |t| > 0 {
      assert (t + rest)[1..] == t[1..] + rest;
      WordLengthOfToken(t[1..], rest);
    }
  }

  lemma TokenizeFront(t: string, rest: string)
    requires IsToken(t)
    requires |rest| == 0 || IsSpace(rest[0])
    ensures Tokenize(t + rest) == [t] + Tokenize(rest)
  {
    WordLengthOfToken(t, rest);
    var s := t + rest;
    assert s[..|t|] == t;
    assert s[|t|..] == rest;
  }

  /** A single word tokenises to itself. */
  lemma TokenizeToken(t: string)
    requires IsToken(t)
    ensures Tokenize(t) == [t]
  {
    TokenizeFront(t, "");
    assert t + "" == t;
  }

  /** Tokenising words joined by spaces gives the words back. */
  lemma {:induction false} TokenizeUnwords(ts: seq<string>)
    requires forall k :: 0 <= k < |ts| ==> IsToken(ts[k])
    ensures Tokenize(Unwords(ts)) == ts
    decreases |ts|
  {
    if |ts| == 1 {
      TokenizeToken(ts[0]);
    } else if |ts| > 1 {
      var rest := Unwords(ts[1..]);
      TokenizeFront(ts[0], " " + rest);
      assert ts[0] + " " + rest == ts[0] + (" " + rest);
      assert (" " + rest)[1..] == rest;
      TokenizeUnwords(ts[1..]);
      assert ts == [ts[0]] + ts[1..];
    }
  }
}
