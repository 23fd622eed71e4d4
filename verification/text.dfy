/** The textual forms the game uses: Java's decimal rendering of an `int`
    (`Integer.toString`), `String.trim`, and a line of space-separated fields,
    together with the readers that invert them. */
module Text {
  import opened Wrappers

  predicate IsDigit(ch: char) {
    '0' <= ch <= '9'
  }

  predicate AllDigits(s: string) {
    forall i :: 0 <= i < |s| ==> IsDigit(s[i])
  }

  /** A non-empty field with no whitespace in it (every character above ' '). */
  predicate IsWord(s: string) {
    |s| > 0 && forall i :: 0 <= i < |s| ==> s[i] > ' '
  }

  function DigitChar(d: nat): (ch: char)
    requires d < 10
    ensures IsDigit(ch)
    ensures ch as int - '0' as int == d
  {
    ('0' as int + d) as char
  }

  /** The digits of `n`, most significant first, without leading zeros. */
  function NatToDecimal(n: nat): (s: string)
    ensures |s| > 0 && AllDigits(s)
    ensures s[0] == '0' <==> n == 0
    ensures |s| == 1 <==> n < 10
    decreases n
  {
    if n < 10 then [DigitChar(n)] else NatToDecimal(n / 10) + [DigitChar(n % 10)]
  }

  /** The value of a string of decimal digits. */
  function DecimalToNat(s: string): nat
    requires AllDigits(s)
    decreases |s|
  {
    if s == [] then 0 else 10 * DecimalToNat(s[..|s| - 1]) + (s[|s| - 1] as int - '0' as int)
  }

  lemma {:induction false} NatDecimalRoundTrip(n: nat)
    ensures DecimalToNat(NatToDecimal(n)) == n
    decreases n
  {
    if n >= 10 {
      NatDecimalRoundTrip(n / 10);
      var s := NatToDecimal(n);
      assert s[..|s| - 1] == NatToDecimal(n / 10);
    }
  }

  /** A digit string not starting with zero has a positive value. */
  lemma {:induction false} LeadingDigitPositive(s: string)
    requires |s| > 0 && AllDigits(s) && s[0] != '0'
    ensures DecimalToNat(s) > 0
    decreases |s|
  {
    if |s| > 1 {
      LeadingDigitPositive(s[..|s| - 1]);
    }
  }

  /** Printing the value of a digit string without leading zeros gives the
      string back: such a numeral is the only one for its value. */
  lemma {:induction false} CanonicalDigitsUnique(s: string)
    requires |s| > 0 && AllDigits(s) && (|s| > 1 ==> s[0] != '0')
    ensures NatToDecimal(DecimalToNat(s)) == s
    decreases |s|
  {
    var n := DecimalToNat(s);
    if |s| == 1 {
      assert s[..|s| - 1] == [];
      assert DecimalToNat(s[..|s| - 1]) == 0;
      assert n == s[0] as int - '0' as int;
    } else {
      var front, d := s[..|s| - 1], s[|s| - 1] as int - '0' as int;
      assert front[0] == s[0];
      LeadingDigitPositive(front);
      CanonicalDigitsUnique(front);
      assert IsDigit(s[|s| - 1]);
      assert n == 10 * DecimalToNat(front) + d;
      DivTen(DecimalToNat(front), d);
      assert s == front + [s[|s| - 1]];
    }
  }

  lemma DivTen(q: nat, d: int)
    requires 0 <= d < 10
    ensures (10 * q + d) / 10 == q && (10 * q + d) % 10 == d
  {
  }

  /** Reads an optionally negative decimal numeral; `None` for anything else. */
  function ParseInt(s: string): Option<int> {
    if |s| > 1 && s[0] == '-' && AllDigits(s[1..]) then Some(0 - DecimalToNat(s[1..]))
    else if |s| > 0 && AllDigits(s) then Some(DecimalToNat(s))
    else None
  }

  /** The numerals `Integer.toString` prints: digits with no leading zero
      (a lone "0" aside), or a minus sign followed by such digits not
      starting with zero. */
  predicate Canonical(s: string) {
    || (|s| > 0 && AllDigits(s) && (|s| > 1 ==> s[0] != '0'))
    || (|s| > 1 && s[0] == '-' && AllDigits(s[1..]) && s[1] != '0')
  }

  /** `Integer.toString`: a minus sign in front of the digits of a negative value. */
  function IntToDecimal(x: int): (s: string)
    ensures ParseInt(s) == Some(x)
    ensures IsWord(s)
    ensures Canonical(s)
    ensures x >= 0 ==> AllDigits(s) && (|s| > 1 ==> s[0] != '0')
    ensures x < 0 ==> |s| > 1 && s[0] == '-' && s[1] != '0'
  {
    if x < 0 then
      NegativeNumeral(-x);
      "-" + NatToDecimal(-x)
    else
      NaturalNumeral(x);
      NatToDecimal(x)
  }

  lemma NaturalNumeral(m: nat)
    ensures var s := NatToDecimal(m);
      ParseInt(s) == Some(m) && IsWord(s) && Canonical(s) && (|s| > 1 ==> s[0] != '0')
  {
    NatDecimalRoundTrip(m);
    var s := NatToDecimal(m);
    assert s[0] != '-';
  }

  lemma NegativeNumeral(m: nat)
    requires m > 0
    ensures var s := "-" + NatToDecimal(m);
      && ParseInt(s) == Some(-(m as int)) && IsWord(s) && Canonical(s)
      && |s| > 1 && s[0] == '-' && s[1] != '0'
  {
    NatDecimalRoundTrip(m);
    var digits := NatToDecimal(m);
    var s := "-" + digits;
    assert s[1..] == digits && s[1] == digits[0];
  }

  /** The converse of the round trip: a canonical numeral is exactly what
      IntToDecimal prints for the value it reads as. */
  lemma CanonicalIsPrinted(s: string)
    requires Canonical(s)
    ensures ParseInt(s).Some? && IntToDecimal(ParseInt(s).value) == s
  {
    if |s| > 1 && s[0] == '-' && AllDigits(s[1..]) && s[1] != '0' {
      var digits := s[1..];
      assert digits[0] == s[1];
      LeadingDigitPositive(digits);
      CanonicalDigitsUnique(digits);
      assert s == "-" + digits;
    } else {
      assert s[0] != '-';
      CanonicalDigitsUnique(s);
    }
  }

  /** `String.trim`: drops every leading and trailing character at or below
      ' '. It scans forward past the leading ones, then backward over the
      trailing ones without passing the start it found. */
  function Trim(s: string): (r: string)
    ensures var a := SkipBlanks(s, 0);
      && a + |r| <= |s| && r == s[a..a + |r|]
      && (forall k :: 0 <= k < a ==> s[k] <= ' ')
      && (forall k :: a + |r| <= k < |s| ==> s[k] <= ' ')
      && (|r| > 0 ==> r[0] > ' ' && r[|r| - 1] > ' ')
  {
    var a := SkipBlanks(s, 0);
    s[a..DropBlanks(s, a, |s|)]
  }

  /** The forward scan: the first position from `i` on holding a character
      above ' ', or the length when there is none. */
  function SkipBlanks(s: string, i: nat): (j: nat)
    requires i <= |s|
    ensures i <= j <= |s|
    ensures forall k :: i <= k < j ==> s[k] <= ' '
    ensures j < |s| ==> s[j] > ' '
    decreases |s| - i
  {
    if i < |s| && s[i] <= ' ' then SkipBlanks(s, i + 1) else i
  }

  /** The backward scan: moves the end `e` back over characters at or below
      ' ', stopping at `lo`. */
  function DropBlanks(s: string, lo: nat, e: nat): (f: nat)
    requires lo <= e <= |s|
    ensures lo <= f <= e
    ensures forall k :: f <= k < e ==> s[k] <= ' '
    ensures f > lo ==> s[f - 1] > ' '
    decreases e
  {
    if lo < e && s[e - 1] <= ' ' then DropBlanks(s, lo, e - 1) else e
  }

  /** Each field followed by one space, the way a `StringBuilder` loop appends them. */
  function Terminated(fields: seq<string>): string {
    if fields == [] then "" else fields[0] + " " + Terminated(fields[1..])
  }

  /** The fields with a single space between neighbours. */
  function JoinSpaced(fields: seq<string>): string {
    if fields == [] then ""
    else if |fields| == 1 then fields[0]
    else fields[0] + " " + JoinSpaced(fields[1..])
  }

  /** Cuts a line at every space; `n` spaces always give `n + 1` fields. */
  function SplitSpaced(s: string): (fields: seq<string>)
    ensures |fields| > 0
    decreases |s|
  {
    if s == [] then [""]
    else
      var rest := SplitSpaced(s[1..]);
      if s[0] == ' ' then [""] + rest else [[s[0]] + rest[0]] + rest[1..]
  }

  predicate AllWords(fields: seq<string>) {
    forall i :: 0 <= i < |fields| ==> IsWord(fields[i])
  }

  /** A field without spaces is glued to whatever field follows it. */
  lemma {:induction false} SplitWordPrefix(a: string, tail: string)
    requires forall i :: 0 <= i < |a| ==> a[i] != ' '
    ensures SplitSpaced(a + tail)
         == [a + SplitSpaced(tail)[0]] + SplitSpaced(tail)[1..]
    decreases |a|
  {
    if a != [] {
      assert (a + tail)[1..] == a[1..] + tail;
      SplitWordPrefix(a[1..], tail);
      assert [a[0]] + (a[1..] + SplitSpaced(tail)[0]) == a + SplitSpaced(tail)[0];
    } else {
      var rest := SplitSpaced(tail);
      assert a + tail == tail;
      assert a + rest[0] == rest[0];
      assert rest == [rest[0]] + rest[1..];
    }
  }

  /** Splitting undoes joining, as long as no field is empty or holds a space. */
  lemma {:induction false} SplitJoin(fields: seq<string>)
    requires |fields| > 0 && AllWords(fields)
    ensures SplitSpaced(JoinSpaced(fields)) == fields
    decreases |fields|
  {
    if |fields| == 1 {
      SplitWordPrefix(fields[0], "");
      assert fields[0] + "" == fields[0];
    } else {
      var rest := JoinSpaced(fields[1..]);
      SplitJoin(fields[1..]);
      SplitWordPrefix(fields[0], " " + rest);
      assert (" " + rest)[1..] == rest;
      assert fields[0] + " " + rest == fields[0] + (" " + rest);
      assert fields[0] + "" == fields[0];
      assert fields == [fields[0]] + fields[1..];
    }
  }

  lemma {:induction false} JoinedWordEnds(fields: seq<string>)
    requires |fields| > 0 && AllWords(fields)
    ensures |JoinSpaced(fields)| > 0
    ensures JoinSpaced(fields)[0] > ' '
    ensures JoinSpaced(fields)[|JoinSpaced(fields)| - 1] > ' '
    decreases |fields|
  {
    if |fields| > 1 {
      JoinedWordEnds(fields[1..]);
    }
  }

  lemma {:induction false} TerminatedIsJoinedPlusSpace(fields: seq<string>)
    requires |fields| > 0
    ensures Terminated(fields) == JoinSpaced(fields) + " "
    decreases |fields|
  {
    if |fields| > 1 {
      TerminatedIsJoinedPlusSpace(fields[1..]);
    } else {
      assert fields[1..] == [];
    }
  }

  /** Appending a space after every field and trimming the result is the same
      as joining the fields with single spaces. */
  lemma TrimmedTerminatedIsJoined(fields: seq<string>)
    requires AllWords(fields)
    ensures Trim(Terminated(fields)) == JoinSpaced(fields)
  {
    if fields != [] {
      TerminatedIsJoinedPlusSpace(fields);
      JoinedWordEnds(fields);
      var j := JoinSpaced(fields);
      var t := j + " ";
      assert SkipBlanks(t, 0) == 0;
      assert DropBlanks(t, 0, |t|) == DropBlanks(t, 0, |j|) == |j|;
      assert t[0..|j|] == j;
    }
  }
}
