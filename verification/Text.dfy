/** Go's `strings.Cut`, `Split` and `Join` for one-character separators, and decimal integers of `strconv`. */
module Text {
  import opened Prelude

  /** The text before and after the first separator. */
  function Cut(s: string, sep: char): Option<(string, string)> {
    if s == "" then None
    else if s[0] == sep then Some(("", s[1..]))
    else
      var rest := Cut(s[1..], sep);
      if rest.None? then None else Some(([s[0]] + rest.value.0, rest.value.1))
  }

  /** The fields between separators: one more than there are separators. */
  function Split(s: string, sep: char): (parts: seq<string>)
    ensures |parts| > 0
  {
    if s == "" then [""]
    else
      var rest := Split(s[1..], sep);
      if s[0] == sep then [""] + rest else [[s[0]] + rest[0]] + rest[1..]
  }

  function Join(parts: seq<string>, sep: char): string {
    if |parts| == 0 then ""
    else if |parts| == 1 then parts[0]
    else parts[0] + [sep] + Join(parts[1..], sep)
  }

  lemma {:induction false} CutAtFirst(a: string, b: string, sep: char)
    requires sep !in a
    ensures Cut(a + [sep] + b, sep) == Some((a, b))
  {
    var s := a + [sep] + b;
    if a == "" {
      assert s[1..] == b;
    } else {
      assert s[0] == a[0] && a[0] in a;
      assert s[1..] == a[1..] + [sep] + b;
      CutAtFirst(a[1..], b, sep);
      assert [a[0]] + a[1..] == a;
    }
  }

  lemma {:induction false} CutPieces(s: string, sep: char)
    ensures match Cut(s, sep)
            case None => sep !in s
            case Some((a, b)) => sep !in a && s == a + [sep] + b
  {
    if s != "" && s[0] != sep {
      CutPieces(s[1..], sep);
      assert s == [s[0]] + s[1..];
    }
  }

  lemma {:induction false} SplitWithout(a: string, sep: char)
    requires sep !in a
    ensures Split(a, sep) == [a]
  {
    if a != "" {
      assert a[0] in a;
      assert forall c | c in a[1..] :: c in a;
      SplitWithout(a[1..], sep);
      assert [a[0]] + a[1..] == a;
    }
  }

  lemma {:induction false} SplitFirst(a: string, b: string, sep: char)
    requires sep !in a
    ensures Split(a + [sep] + b, sep) == [a] + Split(b, sep)
  {
    var s := a + [sep] + b;
    if a == "" {
      assert s[1..] == b;
    } else {
      assert s[0] == a[0] && a[0] in a;
      assert s[1..] == a[1..] + [sep] + b;
      assert forall c | c in a[1..] :: c in a;
      SplitFirst(a[1..], b, sep);
      var rest := Split(s[1..], sep);
      assert rest == [a[1..]] + Split(b, sep);
      assert rest[0] == a[1..] && rest[1..] == Split(b, sep);
      assert [a[0]] + a[1..] == a;
    }
  }

  /** Splitting undoes joining when no field contains the separator. */
  lemma {:induction false} SplitUndoesJoin(parts: seq<string>, sep: char)
    requires |parts| > 0 && forall i | 0 <= i < |parts| :: sep !in parts[i]
    ensures Split(Join(parts, sep), sep) == parts
  {
    if |parts| == 1 {
      SplitWithout(parts[0], sep);
    } else {
      SplitUndoesJoin(parts[1..], sep);
      SplitFirst(parts[0], Join(parts[1..], sep), sep);
      assert [parts[0]] + parts[1..] == parts;
    }
  }

  /** Joining undoes splitting, and no field of a split has the separator: a text splits in one way only. */
  lemma {:induction false} JoinUndoesSplit(s: string, sep: char)
    ensures Join(Split(s, sep), sep) == s
    ensures forall i | 0 <= i < |Split(s, sep)| :: sep !in Split(s, sep)[i]
  {
    if s != "" {
      JoinUndoesSplit(s[1..], sep);
      var rest, all := Split(s[1..], sep), Split(s, sep);
      assert s == [s[0]] + s[1..];
      if s[0] == sep {
        assert all[1..] == rest;
      } else {
        assert all[1..] == rest[1..] && all[0] == [s[0]] + rest[0];
        assert [s[0]] + (rest[0] + [sep] + Join(rest[1..], sep)) == ([s[0]] + rest[0]) + [sep] + Join(rest[1..], sep);
      }
    }
  }

  lemma {:induction false} JoinHasOnly(parts: seq<string>, sep: char, c: char)
    requires c != sep && forall i | 0 <= i < |parts| :: c !in parts[i]
    ensures c !in Join(parts, sep)
  {
    if |parts| > 1 {
      JoinHasOnly(parts[1..], sep, c);
      var head, tail := parts[0] + [sep], Join(parts[1..], sep);
      assert Join(parts, sep) == head + tail;
    }
  }

  // ----- decimal -----

  const MIN_INT64: int := -0x8000_0000_0000_0000
  const MAX_INT64: int := 0x7fff_ffff_ffff_ffff

  predicate IsDigit(c: char) { '0' <= c <= '9' }

  function DigitOf(d: int): char
    requires 0 <= d < 10
  {
    '0' + d as char
  }

  function FormatNat(n: nat): string {
    (if n < 10 then "" else FormatNat(n / 10)) + [DigitOf(n % 10)]
  }

  /** `strconv.FormatInt(n, 10)`. */
  function FormatInt(n: int): string { if n < 0 then "-" + FormatNat(-n) else FormatNat(n) }

  function ParseNat(s: string): Option<nat> {
    if s == "" then Some(0)
    else
      var front, last := ParseNat(s[..|s| - 1]), s[|s| - 1];
      if front.Some? && IsDigit(last) then Some(front.value * 10 + (last as int - '0' as int)) else None
  }

  /** `strconv.ParseInt(s, 10, 64)`: an optional sign, at least one digit, no other character, in range. */
  function ParseInt(s: string): Option<int> {
    var signed := s != "" && (s[0] == '+' || s[0] == '-');
    var negative := s != "" && s[0] == '-';
    var digits := if signed then s[1..] else s;
    var n := ParseNat(digits);
    if digits == "" || n.None? then None
    else
      var value: int := if negative then -(n.value as int) else n.value;
      if MIN_INT64 <= value <= MAX_INT64 then Some(value) else None
  }

  lemma {:induction false} ParseNatUndoesFormat(n: nat)
    ensures ParseNat(FormatNat(n)) == Some(n)
    ensures FormatNat(n) != "" && forall i | 0 <= i < |FormatNat(n)| :: IsDigit(FormatNat(n)[i])
  {
    var s := FormatNat(n);
    var front := if n < 10 then "" else FormatNat(n / 10);
    assert s == front + [DigitOf(n % 10)];
    assert s[..|s| - 1] == front && s[|s| - 1] == DigitOf(n % 10);
    if n >= 10 {
      ParseNatUndoesFormat(n / 10);
    }
  }

  /** Parsing undoes formatting on every 64-bit integer. */
  lemma ParseUndoesFormat(n: int)
    requires MIN_INT64 <= n <= MAX_INT64
    ensures ParseInt(FormatInt(n)) == Some(n)
  {
    var m := if n < 0 then -n else n;
    ParseNatUndoesFormat(m);
    if n < 0 {
      assert FormatInt(n)[1..] == FormatNat(m);
    } else {
      assert IsDigit(FormatNat(m)[0]);
    }
  }

  predicate AllDigits(s: string) { forall i | 0 <= i < |s| :: IsDigit(s[i]) }

  lemma {:induction false} ParsesDigits(s: string)
    ensures ParseNat(s).Some? <==> AllDigits(s)
  {
    if s != "" {
      var n := |s| - 1;
      ParsesDigits(s[..n]);
      assert forall i | 0 <= i < n :: s[..n][i] == s[i];
    }
  }

  function NatOf(digits: string): nat
    requires AllDigits(digits)
  {
    ParsesDigits(digits);
    ParseNat(digits).value
  }

  /** A text of one digit has that digit's value, and every digit written after a text adds to ten times its value. */
  lemma NextDigit(s: string, d: nat)
    requires AllDigits(s) && d < 10
    ensures AllDigits(s + [DigitOf(d)]) && NatOf(s + [DigitOf(d)]) == 10 * NatOf(s) + d
    ensures AllDigits("") && NatOf("") == 0
  {
    var t := s + [DigitOf(d)];
    assert t[..|t| - 1] == s && t[|t| - 1] == DigitOf(d);
    ParsesDigits(s);
    assert ParseNat(t) == Some(ParseNat(s).value * 10 + d);
  }

  /** The value of a text of digits: each place counts ten times the next. */
  lemma {:induction false} PlacesCountTen(a: string, b: string)
    requires AllDigits(a) && AllDigits(b)
    ensures AllDigits(a + b) && NatOf(a + b) == NatOf(a) * Tens(|b|) + NatOf(b)
    decreases |b|
  {
    hide NatOf, ParseNat;
    NextDigit("", 0);
    if b == "" {
      assert a + b == a;
    } else {
      var n := |b| - 1;
      var d := b[n] as int - '0' as int;
      PlacesCountTen(a, b[..n]);
      assert b == b[..n] + [DigitOf(d)] && a + b == a + b[..n] + [DigitOf(d)];
      NextDigit(b[..n], d);
      NextDigit(a + b[..n], d);
      assert NatOf(a) * (10 * Tens(n)) == 10 * (NatOf(a) * Tens(n));
    }
  }

  function Tens(n: nat): nat { if n == 0 then 1 else 10 * Tens(n - 1) }

  /** One optional sign and at least one digit, nothing else, and a value of 64 bits: exactly that is parsed. */
  lemma ParsesExactly(sign: string, digits: string)
    requires sign in {"", "+", "-"} && (sign == "" ==> digits == "" || digits[0] !in "+-")
    ensures ParseInt(sign + digits)
            == if digits == "" || !AllDigits(digits) then None
               else
                 var n: int := if sign == "-" then -(NatOf(digits) as int) else NatOf(digits);
                 if MIN_INT64 <= n <= MAX_INT64 then Some(n) else None
  {
    ParsesDigits(digits);
    var s := sign + digits;
    if sign == "" {
      assert s == digits;
    } else {
      assert s[0] == sign[0] && s[1..] == digits;
    }
  }

  /** Numbers are written in their shortest form: a minus sign if negative, and no leading zero. */
  lemma {:induction false} FormatsShortest(n: nat)
    ensures AllDigits(FormatNat(n)) && (n > 0 ==> FormatNat(n)[0] != '0') && (n < 10 ==> |FormatNat(n)| == 1)
    ensures FormatInt(n) == FormatNat(n) && (n > 0 ==> FormatInt(-(n as int)) == "-" + FormatNat(n))
  {
    ParseNatUndoesFormat(n);
    if n >= 10 {
      FormatsShortest(n / 10);
      assert FormatNat(n)[0] == FormatNat(n / 10)[0];
    }
  }

  lemma FormatHasNoSeparators(n: int)
    ensures '|' !in FormatInt(n) && '.' !in FormatInt(n)
  {
    ParseNatUndoesFormat(if n < 0 then -n else n);
  }
}
