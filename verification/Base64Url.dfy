/**
 Unpadded base64url, section 5 (alphabet) and section 3.2 (no padding) of RFC 4648, as
 Go's `base64.RawURLEncoding` encodes and decodes it.
 */
module Base64Url {
  import opened Prelude

  type Sextet = v: int | 0 <= v < 64

  function Letter(v: Sextet): char {
    if v < 26 then 'A' + v as char
    else if v < 52 then 'a' + (v - 26) as char
    else if v < 62 then '0' + (v - 52) as char
    else if v == 62 then '-'
    else '_'
  }

  function Value(c: char): Option<Sextet> {
    if 'A' <= c <= 'Z' then Some(c as int - 'A' as int)
    else if 'a' <= c <= 'z' then Some(c as int - 'a' as int + 26)
    else if '0' <= c <= '9' then Some(c as int - '0' as int + 52)
    else if c == '-' then Some(62)
    else if c == '_' then Some(63)
    else None
  }

  lemma ValueOfLetter(v: Sextet)
    ensures Value(Letter(v)) == Some(v)
  {}

  /** Three bytes become four letters; one or two left over become two or three. */
  function Encode(b: seq<Byte>): string {
    if |b| == 0 then ""
    else if |b| == 1 then [Letter(b[0] / 4), Letter(b[0] % 4 * 16)]
    else if |b| == 2 then [Letter(b[0] / 4), Letter(b[0] % 4 * 16 + b[1] / 16), Letter(b[1] % 16 * 4)]
    else
      [Letter(b[0] / 4), Letter(b[0] % 4 * 16 + b[1] / 16), Letter(b[1] % 16 * 4 + b[2] / 64), Letter(b[2] % 64)]
      + Encode(b[3..])
  }

  /** Vectors of section 10 of RFC 4648 without their padding, and the two letters of the URL alphabet. */
  lemma StandardVectors()
    ensures Encode([0x66]) == "Zg" && Encode([0x66, 0x6f]) == "Zm8" && Encode([0x66, 0x6f, 0x6f]) == "Zm9v"
    ensures Encode([0x66, 0x6f, 0x6f, 0x62]) == "Zm9vYg" && Encode([0xfb, 0xff]) == "-_8"
  {
    assert [0x66, 0x6f, 0x6f, 0x62][3..] == [0x62];
    assert Encode([0x62]) == "Yg";
  }

  predicate IsLineBreak(c: char) { c == '\r' || c == '\n' }

  /** Go's decoder skips carriage returns and line feeds wherever they are. */
  function Strip(s: string): string {
    if s == "" then "" else (if IsLineBreak(s[0]) then "" else [s[0]]) + Strip(s[1..])
  }

  lemma {:induction false} StripAppend(a: string, b: string)
    ensures Strip(a + b) == Strip(a) + Strip(b)
  {
    if a == "" {
      assert a + b == b;
    } else {
      var first := if IsLineBreak(a[0]) then "" else [a[0]];
      StripAppend(a[1..], b);
      assert (a + b)[0] == a[0] && (a + b)[1..] == a[1..] + b;
      assert Strip(a + b) == first + (Strip(a[1..]) + Strip(b));
    }
  }

  /** Exactly carriage returns and line feeds are skipped, wherever they are, and nothing else changes. */
  lemma {:induction false} StripsLineBreaks(a: string, c: char, b: string)
    ensures Strip(a + [c] + b) == Strip(a) + (if c == '\r' || c == '\n' then "" else [c]) + Strip(b)
    ensures Strip("") == ""
  {
    StripAppend(a, [c]);
    StripAppend(a + [c], b);
    assert [c][1..] == "";
  }

  /** The sextets of a text, if every character is in the alphabet. */
  function Sextets(s: string): Option<seq<Sextet>> {
    if s == "" then Some([])
    else
      var v, rest := Value(s[0]), Sextets(s[1..]);
      if v.Some? && rest.Some? then Some([v.value] + rest.value) else None
  }

  function FirstByte(v0: Sextet, v1: Sextet): Byte { v0 as int * 4 + v1 as int / 16 }

  function SecondByte(v1: Sextet, v2: Sextet): Byte { v1 as int % 16 * 16 + v2 as int / 4 }

  function ThirdByte(v2: Sextet, v3: Sextet): Byte { v2 as int % 4 * 64 + v3 as int }

  /** Sextets back to bytes; the spare low bits of a last short group are ignored. */
  function Bytes(v: seq<Sextet>): seq<Byte> {
    if |v| < 2 then []
    else if |v| == 2 then [FirstByte(v[0], v[1])]
    else if |v| == 3 then [FirstByte(v[0], v[1]), SecondByte(v[1], v[2])]
    else [FirstByte(v[0], v[1]), SecondByte(v[1], v[2]), ThirdByte(v[2], v[3])] + Bytes(v[4..])
  }

  function Decode(s: string): Option<seq<Byte>> {
    var v := Sextets(Strip(s));
    if v.None? || |v.value| % 4 == 1 then None else Some(Bytes(v.value))
  }

  predicate InAlphabet(s: string) { forall i | 0 <= i < |s| :: Value(s[i]).Some? }

  lemma {:induction false} EncodeStaysInAlphabet(b: seq<Byte>)
    ensures InAlphabet(Encode(b))
  {
    if |b| >= 3 {
      EncodeStaysInAlphabet(b[3..]);
    }
  }

  /** No separator used by the token formats, and no line break, is in the alphabet. */
  lemma AlphabetHasNoSeparators(s: string)
    requires InAlphabet(s)
    ensures '|' !in s && '.' !in s && '\r' !in s && '\n' !in s
  {}

  lemma {:induction false} StripKeepsClean(s: string)
    requires '\r' !in s && '\n' !in s
    ensures Strip(s) == s
  {
    if s != "" {
      assert s[0] in s;
      assert forall c | c in s[1..] :: c in s;
      StripKeepsClean(s[1..]);
    }
  }

  /** The sextets an encoding is written with. */
  function Groups(b: seq<Byte>): seq<Sextet> {
    if |b| == 0 then []
    else if |b| == 1 then [b[0] / 4, b[0] % 4 * 16]
    else if |b| == 2 then [b[0] / 4, b[0] % 4 * 16 + b[1] / 16, b[1] % 16 * 4]
    else [b[0] / 4, b[0] % 4 * 16 + b[1] / 16, b[1] % 16 * 4 + b[2] / 64, b[2] % 64] + Groups(b[3..])
  }

  lemma {:induction false} SextetsConcat(a: string, b: string)
    requires Sextets(a).Some? && Sextets(b).Some?
    ensures Sextets(a + b) == Some(Sextets(a).value + Sextets(b).value)
  {
    hide Value;
    if a == "" {
      assert a + b == b;
      assert [] + Sextets(b).value == Sextets(b).value;
    } else {
      var front, back := Sextets(a[1..]).value, Sextets(b).value;
      SextetsConcat(a[1..], b);
      SextetsHead(a);
      SextetsHead(a + b);
      assert (a + b)[1..] == a[1..] + b;
      hide Sextets;
      assert [Value(a[0]).value] + (front + back) == ([Value(a[0]).value] + front) + back;
    }
  }

  lemma {:induction false} SextetsHead(s: string)
    requires s != ""
    ensures Sextets(s) == if Value(s[0]).Some? && Sextets(s[1..]).Some?
                          then Some([Value(s[0]).value] + Sextets(s[1..]).value) else None
  {}

  lemma SextetsOfFour(v0: Sextet, v1: Sextet, v2: Sextet, v3: Sextet)
    ensures Sextets([Letter(v0), Letter(v1), Letter(v2), Letter(v3)]) == Some([v0, v1, v2, v3])
    ensures Sextets([Letter(v0), Letter(v1), Letter(v2)]) == Some([v0, v1, v2])
    ensures Sextets([Letter(v0), Letter(v1)]) == Some([v0, v1])
  {
    hide Letter, Value;
    ValueOfLetter(v0);
    ValueOfLetter(v1);
    ValueOfLetter(v2);
    ValueOfLetter(v3);
    SextetsOfOne(v0);
    SextetsOfOne(v1);
    SextetsOfOne(v2);
    SextetsOfOne(v3);
    var l0, l1, l2, l3 := Letter(v0), Letter(v1), Letter(v2), Letter(v3);
    SextetsConcat([l0], [l1]);
    SextetsConcat([l0] + [l1], [l2]);
    SextetsConcat([l0] + [l1] + [l2], [l3]);
    assert [v0] + [v1] == [v0, v1] && [v0, v1] + [v2] == [v0, v1, v2] && [v0, v1, v2] + [v3] == [v0, v1, v2, v3];
    assert [l0, l1] == [l0] + [l1] && [l0, l1, l2] == [l0] + [l1] + [l2];
    assert [l0, l1, l2, l3] == [l0] + [l1] + [l2] + [l3];
  }

  lemma SextetsOfOne(v: Sextet)
    ensures Sextets([Letter(v)]) == Some([v])
  {
    ValueOfLetter(v);
    assert [Letter(v)][1..] == "" && Sextets("") == Some([]);
    assert [v] + [] == [v];
  }

  lemma {:induction false} SextetsOfEncoding(b: seq<Byte>)
    ensures Sextets(Encode(b)) == Some(Groups(b))
  {
    hide Letter;
    if |b| == 1 {
      SextetsOfFour(b[0] / 4, b[0] % 4 * 16, 0, 0);
    } else if |b| == 2 {
      SextetsOfFour(b[0] / 4, b[0] % 4 * 16 + b[1] / 16, b[1] % 16 * 4, 0);
    } else if |b| >= 3 {
      var v1, v2 := b[0] % 4 * 16 + b[1] / 16, b[1] % 16 * 4 + b[2] / 64;
      SextetsOfFour(b[0] / 4, v1, v2, b[2] % 64);
      SextetsOfEncoding(b[3..]);
      SextetsConcat([Letter(b[0] / 4), Letter(v1), Letter(v2), Letter(b[2] % 64)], Encode(b[3..]));
    }
  }

  lemma BytesRegrouped(b0: Byte, b1: Byte, b2: Byte)
    ensures var v0, v1, v2, v3 := b0 / 4, b0 % 4 * 16 + b1 / 16, b1 % 16 * 4 + b2 / 64, b2 % 64;
            FirstByte(v0, v1) == b0 && SecondByte(v1, v2) == b1 && ThirdByte(v2, v3) == b2
  {}

  lemma {:induction false} BytesOfGroups(b: seq<Byte>)
    ensures Bytes(Groups(b)) == b && |Groups(b)| % 4 != 1
  {
    hide FirstByte, SecondByte, ThirdByte;
    if |b| == 1 {
      BytesRegrouped(b[0], 0, 0);
    } else if |b| == 2 {
      BytesRegrouped(b[0], b[1], 0);
    } else if |b| >= 3 {
      BytesOfGroups(b[3..]);
      var v := Groups(b);
      assert v[4..] == Groups(b[3..]);
      BytesRegrouped(b[0], b[1], b[2]);
      assert b == b[..3] + b[3..];
    }
  }

  /** Decoding undoes encoding, for every byte string. */
  lemma {:induction false} RoundTrip(b: seq<Byte>)
    ensures Decode(Encode(b)) == Some(b)
  {
    EncodeStaysInAlphabet(b);
    AlphabetHasNoSeparators(Encode(b));
    StripKeepsClean(Encode(b));
    SextetsOfEncoding(b);
    BytesOfGroups(b);
  }

  lemma {:induction false} SextetsExactly(s: string)
    ensures Sextets(s).Some? <==> InAlphabet(s)
    ensures Sextets(s).Some? ==> |Sextets(s).value| == |s|
  {
    if s != "" {
      SextetsExactly(s[1..]);
      assert InAlphabet(s) <==> Value(s[0]).Some? && InAlphabet(s[1..]) by {
        assert forall i | 0 <= i < |s[1..]| :: s[1..][i] == s[i + 1];
        if InAlphabet(s) {
          assert Value(s[0]).Some?;
        } else {
          var i :| 0 <= i < |s| && Value(s[i]).None?;
          assert i == 0 || s[1..][i - 1] == s[i];
        }
      }
    }
  }

  /** The sextets with the spare low bits of a last short group cleared. */
  function Cleared(v: seq<Sextet>): seq<Sextet>
    requires |v| % 4 != 1
  {
    if |v| % 4 == 2 then v[..|v| - 1] + [v[|v| - 1] / 16 * 16]
    else if |v| % 4 == 3 then v[..|v| - 1] + [v[|v| - 1] / 4 * 4]
    else v
  }

  lemma GroupRegrouped(v0: Sextet, v1: Sextet, v2: Sextet, v3: Sextet)
    ensures var b0, b1, b2 := FirstByte(v0, v1), SecondByte(v1, v2), ThirdByte(v2, v3);
            && b0 / 4 == v0 && b0 % 4 * 16 + b1 / 16 == v1 && b1 % 16 * 4 + b2 / 64 == v2 && b2 % 64 == v3
            && b0 % 4 * 16 == v1 / 16 * 16 && b1 % 16 * 4 == v2 / 4 * 4
  {}

  lemma {:induction false} FirstGroup(v: seq<Sextet>)
    requires |v| >= 4
    ensures Groups(Bytes(v)) == v[..4] + Groups(Bytes(v[4..]))
  {
    hide FirstByte, SecondByte, ThirdByte;
    GroupRegrouped(v[0], v[1], v[2], v[3]);
    assert Bytes(v)[3..] == Bytes(v[4..]);
  }

  lemma ClearedTail(v: seq<Sextet>)
    requires |v| >= 4 && |v| % 4 != 1
    ensures Cleared(v) == v[..4] + Cleared(v[4..])
  {
    var tail := v[4..];
    assert v == v[..4] + tail;
    if |v| % 4 != 0 {
      var front, kept, last := v[..4], tail[..|tail| - 1], Cleared(tail)[|tail| - 1];
      assert v[|v| - 1] == tail[|tail| - 1] && v[..|v| - 1] == front + kept;
      assert front + kept + [last] == front + (kept + [last]);
    }
  }

  lemma {:induction false} GroupsOfBytes(v: seq<Sextet>)
    requires |v| % 4 != 1
    ensures Groups(Bytes(v)) == Cleared(v)
  {
    hide FirstByte, SecondByte, ThirdByte;
    if |v| == 2 {
      GroupRegrouped(v[0], v[1], 0, 0);
    } else if |v| == 3 {
      GroupRegrouped(v[0], v[1], v[2], 0);
    } else if |v| >= 4 {
      GroupsOfBytes(v[4..]);
      FirstGroup(v);
      ClearedTail(v);
    }
  }

  /** What a text decodes to encodes to its letters, without line breaks and with the spare low bits cleared. */
  lemma {:induction false} EncodesWhatWasDecoded(s: string)
    requires Decode(s).Some?
    ensures |Sextets(Strip(s)).value| % 4 != 1
    ensures Sextets(Encode(Decode(s).value)) == Some(Cleared(Sextets(Strip(s)).value))
  {
    SextetsOfEncoding(Decode(s).value);
    GroupsOfBytes(Sextets(Strip(s)).value);
  }

  /** Without its line breaks, a text decodes exactly when it is in the alphabet and of a possible length. */
  lemma {:induction false} DecodesExactly(s: string)
    ensures Decode(s).Some? <==> InAlphabet(Strip(s)) && |Strip(s)| % 4 != 1
  {
    SextetsExactly(Strip(s));
  }
}
