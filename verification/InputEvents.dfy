/** The input event codec of core/nexdesk-core/src/input/mod.rs. */
module InputEvents {
  import opened Prelude
  import BigEndian

  datatype InputEvent =
    | KeyDown(code: U32)
    | KeyUp(code: U32)
    | MouseMove(x: I32, y: I32)
    | MouseButton(button: Byte, down: bool)
    | Scroll(dx: I32, dy: I32)

  datatype DecodeError = Empty | Truncated | UnknownTag(tag: Byte)

  function SignedBytes(x: I32): seq<Byte> { BigEndian.ToBytes(BigEndian.Unsigned(x)) }

  function Encode(e: InputEvent): seq<Byte> {
    match e
    case KeyDown(code) => [0] + BigEndian.ToBytes(code)
    case KeyUp(code) => [1] + BigEndian.ToBytes(code)
    case MouseMove(x, y) => [2] + SignedBytes(x) + SignedBytes(y)
    case MouseButton(button, down) => [3, button, if down then 1 else 0]
    case Scroll(dx, dy) => [4] + SignedBytes(dx) + SignedBytes(dy)
  }

  function TakeU32(bytes: seq<Byte>, offset: nat): Result<U32, DecodeError> {
    if offset + 4 <= |bytes| then Ok(BigEndian.FromBytes(bytes[offset..offset + 4])) else Err(Truncated)
  }

  function TakeI32(bytes: seq<Byte>, offset: nat): Result<I32, DecodeError> {
    match TakeU32(bytes, offset)
    case Ok(n) => Ok(BigEndian.Signed(n))
    case Err(e) => Err(e)
  }

  /** Two signed numbers in a row; the first failure wins. */
  function TakePair(bytes: seq<Byte>): Result<(I32, I32), DecodeError> {
    match (TakeI32(bytes, 0), TakeI32(bytes, 4))
    case (Ok(a), Ok(b)) => Ok((a, b))
    case (Err(e), _) => Err(e)
    case (_, Err(e)) => Err(e)
  }

  function Decode(bytes: seq<Byte>): Result<InputEvent, DecodeError> {
    if |bytes| == 0 then Err(Empty)
    else
      var tag, rest := bytes[0], bytes[1..];
      if tag == 0 || tag == 1 then
        match TakeU32(rest, 0)
        case Ok(code) => Ok(if tag == 0 then KeyDown(code) else KeyUp(code))
        case Err(e) => Err(e)
      else if tag == 2 || tag == 4 then
        match TakePair(rest)
        case Ok((a, b)) => Ok(if tag == 2 then MouseMove(a, b) else Scroll(a, b))
        case Err(e) => Err(e)
      else if tag == 3 then
        if |rest| < 2 then Err(Truncated) else Ok(MouseButton(rest[0], rest[1] != 0))
      else Err(UnknownTag(tag))
  }

  /** The length of an encoding with the given tag. */
  function EncodedLength(tag: Byte): nat
    requires tag <= 4
  {
    if tag == 0 || tag == 1 then 5 else if tag == 3 then 3 else 9
  }

  lemma TakesWhatWasPut(before: seq<Byte>, n: U32, after: seq<Byte>)
    ensures TakeU32(before + BigEndian.ToBytes(n) + after, |before|) == Ok(n)
  {
    var bytes := before + BigEndian.ToBytes(n) + after;
    assert bytes[|before|..|before| + 4] == BigEndian.ToBytes(n);
    BigEndian.FromUndoesTo(n);
  }

  lemma TakesPairPut(a: I32, b: I32, after: seq<Byte>)
    ensures TakePair(SignedBytes(a) + SignedBytes(b) + after) == Ok((a, b))
  {
    hide TakeU32;
    var bytes := SignedBytes(a) + SignedBytes(b) + after;
    TakesWhatWasPut([], BigEndian.Unsigned(a), SignedBytes(b) + after);
    assert bytes == [] + SignedBytes(a) + (SignedBytes(b) + after);
    TakesWhatWasPut(SignedBytes(a), BigEndian.Unsigned(b), after);
  }

  lemma SignedBytesLength()
    ensures forall x :: |SignedBytes(x)| == 4
  {}

  /** Decoding an encoding gives the event back, whatever bytes follow. */
  lemma DecodesOwnEncoding(e: InputEvent, after: seq<Byte>)
    ensures Decode(Encode(e) + after) == Ok(e)
    ensures |Encode(e)| == EncodedLength(Encode(e)[0])
  {
    hide TakePair, TakeU32, BigEndian.ToBytes, SignedBytes;
    assert forall n :: |SignedBytes(n)| == 4 by { SignedBytesLength(); }
    var bytes := Encode(e) + after;
    match e
    case KeyDown(code) =>
      TakesWhatWasPut([], code, after);
      assert bytes[1..] == [] + BigEndian.ToBytes(code) + after;
    case KeyUp(code) =>
      TakesWhatWasPut([], code, after);
      assert bytes[1..] == [] + BigEndian.ToBytes(code) + after;
    case MouseMove(x, y) =>
      TakesPairPut(x, y, after);
      assert bytes[1..] == SignedBytes(x) + SignedBytes(y) + after;
    case Scroll(dx, dy) =>
      TakesPairPut(dx, dy, after);
      assert bytes[1..] == SignedBytes(dx) + SignedBytes(dy) + after;
    case MouseButton(button, down) =>
  }

  /** Exactly the tags 0 to 4 with enough bytes after them are accepted. */
  lemma AcceptsExactly(bytes: seq<Byte>)
    ensures Decode(bytes).Ok? <==> |bytes| > 0 && bytes[0] <= 4 && |bytes| >= EncodedLength(bytes[0])
    ensures Decode(bytes) == Err(Empty) <==> |bytes| == 0
    ensures |bytes| > 0 && bytes[0] > 4 ==> Decode(bytes) == Err(UnknownTag(bytes[0]))
    ensures Decode(bytes) == Err(Truncated) <==> |bytes| > 0 && bytes[0] <= 4 && |bytes| < EncodedLength(bytes[0])
  {}

  /** The bytes of each kind of event: its tag, then its fields in order, most significant byte first. */
  lemma OnTheWire()
    ensures Encode(KeyDown(0x0102_0304)) == [0, 1, 2, 3, 4] && Encode(KeyUp(0x0102_0304)) == [1, 1, 2, 3, 4]
    ensures Encode(MouseMove(1, -2)) == [2, 0, 0, 0, 1, 0xff, 0xff, 0xff, 0xfe]
    ensures Encode(MouseButton(2, true)) == [3, 2, 1] && Encode(MouseButton(2, false)) == [3, 2, 0]
    ensures Encode(Scroll(-0x8000_0000, 3)) == [4, 0x80, 0, 0, 0, 0, 0, 0, 3]
  {
    assert SignedBytes(1) == [0, 0, 0, 1] && SignedBytes(-2) == [0xff, 0xff, 0xff, 0xfe];
    assert SignedBytes(-0x8000_0000) == [0x80, 0, 0, 0] && SignedBytes(3) == [0, 0, 0, 3];
  }

  /** The bytes an accepted input is read from, with the button-down byte made 0 or 1. */
  function Canonical(bytes: seq<Byte>): seq<Byte>
    requires Decode(bytes).Ok?
  {
    AcceptsExactly(bytes);
    if bytes[0] == 3 then [3, bytes[1], if bytes[2] != 0 then 1 else 0] else bytes[..EncodedLength(bytes[0])]
  }

  lemma PutsWhatWasTaken(bytes: seq<Byte>, offset: nat)
    requires offset + 4 <= |bytes|
    ensures TakeU32(bytes, offset).Ok? && BigEndian.ToBytes(TakeU32(bytes, offset).value) == bytes[offset..offset + 4]
    ensures TakeI32(bytes, offset).Ok? && SignedBytes(TakeI32(bytes, offset).value) == bytes[offset..offset + 4]
  {
    BigEndian.ToUndoesFrom(bytes[offset..offset + 4]);
  }

  /** Encoding what was decoded gives the consumed bytes back, but for the button-down byte. */
  lemma EncodesWhatWasRead(bytes: seq<Byte>)
    requires Decode(bytes).Ok?
    ensures Encode(Decode(bytes).value) == Canonical(bytes)
  {
    AcceptsExactly(bytes);
    var rest := bytes[1..];
    if bytes[0] == 0 || bytes[0] == 1 {
      PutsWhatWasTaken(rest, 0);
      assert bytes[..5] == [bytes[0]] + rest[0..4];
    } else if bytes[0] == 2 || bytes[0] == 4 {
      PutsWhatWasTaken(rest, 0);
      PutsWhatWasTaken(rest, 4);
      assert bytes[..9] == [bytes[0]] + rest[0..4] + rest[4..8];
    }
  }
}
