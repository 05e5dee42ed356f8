/** The length-prefixed framing of core/nexdesk-core/src/transport/framing.rs over a fragmented byte stream. */
module Framing {
  import opened Prelude
  import BigEndian

  const MAX_FRAME_LEN: nat := 16 * 1024 * 1024

  type Message = seq<Byte>

  datatype FrameError = UnexpectedEof | TooLong(len: nat)

  /** The bytes of one frame on the wire. */
  function Framed(data: Message): seq<Byte>
    requires |data| < TWO_32
  {
    BigEndian.ToBytes(|data|) + data
  }

  /** One read: the message or the error, and the bytes left unread. */
  function ParseFrame(bytes: seq<Byte>): (Result<Message, FrameError>, seq<Byte>) {
    if |bytes| < 4 then (Err(UnexpectedEof), [])
    else
      var len := BigEndian.FromBytes(bytes[..4]);
      if len > MAX_FRAME_LEN then (Err(TooLong(len)), bytes[4..])
      else if |bytes| - 4 < len then (Err(UnexpectedEof), [])
      else (Ok(bytes[4..4 + len]), bytes[4 + len..])
  }

  /** Reading frame after frame until the first error. */
  function ParseAll(bytes: seq<Byte>): (seq<Message>, FrameError)
    decreases |bytes|
  {
    var (r, rest) := ParseFrame(bytes);
    if r.Err? then ([], r.error)
    else
      var (messages, error) := ParseAll(rest);
      ([r.value] + messages, error)
  }

  /** A writer that takes `room` more bytes and then fails. */
  class ByteSink {
    var bytes: seq<Byte>
    var room: nat

    constructor (room: nat)
      ensures bytes == [] && this.room == room
    {
      bytes, this.room := [], room;
    }

    method WriteAll(data: seq<Byte>) returns (ok: bool)
      modifies this
      ensures var n := Min(|data|, old(room));
              bytes == old(bytes) + data[..n] && room == old(room) - n && (ok <==> n == |data|)
    {
      var n := Min(|data|, room);
      bytes, room := bytes + data[..n], room - n;
      ok := n == |data|;
    }
  }

  /** A failed write leaves a proper prefix of the frame on the wire; a refused one leaves nothing. */
  method WriteFrame(writer: ByteSink, data: Message) returns (ok: bool)
    modifies writer
    ensures |data| >= TWO_32 ==> !ok && writer.bytes == old(writer.bytes) && writer.room == old(writer.room)
    ensures |data| < TWO_32 ==>
              var n := Min(|Framed(data)|, old(writer.room));
              && writer.bytes == old(writer.bytes) + Framed(data)[..n] && writer.room == old(writer.room) - n
              && (ok <==> n == |Framed(data)|)
  {
    if |data| >= TWO_32 {
      return false;
    }
    ok := writer.WriteAll(BigEndian.ToBytes(|data|));
    if !ok {
      return false;
    }
    ok := writer.WriteAll(data);
  }

  /**
   A byte stream as the network delivers it: non-empty fragments, then the end.  One
   read returns at most what the current fragment still holds, and nothing at the end.
   */
  class ByteSource {
    var fragments: seq<seq<Byte>>

    ghost predicate Valid()
      reads this
    {
      forall i | 0 <= i < |fragments| :: fragments[i] != []
    }

    ghost function Remaining(): seq<Byte>
      reads this
    {
      Flatten(fragments)
    }

    constructor (fragments: seq<seq<Byte>>)
      requires forall i | 0 <= i < |fragments| :: fragments[i] != []
      ensures Valid() && Remaining() == Flatten(fragments)
    {
      this.fragments := fragments;
    }

    method Read(max: nat) returns (got: seq<Byte>)
      requires Valid() && max > 0
      modifies this
      ensures Valid() && |got| <= max
      ensures got + Remaining() == old(Remaining())
      ensures got == [] ==> old(Remaining()) == []
    {
      if |fragments| == 0 {
        return [];
      }
      var first, rest := fragments[0], fragments[1..];
      if |first| <= max {
        got, fragments := first, rest;
      } else {
        got, fragments := first[..max], [first[max..]] + rest;
        assert fragments[0] == first[max..] && fragments[1..] == rest;
        assert first[..max] + (first[max..] + Flatten(rest)) == first + Flatten(rest);
      }
    }

    /** `read_exact`: reads until `n` bytes are there, or the stream ends first. */
    method ReadExact(n: nat) returns (r: Option<seq<Byte>>)
      requires Valid()
      modifies this
      ensures Valid()
      ensures if n <= |old(Remaining())|
              then r == Some(old(Remaining())[..n]) && Remaining() == old(Remaining())[n..]
              else r == None && Remaining() == []
    {
      var buffer: seq<Byte> := [];
      while |buffer| < n
        invariant Valid() && |buffer| <= n
        invariant buffer + Remaining() == old(Remaining())
        decreases n - |buffer|
      {
        var got := Read(n - |buffer|);
        if got == [] {
          return None;
        }
        buffer := buffer + got;
      }
      return Some(buffer);
    }

    method ReadFrame() returns (r: Result<Message, FrameError>)
      requires Valid()
      modifies this
      ensures Valid()
      ensures (r, Remaining()) == ParseFrame(old(Remaining()))
    {
      ghost var all := Remaining();
      var prefix := ReadExact(4);
      if prefix.None? {
        return Err(UnexpectedEof);
      }
      var len := BigEndian.FromBytes(prefix.value);
      if len > MAX_FRAME_LEN {
        return Err(TooLong(len));
      }
      var payload := ReadExact(len);
      if payload.None? {
        return Err(UnexpectedEof);
      }
      assert all[4..][..len] == all[4..4 + len] && all[4..][len..] == all[4 + len..];
      return Ok(payload.value);
    }

    /** A receiver's loop: frames until the first error, whatever the fragmentation. */
    method ReadAll() returns (messages: seq<Message>, error: FrameError)
      requires Valid()
      modifies this
      ensures Valid()
      ensures (messages, error) == ParseAll(old(Remaining()))
    {
      messages := [];
      ghost var (all, end) := ParseAll(Remaining());
      while true
        invariant Valid()
        invariant messages + ParseAll(Remaining()).0 == all && ParseAll(Remaining()).1 == end
        decreases |Remaining()|
      {
        ghost var later := ParseAll(Remaining()).0;
        var r := ReadFrame();
        if r.Err? {
          assert later == [] && messages + [] == messages;
          return messages, r.error;
        }
        assert later == [r.value] + ParseAll(Remaining()).0;
        assert messages + later == messages + [r.value] + ParseAll(Remaining()).0;
        messages := messages + [r.value];
      }
    }
  }

  // ----- round trips -----

  predicate Writable(messages: seq<Message>) { forall i | 0 <= i < |messages| :: |messages[i]| < TWO_32 }

  predicate Readable(messages: seq<Message>) { forall i | 0 <= i < |messages| :: |messages[i]| <= MAX_FRAME_LEN }

  /** The concatenated output of writing the messages. */
  function Wire(messages: seq<Message>): seq<Byte>
    requires Writable(messages)
  {
    if messages == [] then [] else Framed(messages[0]) + Wire(messages[1..])
  }

  /** A frame that was written is read back exactly when it is within the reader's limit. */
  lemma ReadsBackWithinLimit(data: Message, rest: seq<Byte>)
    requires |data| < TWO_32
    ensures ParseFrame(Framed(data) + rest)
            == if |data| <= 16_777_216 then (Ok(data), rest) else (Err(TooLong(|data|)), data + rest)
  {
    var bytes := Framed(data) + rest;
    BigEndian.FromUndoesTo(|data|);
    assert bytes[..4] == BigEndian.ToBytes(|data|);
    assert bytes[4..] == data + rest;
    if |data| <= MAX_FRAME_LEN {
      assert bytes[4..4 + |data|] == data && bytes[4 + |data|..] == rest;
    }
  }

  lemma {:induction false} ReadsOneMore(data: Message, rest: seq<Byte>)
    requires |data| <= MAX_FRAME_LEN
    ensures ParseAll(Framed(data) + rest) == ([data] + ParseAll(rest).0, ParseAll(rest).1)
  {
    ReadsBackWithinLimit(data, rest);
  }

  /** Any list of messages within the limit is read back whole, then the stream ends. */
  lemma {:induction false} AllReadBack(messages: seq<Message>)
    requires Readable(messages)
    ensures ParseAll(Wire(messages)) == (messages, UnexpectedEof)
  {
    if messages != [] {
      ReadsOneMore(messages[0], Wire(messages[1..]));
      AllReadBack(messages[1..]);
      assert [messages[0]] + messages[1..] == messages;
    }
  }

  /** What was written is read back whole exactly when every message is within the reader's limit. */
  lemma {:induction false} ReadBackExactly(messages: seq<Message>)
    requires Writable(messages)
    ensures ParseAll(Wire(messages)).0 == messages <==> Readable(messages)
  {
    if Readable(messages) {
      AllReadBack(messages);
    } else {
      var first := messages[0];
      ReadsBackWithinLimit(first, Wire(messages[1..]));
      if |first| <= MAX_FRAME_LEN {
        ReadsOneMore(first, Wire(messages[1..]));
        ReadBackExactly(messages[1..]);
        var later := ParseAll(Wire(messages[1..])).0;
        assert ([first] + later)[1..] == later;
      }
    }
  }

  lemma {:induction false} WireGrows(messages: seq<Message>, last: Message)
    requires Writable(messages) && |last| < TWO_32
    ensures Wire(messages + [last]) == Wire(messages) + Framed(last)
  {
    hide Framed;
    if messages == [] {
      assert messages + [last] == [last] && Wire([last][1..]) == [];
    } else {
      WireGrows(messages[1..], last);
      assert (messages + [last])[1..] == messages[1..] + [last];
      assert Framed(messages[0]) + (Wire(messages[1..]) + Framed(last)) == Wire(messages) + Framed(last);
    }
  }

  /** A sender's loop into a writer with room for everything. */
  method WriteAll(writer: ByteSink, messages: seq<Message>)
    requires Writable(messages) && writer.room >= |Wire(messages)|
    modifies writer
    ensures writer.bytes == old(writer.bytes) + Wire(messages)
  {
    var i := 0;
    assert messages[..0] == [];
    while i < |messages|
      invariant 0 <= i <= |messages|
      invariant writer.bytes == old(writer.bytes) + Wire(messages[..i])
      invariant writer.room + |Wire(messages[..i])| == old(writer.room)
    {
      assert messages[..i + 1] == messages[..i] + [messages[i]];
      WireGrows(messages[..i], messages[i]);
      WirePrefix(messages, i + 1);
      hide Framed, Wire;
      var wrote := WriteFrame(writer, messages[i]);
      assert Framed(messages[i])[..|Framed(messages[i])|] == Framed(messages[i]);
      i := i + 1;
    }
    assert messages[..i] == messages;
  }

  lemma {:induction false} WirePrefix(messages: seq<Message>, n: nat)
    requires Writable(messages) && n <= |messages|
    ensures |Wire(messages[..n])| <= |Wire(messages)|
  {
    if n > 0 {
      WirePrefix(messages[1..], n - 1);
      assert messages[..n][1..] == messages[1..][..n - 1];
    }
  }

  /**
   End to end: whatever list is written, and however the network cuts what was written
   into fragments, the receiver gets the list back exactly when every message is within
   its limit.
   */
  method Transfer(messages: seq<Message>, fragments: seq<seq<Byte>>) returns (received: seq<Message>, error: FrameError)
    requires Writable(messages)
    requires Flatten(fragments) == Wire(messages) && forall i | 0 <= i < |fragments| :: fragments[i] != []
    ensures received == messages <==> Readable(messages)
    ensures Readable(messages) ==> error == UnexpectedEof
  {
    var writer := new ByteSink(|Wire(messages)|);
    WriteAll(writer, messages);
    assert writer.bytes == Flatten(fragments);
    var reader := new ByteSource(fragments);
    received, error := reader.ReadAll();
    ReadBackExactly(messages);
    if Readable(messages) {
      AllReadBack(messages);
    }
  }

  /** A proper prefix of a frame ends the reading. */
  lemma CutFrameIsEof(data: Message, n: nat)
    requires |data| <= MAX_FRAME_LEN && n < |Framed(data)|
    ensures ParseAll(Framed(data)[..n]) == ([], UnexpectedEof)
  {
    if n >= 4 {
      assert Framed(data)[..n][..4] == BigEndian.ToBytes(|data|);
      BigEndian.FromUndoesTo(|data|);
    }
  }

  lemma CutInFirst<T>(a: seq<T>, b: seq<T>, n: nat)
    requires n <= |a|
    ensures (a + b)[..n] == a[..n]
  {}

  lemma CutInSecond<T>(a: seq<T>, b: seq<T>, n: nat)
    requires |a| <= n <= |a| + |b|
    ensures (a + b)[..n] == a + b[..n - |a|]
  {}

  lemma WireStartsWithFrame(messages: seq<Message>, k: nat)
    requires Readable(messages) && k < |messages|
    ensures Wire(messages[..k + 1]) == Framed(messages[0]) + Wire(messages[1..][..k])
  {
    assert messages[..k + 1][1..] == messages[1..][..k];
  }

  /** The first `k` messages fit wholly before a cut at `n`, and no more do. */
  ghost predicate EndsBefore(messages: seq<Message>, k: nat, n: nat) {
    && Readable(messages) && k <= |messages| && |Wire(messages[..k])| <= n
    && (k < |messages| ==> n < |Wire(messages[..k + 1])|)
  }

  lemma OneMoreEndsBefore(messages: seq<Message>, k: nat, n: nat)
    requires Readable(messages) && messages != [] && n >= |Framed(messages[0])|
    requires EndsBefore(messages[1..], k, n - |Framed(messages[0])|)
    ensures EndsBefore(messages, k + 1, n)
  {
    hide Framed, Wire;
    WireStartsWithFrame(messages, k);
    if k + 1 < |messages| {
      WireStartsWithFrame(messages, k + 1);
    }
  }

  /** Cut anywhere, the stream yields exactly the messages wholly before the cut, then an error. */
  lemma {:induction false} TruncationYieldsPrefix(messages: seq<Message>, n: nat) returns (k: nat)
    requires Readable(messages) && n <= |Wire(messages)|
    ensures EndsBefore(messages, k, n)
    ensures ParseAll(Wire(messages)[..n]) == (messages[..k], UnexpectedEof)
  {
    k := 0;
    if messages != [] {
      var frame, rest := Framed(messages[0]), Wire(messages[1..]);
      assert Wire(messages) == frame + rest;
      if n < |frame| {
        CutInFirst(frame, rest, n);
        CutFrameIsEof(messages[0], n);
        WireStartsWithFrame(messages, 0);
      } else {
        hide Framed, ParseAll, Wire;
        CutInSecond(frame, rest, n);
        ReadsOneMore(messages[0], rest[..n - |frame|]);
        k := TruncationYieldsPrefix(messages[1..], n - |frame|);
        OneMoreEndsBefore(messages, k, n);
        hide EndsBefore;
        assert messages[..k + 1] == [messages[0]] + messages[1..][..k];
        k := k + 1;
      }
    }
  }
}
