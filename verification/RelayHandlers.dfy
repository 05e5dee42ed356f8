/**
 The shared state and the loop of backend/internal/relay/relay.go, in the form the
 source gives them: the map behind `mu`, and `pipeOneDirection`.
 */
module RelayHandlers {
  import opened Prelude
  import opened RelayService

  /** The relay's `waiting` map; each method is the body of one lock section of `Stream`. */
  class Service {
    var waiting: map<Token, StreamId>

    constructor ()
      ensures waiting == map[]
    {
      waiting := map[];
    }

    /** Takes the waiter registered under the token, or registers this handler. */
    method TakeOrRegister(token: Token, h: StreamId) returns (peer: Option<StreamId>)
      modifies this
      ensures waiting == LockSection(old(waiting), token, h)
      ensures peer == if token in old(waiting) then Some(old(waiting)[token]) else None
      ensures forall t | t != token :: t in waiting <==> t in old(waiting)
    {
      if token in waiting {
        peer := Some(waiting[token]);
        waiting := waiting - {token};
      } else {
        peer := None;
        waiting := waiting[token := h];
      }
    }

    /** Removes this handler's registration, if it is still the one registered. */
    method RemoveIfOwn(token: Token, h: StreamId)
      modifies this
      ensures waiting == CancelSection(old(waiting), token, h)
      ensures forall t | t in old(waiting) && old(waiting)[t] != h :: t in waiting && waiting[t] == old(waiting)[t]
    {
      if token in waiting && waiting[token] == h {
        waiting := waiting - {token};
      }
    }
  }

  /**
   A gRPC stream: the frames its client will still deliver and how the delivery ends,
   and the frames written to its client with the number of sends that still succeed.
   */
  class Peer {
    var inbox: seq<Frame>
    const eof: bool
    var written: seq<Frame>
    var room: nat

    constructor (inbox: seq<Frame>, eof: bool, room: nat)
      ensures this.inbox == inbox && this.eof == eof && this.written == [] && this.room == room
    {
      this.inbox, this.eof, this.written, this.room := inbox, eof, [], room;
    }

    method Recv() returns (frame: Option<Frame>)
      modifies this`inbox
      ensures if old(inbox) == [] then frame == None && inbox == []
              else frame == Some(old(inbox)[0]) && inbox == old(inbox)[1..]
    {
      if inbox == [] {
        frame := None;
      } else {
        frame := Some(inbox[0]);
        inbox := inbox[1..];
      }
    }

    method Send(frame: Frame) returns (ok: bool)
      modifies this`written, this`room
      ensures ok <==> old(room) > 0
      ensures if ok then written == old(written) + [frame] && room == old(room) - 1
              else written == old(written) && room == old(room)
    {
      ok := room > 0;
      if ok {
        written, room := written + [frame], room - 1;
      }
    }
  }

  class ByteCounter {
    var total: nat

    constructor ()
      ensures total == 0
    {
      total := 0;
    }
  }

  /**
   Forwards until either side ends.  With `sent` frames forwarded, the destination
   got exactly the first `sent` frames in order; the counter counted them and, when a
   send failed, the one frame that was lost.
   */
  method PipeOneDirection(src: Peer, dst: Peer, counter: ByteCounter) returns (status: Status)
    requires src != dst
    modifies src`inbox, dst`written, dst`room, counter
    ensures var frames, sent := old(src.inbox), Min(|old(src.inbox)|, old(dst.room));
            var taken := Min(|frames|, sent + 1);
            && dst.written == old(dst.written) + frames[..sent]
            && src.inbox == frames[taken..]
            && counter.total == old(counter.total) + ByteCount(frames[..taken])
            && status == if taken > sent || !src.eof then StreamError else Fine
  {
    ghost var frames, room := src.inbox, dst.room;
    ghost var sent := 0;
    while true
      invariant 0 <= sent <= |frames| && sent <= room
      invariant src.inbox == frames[sent..] && dst.room == room - sent
      invariant dst.written == old(dst.written) + frames[..sent]
      invariant counter.total == old(counter.total) + ByteCount(frames[..sent])
      decreases |frames| - sent
    {
      var frame := src.Recv();
      if frame.None? {
        return if src.eof then Fine else StreamError;
      }
      assert frames[..sent + 1] == frames[..sent] + [frame.value];
      counter.total := counter.total + |frame.value|;
      var ok := dst.Send(frame.value);
      if !ok {
        return StreamError;
      }
      sent := sent + 1;
    }
  }
}
