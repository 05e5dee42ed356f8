/** `FrameReassembler` of core/nexdesk-core/src/protocol/reassembly.rs, and what one `accept` keeps. */
module Reassembly {
  import opened Prelude

  type FrameId = U64
  type Data = seq<Byte>

  datatype Chunk = Chunk(frameId: FrameId, index: U32, total: U32, data: Data)

  datatype PartialFrame = PartialFrame(total: U32, received: map<U32, Data>)

  /**
   What `accept` returns.  `Panic` is the index panic of the concatenation loop: the
   frame was complete by count, but an index below its total is missing.
   */
  datatype Outcome = Invalid | Pending | Frame(bytes: Data) | Panic

  datatype State = State(capacity: nat, held: map<FrameId, PartialFrame>, order: seq<FrameId>)

  predicate Valid(c: Chunk) { c.total != 0 && c.index < c.total }

  function Without(order: seq<FrameId>, id: FrameId): seq<FrameId> {
    if order == [] then []
    else (if order[0] == id then [] else [order[0]]) + Without(order[1..], id)
  }

  /** Makes room for, and opens, the frame of a chunk that is not held yet. */
  function Opened(s: State, c: Chunk): State {
    if c.frameId in s.held then s
    else
      var room := if |s.held| >= s.capacity && |s.order| > 0
                  then s.(held := s.held - {s.order[0]}, order := s.order[1..]) else s;
      room.(held := room.held[c.frameId := PartialFrame(c.total, map[])], order := room.order + [c.frameId])
  }

  /** Records the chunk in its frame, which is held. */
  function Recorded(s: State, c: Chunk): State
    requires c.frameId in s.held
  {
    var f := s.held[c.frameId];
    s.(held := s.held[c.frameId := f.(received := f.received[c.index := c.data])])
  }

  /** The count compared as the source does, cut to 32 bits. */
  predicate CountsComplete(f: PartialFrame) { |f.received| % TWO_32 == f.total }

  predicate HasAll(f: PartialFrame) { forall i | 0 <= i < f.total :: i in f.received }

  /** The received pieces in index order. */
  function Joined(received: map<U32, Data>, n: U32): Data
    requires forall i | 0 <= i < n :: i in received
  {
    if n == 0 then [] else Joined(received, n - 1) + received[n - 1]
  }

  function Accepted(s: State, c: Chunk): (State, Outcome) {
    if !Valid(c) then (s, Invalid)
    else
      var s1 := Recorded(Opened(s, c), c);
      var f := s1.held[c.frameId];
      if !CountsComplete(f) then (s1, Pending)
      else (s1.(held := s1.held - {c.frameId}, order := Without(s1.order, c.frameId)),
            if HasAll(f) then Frame(Joined(f.received, f.total)) else Panic)
  }

  /** Exactly a chunk without a total, or with an index that is not below it, is refused, and then nothing changes. */
  lemma RefusesExactly(s: State, c: Chunk)
    ensures Accepted(s, c).1 == Invalid <==> c.total == 0 || c.index >= c.total
    ensures Accepted(s, c).1 == Invalid ==> Accepted(s, c).0 == s
  {}

  class FrameReassembler {
    const maxFramesBuffered: nat
    var held: map<FrameId, PartialFrame>
    var order: seq<FrameId>

    function Model(): State
      reads this
    {
      State(maxFramesBuffered, held, order)
    }

    /** The source asserts the same of its argument. */
    constructor (maxFramesBuffered: nat)
      requires maxFramesBuffered > 0
      ensures Model() == State(maxFramesBuffered, map[], [])
    {
      this.maxFramesBuffered := maxFramesBuffered;
      held := map[];
      order := [];
    }

    /** `self.order.retain(|&id| id != frame_id)`. */
    method Retain(frameId: FrameId)
      modifies this`order
      ensures order == Without(old(order), frameId)
    {
      var kept: seq<FrameId> := [];
      var i := 0;
      while i < |order|
        invariant 0 <= i <= |order| && order == old(order)
        invariant kept + Without(order[i..], frameId) == Without(order, frameId)
      {
        ghost var rest, later := order[i..], Without(order[i + 1..], frameId);
        assert rest[0] == order[i] && rest[1..] == order[i + 1..];
        if order[i] != frameId {
          assert Without(rest, frameId) == [order[i]] + later;
          assert kept + ([order[i]] + later) == kept + [order[i]] + later;
          kept := kept + [order[i]];
        } else {
          assert Without(rest, frameId) == [] + later == later;
        }
        i := i + 1;
      }
      order := kept;
    }

    /** Opens the chunk's frame unless it is held, evicting the oldest frame when the buffer is full. */
    method Open(chunk: Chunk)
      modifies this
      ensures Model() == Opened(old(Model()), chunk) && chunk.frameId in held
    {
      if chunk.frameId !in held {
        if |held| >= maxFramesBuffered {
          if |order| > 0 {
            var oldest := order[0];
            order := order[1..];
            held := held - {oldest};
          }
        }
        held := held[chunk.frameId := PartialFrame(chunk.total, map[])];
        order := order + [chunk.frameId];
      }
    }

    /** The concatenation loop; it panics at the first missing index. */
    static method Join(frame: PartialFrame) returns (r: Outcome)
      ensures r == if HasAll(frame) then Frame(Joined(frame.received, frame.total)) else Panic
    {
      var bytes: Data := [];
      var i: nat := 0;
      while i < frame.total
        invariant i <= frame.total
        invariant forall k | 0 <= k < i :: k in frame.received
        invariant bytes == Joined(frame.received, i)
      {
        if i !in frame.received {
          return Panic;
        }
        bytes := bytes + frame.received[i];
        i := i + 1;
      }
      return Frame(bytes);
    }

    method Accept(chunk: Chunk) returns (r: Outcome)
      modifies this
      ensures Model() == Accepted(old(Model()), chunk).0
      ensures r == Accepted(old(Model()), chunk).1
      ensures r == Invalid <==> chunk.total == 0 || chunk.index >= chunk.total
      ensures r == Invalid ==> Model() == old(Model())
    {
      RefusesExactly(Model(), chunk);
      hide Opened, Joined, HasAll, Without;
      if chunk.total == 0 || chunk.index >= chunk.total {
        return Invalid;
      }
      Open(chunk);
      var partial := held[chunk.frameId];
      var frame := partial.(received := partial.received[chunk.index := chunk.data]);
      held := held[chunk.frameId := frame];
      if |frame.received| % TWO_32 != frame.total {
        return Pending;
      }
      held := held - {chunk.frameId};
      Retain(chunk.frameId);
      r := Join(frame);
    }
  }

  // ----- what every accept keeps -----

  /** `order` lists exactly the frames held, each once. */
  ghost predicate ListsHeld(s: State) {
    multiset(s.order) == multiset(s.held.Keys)
  }

  /** Every held frame is waiting for at least one more chunk, and has at least one. */
  ghost predicate Incomplete(f: PartialFrame) {
    && 0 < |f.received| < f.total
    && forall i | i in f.received :: i < TWO_32 - 1
  }

  ghost predicate Inv(s: State) {
    && s.capacity > 0 && |s.held| <= s.capacity
    && ListsHeld(s)
    && forall id | id in s.held :: Incomplete(s.held[id])
  }

  lemma OrderHasNoDuplicates(s: State)
    requires ListsHeld(s)
    ensures forall i, j | 0 <= i < j < |s.order| :: s.order[i] != s.order[j]
    ensures forall id :: id in s.order <==> id in s.held
    ensures |s.order| == |s.held|
  {
    forall i, j | 0 <= i < j < |s.order| ensures s.order[i] != s.order[j] {
      var before, after := s.order[..j], s.order[j..];
      assert s.order == before + after;
      assert before[i] == s.order[i] && s.order[i] in before;
      assert after[0] == s.order[j] && s.order[j] in after;
      assert multiset(s.order) == multiset(before) + multiset(after);
      assert multiset(s.held.Keys)[s.order[i]] <= 1;
    }
    assert forall id :: id in s.order <==> id in multiset(s.order);
    assert |multiset(s.order)| == |multiset(s.held.Keys)|;
  }

  lemma {:induction false} WithoutRemoves(order: seq<FrameId>, id: FrameId)
    ensures multiset(Without(order, id)) == multiset(order)[id := 0]
  {
    if order != [] {
      WithoutRemoves(order[1..], id);
      assert order == [order[0]] + order[1..];
    }
  }

  /** Opening keeps the buffer bounded and evicts exactly the frame first in the order, when it must. */
  lemma OpeningEvictsOldest(s: State, c: Chunk)
    requires Inv(s)
    ensures var s' := Opened(s, c);
            && s'.capacity == s.capacity && c.frameId in s'.held && ListsHeld(s') && |s'.held| <= s.capacity
            && if c.frameId in s.held then s' == s
               else
                 && s'.held[c.frameId] == PartialFrame(c.total, map[])
                 && if |s.held| < s.capacity
                    then s'.held - {c.frameId} == s.held && s'.order == s.order + [c.frameId]
                    else |s.order| > 0 && s'.held - {c.frameId} == s.held - {s.order[0]}
                         && s'.order == s.order[1..] + [c.frameId]
  {
    OrderHasNoDuplicates(s);
    if c.frameId !in s.held {
      if |s.held| < s.capacity {
        OpeningIn(s, c);
      } else {
        EvictingKeepsList(s);
        OpeningIn(s.(held := s.held - {s.order[0]}, order := s.order[1..]), c);
      }
    }
  }

  lemma EvictingKeepsList(s: State)
    requires ListsHeld(s) && |s.order| > 0
    ensures ListsHeld(s.(held := s.held - {s.order[0]}, order := s.order[1..]))
    ensures s.order[0] in s.held && |s.held - {s.order[0]}| == |s.held| - 1
  {
    var oldest := s.order[0];
    assert s.order == [oldest] + s.order[1..];
    assert oldest in multiset(s.order);
    assert oldest in s.held;
    assert (s.held - {oldest}).Keys == s.held.Keys - {oldest};
    assert multiset(s.order) == multiset{oldest} + multiset(s.order[1..]);
    assert multiset(s.held.Keys - {oldest}) == multiset(s.held.Keys) - multiset{oldest};
  }

  lemma OpeningIn(room: State, c: Chunk)
    requires ListsHeld(room) && c.frameId !in room.held
    ensures var held := room.held[c.frameId := PartialFrame(c.total, map[])];
            && held - {c.frameId} == room.held && |held| == |room.held| + 1
            && ListsHeld(room.(held := held, order := room.order + [c.frameId]))
  {
    var held := room.held[c.frameId := PartialFrame(c.total, map[])];
    assert held.Keys == room.held.Keys + {c.frameId};
  }

  /** A count of indices below 2^32 - 1 is never cut by the 32-bit comparison. */
  lemma CountIsExact(f: PartialFrame)
    requires forall i | i in f.received :: i < TWO_32 - 1
    ensures |f.received| < TWO_32 && (CountsComplete(f) <==> |f.received| == f.total)
  {
    BoundedSetSize(f.received.Keys, 0, TWO_32 - 1);
  }

  /** One more index brings an incomplete or fresh frame to completion at most. */
  lemma RecordingCounts(f: PartialFrame, index: U32, data: Data)
    requires Incomplete(f) || (f.received == map[] && f.total > 0)
    requires index < TWO_32 - 1
    ensures var f' := f.(received := f.received[index := data]);
            && 0 < |f'.received| <= f.total
            && (CountsComplete(f') <==> |f'.received| == f.total)
            && (CountsComplete(f') || Incomplete(f'))
  {
    var f' := f.(received := f.received[index := data]);
    assert f'.received.Keys == f.received.Keys + {index};
    CountIsExact(f');
  }

  lemma RecordingKeepsRest(s: State, c: Chunk)
    requires c.frameId in s.held && ListsHeld(s)
    ensures var s' := Recorded(s, c);
            && s'.held.Keys == s.held.Keys && |s'.held| == |s.held| && ListsHeld(s') && s'.capacity == s.capacity
            && forall id | id in s.held && id != c.frameId :: s'.held[id] == s.held[id]
  {
    assert Recorded(s, c).held.Keys == s.held.Keys;
  }

  lemma {:induction false} ClosingKeepsRest(s: State, id: FrameId)
    requires id in s.held && ListsHeld(s)
    ensures ListsHeld(s.(held := s.held - {id}, order := Without(s.order, id)))
    ensures |s.held - {id}| == |s.held| - 1
  {
    WithoutRemoves(s.order, id);
    assert (s.held - {id}).Keys == s.held.Keys - {id};
  }

  /** The state after opening and recording, before the frame is closed if complete. */
  lemma RecordedState(s: State, c: Chunk)
    requires Inv(s) && Valid(c)
    ensures c.frameId in Opened(s, c).held
    ensures var s1 := Recorded(Opened(s, c), c);
            && s1.capacity == s.capacity && |s1.held| <= s.capacity && ListsHeld(s1) && c.frameId in s1.held
            && (CountsComplete(s1.held[c.frameId]) || Incomplete(s1.held[c.frameId]))
            && (forall id | id in s1.held && id != c.frameId :: Incomplete(s1.held[id]))
  {
    hide Opened, ListsHeld, Recorded, Incomplete, CountsComplete;
    OpeningEvictsOldest(s, c);
    var s0 := Opened(s, c);
    OthersStayIncomplete(s, s0, c);
    RecordingKeepsRest(s0, c);
    RecordedFrame(s0, c);
    RecordingCounts(s0.held[c.frameId], c.index, c.data);
  }

  /** After every accept the order lists the frames held, at most `capacity`, all incomplete. */
  lemma AcceptKeepsInv(s: State, c: Chunk)
    requires Inv(s)
    ensures Inv(Accepted(s, c).0)
  {
    if Valid(c) {
      RecordedState(s, c);
      ClosingKeepsRest(Recorded(Opened(s, c), c), c.frameId);
      hide Opened, ListsHeld, Recorded, Incomplete, CountsComplete;
    }
  }

  lemma RecordedFrame(s: State, c: Chunk)
    requires c.frameId in s.held
    ensures c.frameId in Recorded(s, c).held
    ensures var f := s.held[c.frameId];
            Recorded(s, c).held[c.frameId] == f.(received := f.received[c.index := c.data])
  {}

  lemma OthersStayIncomplete(s: State, s0: State, c: Chunk)
    requires Inv(s) && c.frameId in s0.held
    requires if c.frameId in s.held then s0 == s
             else s0.held - {c.frameId} == s.held || (|s.order| > 0 && s0.held - {c.frameId} == s.held - {s.order[0]})
    ensures forall id | id in s0.held && id != c.frameId :: Incomplete(s0.held[id])
  {
    forall id | id in s0.held && id != c.frameId ensures Incomplete(s0.held[id]) {
      assert id in s0.held - {c.frameId};
      assert id in s.held && s0.held[id] == s.held[id];
    }
  }

  // ----- one accept, frame by frame -----

  /** The chunk's frame once the chunk is recorded in it. */
  function FrameThen(s: State, c: Chunk): PartialFrame {
    var f := if c.frameId in s.held then s.held[c.frameId] else PartialFrame(c.total, map[]);
    f.(received := f.received[c.index := c.data])
  }

  /** A chunk of a frame not held, arriving when the buffer is full, evicts. */
  predicate Evicts(s: State, c: Chunk) { c.frameId !in s.held && |s.held| == s.capacity }

  /**
   A valid chunk touches its own frame, which is closed exactly when it reaches its
   count and held with the piece otherwise, and, when it evicts, the frame opened
   first; every other frame stays as it was.
   */
  lemma AcceptEffect(s: State, c: Chunk)
    requires Inv(s) && Valid(c)
    ensures var (s', r) := Accepted(s, c);
            var f := FrameThen(s, c);
            var complete := |f.received| == f.total;
            && s'.capacity == s.capacity
            && r == (if !complete then Pending else if HasAll(f) then Frame(Joined(f.received, f.total)) else Panic)
            && (c.frameId in s'.held <==> !complete)
            && (!complete ==> s'.held[c.frameId] == f)
            && (Evicts(s, c) ==> |s.order| > 0)
            && forall id | id != c.frameId ::
                 && (id in s'.held <==> id in s.held && !(Evicts(s, c) && id == s.order[0]))
                 && (id in s'.held ==> s'.held[id] == s.held[id])
  {
    OpeningEvictsOldest(s, c);
    RecordedState(s, c);
    hide Opened, Inv, ListsHeld;
    var s0 := Opened(s, c);
    RecordedFrame(s0, c);
    RecordingKeepsRest(s0, c);
    var s1 := Recorded(s0, c);
    hide Recorded, Incomplete;
    assert s1.held[c.frameId] == FrameThen(s, c);
    CompletesByCount(s, c);
    hide CountsComplete, HasAll, Joined, Without, FrameThen;
    OpenedOthers(s, s0, c);
  }

  /** In the buffer, completion by the 32-bit count is completion by the number of indices. */
  lemma CompletesByCount(s: State, c: Chunk)
    requires Inv(s) && Valid(c)
    ensures CountsComplete(FrameThen(s, c)) <==> |FrameThen(s, c).received| == FrameThen(s, c).total
  {
    if c.frameId in s.held {
      RecordingCounts(s.held[c.frameId], c.index, c.data);
    } else {
      RecordingCounts(PartialFrame(c.total, map[]), c.index, c.data);
    }
  }

  lemma OpenedOthers(s: State, s0: State, c: Chunk)
    requires c.frameId in s0.held && |s.held| <= s.capacity
    requires if c.frameId in s.held then s0 == s
             else if |s.held| < s.capacity then s0.held - {c.frameId} == s.held
             else |s.order| > 0 && s0.held - {c.frameId} == s.held - {s.order[0]}
    ensures Evicts(s, c) ==> |s.order| > 0
    ensures forall id | id != c.frameId ::
              && (id in s0.held <==> id in s.held && !(Evicts(s, c) && id == s.order[0]))
              && (id in s0.held ==> s0.held[id] == s.held[id])
  {
    forall id | id != c.frameId
      ensures id in s0.held <==> id in s.held && !(Evicts(s, c) && id == s.order[0])
      ensures id in s0.held ==> s0.held[id] == s.held[id]
    {
      assert id in s0.held <==> id in s0.held - {c.frameId};
    }
  }
}
