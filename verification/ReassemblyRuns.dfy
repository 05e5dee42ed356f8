/** `FrameReassembler` over whole runs of chunks: when it panics, and the order of the frames held. */
module ReassemblyRuns {
  import opened Prelude
  import opened Reassembly

  function New(capacity: nat): State { State(capacity, map[], []) }

  /** The state after a run, and what its `k`-th accept returned. */
  function After(capacity: nat, cs: seq<Chunk>): State {
    if cs == [] then New(capacity)
    else Accepted(After(capacity, cs[..|cs| - 1]), cs[|cs| - 1]).0
  }

  function OutcomeAt(capacity: nat, cs: seq<Chunk>, k: nat): Outcome
    requires k < |cs|
  {
    Accepted(After(capacity, cs[..k]), cs[k]).1
  }

  lemma {:induction false} RunKeepsInv(capacity: nat, cs: seq<Chunk>)
    requires capacity > 0
    ensures Inv(After(capacity, cs)) && After(capacity, cs).capacity == capacity
  {
    if cs != [] {
      RunKeepsInv(capacity, cs[..|cs| - 1]);
      AcceptKeepsInv(After(capacity, cs[..|cs| - 1]), cs[|cs| - 1]);
    }
  }

  // ----- when the concatenation loop panics -----

  /**
   An accept panics exactly when it brings its frame to the count the frame was opened
   with while some index recorded for it, this chunk's included, is not below that count.
   */
  lemma PanicsExactlyWhen(s: State, c: Chunk)
    requires Inv(s)
    ensures var f := FrameThen(s, c);
            Accepted(s, c).1 == Panic <==>
              Valid(c) && |f.received| == f.total && exists i :: i in f.received && i >= f.total
  {
    if Valid(c) {
      AcceptEffect(s, c);
      hide Accepted, Inv, Joined;
      var f := FrameThen(s, c);
      if |f.received| == f.total {
        MissesIffBeyond(f.received.Keys, f.total);
      }
    }
  }

  /** Among `n` distinct indices, one below `n` is missing iff one is not below `n`. */
  lemma MissesIffBeyond(indices: set<U32>, n: nat)
    requires |indices| == n
    ensures (exists i :: i in indices && i >= n) <==> (exists i :: 0 <= i < n && i !in indices)
  {
    if forall i | i in indices :: i < n {
      FullSet(indices, n);
    } else if forall i | 0 <= i < n :: i in indices {
      var beyond :| beyond in indices && beyond >= n;
      assert Below(n) <= indices - {beyond};
      SubsetSize(Below(n), indices - {beyond});
    }
  }

  lemma {:induction false} SubsetSize<T>(a: set<T>, b: set<T>)
    requires a <= b
    ensures |a| <= |b|
  {
    if a != {} {
      var x :| x in a;
      SubsetSize(a - {x}, b - {x});
    }
  }

  /** Two chunks that disagree on the total are enough: index 5 of 6 completes a frame opened with 2. */
  lemma DisagreeingTotalsPanic(id: FrameId, a: Data, b: Data)
    ensures OutcomeAt(4, [Chunk(id, 0, 2, a), Chunk(id, 5, 6, b)], 1) == Panic
  {
    var c0, c1 := Chunk(id, 0, 2, a), Chunk(id, 5, 6, b);
    var cs := [c0, c1];
    assert cs[..1] == [c0] && [c0][..0] == [];
    var s1 := State(4, map[id := PartialFrame(2, map[0 := a])], [id]);
    CountIsExact(s1.held[id]);
    assert After(4, [c0]) == s1 by {
      assert Recorded(Opened(New(4), c0), c0) == s1;
    }
    RunKeepsInv(4, [c0]);
    assert FrameThen(s1, c1).received.Keys == {0, 5};
    assert 5 in FrameThen(s1, c1).received;
    PanicsExactlyWhen(s1, c1);
  }

  /** A chunk of frame `id` that `accept` does not refuse. */
  predicate Own(c: Chunk, id: FrameId) { Valid(c) && c.frameId == id }

  /** All accepted chunks of one frame announce one total. */
  ghost predicate AnnouncesTotal(cs: seq<Chunk>, id: FrameId, total: U32) {
    forall k | 0 <= k < |cs| && Own(cs[k], id) :: cs[k].total == total
  }

  ghost predicate Fits(s: State, id: FrameId, total: U32) {
    id in s.held ==> s.held[id].total == total && forall i | i in s.held[id].received :: i < total
  }

  lemma AcceptKeepsFits(s: State, c: Chunk, id: FrameId, total: U32)
    requires Inv(s) && Fits(s, id, total) && (Own(c, id) ==> c.total == total)
    ensures Fits(Accepted(s, c).0, id, total)
    ensures c.frameId == id ==> Accepted(s, c).1 != Panic
  {
    PanicsExactlyWhen(s, c);
    if Valid(c) {
      AcceptEffect(s, c);
      hide Accepted, Inv, Joined;
    }
  }

  lemma {:induction false} RunKeepsFits(capacity: nat, cs: seq<Chunk>, id: FrameId, total: U32)
    requires capacity > 0 && AnnouncesTotal(cs, id, total)
    ensures Fits(After(capacity, cs), id, total)
  {
    if cs != [] {
      var before := cs[..|cs| - 1];
      RunKeepsFits(capacity, before, id, total);
      RunKeepsInv(capacity, before);
      AcceptKeepsFits(After(capacity, before), cs[|cs| - 1], id, total);
    }
  }

  /**
   If the chunks of one frame agree on their total, no accept of that frame panics,
   whatever is lost, repeated or evicted and whatever other frames do.
   */
  lemma AgreeingTotalsNeverPanic(capacity: nat, cs: seq<Chunk>, id: FrameId, total: U32, k: nat)
    requires capacity > 0 && AnnouncesTotal(cs, id, total) && k < |cs| && cs[k].frameId == id
    ensures OutcomeAt(capacity, cs, k) != Panic
  {
    RunKeepsFits(capacity, cs[..k], id, total);
    RunKeepsInv(capacity, cs[..k]);
    AcceptKeepsFits(After(capacity, cs[..k]), cs[k], id, total);
  }

  // ----- what opening costs, and the order of the frames held -----

  /**
   Why the arriving chunk's frame counts as open: in a full buffer even a frame of one
   chunk, complete at once, evicts the frame opened first.
   */
  lemma SingleChunkFrameEvicts(s: State, c: Chunk)
    requires Inv(s) && |s.held| == s.capacity && c.frameId !in s.held && c.index == 0 && c.total == 1
    ensures |s.order| > 0 && s.order[0] in s.held
    ensures Accepted(s, c).1 == Frame(c.data)
    ensures Accepted(s, c).0.held.Keys == s.held.Keys - {s.order[0]}
  {
    OrderHasNoDuplicates(s);
    AcceptEffect(s, c);
    hide Accepted, Inv, ListsHeld;
    OnePiece(s, c);
    hide FrameThen, Joined;
    assert forall id :: id in Accepted(s, c).0.held <==> id in s.held && id != s.order[0];
  }

  lemma OnePiece(s: State, c: Chunk)
    requires c.frameId !in s.held && c.index == 0 && c.total == 1
    ensures var f := FrameThen(s, c);
            && f.total == 1 && |f.received| == 1 && HasAll(f) && Joined(f.received, 1) == c.data
  {
    assert FrameThen(s, c) == PartialFrame(1, map[0 := c.data]);
    assert Joined(map[0 := c.data], 1) == [] + c.data;
  }

  /** For every frame opened in the run, the position of the accept that last opened it. */
  function OpenedAt(capacity: nat, cs: seq<Chunk>): map<FrameId, nat> {
    if cs == [] then map[]
    else
      var before, c := cs[..|cs| - 1], cs[|cs| - 1];
      var times := OpenedAt(capacity, before);
      if Valid(c) && c.frameId !in After(capacity, before).held then times[c.frameId := |before|] else times
  }

  ghost predicate InOpeningOrder(order: seq<FrameId>, times: map<FrameId, nat>) {
    && (forall id | id in order :: id in times)
    && forall i, j | 0 <= i < j < |order| :: times[order[i]] < times[order[j]]
  }

  lemma AppendingKeepsOpeningOrder(order: seq<FrameId>, id: FrameId, times: map<FrameId, nat>, now: nat)
    requires InOpeningOrder(order, times) && id !in order
    requires forall x | x in times :: times[x] < now
    ensures InOpeningOrder(order + [id], times[id := now])
  {
    var longer, times' := order + [id], times[id := now];
    forall i, j | 0 <= i < j < |longer| ensures times'[longer[i]] < times'[longer[j]] {
      assert order[i] in order;
      if j < |order| {
        assert order[j] in order;
      }
    }
  }

  lemma TailKeepsOpeningOrder(order: seq<FrameId>, times: map<FrameId, nat>)
    requires InOpeningOrder(order, times) && |order| > 0
    ensures InOpeningOrder(order[1..], times)
    ensures forall x | x in order[1..] :: x in order && times[order[0]] < times[x]
  {
    forall x | x in order[1..] ensures x in order && times[order[0]] < times[x] {
      var j :| 0 <= j < |order| - 1 && order[1..][j] == x;
      assert order[j + 1] == x;
    }
  }

  lemma {:induction false} WithoutKeepsOpeningOrder(order: seq<FrameId>, id: FrameId, times: map<FrameId, nat>)
    requires InOpeningOrder(order, times)
    ensures InOpeningOrder(Without(order, id), times)
    ensures forall x | x in Without(order, id) :: x in order
  {
    if order != [] {
      TailKeepsOpeningOrder(order, times);
      WithoutKeepsOpeningOrder(order[1..], id, times);
    }
  }

  /** Opening appends at the end, and eviction takes from the front. */
  lemma OpeningKeepsOpeningOrder(s: State, c: Chunk, times: map<FrameId, nat>, now: nat)
    requires InOpeningOrder(s.order, times) && ListsHeld(s)
    requires forall id | id in times :: times[id] < now
    ensures InOpeningOrder(Opened(s, c).order, if c.frameId in s.held then times else times[c.frameId := now])
  {
    OrderHasNoDuplicates(s);
    hide ListsHeld, InOpeningOrder;
    if c.frameId !in s.held {
      if |s.held| >= s.capacity && |s.order| > 0 {
        TailKeepsOpeningOrder(s.order, times);
        AppendingKeepsOpeningOrder(s.order[1..], c.frameId, times, now);
      } else {
        AppendingKeepsOpeningOrder(s.order, c.frameId, times, now);
      }
    }
  }

  /** In every reachable state the held frames are listed by when they were opened, earliest first. */
  lemma {:induction false} HeldInOpeningOrder(capacity: nat, cs: seq<Chunk>)
    requires capacity > 0
    ensures InOpeningOrder(After(capacity, cs).order, OpenedAt(capacity, cs))
    ensures forall id | id in OpenedAt(capacity, cs) :: OpenedAt(capacity, cs)[id] < |cs|
  {
    if cs != [] {
      var before, c := cs[..|cs| - 1], cs[|cs| - 1];
      var s := After(capacity, before);
      HeldInOpeningOrder(capacity, before);
      RunKeepsInv(capacity, before);
      if Valid(c) {
        OpeningKeepsOpeningOrder(s, c, OpenedAt(capacity, before), |before|);
        WithoutKeepsOpeningOrder(Opened(s, c).order, c.frameId, OpenedAt(capacity, cs));
        RecordedState(s, c);
        RecordingKeepsOrder(Opened(s, c), c);
        hide Opened, Recorded, Inv, InOpeningOrder;
      }
    }
  }

  lemma RecordingKeepsOrder(s: State, c: Chunk)
    requires c.frameId in s.held
    ensures Recorded(s, c).order == s.order
  {}
}
