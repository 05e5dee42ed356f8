/** Delivery by `FrameReassembler` over whole runs: what becomes of one frame, whatever the other frames do. */
module ReassemblyDelivery {
  import opened Prelude
  import opened Reassembly
  import opened ReassemblyRuns

  /** The chunk `c` makes the buffer drop frame `id`. */
  predicate EvictsFrame(s: State, c: Chunk, id: FrameId) {
    Valid(c) && Evicts(s, c) && |s.order| > 0 && s.order[0] == id
  }

  /** Frame `id` is never the one evicted. */
  ghost predicate NeverEvicted(capacity: nat, cs: seq<Chunk>, id: FrameId) {
    forall k | 0 <= k < |cs| :: !EvictsFrame(After(capacity, cs[..k]), cs[k], id)
  }

  // ----- one frame through a run -----

  /** The pieces on hand of frame `id` of `total` chunks, after `c`: none once they are all there. */
  function Gather(g: map<U32, Data>, c: Chunk, id: FrameId, total: U32): map<U32, Data> {
    if !Own(c, id) then g
    else
      var now := g[c.index := c.data];
      if |now| == total then map[] else now
  }

  /** The pieces a run has brought since the frame was last complete. */
  function Gathered(cs: seq<Chunk>, id: FrameId, total: U32): map<U32, Data> {
    if cs == [] then map[] else Gather(Gathered(cs[..|cs| - 1], id, total), cs[|cs| - 1], id, total)
  }

  /** The buffer holds of frame `id` exactly the pieces `g`, which are not all. */
  ghost predicate HoldsOf(s: State, id: FrameId, total: U32, g: map<U32, Data>) {
    && |g| < total && (forall i | i in g :: i < total)
    && (id in s.held <==> g != map[])
    && (id in s.held ==> s.held[id] == PartialFrame(total, g))
  }

  lemma GatheringFills(g: map<U32, Data>, c: Chunk, id: FrameId, total: U32)
    requires |g| < total && (forall i | i in g :: i < total) && Own(c, id) && c.total == total
    ensures var now := g[c.index := c.data];
            && 0 < |now| <= total && (forall i | i in now :: i < total)
            && (|now| == total ==> forall i | 0 <= i < total :: i in now)
  {
    var now := g[c.index := c.data];
    assert now.Keys == g.Keys + {c.index};
    BoundedSetSize(now.Keys, 0, total);
    if |now.Keys| == total {
      FullSet(now.Keys, total);
    }
  }

  /** One accept, seen from frame `id`. */
  lemma {:induction false} AcceptKeepsHolds(s: State, c: Chunk, id: FrameId, total: U32, g: map<U32, Data>)
    requires Inv(s) && HoldsOf(s, id, total, g) && !EvictsFrame(s, c, id) && (Own(c, id) ==> c.total == total)
    ensures HoldsOf(Accepted(s, c).0, id, total, Gather(g, c, id, total))
    ensures Own(c, id) ==>
              var now := g[c.index := c.data];
              if |now| < total then Accepted(s, c).1 == Pending
              else (forall i | 0 <= i < total :: i in now) && Accepted(s, c).1 == Frame(Joined(now, total))
  {
    if Valid(c) {
      AcceptEffect(s, c);
      hide Accepted, Inv, Joined;
      if c.frameId == id {
        GatheringFills(g, c, id, total);
        assert FrameThen(s, c) == PartialFrame(total, g[c.index := c.data]);
      }
    }
  }

  lemma {:induction false} RunKeepsHolds(capacity: nat, cs: seq<Chunk>, id: FrameId, total: U32)
    requires capacity > 0 && total > 0 && AnnouncesTotal(cs, id, total) && NeverEvicted(capacity, cs, id)
    ensures HoldsOf(After(capacity, cs), id, total, Gathered(cs, id, total))
  {
    if cs != [] {
      var before, c := cs[..|cs| - 1], cs[|cs| - 1];
      forall k | 0 <= k < |before| ensures !EvictsFrame(After(capacity, before[..k]), before[k], id) {
        assert before[..k] == cs[..k] && before[k] == cs[k];
      }
      RunKeepsHolds(capacity, before, id, total);
      RunKeepsInv(capacity, before);
      AcceptKeepsHolds(After(capacity, before), c, id, total, Gathered(before, id, total));
    }
  }

  /**
   For a frame that is never evicted, every accept of one of its chunks returns the
   pieces on hand, joined, exactly when that chunk completes them.
   */
  lemma {:induction false} EveryOutcomeExpected(capacity: nat, cs: seq<Chunk>, id: FrameId, total: U32, k: nat)
    requires capacity > 0 && AnnouncesTotal(cs, id, total) && NeverEvicted(capacity, cs, id)
    requires k < |cs| && Own(cs[k], id)
    ensures var now := Gathered(cs[..k], id, total)[cs[k].index := cs[k].data];
            if |now| < total then OutcomeAt(capacity, cs, k) == Pending
            else (forall i | 0 <= i < total :: i in now) && OutcomeAt(capacity, cs, k) == Frame(Joined(now, total))
  {
    forall j | 0 <= j < k ensures !EvictsFrame(After(capacity, cs[..k][..j]), cs[..k][j], id) {
      assert cs[..k][..j] == cs[..j];
    }
    RunKeepsHolds(capacity, cs[..k], id, total);
    RunKeepsInv(capacity, cs[..k]);
    AcceptKeepsHolds(After(capacity, cs[..k]), cs[k], id, total, Gathered(cs[..k], id, total));
  }

  // ----- when the accept of a frame panics -----

  /** The total that the chunk opening a frame announced, and the distinct indices since. */
  datatype Round = Round(total: U32, indices: set<U32>)

  function Joining(r: Option<Round>, c: Chunk): Round {
    var now := if r.None? then Round(c.total, {}) else r.value;
    now.(indices := now.indices + {c.index})
  }

  /** The round of frame `id` that a run has begun and not finished. */
  function RoundOf(cs: seq<Chunk>, id: FrameId): Option<Round> {
    if cs == [] then None
    else
      var r, c := RoundOf(cs[..|cs| - 1], id), cs[|cs| - 1];
      NextRound(r, c, id)
  }

  function NextRound(r: Option<Round>, c: Chunk, id: FrameId): Option<Round> {
    if !Own(c, id) then r
    else if |Joining(r, c).indices| == Joining(r, c).total then None else Some(Joining(r, c))
  }

  ghost predicate HoldsRound(s: State, id: FrameId, r: Option<Round>) {
    && (id in s.held <==> r.Some?)
    && (r.Some? ==> s.held[id].total == r.value.total && s.held[id].received.Keys == r.value.indices)
  }

  ghost predicate Overshoots(r: Round) { |r.indices| == r.total && exists i :: i in r.indices && i >= r.total }

  lemma AcceptKeepsRound(s: State, c: Chunk, id: FrameId, r: Option<Round>)
    requires Inv(s) && HoldsRound(s, id, r) && !EvictsFrame(s, c, id)
    ensures HoldsRound(Accepted(s, c).0, id, NextRound(r, c, id))
    ensures Own(c, id) ==> (Accepted(s, c).1 == Panic <==> Overshoots(Joining(r, c)))
  {
    if Own(c, id) {
      OwnKeepsRound(s, c, r);
    } else if Valid(c) {
      AcceptEffect(s, c);
    }
    hide Inv, Joining, Overshoots, Joined;
  }

  lemma OwnKeepsRound(s: State, c: Chunk, r: Option<Round>)
    requires Inv(s) && HoldsRound(s, c.frameId, r) && Valid(c)
    ensures HoldsRound(Accepted(s, c).0, c.frameId, NextRound(r, c, c.frameId))
    ensures Accepted(s, c).1 == Panic <==> Overshoots(Joining(r, c))
  {
    hide Accepted, Inv, Joined, Overshoots, FrameThen, Joining, HasAll;
    AcceptEffect(s, c);
    PanicsExactlyWhen(s, c);
    JoinsRound(s, c, r);
  }

  /** The chunk's frame once the chunk is recorded has the total and the indices of the round it joins. */
  lemma JoinsRound(s: State, c: Chunk, r: Option<Round>)
    requires HoldsRound(s, c.frameId, r)
    ensures var f, now := FrameThen(s, c), Joining(r, c);
            && f.total == now.total && f.received.Keys == now.indices && |f.received| == |now.indices|
            && (Overshoots(now) <==> |f.received| == f.total && exists i :: i in f.received && i >= f.total)
  {
    var f, now := FrameThen(s, c), Joining(r, c);
    assert f.received.Keys == now.indices;
    assert |f.received| == |f.received.Keys|;
    assert forall i :: i in f.received <==> i in now.indices;
  }

  lemma {:induction false} RunKeepsRound(capacity: nat, cs: seq<Chunk>, id: FrameId)
    requires capacity > 0 && NeverEvicted(capacity, cs, id)
    ensures HoldsRound(After(capacity, cs), id, RoundOf(cs, id))
  {
    if cs != [] {
      var before, c := cs[..|cs| - 1], cs[|cs| - 1];
      forall k | 0 <= k < |before| ensures !EvictsFrame(After(capacity, before[..k]), before[k], id) {
        assert before[..k] == cs[..k] && before[k] == cs[k];
      }
      RunKeepsRound(capacity, before, id);
      RunKeepsInv(capacity, before);
      AcceptKeepsRound(After(capacity, before), c, id, RoundOf(before, id));
    }
  }

  /**
   From the chunks alone, for a frame that is never evicted: an accept of it panics exactly
   when the distinct indices since it was opened come to the total its first chunk
   announced while one of them is not below that total.
   */
  lemma {:induction false} PanicsExactlyAt(capacity: nat, cs: seq<Chunk>, id: FrameId, k: nat)
    requires capacity > 0 && NeverEvicted(capacity, cs, id) && k < |cs| && Own(cs[k], id)
    ensures OutcomeAt(capacity, cs, k) == Panic <==> Overshoots(Joining(RoundOf(cs[..k], id), cs[k]))
  {
    forall j | 0 <= j < k ensures !EvictsFrame(After(capacity, cs[..k][..j]), cs[..k][j], id) {
      assert cs[..k][..j] == cs[..j];
    }
    RunKeepsRound(capacity, cs[..k], id);
    RunKeepsInv(capacity, cs[..k]);
    AcceptKeepsRound(After(capacity, cs[..k]), cs[k], id, RoundOf(cs[..k], id));
  }

  // ----- a frame cut into pieces -----

  /** Chunk `i` of the payload cut into `parts`. */
  function Piece(id: FrameId, parts: seq<Data>, i: nat): Chunk
    requires i < |parts| < TWO_32
  {
    Chunk(id, i, |parts|, parts[i])
  }

  /** The accepted chunks of frame `id` are pieces of `parts`, in any order and any number of times. */
  ghost predicate OnlyPieces(cs: seq<Chunk>, id: FrameId, parts: seq<Data>) {
    forall k | 0 <= k < |cs| && Own(cs[k], id) :: cs[k].total == |parts| && cs[k].data == parts[cs[k].index]
  }

  ghost predicate HasAllPieces(cs: seq<Chunk>, id: FrameId, parts: seq<Data>)
    requires |parts| < TWO_32
  {
    forall i: nat | i < |parts| :: Piece(id, parts, i) in cs
  }

  /** `g` is made of pieces that `cs` brought: of all of them, as long as some piece is missing. */
  ghost predicate MadeOf(g: map<U32, Data>, cs: seq<Chunk>, id: FrameId, parts: seq<Data>)
    requires |parts| < TWO_32
  {
    && (forall i | i in g :: i < |parts| && g[i] == parts[i] && Piece(id, parts, i) in cs)
    && (HasAllPieces(cs, id, parts) || forall i: nat | i < |parts| && Piece(id, parts, i) in cs :: i in g)
  }

  lemma AllStayWhenMore(before: seq<Chunk>, c: Chunk, id: FrameId, parts: seq<Data>)
    requires |parts| < TWO_32 && HasAllPieces(before, id, parts)
    ensures HasAllPieces(before + [c], id, parts)
  {}

  /** One more piece completes those on hand only when the run has brought all, and then if some were missing. */
  lemma NextPiece(g: map<U32, Data>, before: seq<Chunk>, c: Chunk, id: FrameId, parts: seq<Data>)
    requires 0 < |parts| < TWO_32 && |g| < |parts| && MadeOf(g, before, id, parts)
    requires Own(c, id) && c.total == |parts| && c.data == parts[c.index]
    ensures var now, cs := g[c.index := c.data], before + [c];
            && |now| <= |parts| && MadeOf(now, cs, id, parts)
            && (|now| == |parts| ==> HasAllPieces(cs, id, parts))
            && (HasAllPieces(cs, id, parts) && !HasAllPieces(before, id, parts) ==> |now| == |parts|)
  {
    var now, cs := g[c.index := c.data], before + [c];
    assert c == Piece(id, parts, c.index) && c in cs;
    GatheringFills(g, c, id, |parts|);
    if |now| == |parts| {
      forall i: nat | i < |parts| ensures Piece(id, parts, i) in cs {
        assert i in now;
      }
    }
    if !HasAllPieces(before, id, parts) {
      forall i: nat | i < |parts| && Piece(id, parts, i) in cs ensures i in now {
        assert Piece(id, parts, i) in before || Piece(id, parts, i) == c;
      }
      if HasAllPieces(cs, id, parts) {
        AllIndices(now.Keys, |parts|);
      }
    } else {
      AllStayWhenMore(before, c, id, parts);
    }
  }

  lemma AllIndices(indices: set<U32>, n: nat)
    requires n < TWO_32 && (forall i | i in indices :: i < n) && forall i: nat | i < n :: i in indices
    ensures |indices| == n
  {
    assert indices == Below(n);
  }

  lemma {:induction false} GatheredPieces(cs: seq<Chunk>, id: FrameId, parts: seq<Data>)
    requires 0 < |parts| < TWO_32 && OnlyPieces(cs, id, parts)
    ensures var g := Gathered(cs, id, |parts|); |g| < |parts| && MadeOf(g, cs, id, parts)
  {
    if cs != [] {
      var before, c := cs[..|cs| - 1], cs[|cs| - 1];
      assert cs == before + [c];
      GatheredPieces(before, id, parts);
      var g := Gathered(before, id, |parts|);
      if Own(c, id) {
        NextPiece(g, before, c, id, parts);
      } else {
        OtherChunk(g, before, c, id, parts);
      }
    }
  }

  lemma OtherChunk(g: map<U32, Data>, before: seq<Chunk>, c: Chunk, id: FrameId, parts: seq<Data>)
    requires 0 < |parts| < TWO_32 && MadeOf(g, before, id, parts) && !Own(c, id)
    ensures MadeOf(g, before + [c], id, parts)
  {
    assert forall i: nat | i < |parts| :: Own(Piece(id, parts, i), id);
    assert forall i: nat | i < |parts| :: Piece(id, parts, i) in before + [c] <==> Piece(id, parts, i) in before;
  }

  lemma {:induction false} JoinedIsFlat(received: map<U32, Data>, parts: seq<Data>, n: nat)
    requires n <= |parts| < TWO_32 && forall i | 0 <= i < n :: i in received && received[i] == parts[i]
    ensures Joined(received, n) == Flatten(parts[..n])
  {
    if n > 0 {
      JoinedIsFlat(received, parts, n - 1);
      assert parts[..n] == parts[..n - 1] + [parts[n - 1]];
      FlattenSnoc(parts[..n - 1], parts[n - 1]);
    }
  }

  lemma OwnIsPiece(cs: seq<Chunk>, id: FrameId, parts: seq<Data>, k: nat)
    requires OnlyPieces(cs, id, parts) && k < |cs| && Own(cs[k], id)
    ensures cs[k].index < |parts| && cs[k].total == |parts| && cs[k].data == parts[cs[k].index]
  {}

  /** Every accept of a piece returns the whole payload if the piece completes those on hand, and nothing yet if not. */
  lemma {:induction false} PayloadOrPending(capacity: nat, cs: seq<Chunk>, id: FrameId, parts: seq<Data>, k: nat)
    requires capacity > 0 && 0 < |parts| < TWO_32 && OnlyPieces(cs, id, parts) && NeverEvicted(capacity, cs, id)
    requires k < |cs| && Own(cs[k], id)
    ensures var now := Gathered(cs[..k], id, |parts|)[cs[k].index := cs[k].data];
            OutcomeAt(capacity, cs, k) == if |now| == |parts| then Frame(Flatten(parts)) else Pending
  {
    assert OnlyPieces(cs[..k], id, parts) && AnnouncesTotal(cs, id, |parts|);
    hide NeverEvicted, OutcomeAt, OnlyPieces, AnnouncesTotal, MadeOf, HasAllPieces, Gathered, Flatten, Joined;
    EveryOutcomeExpected(capacity, cs, id, |parts|, k);
    OwnIsPiece(cs, id, parts, k);
    GatheredPieces(cs[..k], id, parts);
    var g := Gathered(cs[..k], id, |parts|);
    NextPiece(g, cs[..k], cs[k], id, parts);
    var now := g[cs[k].index := cs[k].data];
    if |now| == |parts| {
      PiecesJoined(now, cs[..k] + [cs[k]], id, parts);
    }
  }

  lemma {:induction false} PiecesJoined(now: map<U32, Data>, cs: seq<Chunk>, id: FrameId, parts: seq<Data>)
    requires |parts| < TWO_32 && MadeOf(now, cs, id, parts) && forall i | 0 <= i < |parts| :: i in now
    ensures Joined(now, |parts|) == Flatten(parts)
  {
    JoinedIsFlat(now, parts, |parts|);
    assert parts[..|parts|] == parts;
  }

  /** The first chunk with which all pieces have come. */
  lemma {:induction false} FirstWhole(cs: seq<Chunk>, id: FrameId, parts: seq<Data>) returns (last: nat)
    requires 0 < |parts| < TWO_32 && HasAllPieces(cs, id, parts)
    ensures last < |cs| && Own(cs[last], id)
    ensures HasAllPieces(cs[..last + 1], id, parts) && !HasAllPieces(cs[..last], id, parts)
  {
    assert Piece(id, parts, 0) in cs;
    last := |cs| - 1;
    assert cs[..last + 1] == cs && cs == cs[..last] + [cs[last]];
    if HasAllPieces(cs[..last], id, parts) {
      var n := last;
      last := FirstWhole(cs[..n], id, parts);
      assert cs[..n][..last + 1] == cs[..last + 1] && cs[..n][..last] == cs[..last];
    } else {
      var i: nat :| i < |parts| && Piece(id, parts, i) !in cs[..last];
      assert Piece(id, parts, i) in cs;
    }
  }

  lemma FrontOfTail<T>(s: seq<T>, m: nat, n: nat)
    requires m <= n <= |s|
    ensures s[..n][..m] == s[..m] && s[..n][m..] == s[m..][..n - m]
  {}

  lemma {:induction false} GatheredRestarts(cs: seq<Chunk>, m: nat, id: FrameId, total: U32)
    requires m <= |cs| && Gathered(cs[..m], id, total) == map[]
    ensures Gathered(cs, id, total) == Gathered(cs[m..], id, total)
    decreases |cs|
  {
    if m == |cs| {
      assert cs[..m] == cs;
    } else {
      var n := |cs| - 1;
      var before, tail := cs[..n], cs[m..];
      FrontOfTail(cs, m, n);
      assert tail[..|tail| - 1] == before[m..] && tail[|tail| - 1] == cs[n];
      GatheredRestarts(before, m, id, total);
    }
  }

  /** Up to the chunk with which all pieces have come, only that chunk delivers. */
  lemma {:induction false} FirstDelivery(capacity: nat, cs: seq<Chunk>, id: FrameId, parts: seq<Data>, k: nat)
    requires capacity > 0 && 0 < |parts| < TWO_32 && OnlyPieces(cs, id, parts) && NeverEvicted(capacity, cs, id)
    requires k < |cs| && Own(cs[k], id) && !HasAllPieces(cs[..k], id, parts)
    ensures OutcomeAt(capacity, cs, k)
            == if HasAllPieces(cs[..k + 1], id, parts) then Frame(Flatten(parts)) else Pending
    ensures HasAllPieces(cs[..k + 1], id, parts) ==> Gathered(cs[..k + 1], id, |parts|) == map[]
  {
    assert OnlyPieces(cs[..k], id, parts);
    assert cs[..k + 1] == cs[..k] + [cs[k]] && cs[..k + 1][..k] == cs[..k];
    hide NeverEvicted, OutcomeAt, OnlyPieces, HasAllPieces, MadeOf, Flatten;
    OwnIsPiece(cs, id, parts, k);
    PayloadOrPending(capacity, cs, id, parts, k);
    GatheredPieces(cs[..k], id, parts);
    NextPiece(Gathered(cs[..k], id, |parts|), cs[..k], cs[k], id, parts);
  }

  /** After the first delivery a chunk delivers only when all pieces have come again; the first such does. */
  lemma {:induction false} LaterDelivery(
      capacity: nat, cs: seq<Chunk>, id: FrameId, parts: seq<Data>, last: nat, k: nat)
    requires capacity > 0 && 0 < |parts| < TWO_32 && OnlyPieces(cs, id, parts) && NeverEvicted(capacity, cs, id)
    requires last < k < |cs| && Own(cs[k], id) && Gathered(cs[..last + 1], id, |parts|) == map[]
    ensures OutcomeAt(capacity, cs, k) == Pending ||
            (OutcomeAt(capacity, cs, k) == Frame(Flatten(parts)) && HasAllPieces(cs[last + 1..k + 1], id, parts))
    ensures HasAllPieces(cs[last + 1..k + 1], id, parts) && !HasAllPieces(cs[last + 1..k], id, parts) ==>
              OutcomeAt(capacity, cs, k) == Frame(Flatten(parts))
  {
    hide NeverEvicted, OutcomeAt, OnlyPieces, HasAllPieces, MadeOf, Gathered, Flatten;
    PayloadOrPending(capacity, cs, id, parts, k);
    GatheredSince(cs, last + 1, k, id, parts);
    OwnIsPiece(cs, id, parts, k);
    assert cs[last + 1..k + 1] == cs[last + 1..k] + [cs[k]];
    NextPiece(Gathered(cs[..k], id, |parts|), cs[last + 1..k], cs[k], id, parts);
  }

  lemma {:induction false} GatheredSince(cs: seq<Chunk>, m: nat, k: nat, id: FrameId, parts: seq<Data>)
    requires m <= k <= |cs| && 0 < |parts| < TWO_32 && OnlyPieces(cs, id, parts)
    requires Gathered(cs[..m], id, |parts|) == map[]
    ensures var g := Gathered(cs[..k], id, |parts|); |g| < |parts| && MadeOf(g, cs[m..k], id, parts)
  {
    var upTo := cs[..k];
    assert upTo[..m] == cs[..m] && upTo[m..] == cs[m..k];
    GatheredRestarts(upTo, m, id, |parts|);
    GatheredPieces(cs[m..k], id, parts);
  }

  /**
   A frame all of whose pieces arrive, in any order, repeated or not, between any chunks
   of other frames, valid or not, is delivered with its original payload by the chunk with
   which all have come (`last`), and by none before it.  It is delivered again exactly when
   all its pieces come again after that.
   */
  lemma DeliveredOnce(capacity: nat, cs: seq<Chunk>, id: FrameId, parts: seq<Data>) returns (last: nat)
    requires capacity > 0 && 0 < |parts| < TWO_32 && OnlyPieces(cs, id, parts) && NeverEvicted(capacity, cs, id)
    requires HasAllPieces(cs, id, parts)
    ensures last < |cs| && Own(cs[last], id)
    ensures HasAllPieces(cs[..last + 1], id, parts) && !HasAllPieces(cs[..last], id, parts)
    ensures OutcomeAt(capacity, cs, last) == Frame(Flatten(parts))
    ensures forall k | 0 <= k < last && Own(cs[k], id) :: OutcomeAt(capacity, cs, k) == Pending
    ensures (forall k | last < k < |cs| && Own(cs[k], id) :: OutcomeAt(capacity, cs, k) == Pending) <==>
              !HasAllPieces(cs[last + 1..], id, parts)
  {
    hide NeverEvicted, OutcomeAt, OnlyPieces, Gathered, Flatten;
    last := FirstWhole(cs, id, parts);
    FirstDelivery(capacity, cs, id, parts, last);
    forall k | 0 <= k < last && Own(cs[k], id) ensures OutcomeAt(capacity, cs, k) == Pending {
      SomeStillMissing(cs, k, last, id, parts);
      FirstDelivery(capacity, cs, id, parts, k);
    }
    var later := cs[last + 1..];
    if HasAllPieces(later, id, parts) {
      var again := FirstWhole(later, id, parts);
      var k := last + 1 + again;
      assert later[..again + 1] == cs[last + 1..k + 1] && later[..again] == cs[last + 1..k] && later[again] == cs[k];
      LaterDelivery(capacity, cs, id, parts, last, k);
    } else {
      forall k | last < k < |cs| && Own(cs[k], id) ensures OutcomeAt(capacity, cs, k) == Pending {
        LaterDelivery(capacity, cs, id, parts, last, k);
        assert forall c | c in cs[last + 1..k + 1] :: c in later;
      }
    }
  }

  lemma SomeStillMissing(cs: seq<Chunk>, k: nat, last: nat, id: FrameId, parts: seq<Data>)
    requires k < last < |cs| && |parts| < TWO_32 && !HasAllPieces(cs[..last], id, parts)
    ensures !HasAllPieces(cs[..k], id, parts) && !HasAllPieces(cs[..k + 1], id, parts)
  {
    assert forall c | c in cs[..k] || c in cs[..k + 1] :: c in cs[..last];
  }

  // ----- conditions under which a frame is never evicted -----

  /** While the frames held and the arriving one fit the buffer, nothing is evicted. */
  lemma {:induction false} RoomNeverEvicts(capacity: nat, cs: seq<Chunk>, id: FrameId)
    requires capacity > 0
    requires forall k | 0 <= k < |cs| && Valid(cs[k]) ::
               |After(capacity, cs[..k]).held.Keys + {cs[k].frameId}| <= capacity
    ensures NeverEvicted(capacity, cs, id)
  {
    forall k | 0 <= k < |cs| ensures !EvictsFrame(After(capacity, cs[..k]), cs[k], id) {
      var s, c := After(capacity, cs[..k]), cs[k];
      RunKeepsInv(capacity, cs[..k]);
      if Valid(c) && c.frameId !in s.held {
        assert |s.held.Keys + {c.frameId}| == |s.held.Keys| + 1;
      }
    }
  }

  /** The frames of a run some of whose pieces are on hand, by what their chunks announced. */
  function OpenIn(cs: seq<Chunk>, totals: map<FrameId, U32>): set<FrameId> {
    set id | id in totals && totals[id] > 0 && Gathered(cs, id, totals[id]) != map[]
  }

  /**
   The same from the chunks alone, when every frame keeps to its total: a run in which at
   most `capacity` frames are ever open at once, the arriving one included, evicts nothing.
   */
  lemma {:induction false} FewOpenNeverEvict(capacity: nat, cs: seq<Chunk>, totals: map<FrameId, U32>, id: FrameId)
    requires capacity > 0
    requires forall k | 0 <= k < |cs| && Valid(cs[k]) ::
               cs[k].frameId in totals && totals[cs[k].frameId] == cs[k].total
    requires forall k | 0 <= k < |cs| && Valid(cs[k]) ::
               |OpenIn(cs[..k], totals) + {cs[k].frameId}| <= capacity
    ensures NeverEvicted(capacity, cs, id)
  {
    forall k | 0 <= k < |cs| && Valid(cs[k])
      ensures |After(capacity, cs[..k]).held.Keys + {cs[k].frameId}| <= capacity
    {
      var before := cs[..k];
      forall j | 0 <= j < |before| && Valid(before[j])
        ensures |OpenIn(before[..j], totals) + {before[j].frameId}| <= capacity
      {
        assert before[..j] == cs[..j];
      }
      forall x: FrameId ensures NeverEvicted(capacity, before, x) {
        FewOpenNeverEvict(capacity, before, totals, x);
      }
      HeldIsOpen(capacity, before, totals);
    }
    RoomNeverEvicts(capacity, cs, id);
  }

  lemma {:induction false} HeldIsOpen(capacity: nat, cs: seq<Chunk>, totals: map<FrameId, U32>)
    requires capacity > 0 && forall id: FrameId :: NeverEvicted(capacity, cs, id)
    requires forall k | 0 <= k < |cs| && Valid(cs[k]) ::
               cs[k].frameId in totals && totals[cs[k].frameId] == cs[k].total
    ensures After(capacity, cs).held.Keys == OpenIn(cs, totals)
  {
    forall id: FrameId ensures id in After(capacity, cs).held <==> id in OpenIn(cs, totals) {
      if id in totals && totals[id] > 0 {
        RunKeepsHolds(capacity, cs, id, totals[id]);
      } else {
        NoChunksNotHeld(capacity, cs, id);
      }
    }
  }

  lemma {:induction false} NoChunksNotHeld(capacity: nat, cs: seq<Chunk>, id: FrameId)
    requires capacity > 0 && forall k | 0 <= k < |cs| :: !Own(cs[k], id)
    ensures id !in After(capacity, cs).held
  {
    if cs != [] {
      var before, c := cs[..|cs| - 1], cs[|cs| - 1];
      NoChunksNotHeld(capacity, before, id);
      RunKeepsInv(capacity, before);
      assert !Own(c, id);
      if Valid(c) {
        AcceptEffect(After(capacity, before), c);
        hide Accepted, Inv;
      }
    }
  }

  /** The other frames with a chunk in a run. */
  function Others(cs: seq<Chunk>, id: FrameId): set<FrameId> {
    set k | 0 <= k < |cs| && Valid(cs[k]) && cs[k].frameId != id :: cs[k].frameId
  }

  lemma {:induction false} OpenedByOwnChunk(capacity: nat, cs: seq<Chunk>, id: FrameId)
    requires id in OpenedAt(capacity, cs)
    ensures OpenedAt(capacity, cs)[id] < |cs| && Own(cs[OpenedAt(capacity, cs)[id]], id)
  {
    var n := |cs| - 1;
    if id in OpenedAt(capacity, cs[..n]) {
      OpenedByOwnChunk(capacity, cs[..n], id);
    }
  }

  /** Eviction of frame `id` takes `capacity` other frames that came after its first chunk. */
  lemma {:induction false} EvictionTakesOthers(capacity: nat, cs: seq<Chunk>, first: nat, c: Chunk, id: FrameId)
    requires capacity > 0 && EvictsFrame(After(capacity, cs), c, id)
    requires first <= |cs| && forall k | 0 <= k < first :: !Own(cs[k], id)
    ensures |Others(cs[first..] + [c], id)| >= capacity
  {
    var s, later := After(capacity, cs), cs[first..] + [c];
    var others := s.held.Keys - {id} + {c.frameId};
    RunKeepsInv(capacity, cs);
    OrderHasNoDuplicates(s);
    hide Inv;
    forall x | x in others ensures x in Others(later, id) {
      if x == c.frameId {
        assert later[|later| - 1] == c;
      } else {
        OpenedLater(capacity, cs, first, id, x);
        var k :| first <= k < |cs| && Own(cs[k], x);
        assert later[k - first] == cs[k];
      }
    }
    hide Others;
    SubsetSize(others, Others(later, id));
    assert |others| == capacity;
  }

  /** Whatever is held besides the frame first in the order has a chunk after that frame's first. */
  lemma {:induction false} OpenedLater(capacity: nat, cs: seq<Chunk>, first: nat, id: FrameId, x: FrameId)
    requires capacity > 0 && first <= |cs| && forall k | 0 <= k < first :: !Own(cs[k], id)
    requires var s := After(capacity, cs); |s.order| > 0 && s.order[0] == id && x in s.order && x != id
    ensures exists k :: first <= k < |cs| && Own(cs[k], x)
  {
    var s := After(capacity, cs);
    HeldInOpeningOrder(capacity, cs);
    assert s.order[0] in s.order;
    OpenedByOwnChunk(capacity, cs, id);
    OpenedByOwnChunk(capacity, cs, x);
    var i :| 0 < i < |s.order| && s.order[i] == x;
    assert Own(cs[OpenedAt(capacity, cs)[x]], x);
  }

  /** A frame after whose first chunk fewer than `capacity` other frames come is never evicted, whatever they do. */
  lemma FewOthersNeverEvict(capacity: nat, cs: seq<Chunk>, id: FrameId, first: nat)
    requires capacity > 0 && first <= |cs| && (forall k | 0 <= k < first :: !Own(cs[k], id))
    requires |Others(cs[first..], id)| < capacity
    ensures NeverEvicted(capacity, cs, id)
  {
    forall k | 0 <= k < |cs| ensures !EvictsFrame(After(capacity, cs[..k]), cs[k], id) {
      if k < first {
        NoChunksNotHeld(capacity, cs[..k], id);
        RunKeepsInv(capacity, cs[..k]);
        OrderHasNoDuplicates(After(capacity, cs[..k]));
      } else if EvictsFrame(After(capacity, cs[..k]), cs[k], id) {
        EvictionTakesOthers(capacity, cs[..k], first, cs[k], id);
        OthersGrow(cs[first..], cs[..k][first..] + [cs[k]], id);
      }
    }
  }

  lemma OthersGrow(cs: seq<Chunk>, part: seq<Chunk>, id: FrameId)
    requires forall c | c in part :: c in cs
    ensures |Others(part, id)| <= |Others(cs, id)|
  {
    forall x | x in Others(part, id) ensures x in Others(cs, id) {
      var k :| 0 <= k < |part| && Valid(part[k]) && part[k].frameId == x != id;
      assert part[k] in cs;
    }
    SubsetSize(Others(part, id), Others(cs, id));
  }
}
