/** `JitterBuffer` of core/nexdesk-core/src/protocol/jitter.rs; instants and durations are integers of one unit. */
module Jitter {
  import opened Prelude

  type Data = seq<Byte>

  datatype Arrival = Arrival(at: int, data: Data)

  datatype Delivery = Delivery(number: U64, data: Data)

  datatype State = State(maxWait: nat, nextSeq: U64, buffered: map<U64, Arrival>)

  const LAST_SEQ: U64 := TWO_64 - 1

  /** `+ 1` on u64 as an optimised build computes it. */
  function WrappingNext(n: U64): U64 { (n + 1) % TWO_64 }

  ghost predicate LeastOf(k: U64, numbers: set<U64>) { k in numbers && forall j | j in numbers :: k <= j }

  lemma {:induction false} HasEarliest(numbers: set<U64>) returns (k: U64)
    requires numbers != {}
    ensures LeastOf(k, numbers)
  {
    var x :| x in numbers;
    var rest := numbers - {x};
    assert forall j | j in numbers :: j == x || j in rest;
    k := x;
    if rest != {} {
      var least := HasEarliest(rest);
      k := if x <= least then x else least;
    }
  }

  lemma SomeKey(buffered: map<U64, Arrival>)
    requires buffered != map[]
    ensures buffered.Keys != {}
  {
    assert |buffered.Keys| == |buffered|;
  }

  /** The first key of the ordered map. */
  function Earliest(buffered: map<U64, Arrival>): (k: U64)
    requires buffered != map[]
    ensures k in buffered && forall j | j in buffered :: k <= j
  {
    SomeKey(buffered);
    assert exists k :: LeastOf(k, buffered.Keys) by {
      var k := HasEarliest(buffered.Keys);
    }
    var k :| k in buffered && forall j | j in buffered :: k <= j;
    k
  }

  function Pushed(s: State, number: U64, data: Data, at: int): State {
    if number < s.nextSeq then s else s.(buffered := s.buffered[number := Arrival(at, data)])
  }

  /** `duration_since`, which is zero for an instant in the future, against `max_wait`. */
  predicate WaitedEnough(s: State, a: Arrival, now: int) { Max(0, now - a.at) >= s.maxWait }

  function Delivered(s: State, number: U64): (State, Option<Delivery>)
    requires number in s.buffered
  {
    (s.(nextSeq := WrappingNext(number), buffered := s.buffered - {number}),
     Some(Delivery(number, s.buffered[number].data)))
  }

  function Popped(s: State, now: int): (State, Option<Delivery>) {
    if s.nextSeq in s.buffered then Delivered(s, s.nextSeq)
    else if s.buffered != map[] && WaitedEnough(s, s.buffered[Earliest(s.buffered)], now)
    then Delivered(s, Earliest(s.buffered))
    else (s, None)
  }

  class JitterBuffer {
    const maxWait: nat
    var nextSeq: U64
    var buffered: map<U64, Arrival>

    function Model(): State
      reads this
    {
      State(maxWait, nextSeq, buffered)
    }

    constructor (maxWait: nat)
      ensures Model() == State(maxWait, 0, map[])
    {
      this.maxWait := maxWait;
      nextSeq := 0;
      buffered := map[];
    }

    method Push(number: U64, data: Data, arrivedAt: int)
      modifies this
      ensures Model() == Pushed(old(Model()), number, data, arrivedAt)
    {
      if number < nextSeq {
        return;
      }
      buffered := buffered[number := Arrival(arrivedAt, data)];
    }

    /** The first entry of the ordered map, found by a scan. */
    method First() returns (k: U64)
      requires buffered != map[]
      ensures k == Earliest(buffered)
    {
      k := LAST_SEQ;
      var rest := buffered.Keys;
      while rest != {}
        invariant rest <= buffered.Keys
        invariant forall j | j in buffered && j !in rest :: k <= j
        invariant k in buffered || (k == LAST_SEQ && rest == buffered.Keys)
        decreases |rest|
      {
        var n :| n in rest;
        rest := rest - {n};
        if n <= k {
          k := n;
        }
      }
      SomeKey(buffered);
    }

    method PopReady(now: int) returns (frame: Option<Data>)
      modifies this
      ensures Model() == Popped(old(Model()), now).0
      ensures var popped := Popped(old(Model()), now).1;
              frame == if popped.Some? then Some(popped.value.data) else None
    {
      if nextSeq in buffered {
        var data := buffered[nextSeq].data;
        buffered := buffered - {nextSeq};
        nextSeq := WrappingNext(nextSeq);
        return Some(data);
      }
      if buffered != map[] {
        var number := First();
        if Max(0, now - buffered[number].at) >= maxWait {
          var data := buffered[number].data;
          buffered := buffered - {number};
          nextSeq := WrappingNext(number);
          return Some(data);
        }
      }
      return None;
    }
  }

  // ----- whole runs of pushes and pops -----

  datatype Op = Push(number: U64, data: Data, at: int) | Pop(now: int)

  function Applied(s: State, op: Op): State {
    match op
    case Push(number, data, at) => Pushed(s, number, data, at)
    case Pop(now) => Popped(s, now).0
  }

  function After(maxWait: nat, ops: seq<Op>): State {
    if ops == [] then State(maxWait, 0, map[])
    else Applied(After(maxWait, ops[..|ops| - 1]), ops[|ops| - 1])
  }

  /** The frames delivered, in the order of the pops that delivered them. */
  function Log(maxWait: nat, ops: seq<Op>): seq<Delivery> {
    if ops == [] then []
    else
      var before, op := ops[..|ops| - 1], ops[|ops| - 1];
      var log := Log(maxWait, before);
      if op.Pop? && Popped(After(maxWait, before), op.now).1.Some?
      then log + [Popped(After(maxWait, before), op.now).1.value]
      else log
  }

  /** The latest data accepted for each number: pushed when the number was not behind `nextSeq`. */
  function Latest(maxWait: nat, ops: seq<Op>): map<U64, Data> {
    if ops == [] then map[]
    else
      var before, op := ops[..|ops| - 1], ops[|ops| - 1];
      var latest := Latest(maxWait, before);
      if op.Push? && op.number >= After(maxWait, before).nextSeq then latest[op.number := op.data] else latest
  }

  /** The largest 64-bit number, which has no successor, has not been delivered. */
  ghost predicate NeverStartsOver(log: seq<Delivery>) { forall i | 0 <= i < |log| :: log[i].number != LAST_SEQ }

  /** Delivered numbers ascend below `nextSeq`, which is one past the last of them. */
  ghost predicate Ascending(log: seq<Delivery>, nextSeq: U64) {
    && (forall i, j | 0 <= i < j < |log| :: log[i].number < log[j].number)
    && nextSeq == if log == [] then 0 else log[|log| - 1].number + 1
  }

  /** Everything buffered is at or after `nextSeq`. */
  ghost predicate Ahead(s: State) { forall n | n in s.buffered :: s.nextSeq <= n }

  /** Every number accepted is delivered with its latest data, or still buffered with it. */
  ghost predicate Accounted(s: State, log: seq<Delivery>, latest: map<U64, Data>) {
    && (forall i | 0 <= i < |log| :: log[i].number in latest && latest[log[i].number] == log[i].data)
    && (forall n | n in s.buffered :: n in latest && latest[n] == s.buffered[n].data)
    && (forall n | n in latest :: n in s.buffered || exists i :: 0 <= i < |log| && log[i].number == n)
  }

  /** In every run everything buffered is at or after `nextSeq`, even past the largest number. */
  lemma {:induction false} BufferedAhead(maxWait: nat, ops: seq<Op>)
    ensures Ahead(After(maxWait, ops))
  {
    if ops != [] {
      BufferedAhead(maxWait, ops[..|ops| - 1]);
    }
  }

  lemma DeliveryKeepsAscending(log: seq<Delivery>, nextSeq: U64, d: Delivery)
    requires Ascending(log, nextSeq) && nextSeq <= d.number < LAST_SEQ
    ensures Ascending(log + [d], d.number + 1)
  {}

  lemma DeliveryKeepsAccounts(s: State, log: seq<Delivery>, latest: map<U64, Data>, n: U64)
    requires Accounted(s, log, latest) && n in s.buffered
    ensures Accounted(Delivered(s, n).0, log + [Delivered(s, n).1.value], latest)
  {
    var s', log' := Delivered(s, n).0, log + [Delivered(s, n).1.value];
    assert log'[|log|].number == n;
    forall k | k in latest ensures k in s'.buffered || exists i :: 0 <= i < |log'| && log'[i].number == k {
      if k != n && k !in s.buffered {
        var i :| 0 <= i < |log| && log[i].number == k;
        assert log'[i].number == k;
      }
    }
  }

  lemma PopKeepsAccounts(s: State, log: seq<Delivery>, latest: map<U64, Data>, now: int)
    requires Ascending(log, s.nextSeq) && Accounted(s, log, latest) && Ahead(s)
    requires Popped(s, now).1.Some? ==> Popped(s, now).1.value.number != LAST_SEQ
    ensures var (s', popped) := Popped(s, now);
            var log' := if popped.Some? then log + [popped.value] else log;
            Ascending(log', s'.nextSeq) && Accounted(s', log', latest)
  {
    hide Accounted, Ascending;
    var popped := Popped(s, now).1;
    if popped.Some? {
      var n := popped.value.number;
      DeliveryKeepsAccounts(s, log, latest, n);
      DeliveryKeepsAscending(log, s.nextSeq, popped.value);
    }
  }

  lemma PushKeepsAccounts(s: State, log: seq<Delivery>, latest: map<U64, Data>, number: U64, data: Data, at: int)
    requires Ascending(log, s.nextSeq) && Accounted(s, log, latest)
    ensures var s' := Pushed(s, number, data, at);
            var latest' := if number >= s.nextSeq then latest[number := data] else latest;
            Ascending(log, s'.nextSeq) && Accounted(s', log, latest')
  {
    assert forall i | 0 <= i < |log| :: log[i].number < s.nextSeq;
  }

  /** The operation that ended the run delivered the last frame of the log, or nothing. */
  lemma LogGrows(maxWait: nat, ops: seq<Op>)
    requires ops != []
    ensures var before, op := ops[..|ops| - 1], ops[|ops| - 1];
            var s := After(maxWait, before);
            Log(maxWait, ops) == if op.Pop? && Popped(s, op.now).1.Some?
                                 then Log(maxWait, before) + [Popped(s, op.now).1.value] else Log(maxWait, before)
  {}

  lemma {:induction false} AccountsKept(maxWait: nat, ops: seq<Op>)
    requires NeverStartsOver(Log(maxWait, ops))
    ensures Ascending(Log(maxWait, ops), After(maxWait, ops).nextSeq)
    ensures Accounted(After(maxWait, ops), Log(maxWait, ops), Latest(maxWait, ops))
  {
    if ops != [] {
      var before, op := ops[..|ops| - 1], ops[|ops| - 1];
      var s, log, latest := After(maxWait, before), Log(maxWait, before), Latest(maxWait, before);
      LogGrows(maxWait, ops);
      assert log == Log(maxWait, ops)[..|log|];
      assert forall i | 0 <= i < |log| :: Log(maxWait, ops)[i] == log[i];
      AccountsKept(maxWait, before);
      BufferedAhead(maxWait, before);
      match op {
        case Push(number, data, at) => PushKeepsAccounts(s, log, latest, number, data, at);
        case Pop(now) =>
          if Popped(s, now).1.Some? {
            assert Log(maxWait, ops)[|log|] == Popped(s, now).1.value;
          }
          PopKeepsAccounts(s, log, latest, now);
      }
    }
  }

  lemma AscendingBelowNext(log: seq<Delivery>, nextSeq: U64)
    requires Ascending(log, nextSeq)
    ensures NeverStartsOver(log)
  {
    assert forall i | 0 <= i < |log| :: log[i].number < nextSeq;
  }

  /**
   Over every run: delivered numbers strictly ascend below `nextSeq` if and only if the
   largest number has not been delivered.  Up to then each delivered frame carries the
   latest data accepted for its number and no accepted number is lost; everything
   buffered is ahead always.
   */
  lemma {:induction false} NothingLost(maxWait: nat, ops: seq<Op>)
    ensures Ahead(After(maxWait, ops))
    ensures Ascending(Log(maxWait, ops), After(maxWait, ops).nextSeq) <==> NeverStartsOver(Log(maxWait, ops))
    ensures NeverStartsOver(Log(maxWait, ops)) ==>
              Accounted(After(maxWait, ops), Log(maxWait, ops), Latest(maxWait, ops))
  {
    BufferedAhead(maxWait, ops);
    if NeverStartsOver(Log(maxWait, ops)) {
      AccountsKept(maxWait, ops);
    } else if Ascending(Log(maxWait, ops), After(maxWait, ops).nextSeq) {
      AscendingBelowNext(Log(maxWait, ops), After(maxWait, ops).nextSeq);
    }
  }

  /** The number next in sequence: the successor, in 64 bits, of the last delivered. */
  function NextDue(log: seq<Delivery>): U64 { if log == [] then 0 else WrappingNext(log[|log| - 1].number) }

  /** For each number accepted since it was last delivered, if ever: the data and instant of its last accepted push. */
  function Outstanding(maxWait: nat, ops: seq<Op>): map<U64, Arrival> {
    if ops == [] then map[]
    else
      var before, op := ops[..|ops| - 1], ops[|ops| - 1];
      var log, log', due := Log(maxWait, before), Log(maxWait, ops), Outstanding(maxWait, before);
      match op
      case Push(number, data, at) => if number >= NextDue(log) then due[number := Arrival(at, data)] else due
      case Pop(_) => if |log'| > |log| then due - {log'[|log'| - 1].number} else due
  }

  /**
   In every run, past the largest number too, the buffer holds exactly what was accepted
   and not delivered since, each frame with the data and the instant of its last accepted
   push, whatever pops came between.
   */
  lemma {:induction false} BufferIsOutstanding(maxWait: nat, ops: seq<Op>)
    ensures After(maxWait, ops) == State(maxWait, NextDue(Log(maxWait, ops)), Outstanding(maxWait, ops))
  {
    if ops != [] {
      BufferIsOutstanding(maxWait, ops[..|ops| - 1]);
      LogGrows(maxWait, ops);
      hide Log;
    }
  }

  /**
   After every run, a pop delivers the lowest number outstanding, with the data pushed
   last for it, exactly when it is next in sequence or `maxWait` has gone by since that
   push, however often the buffer was polled meanwhile; otherwise it changes nothing.
   */
  lemma {:induction false} PlaysOutAsPushed(maxWait: nat, ops: seq<Op>, now: int, k: U64)
    ensures var s, due := After(maxWait, ops), Outstanding(maxWait, ops);
            var (s', popped) := Popped(s, now);
            && (due == map[] ==> popped == None)
            && (popped == None ==> s' == s)
            && (LeastOf(k, due.Keys) ==>
                  && (popped.Some? <==> k == NextDue(Log(maxWait, ops)) || Max(0, now - due[k].at) >= maxWait)
                  && (popped.Some? ==> popped.value == Delivery(k, due[k].data)))
  {
    BufferIsOutstanding(maxWait, ops);
    BufferedAhead(maxWait, ops);
    var s := After(maxWait, ops);
    if LeastOf(k, s.buffered.Keys) {
      PopsExactlyWhen(s, now, k);
    }
    hide After, Log, Outstanding, NextDue;
  }

  /** Each delivered number is at or after the successor, in 64 bits, of the one before it. */
  ghost predicate Chained(log: seq<Delivery>, nextSeq: U64) {
    && (forall i | 0 < i < |log| :: WrappingNext(log[i - 1].number) <= log[i].number)
    && nextSeq == if log == [] then 0 else WrappingNext(log[|log| - 1].number)
  }

  lemma {:induction false} LogIsChained(maxWait: nat, ops: seq<Op>)
    ensures Chained(Log(maxWait, ops), After(maxWait, ops).nextSeq)
  {
    if ops != [] {
      var before := ops[..|ops| - 1];
      LogIsChained(maxWait, before);
      BufferedAhead(maxWait, before);
      LogGrows(maxWait, ops);
      hide Log;
    }
  }

  ghost predicate StrictlyAscends(log: seq<Delivery>) {
    forall i, j | 0 <= i < j < |log| :: log[i].number < log[j].number
  }

  lemma {:induction false} ChainAscends(log: seq<Delivery>, i: nat, j: nat)
    requires i < j < |log| && forall k | 0 < k < |log| :: log[k - 1].number < log[k].number
    ensures log[i].number < log[j].number
    decreases j
  {
    if i < j - 1 {
      ChainAscends(log, i, j - 1);
    }
    assert log[j - 1].number < log[j].number;
  }

  /** In every run, the delivered numbers ascend if and only if none before the last is the largest number. */
  lemma {:induction false} AscendsExactlyWhen(maxWait: nat, ops: seq<Op>)
    ensures var log := Log(maxWait, ops);
            StrictlyAscends(log) <==> forall i | 0 <= i < |log| - 1 :: log[i].number != LAST_SEQ
  {
    LogIsChained(maxWait, ops);
    var log := Log(maxWait, ops);
    hide Log;
    if forall i | 0 <= i < |log| - 1 :: log[i].number != LAST_SEQ {
      forall k | 0 < k < |log| ensures log[k - 1].number < log[k].number {
        assert log[k - 1].number != LAST_SEQ;
      }
      forall i, j | 0 <= i < j < |log| ensures log[i].number < log[j].number {
        ChainAscends(log, i, j);
      }
    } else {
      var i :| 0 <= i < |log| - 1 && log[i].number == LAST_SEQ;
      assert log[i + 1].number <= LAST_SEQ;
    }
  }

  /** Some delivered number is `number` or beyond it. */
  ghost predicate Passed(log: seq<Delivery>, number: U64) { exists i :: 0 <= i < |log| && number <= log[i].number }

  /** The numbers behind `nextSeq` are those not beyond every number delivered. */
  lemma BehindNext(log: seq<Delivery>, nextSeq: U64, number: U64)
    requires Ascending(log, nextSeq)
    ensures Passed(log, number) <==> number < nextSeq
  {
    if number < nextSeq {
      assert number <= log[|log| - 1].number;
    } else {
      assert forall i | 0 <= i < |log| :: log[i].number < nextSeq;
    }
  }

  /** A push that changes nothing, whatever its data. */
  predicate Drops(s: State, number: U64) { number < s.nextSeq }

  lemma DropsMeans(s: State, number: U64, data: Data, at: int)
    requires Ahead(s)
    ensures if Drops(s, number) then Pushed(s, number, data, at) == s && number !in s.buffered
            else Pushed(s, number, data, at) == s.(buffered := s.buffered[number := Arrival(at, data)])
  {}

  /**
   After any run, a push is dropped exactly when its number is not beyond every number
   delivered so far, for all numbers, if and only if the largest number has not been delivered.
   */
  lemma {:induction false} DroppedExactlyWhenStale(maxWait: nat, ops: seq<Op>)
    ensures var s, log := After(maxWait, ops), Log(maxWait, ops);
            (forall number: U64 :: Drops(s, number) <==> Passed(log, number)) <==> NeverStartsOver(log)
    ensures var s := After(maxWait, ops);
            forall number, data, at ::
              if Drops(s, number) then Pushed(s, number, data, at) == s && number !in s.buffered
              else Pushed(s, number, data, at) == s.(buffered := s.buffered[number := Arrival(at, data)])
  {
    var s, log := After(maxWait, ops), Log(maxWait, ops);
    BufferedAhead(maxWait, ops);
    forall number, data, at
      ensures if Drops(s, number) then Pushed(s, number, data, at) == s && number !in s.buffered
              else Pushed(s, number, data, at) == s.(buffered := s.buffered[number := Arrival(at, data)])
    {
      DropsMeans(s, number, data, at);
    }
    if NeverStartsOver(log) {
      AccountsKept(maxWait, ops);
      forall number: U64 ensures Drops(s, number) <==> Passed(log, number) {
        BehindNext(log, s.nextSeq, number);
      }
    } else {
      var i :| 0 <= i < |log| && log[i].number == LAST_SEQ;
      assert s.nextSeq <= log[i].number;
      assert Passed(log, s.nextSeq) && !Drops(s, s.nextSeq);
    }
  }

  /** One delivery moves `nextSeq` past its number unless the number is the largest of all. */
  lemma DeliveryAdvances(s: State, now: int)
    requires Popped(s, now).1.Some?
    ensures Popped(s, now).1.value.number < Popped(s, now).0.nextSeq <==> Popped(s, now).1.value.number != LAST_SEQ
  {}

  lemma OnlyOneBuffered(s: State, n: U64, data: Data, now: int)
    requires s.buffered == map[] && n >= s.nextSeq && now >= s.maxWait
    ensures var s' := Pushed(s, n, data, 0);
            Popped(s', now) == (s.(nextSeq := WrappingNext(n)), Some(Delivery(n, data)))
  {
    var buffered := map[n := Arrival(0, data)];
    assert n in buffered && s.buffered[n := Arrival(0, data)] == buffered;
    assert buffered - {n} == map[];
  }

  /** Once the largest number is delivered, the smallest are delivered again. */
  lemma {:induction false} LargestNumberStartsOver(maxWait: nat, data: Data)
    ensures var ops := [Push(LAST_SEQ, data, 0), Pop(maxWait), Push(0, data, 0), Pop(maxWait)];
            Log(maxWait, ops) == [Delivery(LAST_SEQ, data), Delivery(0, data)]
  {
    var ops := [Push(LAST_SEQ, data, 0), Pop(maxWait), Push(0, data, 0), Pop(maxWait)];
    assert ops[..3][..2] == ops[..2] && ops[..2][..1] == ops[..1] && ops[..1][..0] == [];
    hide Popped, Pushed;
    var empty := State(maxWait, 0, map[]);
    OnlyOneBuffered(empty, LAST_SEQ, data, maxWait);
    OnlyOneBuffered(empty, 0, data, maxWait);
    assert After(maxWait, ops[..1]) == Pushed(empty, LAST_SEQ, data, 0);
    assert After(maxWait, ops[..2]) == empty;
    assert Log(maxWait, ops[..1]) == [];
    assert Log(maxWait, ops[..2]) == [Delivery(LAST_SEQ, data)];
    assert After(maxWait, ops[..3]) == Pushed(empty, 0, data, 0);
    assert Log(maxWait, ops[..3]) == Log(maxWait, ops[..2]);
  }

  // ----- draining -----

  function PopAll(s: State, nows: seq<int>): seq<Option<Delivery>>
    decreases |nows|
  {
    if nows == [] then []
    else [Popped(s, nows[0]).1] + PopAll(Popped(s, nows[0]).0, nows[1..])
  }

  /** The buffered frames in ascending order of their numbers. */
  function InOrder(buffered: map<U64, Arrival>): seq<Delivery>
    decreases |buffered|
  {
    if buffered == map[] then []
    else
      var k := Earliest(buffered);
      [Delivery(k, buffered[k].data)] + InOrder(buffered - {k})
  }

  lemma {:induction false} InOrderSorts(buffered: map<U64, Arrival>)
    ensures |InOrder(buffered)| == |buffered|
    ensures forall d :: d in InOrder(buffered) <==> d.number in buffered && buffered[d.number].data == d.data
    ensures forall i, j | 0 <= i < j < |InOrder(buffered)| :: InOrder(buffered)[i].number < InOrder(buffered)[j].number
    decreases |buffered|
  {
    if buffered != map[] {
      var k := Earliest(buffered);
      var rest := buffered - {k};
      assert rest.Keys == buffered.Keys - {k};
      InOrderSorts(rest);
      var first := Delivery(k, buffered[k].data);
      var tail := InOrder(rest);
      assert InOrder(buffered) == [first] + tail;
      assert forall d :: d in InOrder(buffered) <==> d == first || d in tail;
      forall j | 0 <= j < |tail| ensures k < tail[j].number {
        assert tail[j] in tail;
      }
    }
  }

  function Somes(ds: seq<Delivery>): seq<Option<Delivery>> {
    if ds == [] then [] else [Some(ds[0])] + Somes(ds[1..])
  }

  /** A pop that finds anything ready delivers the earliest frame. */
  lemma PopsEarliest(s: State, now: int)
    requires Ahead(s) && s.buffered != map[]
    requires s.nextSeq in s.buffered || WaitedEnough(s, s.buffered[Earliest(s.buffered)], now)
    ensures var k := Earliest(s.buffered);
            && Popped(s, now).0 == s.(nextSeq := WrappingNext(k), buffered := s.buffered - {k})
            && Popped(s, now).1 == Some(Delivery(k, s.buffered[k].data))
            && Ahead(Popped(s, now).0)
  {}

  /**
   A pop delivers exactly when the lowest-numbered frame buffered is the next in sequence
   or has waited `maxWait` since it was last pushed, and then it delivers that frame.
   */
  lemma PopsExactlyWhen(s: State, now: int, k: U64)
    requires Ahead(s) && LeastOf(k, s.buffered.Keys)
    ensures Popped(s, now).1.Some? <==> k == s.nextSeq || Max(0, now - s.buffered[k].at) >= s.maxWait
    ensures Popped(s, now).1.Some? ==> Popped(s, now).1.value == Delivery(k, s.buffered[k].data)
  {
    assert k in s.buffered && Earliest(s.buffered) == k;
  }

  /**
   Once every buffered frame has waited long enough at each of the coming pops, as many
   pops as there are frames return exactly those frames in ascending order, then nothing.
   */
  lemma {:induction false} DrainsInOrder(s: State, nows: seq<int>)
    requires Ahead(s) && |nows| == |s.buffered| + 1
    requires forall n, i | n in s.buffered && 0 <= i < |nows| :: WaitedEnough(s, s.buffered[n], nows[i])
    ensures PopAll(s, nows) == Somes(InOrder(s.buffered)) + [None]
    decreases |nows|
  {
    if s.buffered == map[] {
      assert PopAll(s, nows) == [None] + PopAll(s, nows[1..]);
    } else {
      var k := Earliest(s.buffered);
      PopsEarliest(s, nows[0]);
      var s' := Popped(s, nows[0]).0;
      assert s'.buffered.Keys == s.buffered.Keys - {k};
      DrainsInOrder(s', nows[1..]);
      var first := Delivery(k, s.buffered[k].data);
      assert ([first] + InOrder(s'.buffered))[1..] == InOrder(s'.buffered);
      assert Somes(InOrder(s.buffered)) == [Some(first)] + Somes(InOrder(s'.buffered));
    }
  }

  /** Frames numbered without gaps from `nextSeq` come out in order at once, whatever the time. */
  lemma {:induction false} ConsecutiveNeverWait(s: State, nows: seq<int>)
    requires |nows| == |s.buffered| && s.nextSeq + |nows| <= TWO_64
    requires forall n :: n in s.buffered <==> s.nextSeq <= n < s.nextSeq + |nows|
    ensures PopAll(s, nows) == Somes(InOrder(s.buffered))
    decreases |nows|
  {
    if nows != [] {
      assert s.nextSeq in s.buffered;
      var k := Earliest(s.buffered);
      PopsEarliest(s, nows[0]);
      var s' := Popped(s, nows[0]).0;
      assert s'.buffered.Keys == s.buffered.Keys - {k};
      ConsecutiveNeverWait(s', nows[1..]);
      var first := Delivery(k, s.buffered[k].data);
      assert ([first] + InOrder(s'.buffered))[1..] == InOrder(s'.buffered);
    } else {
      assert s.buffered == map[];
    }
  }

  function PushAll(s: State, ops: seq<Op>): State
    requires forall k | 0 <= k < |ops| :: ops[k].Push?
  {
    if ops == [] then s else Applied(PushAll(s, ops[..|ops| - 1]), ops[|ops| - 1])
  }

  ghost predicate PushesNumber(ops: seq<Op>, n: int) {
    exists k :: 0 <= k < |ops| && ops[k].Push? && ops[k].number == n
  }

  lemma {:induction false} PushesBuffer(s: State, ops: seq<Op>)
    requires forall k | 0 <= k < |ops| :: ops[k].Push? && ops[k].number >= s.nextSeq
    ensures var s' := PushAll(s, ops);
            && s'.nextSeq == s.nextSeq && s'.maxWait == s.maxWait
            && forall n :: n in s'.buffered <==> n in s.buffered || PushesNumber(ops, n)
  {
    if ops != [] {
      var before, op := ops[..|ops| - 1], ops[|ops| - 1];
      PushesBuffer(s, before);
      forall n: U64 ensures PushesNumber(ops, n) <==> n == op.number || PushesNumber(before, n) {
        if PushesNumber(before, n) {
          var k :| 0 <= k < |before| && before[k].Push? && before[k].number == n;
          assert ops[k].number == n;
        }
      }
    }
  }

  /** Operation `k` is the last of a list of pushes to carry its number. */
  ghost predicate IsLastPush(ops: seq<Op>, k: nat) {
    && k < |ops| && ops[k].Push?
    && forall j | k < j < |ops| && ops[j].Push? :: ops[j].number != ops[k].number
  }

  lemma {:induction false} LastPushIsBuffered(s: State, ops: seq<Op>, k: nat)
    requires (forall j | 0 <= j < |ops| :: ops[j].Push? && ops[j].number >= s.nextSeq) && IsLastPush(ops, k)
    ensures var s', push := PushAll(s, ops), ops[k];
            push.number in s'.buffered && s'.buffered[push.number] == Arrival(push.at, push.data)
  {
    var before := ops[..|ops| - 1];
    PushesBuffer(s, before);
    if k < |before| {
      assert IsLastPush(before, k);
      LastPushIsBuffered(s, before, k);
    }
  }

  /** The pushes carry numbers from `first` up to `first + n`, and every one of those. */
  ghost predicate Covers(ops: seq<Op>, first: nat, n: nat) {
    && (forall k | 0 <= k < |ops| :: ops[k].Push? && first <= ops[k].number < first + n)
    && (forall i | first <= i < first + n :: PushesNumber(ops, i))
  }

  /**
   Any arrival order of the `n` numbers from `nextSeq` on, with any repeats, plays out in
   ascending order: `n` pops at any instants return all `n` frames, none waiting, each
   with the data that was pushed last for its number.
   */
  lemma {:induction false} AnyArrivalOrderPlaysOut(s: State, ops: seq<Op>, n: nat, nows: seq<int>)
    requires s.buffered == map[] && s.nextSeq + n <= TWO_64 && |nows| == n && Covers(ops, s.nextSeq, n)
    ensures PopAll(PushAll(s, ops), nows) == Somes(InOrder(PushAll(s, ops).buffered))
    ensures |InOrder(PushAll(s, ops).buffered)| == n
    ensures forall i | 0 <= i < n :: InOrder(PushAll(s, ops).buffered)[i].number == s.nextSeq + i
    ensures forall k: nat | IsLastPush(ops, k) ::
              InOrder(PushAll(s, ops).buffered)[ops[k].number - s.nextSeq] == Delivery(ops[k].number, ops[k].data)
  {
    PushesBuffer(s, ops);
    var s' := PushAll(s, ops);
    assert forall k: U64 :: k in s'.buffered <==> s.nextSeq <= k < s.nextSeq + n;
    hide PushAll, PushesNumber;
    ConsecutiveSize(s'.buffered.Keys, s.nextSeq, n);
    ConsecutiveNeverWait(s', nows);
    ConsecutiveOrder(s'.buffered, s.nextSeq, n);
    hide InOrder, Somes, PopAll;
    forall k: nat | IsLastPush(ops, k)
      ensures InOrder(s'.buffered)[ops[k].number - s.nextSeq] == Delivery(ops[k].number, ops[k].data)
    {
      LastPushIsBuffered(s, ops, k);
      DataInOrder(s'.buffered, s.nextSeq, n, ops[k].number - s.nextSeq);
    }
  }

  lemma {:induction false} DataInOrder(buffered: map<U64, Arrival>, first: nat, n: nat, i: nat)
    requires (forall k :: k in buffered <==> first <= k < first + n) && i < n
    ensures |InOrder(buffered)| == n && first + i in buffered
    ensures InOrder(buffered)[i] == Delivery(first + i, buffered[first + i].data)
  {
    ConsecutiveOrder(buffered, first, n);
    InOrderSorts(buffered);
    assert InOrder(buffered)[i] in InOrder(buffered);
  }

  lemma {:induction false} ConsecutiveSize(numbers: set<U64>, first: nat, n: nat)
    requires forall k :: k in numbers <==> first <= k < first + n
    ensures |numbers| == n
  {
    if n == 0 {
      assert forall x :: x !in numbers;
    } else {
      ConsecutiveSize(numbers - {first + n - 1}, first, n - 1);
    }
  }

  lemma {:induction false} ConsecutiveOrder(buffered: map<U64, Arrival>, first: nat, n: nat)
    requires forall k :: k in buffered <==> first <= k < first + n
    ensures |InOrder(buffered)| == n
    ensures forall i | 0 <= i < n :: InOrder(buffered)[i].number == first + i
    decreases n
  {
    if n == 0 {
      assert buffered == map[];
    } else {
      var rest := buffered - {first};
      assert first in buffered;
      assert Earliest(buffered) == first;
      ConsecutiveOrder(rest, first + 1, n - 1);
      assert InOrder(buffered) == [Delivery(first, buffered[first].data)] + InOrder(rest);
    }
  }
}
