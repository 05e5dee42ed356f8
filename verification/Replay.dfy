/** `ReplayGuard` of core/nexdesk-core/src/crypto/replay.rs against the full history it abbreviates. */
module Replay {
  import opened Prelude

  datatype State = State(window: U64, highest: Option<U64>, seen: set<U64>)

  /** The lowest nonce still inside the window. */
  function Floor(highest: U64, window: U64): U64
    requires window > 0
  {
    SaturatingSub(highest, window - 1)
  }

  /** One check: the new state, and whether the nonce was accepted. */
  function Checked(s: State, nonce: U64): (State, bool)
    requires s.window > 0
  {
    if s.highest.None? then
      (s.(highest := Some(nonce), seen := s.seen + {nonce}), true)
    else if nonce > s.highest.value then
      var kept := set n | n in s.seen && n >= Floor(nonce, s.window);
      (s.(highest := Some(nonce), seen := kept + {nonce}), true)
    else if nonce < Floor(s.highest.value, s.window) || nonce in s.seen then
      (s, false)
    else
      (s.(seen := s.seen + {nonce}), true)
  }

  /** The unbounded check: never accepted before, and less than `window` behind everything accepted. */
  ghost predicate Fresh(history: set<U64>, nonce: U64, window: U64) {
    nonce !in history && forall h | h in history :: h < nonce + window
  }

  /** The pruned state is the history seen through the window. */
  ghost predicate Abbreviates(s: State, history: set<U64>) {
    && s.window > 0
    && (s.highest.None? <==> history == {})
    && (s.highest.Some? ==> s.highest.value in history && forall h | h in history :: h <= s.highest.value)
    && (forall n :: n in s.seen <==> n in history && s.highest.value < n + s.window)
  }

  lemma CheckRefinesHistory(s: State, history: set<U64>, nonce: U64)
    requires Abbreviates(s, history)
    ensures var (s', ok) := Checked(s, nonce);
            && (ok <==> Fresh(history, nonce, s.window))
            && Abbreviates(s', if ok then history + {nonce} else history)
            && (!ok ==> s' == s)
  {
    var (s', ok) := Checked(s, nonce);
    if s.highest.Some? && nonce > s.highest.value {
      assert forall n :: n in s'.seen <==> (n in s.seen && n >= Floor(nonce, s.window)) || n == nonce;
    }
  }

  class ReplayGuard {
    const window: U64
    var highest: Option<U64>
    var seen: set<U64>
    ghost var history: set<U64>   // every nonce ever accepted

    function Model(): State
      reads this
    {
      State(window, highest, seen)
    }

    ghost predicate Valid()
      reads this
    {
      Abbreviates(Model(), history)
    }

    /** The source asserts that the window is not zero. */
    constructor (window: U64)
      requires window > 0
      ensures Valid() && this.window == window && history == {}
    {
      this.window := window;
      highest := None;
      seen := {};
      history := {};
    }

    method CheckAndRecord(nonce: U64) returns (ok: bool)
      requires Valid()
      modifies this
      ensures Valid()
      ensures ok <==> Fresh(old(history), nonce, window)
      ensures history == if ok then old(history) + {nonce} else old(history)
      ensures (Model(), ok) == Checked(old(Model()), nonce)
      ensures !ok ==> Model() == old(Model())
    {
      CheckRefinesHistory(Model(), history, nonce);
      ghost var before := seen;
      if highest.None? {
        highest := Some(nonce);
        seen := seen + {nonce};
        history := history + {nonce};
        return true;
      }
      if nonce > highest.value {
        var newFloor := SaturatingSub(nonce, window - 1);
        seen := set n | n in seen && n >= newFloor;
        seen := seen + {nonce};
        highest := Some(nonce);
        history := history + {nonce};
        assert seen == (set n | n in before && n >= Floor(nonce, window)) + {nonce};
        return true;
      }
      var floor := SaturatingSub(highest.value, window - 1);
      if nonce < floor {
        return false;
      }
      if nonce in seen {
        return false;
      }
      seen := seen + {nonce};
      history := history + {nonce};
      return true;
    }
  }

  // ----- whole runs -----

  function After(window: U64, nonces: seq<U64>): (s: State)
    requires window > 0
    ensures s.window == window
  {
    if nonces == [] then State(window, None, {})
    else Checked(After(window, nonces[..|nonces| - 1]), nonces[|nonces| - 1]).0
  }

  function AcceptedAt(window: U64, nonces: seq<U64>, k: nat): bool
    requires window > 0 && k < |nonces|
  {
    Checked(After(window, nonces[..k]), nonces[k]).1
  }

  /** What the unbounded check would have accepted. */
  ghost function History(window: U64, nonces: seq<U64>): set<U64> {
    if nonces == [] then {}
    else
      var before, nonce := History(window, nonces[..|nonces| - 1]), nonces[|nonces| - 1];
      if Fresh(before, nonce, window) then before + {nonce} else before
  }

  lemma {:induction false} RunRefinesHistory(window: U64, nonces: seq<U64>)
    requires window > 0
    ensures Abbreviates(After(window, nonces), History(window, nonces))
  {
    if nonces != [] {
      var before := nonces[..|nonces| - 1];
      RunRefinesHistory(window, before);
      CheckRefinesHistory(After(window, before), History(window, before), nonces[|nonces| - 1]);
    }
  }

  /** In every run the pruned window accepts exactly what the unbounded history would. */
  lemma {:induction false} AcceptedIffFresh(window: U64, nonces: seq<U64>, k: nat)
    requires window > 0 && k < |nonces|
    ensures AcceptedAt(window, nonces, k) <==> Fresh(History(window, nonces[..k]), nonces[k], window)
  {
    RunRefinesHistory(window, nonces[..k]);
    CheckRefinesHistory(After(window, nonces[..k]), History(window, nonces[..k]), nonces[k]);
  }

  lemma {:induction false} HistoryHolds(window: U64, nonces: seq<U64>, k: nat)
    requires window > 0 && k < |nonces| && AcceptedAt(window, nonces, k)
    ensures nonces[k] in History(window, nonces)
  {
    var last := |nonces| - 1;
    AcceptedIffFresh(window, nonces, last);
    if k < last {
      assert nonces[..last][..k] == nonces[..k];
      HistoryHolds(window, nonces[..last], k);
    }
  }

  /** No nonce is accepted twice in any run, however many others come between. */
  lemma NoReplay(window: U64, nonces: seq<U64>, j: nat, k: nat)
    requires window > 0 && j < k < |nonces| && nonces[j] == nonces[k]
    ensures !(AcceptedAt(window, nonces, j) && AcceptedAt(window, nonces, k))
  {
    if AcceptedAt(window, nonces, j) {
      var before := nonces[..k];
      assert before[..j] == nonces[..j] && before[j] == nonces[j];
      HistoryHolds(window, before, j);
      AcceptedIffFresh(window, nonces, k);
    }
  }

  /** The memory stays within the window: `seen` is the accepted part of it, at most `window` nonces. */
  lemma {:induction false} SeenFitsWindow(window: U64, nonces: seq<U64>)
    requires window > 0
    ensures var s := After(window, nonces);
            && |s.seen| <= window
            && forall n :: n in s.seen <==> n in History(window, nonces) && n >= Floor(s.highest.value, window)
  {
    RunRefinesHistory(window, nonces);
    var s := After(window, nonces);
    if s.highest.Some? {
      BoundedSetSize(s.seen, s.highest.value - window + 1, s.highest.value + 1);
    } else {
      assert s.seen == {};
    }
  }
}
