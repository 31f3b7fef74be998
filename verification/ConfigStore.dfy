/** The control plane's bounded version history, with rollback as its inverse. */
module ConfigStore {

  function Push<T>(history: seq<T>, next: T, limit: nat): (h: seq<T>)
    ensures history != [] ==> h != [] && h[|h| - 1] == next
  {
    var grown := history + [next];
    if |grown| > limit then grown[1..] else grown
  }

  function Pop<T>(history: seq<T>): (h: seq<T>)
    ensures history != [] ==> h != []
  {
    if |history| > 1 then history[..|history| - 1] else history
  }

  function Current<T>(history: seq<T>): T
    requires history != []
  {
    history[|history| - 1]
  }

  class Store<T> {
    var history: seq<T>
    const limit: nat

    constructor (initial: T, limit: nat)
      ensures history == [initial] && this.limit == limit
    {
      this.history := [initial];
      this.limit := limit;
    }

    method PushSnapshot(next: T)
      requires history != []
      modifies this
      ensures history == Push(old(history), next, limit)
    {
      history := history + [next];
      if |history| > limit {
        history := history[1..];
      }
    }

    method PopSnapshot() returns (popped: bool)
      requires history != []
      modifies this
      ensures popped == (|old(history)| > 1)
      ensures history == Pop(old(history))
    {
      popped := |history| > 1;
      if popped {
        history := history[..|history| - 1];
      }
    }
  }

  function PushAll<T>(history: seq<T>, xs: seq<T>, limit: nat): (h: seq<T>)
    ensures history != [] ==> h != []
    decreases xs
  {
    if xs == [] then history else PushAll(Push(history, xs[0], limit), xs[1..], limit)
  }

  function PopAll<T>(history: seq<T>, n: nat): (h: seq<T>)
    ensures history != [] ==> h != []
  {
    if n == 0 then history else PopAll(Pop(history), n - 1)
  }

  /** The number of snapshots kept; even a limit of zero keeps the current one. */
  function Capacity(limit: nat): nat {
    if limit == 0 then 1 else limit
  }

  function LastN<T>(s: seq<T>, n: nat): seq<T> {
    if n < |s| then s[|s| - n..] else s
  }

  lemma {:induction false} PushAllKeepsLast<T>(history: seq<T>, xs: seq<T>, limit: nat)
    requires 1 <= |history| <= Capacity(limit)
    ensures PushAll(history, xs, limit) == LastN(history + xs, Capacity(limit))
    decreases xs
  {
    if xs == [] {
      assert history + xs == history;
    } else {
      var next := Push(history, xs[0], limit);
      PushAllKeepsLast(next, xs[1..], limit);
      assert history + xs == (history + [xs[0]]) + xs[1..];
      if |history| == Capacity(limit) {
        assert history + xs == [history[0]] + (next + xs[1..]);
      }
    }
  }

  lemma {:induction false} PopAllDropsLast<T>(history: seq<T>, n: nat)
    requires history != []
    ensures PopAll(history, n) == history[..if n < |history| then |history| - n else 1]
  {
    if n > 0 {
      PopAllDropsLast(Pop(history), n - 1);
    }
  }

  /**
   As many rollbacks as pushes bring the old snapshot back exactly while it is
   still retained; otherwise they stop at the oldest snapshot kept.
   */
  lemma RollbackUndoes<T>(history: seq<T>, xs: seq<T>, limit: nat)
    requires 1 <= |history| <= Capacity(limit)
    ensures Current(PopAll(PushAll(history, xs, limit), |xs|))
         == if |xs| < Capacity(limit) then Current(history) else xs[|xs| - Capacity(limit)]
  {
    var kept := PushAll(history, xs, limit);
    PushAllKeepsLast(history, xs, limit);
    PopAllDropsLast(kept, |xs|);
    UndoneAt(history, xs, Capacity(limit), kept, PopAll(kept, |xs|));
  }

  /** The newest snapshot that is left when as many are dropped as were pushed. */
  lemma UndoneAt<T>(history: seq<T>, xs: seq<T>, cap: nat, kept: seq<T>, left: seq<T>)
    requires 1 <= |history| <= cap && kept == LastN(history + xs, cap)
    requires left == kept[..if |xs| < |kept| then |kept| - |xs| else 1]
    ensures left != [] && Current(left) == if |xs| < cap then Current(history) else xs[|xs| - cap]
  {
    var all := history + xs;
    if |xs| < cap {
      assert all[|history| - 1] == history[|history| - 1];
    } else {
      assert all[|all| - cap] == xs[|xs| - cap];
    }
  }
}
