/** The byte counters an evbuffer keeps for its callbacks, as a value.

    nAdd and nDel count the bytes added and removed since the counters were last
    reset.  base is the length at that reset, and missed the bytes that were added
    since then without being counted.  Each notice sent to a callback has an entry in
    truth holding what was the case when it was sent. */
module Accounting {

  datatype Callback = Callback(id: nat, enabled: bool, nodefer: bool, obsolete: bool)

  datatype Notice =
    | Info(id: nat, origSize: int, nAdded: nat, nDeleted: nat)
    | Sizes(id: nat, origSize: int, newSize: nat)

  /** The length at a reset, the bytes missed, added and removed since, and the length now. */
  datatype Since = Since(base: nat, missed: nat, added: nat, removed: nat, total: nat)

  datatype Account = Account(
    total: nat, nAdd: nat, nDel: nat,
    callbacks: seq<Callback>, deferredCbs: bool, queued: bool,
    log: seq<Notice>, base: nat, missed: nat, truth: seq<Since>)
  {
    function Added(n: nat): (r: Account) {
      this.(total := total + n, nAdd := nAdd + n)
    }

    function Removed(n: nat): (r: Account)
      requires n <= total
    {
      this.(total := total - n, nDel := nDel + n)
    }

    /** Bytes that arrive without being counted. */
    function Spilled(n: nat): (r: Account) {
      this.(total := total + n, missed := missed + n)
    }

    function Reset(): (r: Account) {
      this.(nAdd := 0, nDel := 0, base := total, missed := 0)
    }

    function SoFar(): (r: Since) {
      Since(base, missed, nAdd, nDel, total)
    }

    /** What a callback is told the length was. */
    function OrigSize(): (r: int) {
      total + nDel - nAdd
    }
  }

  /** The counters tell the change in length since the last reset, up to missed. */
  predicate Balanced(a: Account) {
    a.total + a.nDel == a.base + a.nAdd + a.missed
  }

  /** The notice tells the length at the reset before it, plus the bytes missed since, and
      how many bytes were added and removed since, or the length now: in either form the
      old length and the change give the length now. */
  predicate Tells(n: Notice, t: Since) {
    && n.origSize == t.base + t.missed
    && n.origSize + t.added - t.removed == t.total
    && (n.Info? ==> n.nAdded == t.added && n.nDeleted == t.removed)
    && (n.Sizes? ==> n.newSize == t.total)
  }

  /** Every notice ever sent told what was the case. */
  predicate Truthful(a: Account) {
    |a.log| == |a.truth| && forall k | 0 <= k < |a.log| :: Tells(a.log[k], a.truth[k])
  }

  predicate Selected(cb: Callback, runningDeferred: bool, deferredCbs: bool) {
    if runningDeferred then cb.enabled && !cb.nodefer
    else if deferredCbs then cb.enabled && cb.nodefer
    else cb.enabled
  }

  function NoticeFor(cb: Callback, a: Account): (r: Notice) {
    if cb.obsolete then Sizes(cb.id, a.OrigSize(), a.total)
    else Info(cb.id, a.OrigSize(), a.nAdd, a.nDel)
  }

  /** The notices sent to the callbacks cbs, in list order. */
  function Notices(cbs: seq<Callback>, a: Account, runningDeferred: bool): (r: seq<Notice>) {
    if cbs == [] then []
    else
      var rest := Notices(cbs[..|cbs| - 1], a, runningDeferred);
      var cb := cbs[|cbs| - 1];
      if Selected(cb, runningDeferred, a.deferredCbs) then rest + [NoticeFor(cb, a)] else rest
  }

  /** evbuffer_run_callbacks */
  function RunCallbacks(a: Account, runningDeferred: bool): (r: Account) {
    if a.callbacks == [] then a.Reset()
    else if a.nAdd == 0 && a.nDel == 0 then a
    else
      var ns := Notices(a.callbacks, a, runningDeferred);
      var b := a.(log := a.log + ns, truth := a.truth + seq(|ns|, _ => a.SoFar()));
      if a.deferredCbs && !runningDeferred then b else b.Reset()
  }

  /** evbuffer_invoke_callbacks */
  function Invoke(a: Account): (r: Account) {
    if a.callbacks == [] then a.Reset()
    else if a.deferredCbs && a.queued then a
    else if a.deferredCbs then RunCallbacks(a.(queued := true), false)
    else RunCallbacks(a, false)
  }

  /** The account after up to n bytes were removed and the callbacks invoked. */
  function Cut(a: Account, n: nat): (r: Account) {
    Invoke(a.Removed(if n <= a.total then n else a.total))
  }

  predicate Books(a: Account) {
    Balanced(a) && Truthful(a)
  }

  lemma AddedKeeps(a: Account, n: nat)
    requires Books(a)
    ensures Books(a.Added(n)) && Books(a.Spilled(n)) && (n <= a.total ==> Books(a.Removed(n)))
  {}

  lemma SettingsKeep(a: Account, cbs: seq<Callback>, deferred: bool, queued: bool)
    ensures Books(a) ==> Books(a.(callbacks := cbs, deferredCbs := deferred, queued := queued))
    ensures Exact(a) ==> Exact(a.(callbacks := cbs, deferredCbs := deferred, queued := queued))
  {}

  /** Each notice tells what is the case. */
  lemma {:induction false} NoticesTell(cbs: seq<Callback>, a: Account, runningDeferred: bool)
    requires Balanced(a)
    ensures forall n | n in Notices(cbs, a, runningDeferred) :: Tells(n, a.SoFar())
  {
    if cbs != [] {
      NoticesTell(cbs[..|cbs| - 1], a, runningDeferred);
    }
  }

  lemma RunCallbacksKeeps(a: Account, runningDeferred: bool)
    requires Books(a)
    ensures Books(RunCallbacks(a, runningDeferred))
    ensures RunCallbacks(a, runningDeferred).total == a.total
  {
    hide Tells;
    NoticesTell(a.callbacks, a, runningDeferred);
  }

  /** Invoking the callbacks keeps the books. */
  lemma InvokeKeeps(a: Account)
    requires Books(a)
    ensures Books(Invoke(a)) && Invoke(a).total == a.total
  {
    hide Tells;
    NoticesTell(a.callbacks, a, false);
    NoticesTell(a.callbacks, a.(queued := true), false);
  }

  /** A second invocation with nothing new to tell changes nothing. */
  lemma InvokeTwice(a: Account)
    ensures Invoke(Invoke(a)) == Invoke(a)
  {}

  /** No byte was ever missed. */
  predicate Exact(a: Account) {
    a.missed == 0 && forall k | 0 <= k < |a.truth| :: a.truth[k].missed == 0
  }

  /** Telling keeps an exact account exact. */
  lemma ExactKeeps(a: Account, runningDeferred: bool)
    requires Exact(a)
    ensures Exact(Invoke(a)) && Exact(RunCallbacks(a, runningDeferred))
  {}

  /** In an exact account every notice told the length at the reset before it. */
  lemma ExactTold(a: Account, k: nat)
    requires Books(a) && Exact(a) && k < |a.log|
    ensures a.log[k].origSize == a.truth[k].base
  {}

  lemma {:induction false} SomeNotice(cbs: seq<Callback>, a: Account)
    requires !a.deferredCbs
    ensures Notices(cbs, a, false) == [] <==> forall cb | cb in cbs :: !cb.enabled
  {
    if cbs != [] {
      SomeNotice(cbs[..|cbs| - 1], a);
      assert cbs == cbs[..|cbs| - 1] + [cbs[|cbs| - 1]];
    }
  }

  /** A spill of a prepend does no harm if there is none, or if the same call resets the
      counters without telling anybody.  Otherwise it leaves missed bytes pending, or has told
      somebody a length that includes them. */
  predicate Harmless(a: Account, n: nat, spill: nat)
    requires spill <= n
  {
    || spill == 0
    || a.callbacks == []
    || (!a.deferredCbs && (a.nAdd + n > spill || a.nDel > 0) && forall cb | cb in a.callbacks :: !cb.enabled)
  }

  /** evbuffer_prepend misses the spill bytes it puts into a new chain.  The account stays
      exact if and only if that does no harm. */
  lemma PrependExact(a: Account, n: nat, spill: nat)
    requires Exact(a) && spill <= n
    ensures Exact(Invoke(a.Added(n - spill).Spilled(spill))) <==> Harmless(a, n, spill)
  {
    var b := a.Added(n - spill).Spilled(spill);
    var r := Invoke(b);
    if spill == 0 {
      assert b.missed == 0;
    } else if a.callbacks != [] && !a.deferredCbs && (b.nAdd > 0 || b.nDel > 0) {
      SomeNotice(a.callbacks, b);
      var ns := Notices(b.callbacks, b, false);
      if ns != [] {
        assert r.truth[|a.truth|].missed == b.missed;
      }
    }
  }

  /** With Balanced counters, a callback is told the length at the last reset if and only if
      no byte was missed since. */
  lemma ToldRight(a: Account)
    requires Balanced(a)
    ensures a.OrigSize() == a.base <==> a.missed == 0
  {}

  /** With counters at zero, nobody is told of a prepend that goes to a new chain as a whole. */
  lemma UntoldPrepend(a: Account, n: nat)
    requires a.callbacks != [] && !a.deferredCbs && a.nAdd == 0 && a.nDel == 0
    ensures Invoke(a.Added(0).Spilled(n)) == a.(total := a.total + n, missed := a.missed + n)
  {}

  lemma OneNotice(a: Account, cb: Callback)
    requires a.callbacks == [cb] && cb.enabled && !a.deferredCbs && a.nAdd > 0
    ensures Invoke(a) == a.Reset().(log := a.log + [NoticeFor(cb, a)], truth := a.truth + [a.SoFar()])
  {
    assert [cb][..0] == [];
    assert Notices([], a, false) == [];
    assert Notices([cb], a, false) == [NoticeFor(cb, a)];
  }
}
