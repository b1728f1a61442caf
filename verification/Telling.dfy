/** Who is told what: the notices that evbuffer callbacks are sent. */
module Telling {
  import opened Accounting

  /** The notices ns went to the callbacks at the places idx of the list, in order, each once,
      in the form that each takes, and told what t says. */
  predicate Sent(ns: seq<Notice>, cbs: seq<Callback>, idx: seq<nat>, t: Since) {
    && |ns| == |idx|
    && (forall j, k | 0 <= j < k < |idx| :: idx[j] < idx[k])
    && forall k | 0 <= k < |idx| ::
         && idx[k] < |cbs|
         && ns[k].id == cbs[idx[k]].id && (ns[k].Sizes? <==> cbs[idx[k]].obsolete) && Tells(ns[k], t)
  }

  /** Whether a callback is due: all that are enabled, or with deferred callbacks those of them
      that do not defer, and when the deferred run comes the others. */
  predicate Due(cb: Callback, deferredCbs: bool, runningDeferred: bool) {
    cb.enabled && (deferredCbs || runningDeferred ==> cb.nodefer != runningDeferred)
  }

  lemma {:induction false} NoticesSent(cbs: seq<Callback>, a: Account, runningDeferred: bool) returns (idx: seq<nat>)
    requires Balanced(a)
    ensures Sent(Notices(cbs, a, runningDeferred), cbs, idx, a.SoFar())
    ensures forall i | 0 <= i < |cbs| :: i in idx <==> Due(cbs[i], a.deferredCbs, runningDeferred)
  {
    if cbs == [] {
      idx := [];
    } else {
      var n := |cbs| - 1;
      idx := NoticesSent(cbs[..n], a, runningDeferred);
      assert forall i | 0 <= i < n :: cbs[..n][i] == cbs[i];
      assert forall i | i in idx :: i < n by {
        forall i | i in idx
          ensures i < n
        {
          var k :| 0 <= k < |idx| && idx[k] == i;
        }
      }
      if Due(cbs[n], a.deferredCbs, runningDeferred) {
        idx := idx + [n];
      }
    }
  }

  /** evbuffer_run_callbacks tells exactly the callbacks that are due, unless nothing was
      counted; the counters start anew unless a deferred run is still to see them. */
  lemma RunTells(a: Account, runningDeferred: bool) returns (ns: seq<Notice>, idx: seq<nat>)
    requires Balanced(a)
    ensures var r := RunCallbacks(a, runningDeferred);
            && r.log == a.log + ns && Sent(ns, a.callbacks, idx, a.SoFar())
            && (forall i | 0 <= i < |a.callbacks| ::
                  i in idx <==> (a.nAdd > 0 || a.nDel > 0) && Due(a.callbacks[i], a.deferredCbs, runningDeferred))
            && r.total == a.total && r.callbacks == a.callbacks
            && r.deferredCbs == a.deferredCbs && r.queued == a.queued
            && (if a.callbacks == [] || ((a.nAdd > 0 || a.nDel > 0) && (a.deferredCbs ==> runningDeferred))
                then r.nAdd == r.nDel == r.missed == 0 && r.base == a.total
                else r.nAdd == a.nAdd && r.nDel == a.nDel && r.missed == a.missed && r.base == a.base)
  {
    if a.callbacks == [] || (a.nAdd == 0 && a.nDel == 0) {
      ns, idx := [], [];
    } else {
      ns := Notices(a.callbacks, a, runningDeferred);
      idx := NoticesSent(a.callbacks, a, runningDeferred);
    }
  }

  /** evbuffer_invoke_callbacks: without deferred callbacks every enabled one is told at once;
      with them those that do not defer, once, until the deferred run has come. */
  lemma InvokeTells(a: Account) returns (ns: seq<Notice>, idx: seq<nat>)
    requires Balanced(a)
    ensures var r := Invoke(a);
            && r.log == a.log + ns && Sent(ns, a.callbacks, idx, a.SoFar())
            && (forall i | 0 <= i < |a.callbacks| ::
                  i in idx <==>
                  && (a.nAdd > 0 || a.nDel > 0) && a.callbacks[i].enabled
                  && (a.deferredCbs ==> a.callbacks[i].nodefer && !a.queued))
            && r.total == a.total && r.callbacks == a.callbacks && r.deferredCbs == a.deferredCbs
            && (r.queued <==> a.queued || (a.deferredCbs && a.callbacks != []))
            && (if a.callbacks == [] || (!a.deferredCbs && (a.nAdd > 0 || a.nDel > 0))
                then r.nAdd == r.nDel == r.missed == 0 && r.base == a.total
                else r.nAdd == a.nAdd && r.nDel == a.nDel && r.missed == a.missed && r.base == a.base)
  {
    if a.callbacks == [] || (a.deferredCbs && a.queued) {
      ns, idx := [], [];
    } else {
      ns, idx := RunTells(if a.deferredCbs then a.(queued := true) else a, false);
    }
  }

  /** With deferred callbacks, an operation that changes the length and then the deferred run
      tell each enabled callback exactly once: first those that do not defer. */
  lemma DeferredOnce(a: Account) returns (first: seq<nat>, second: seq<nat>, ns: seq<Notice>, ms: seq<Notice>)
    requires Balanced(a) && a.deferredCbs && !a.queued && (a.nAdd > 0 || a.nDel > 0)
    ensures var r := RunCallbacks(Invoke(a).(queued := false), true);
            && r.log == a.log + ns + ms
            && Sent(ns, a.callbacks, first, a.SoFar()) && Sent(ms, a.callbacks, second, a.SoFar())
            && (forall i | 0 <= i < |a.callbacks| ::
                  && (i in first <==> a.callbacks[i].enabled && a.callbacks[i].nodefer)
                  && (i in second <==> a.callbacks[i].enabled && !a.callbacks[i].nodefer))
            && r.nAdd == r.nDel == r.missed == 0 && r.base == r.total == a.total
  {
    ns, first := InvokeTells(a);
    var b := Invoke(a).(queued := false);
    ms, second := RunTells(b, true);
  }

  /** What happens to a buffer between two resets. */
  datatype Change = Plus(n: nat) | Minus(n: nat) | Miss(n: nat)

  function Sum(cs: seq<Change>, kind: Change): (r: nat) {
    if cs == [] then 0
    else
      var c := cs[|cs| - 1];
      var same := (c.Plus? && kind.Plus?) || (c.Minus? && kind.Minus?) || (c.Miss? && kind.Miss?);
      Sum(cs[..|cs| - 1], kind) + if same then c.n else 0
  }

  function Changed(a: Account, cs: seq<Change>): (r: Account) {
    if cs == [] then a
    else
      var b := Changed(a, cs[..|cs| - 1]);
      match cs[|cs| - 1]
      case Plus(n) => b.Added(n)
      case Minus(n) => b.Removed(if n <= b.total then n else b.total)
      case Miss(n) => b.Spilled(n)
  }

  /** Whether every removal finds the bytes it removes. */
  predicate Covered(a: Account, cs: seq<Change>) {
    cs == [] || (Covered(a, cs[..|cs| - 1])
                 && (cs[|cs| - 1].Minus? ==> cs[|cs| - 1].n <= Changed(a, cs[..|cs| - 1]).total))
  }

  /** The counters are the bytes added and removed since the last reset, and the length is
      that at the reset with all changes. */
  lemma {:induction false} Tally(a: Account, cs: seq<Change>)
    requires a.nAdd == a.nDel == a.missed == 0 && a.base == a.total && Covered(a, cs)
    ensures var r := Changed(a, cs);
            && r.SoFar() == Since(a.total, Sum(cs, Miss(0)), Sum(cs, Plus(0)), Sum(cs, Minus(0)), r.total)
            && r.total == a.total + Sum(cs, Plus(0)) + Sum(cs, Miss(0)) - Sum(cs, Minus(0))
            && r.log == a.log && r.callbacks == a.callbacks
  {
    if cs != [] {
      Tally(a, cs[..|cs| - 1]);
    }
  }
}
