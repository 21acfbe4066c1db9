/** A monitor pass over a pid-keyed registry, shared by the memory and disk
    monitors: the pass takes a snapshot of the registered pids and visits
    each once; a visit either replaces the entry or removes it, and makes
    some kernel calls. The outcome of a visit depends only on the entry as
    it was when the pass began. */
module Registries {
  import opened Models
  import opened Kernel

  /** One visit: `next(pid, e)` is the entry e becomes, or None when the
      visit unregisters pid. */
  function Visit<E>(m: map<int, E>, pid: int, next: (int, E) -> Option<E>): map<int, E>
  {
    if pid !in m then m
    else match next(pid, m[pid])
      case None => m - {pid}
      case Some(e) => m[pid := e]
  }

  /** The registry after visiting the pids of s in order. */
  function Sweep<E>(m: map<int, E>, s: seq<int>, next: (int, E) -> Option<E>): map<int, E>
  {
    if s == [] then m else Visit(Sweep(m, s[..|s| - 1], next), s[|s| - 1], next)
  }

  /** The kernel calls made while visiting the pids of s in order;
      `calls(pid, e)` are those of one visit. */
  function SweepLog<E>(m: map<int, E>, s: seq<int>, next: (int, E) -> Option<E>,
                       calls: (int, E) -> seq<KernelCall>): seq<KernelCall>
  {
    if s == [] then []
    else
      var prev := Sweep(m, s[..|s| - 1], next);
      var pid := s[|s| - 1];
      SweepLog(m, s[..|s| - 1], next, calls) + (if pid in prev then calls(pid, prev[pid]) else [])
  }

  /** Visiting one more pid of s extends the registry and the log by that one visit. */
  lemma SweepSnoc<E>(m: map<int, E>, s: seq<int>, i: nat, next: (int, E) -> Option<E>,
                     calls: (int, E) -> seq<KernelCall>)
    requires i < |s|
    ensures var prev := Sweep(m, s[..i], next);
      && Sweep(m, s[..i + 1], next) == Visit(prev, s[i], next)
      && SweepLog(m, s[..i + 1], next, calls) ==
           SweepLog(m, s[..i], next, calls) + (if s[i] in prev then calls(s[i], prev[s[i]]) else [])
  {
    assert s[..i + 1][..i] == s[..i];
  }

  /** The order-free description: the registry once the pids in `done` have
      been visited, each judged on its entry in m. */
  function Swept<E>(m: map<int, E>, done: set<int>, next: (int, E) -> Option<E>): map<int, E>
  {
    map pid | pid in m && (pid !in done || next(pid, m[pid]).Some?) ::
      if pid in done then next(pid, m[pid]).value else m[pid]
  }

  /** The calls of visiting pid, judged on its entry in m. */
  function CallsOf<E>(m: map<int, E>, calls: (int, E) -> seq<KernelCall>): int -> seq<KernelCall>
  {
    (pid: int) => if pid in m then calls(pid, m[pid]) else []
  }

  /** Visiting one more pid replaces or removes just that pid's entry. */
  lemma SweptStep<E>(m: map<int, E>, done: set<int>, pid: int, next: (int, E) -> Option<E>)
    requires pid in m && pid !in done
    ensures var prev := Swept(m, done, next);
      && pid in prev && prev[pid] == m[pid]
      && Swept(m, done + {pid}, next) == Visit(prev, pid, next)
  {
    var prev := Swept(m, done, next);
    var after := Swept(m, done + {pid}, next);
    var expected := Visit(prev, pid, next);
    assert after.Keys == expected.Keys;
    assert forall q :: q in after ==> after[q] == expected[q];
  }

  /** A visit leaves every other pid's entry alone. */
  lemma VisitOthers<E>(m: map<int, E>, pid: int, next: (int, E) -> Option<E>, q: int)
    requires q != pid
    ensures q in Visit(m, pid, next) <==> q in m
    ensures q in m ==> Visit(m, pid, next)[q] == m[q]
  {
  }

  /** Visiting distinct registered pids one after another gives the
      order-free registry and, per pid, the calls judged on the entry as it
      was when the pass began: no visit sees another visit's effect. */
  lemma {:induction false} SweepOrderFree<E>(m: map<int, E>, s: seq<int>, next: (int, E) -> Option<E>,
                                             calls: (int, E) -> seq<KernelCall>)
    requires forall i, j :: 0 <= i < j < |s| ==> s[i] != s[j]
    requires forall i :: 0 <= i < |s| ==> s[i] in m
    ensures Sweep(m, s, next) == Swept(m, Elements(s), next)
    ensures SweepLog(m, s, next, calls) == CallsOver(s, CallsOf(m, calls))
  {
    if s == [] {
      assert Swept(m, {}, next) == m;
    } else {
      var init, pid := s[..|s| - 1], s[|s| - 1];
      SweepOrderFree(m, init, next, calls);
      assert pid !in Elements(init) by {
        forall k | 0 <= k < |init| ensures init[k] != pid {
          assert init[k] == s[k];
        }
      }
      SweptStep(m, Elements(init), pid, next);
      assert Elements(s) == Elements(init) + {pid} by {
        assert s == init + [pid];
      }
    }
  }

  /** After a full pass over the registered pids an entry is present exactly
      when its own visit keeps it, and holds what that visit made of it; no
      pid is added. */
  lemma SweptAll<E>(m: map<int, E>, next: (int, E) -> Option<E>, pid: int)
    ensures pid in Swept(m, m.Keys, next) <==> pid in m && next(pid, m[pid]).Some?
    ensures pid in Swept(m, m.Keys, next) ==> Swept(m, m.Keys, next)[pid] == next(pid, m[pid]).value
    ensures Swept(m, m.Keys, next).Keys <= m.Keys
  {
  }

  /** A snapshot listing every registered pid once covers the registry. */
  lemma SnapshotCovers<E>(m: map<int, E>, order: seq<int>)
    requires forall pid :: pid in m <==> pid in order
    ensures Elements(order) == m.Keys
  {
    forall pid ensures pid in Elements(order) <==> pid in m.Keys {
      assert pid in Elements(order) <==> pid in order;
    }
  }
}
