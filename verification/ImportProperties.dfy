/** What the import loop guarantees: for any way entities can fail, and for failures that come from
    missing prerequisites only. */
module ImportProperties {
  import opened DataRequest
  import opened ImportLoop

  // ---- safety, whatever the outcome of attempts

  // the newest attempt to import an entity failed
  ghost predicate LatestFailed(attempts: seq<Attempt>, id: Id) {
    if attempts == [] then false
    else
      var last := attempts[|attempts| - 1];
      if last.id == id then !last.ok else LatestFailed(attempts[..|attempts| - 1], id)
  }

  // how often an entity was accepted
  ghost function Accepted(attempts: seq<Attempt>, id: Id): nat {
    if attempts == [] then 0
    else
      var last := attempts[|attempts| - 1];
      Accepted(attempts[..|attempts| - 1], id) + if last.id == id && last.ok then 1 else 0
  }

  ghost predicate SkippedAreFailed<S>(p: Progress<S>) {
    forall id :: id in p.skipped <==> LatestFailed(p.attempts, id)
  }

  lemma LatestAndAccepted(attempts: seq<Attempt>, a: Attempt, id: Id)
    ensures LatestFailed(attempts + [a], id) == if a.id == id then !a.ok else LatestFailed(attempts, id)
    ensures Accepted(attempts + [a], id) == Accepted(attempts, id) + if a.id == id && a.ok then 1 else 0
  {
    assert (attempts + [a])[..|attempts|] == attempts;
  }

  lemma EntitySkip<S>(set_: Setter<S>, p: Progress<S>, e: Entity, firstRun: bool, lastRun: bool)
    requires SkippedAreFailed(p)
    ensures SkippedAreFailed(ImportEntity(set_, p, e, firstRun, lastRun))
  {
    var q := ImportEntity(set_, p, e, firstRun, lastRun);
    if q.attempts != p.attempts {
      var a := q.attempts[|p.attempts|];
      forall id
        ensures id in q.skipped <==> LatestFailed(q.attempts, id)
      {
        LatestAndAccepted(p.attempts, a, id);
      }
    }
  }

  lemma {:induction false} PassSkip<S>(set_: Setter<S>, p: Progress<S>, es: seq<Entity>, firstRun: bool, lastRun: bool)
    requires SkippedAreFailed(p)
    ensures SkippedAreFailed(Pass(set_, p, es, firstRun, lastRun))
  {
    if es != [] {
      var n := |es| - 1;
      PassSkip(set_, p, es[..n], firstRun, lastRun);
      EntitySkip(set_, Pass(set_, p, es[..n], firstRun, lastRun), es[n], firstRun, lastRun);
    }
  }

  // After any number of passes, the skipped entities are exactly those whose newest attempt failed.
  lemma {:induction false} SkippedAreLatestFailures<S>(set_: Setter<S>, start: S, es: seq<Entity>, n: nat)
    ensures SkippedAreFailed(Passes(set_, start, es, n))
  {
    if n > 0 {
      SkippedAreLatestFailures(set_, start, es, n - 1);
      PassSkip(set_, Passes(set_, start, es, n - 1), es, n == 1, n == LOOPS_TO_RUN);
    }
  }

  ghost predicate DistinctIds(es: seq<Entity>) {
    forall i, j :: 0 <= i < j < |es| ==> es[i].id != es[j].id
  }

  // Entity i has been tried; it was accepted once unless it is skipped.
  ghost predicate Settled<S>(p: Progress<S>, id: Id) {
    Accepted(p.attempts, id) == if id in p.skipped then 0 else 1
  }

  ghost predicate Untouched<S>(p: Progress<S>, id: Id) {
    Accepted(p.attempts, id) == 0 && id !in p.skipped
  }

  ghost predicate Tracked<S>(p: Progress<S>, id: Id, tried: bool) {
    if tried then Settled(p, id) else Untouched(p, id)
  }

  lemma EntitySettles<S>(set_: Setter<S>, p: Progress<S>, es: seq<Entity>, i: nat, k: nat, firstRun: bool,
                         lastRun: bool)
    requires DistinctIds(es) && i < |es| && k < |es|
    requires Tracked(p, es[k].id, !firstRun || k < i)
    ensures Tracked(ImportEntity(set_, p, es[i], firstRun, lastRun), es[k].id, !firstRun || k < i + 1)
  {
    var q := ImportEntity(set_, p, es[i], firstRun, lastRun);
    if q.attempts != p.attempts {
      LatestAndAccepted(p.attempts, q.attempts[|p.attempts|], es[k].id);
    }
  }

  lemma {:induction false} PassSettles<S>(set_: Setter<S>, p: Progress<S>, es: seq<Entity>, i: nat, k: nat,
                                          firstRun: bool, lastRun: bool)
    requires DistinctIds(es) && i <= |es| && k < |es|
    requires Tracked(p, es[k].id, !firstRun)
    ensures Tracked(Pass(set_, p, es[..i], firstRun, lastRun), es[k].id, !firstRun || k < i)
    decreases i
  {
    if i > 0 {
      PassSettles(set_, p, es, i - 1, k, firstRun, lastRun);
      assert es[..i][..i - 1] == es[..i - 1] && es[..i][i - 1] == es[i - 1];
      EntitySettles(set_, Pass(set_, p, es[..i - 1], firstRun, lastRun), es, i - 1, k, firstRun, lastRun);
    }
  }

  // With distinct IDs, after every pass each entity is either skipped and was never accepted, or was
  // accepted exactly once. So a commit comes with every entity accepted exactly once.
  lemma {:induction false} AcceptedExactlyOnce<S>(set_: Setter<S>, start: S, es: seq<Entity>, n: nat, k: nat)
    requires DistinctIds(es) && n >= 1 && k < |es|
    ensures Settled(Passes(set_, start, es, n), es[k].id)
  {
    if n > 1 {
      AcceptedExactlyOnce(set_, start, es, n - 1, k);
    }
    PassSettles(set_, Passes(set_, start, es, n - 1), es, |es|, k, n == 1, n == LOOPS_TO_RUN);
    assert es[..|es|] == es;
  }

  lemma {:induction false} SkippedAreEntities<S>(set_: Setter<S>, p: Progress<S>, es: seq<Entity>, firstRun: bool,
                                                 lastRun: bool, id: Id)
    ensures id in Pass(set_, p, es, firstRun, lastRun).skipped ==>
              id in p.skipped || exists i :: 0 <= i < |es| && es[i].id == id
  {
    if es != [] {
      SkippedAreEntities(set_, p, es[..|es| - 1], firstRun, lastRun, id);
    }
  }

  // the same transaction, and the same entities skipped but for one
  ghost predicate Alike<S>(p: Progress<S>, q: Progress<S>, id: Id) {
    p.state == q.state && forall x :: x != id ==> (x in p.skipped <==> x in q.skipped)
  }

  lemma {:induction false} AlikeThroughPass<S>(set_: Setter<S>, p: Progress<S>, q: Progress<S>, es: seq<Entity>, id: Id)
    requires Alike(p, q, id) && forall e :: e in es ==> e.id != id
    ensures Alike(Pass(set_, p, es, false, true), Pass(set_, q, es, false, true), id)
    ensures id in Pass(set_, p, es, false, true).skipped <==> id in p.skipped
  {
    if es != [] {
      var n := |es| - 1;
      assert es[n] in es && forall e :: e in es[..n] ==> e in es;
      AlikeThroughPass(set_, p, q, es[..n], id);
    }
  }

  // The last pass accepts every unprotected preset, and does to the transaction and to all other
  // entities what it would do without that preset.
  lemma LastPassAcceptsOptional<S>(set_: Setter<S>, p: Progress<S>, es: seq<Entity>, i: nat)
    requires DistinctIds(es) && i < |es| && Optional(es[i])
    ensures es[i].id !in Pass(set_, p, es, false, true).skipped
    ensures Alike(Pass(set_, p, es, false, true), Pass(set_, p, es[..i] + es[i + 1..], false, true), es[i].id)
  {
    var before, after := es[..i], es[i + 1..];
    var q := Pass(set_, p, before, false, true);
    assert es == before + ([es[i]] + after);
    PassTogether(set_, p, before, [es[i]] + after, false, true);
    PassTogether(set_, q, [es[i]], after, false, true);
    PassTogether(set_, p, before, after, false, true);
    assert [es[i]][..0] == [];
    var r := ImportEntity(set_, q, es[i], false, true);
    assert Pass(set_, q, [es[i]], false, true) == r;
    forall e | e in after
      ensures e.id != es[i].id
    {
      var k :| 0 <= k < |after| && after[k] == e;
      assert es[i + 1 + k] == e;
    }
    AlikeThroughPass(set_, r, q, after, es[i].id);
  }

  // ---- convergence, when an attempt succeeds exactly if its prerequisites are there

  type Needs = map<Id, set<Id>>

  // an attempt that fails wipes the state it was made in: only the rollback saves it
  function SetIfReady(needs: Needs): Setter<set<Id>> {
    (applied, id) => if id in needs && needs[id] <= applied then (true, applied + {id}) else (false, {})
  }

  // Entity i is set by pass n: everything it needs was there at the start, comes earlier in the order and
  // is set by the same pass, or comes later and was set by the pass before. The last pass sets no
  // unprotected preset any more.
  ghost predicate SetBy(needs: Needs, base: set<Id>, es: seq<Entity>, i: nat, n: nat)
    requires i < |es|
    decreases n, i
  {
    n > 0 &&
    (SetBy(needs, base, es, i, n - 1) ||
     (!(n == LOOPS_TO_RUN && Optional(es[i])) &&
      es[i].id in needs &&
      forall p :: p in needs[es[i].id] ==> Available(needs, base, es, i, n, p)))
  }

  ghost predicate Available(needs: Needs, base: set<Id>, es: seq<Entity>, i: nat, n: nat, p: Id)
    requires i < |es| && n > 0
    decreases n, i, 0
  {
    p in base ||
    (exists j :: 0 <= j < i && es[j].id == p && SetBy(needs, base, es, j, n)) ||
    (exists j :: i <= j < |es| && es[j].id == p && SetBy(needs, base, es, j, n - 1))
  }

  // what the transaction holds while pass n is at position i
  ghost predicate AtPosition(needs: Needs, base: set<Id>, es: seq<Entity>, i: nat, n: nat, q: Progress<set<Id>>)
    requires i <= |es| && n > 0
  {
    && (forall p :: p in q.state <==>
          p in base ||
            exists j ::
              0 <= j < |es| && es[j].id == p &&
              SetBy(needs, base, es, j, if j < i then n else n - 1))
    && (forall j :: 0 <= j < |es| ==>
          (es[j].id in q.skipped <==>
             if j < i then !SetBy(needs, base, es, j, n) && !(n == LOOPS_TO_RUN && Optional(es[j]))
             else n > 1 && !SetBy(needs, base, es, j, n - 1)))
  }

  lemma EntityMoves(needs: Needs, base: set<Id>, es: seq<Entity>, i: nat, n: nat, q: Progress<set<Id>>)
    requires DistinctIds(es) && i < |es| && 0 < n <= LOOPS_TO_RUN
    requires AtPosition(needs, base, es, i, n, q)
    ensures AtPosition(needs, base, es, i + 1, n, ImportEntity(SetIfReady(needs), q, es[i], n == 1, n == LOOPS_TO_RUN))
  {
    var e := es[i];
    var r := ImportEntity(SetIfReady(needs), q, e, n == 1, n == LOOPS_TO_RUN);
    if !SetBy(needs, base, es, i, n - 1) && !(n == LOOPS_TO_RUN && Optional(e)) {
      ReadyIffSet(needs, base, es, i, n, q);
    }
    assert r.skipped == q.skipped || r.skipped == q.skipped - {e.id} || r.skipped == q.skipped + {e.id};
    forall j | 0 <= j < |es|
      ensures es[j].id in r.skipped <==>
              if j < i + 1 then !SetBy(needs, base, es, j, n) && !(n == LOOPS_TO_RUN && Optional(es[j]))
              else n > 1 && !SetBy(needs, base, es, j, n - 1)
    {
      assert j != i ==> (es[j].id in r.skipped <==> es[j].id in q.skipped);
    }
    forall p
      ensures p in r.state <==>
              p in base ||
                exists j ::
                  0 <= j < |es| && es[j].id == p &&
                  SetBy(needs, base, es, j, if j < i + 1 then n else n - 1)
    {
      StateMoves(needs, base, es, i, n, q, p);
    }
  }

  // an entity is ready at its position in the pass exactly if it is set by this pass
  lemma ReadyIffSet(needs: Needs, base: set<Id>, es: seq<Entity>, i: nat, n: nat, q: Progress<set<Id>>)
    requires DistinctIds(es) && i < |es| && 0 < n <= LOOPS_TO_RUN
    requires AtPosition(needs, base, es, i, n, q)
    requires !SetBy(needs, base, es, i, n - 1)
    requires !(n == LOOPS_TO_RUN && Optional(es[i]))
    ensures (es[i].id in needs && needs[es[i].id] <= q.state) <==> SetBy(needs, base, es, i, n)
  {
  }

  lemma StateMoves(needs: Needs, base: set<Id>, es: seq<Entity>, i: nat, n: nat, q: Progress<set<Id>>, p: Id)
    requires DistinctIds(es) && i < |es| && 0 < n <= LOOPS_TO_RUN
    requires AtPosition(needs, base, es, i, n, q)
    ensures var r := ImportEntity(SetIfReady(needs), q, es[i], n == 1, n == LOOPS_TO_RUN);
            p in r.state <==>
            p in base ||
              exists j ::
                0 <= j < |es| && es[j].id == p &&
                SetBy(needs, base, es, j, if j < i + 1 then n else n - 1)
  {
  }

  lemma {:induction false} PassMoves(needs: Needs, base: set<Id>, es: seq<Entity>, i: nat, n: nat, q: Progress<set<Id>>)
    requires DistinctIds(es) && i <= |es| && 0 < n <= LOOPS_TO_RUN
    requires AtPosition(needs, base, es, 0, n, q)
    ensures AtPosition(needs, base, es, i, n, Pass(SetIfReady(needs), q, es[..i], n == 1, n == LOOPS_TO_RUN))
    decreases i
  {
    if i > 0 {
      PassMoves(needs, base, es, i - 1, n, q);
      EntityMoves(needs, base, es, i - 1, n, Pass(SetIfReady(needs), q, es[..i - 1], n == 1, n == LOOPS_TO_RUN));
      assert es[..i][..i - 1] == es[..i - 1];
    }
  }

  // the transaction and the skipped entities between passes
  ghost predicate AfterPass(needs: Needs, base: set<Id>, es: seq<Entity>, n: nat, q: Progress<set<Id>>) {
    && (forall p :: p in q.state <==>
        p in base || exists j :: 0 <= j < |es| && es[j].id == p && SetBy(needs, base, es, j, n))
    && (forall j :: 0 <= j < |es| ==>
          (es[j].id in q.skipped <==>
            n > 0 && !SetBy(needs, base, es, j, n) &&
            !(n == LOOPS_TO_RUN && Optional(es[j]))))
  }

  // Exactly the entities set by pass n are in the transaction after n passes; the others are skipped.
  lemma {:induction false} PassesSetExactly(needs: Needs, base: set<Id>, es: seq<Entity>, n: nat)
    requires DistinctIds(es) && n <= LOOPS_TO_RUN
    ensures AfterPass(needs, base, es, n, Passes(SetIfReady(needs), base, es, n))
  {
    if n > 0 {
      PassesSetExactly(needs, base, es, n - 1);
      var before := Passes(SetIfReady(needs), base, es, n - 1);
      assert AtPosition(needs, base, es, 0, n, before);
      PassMoves(needs, base, es, |es|, n, before);
      assert es[..|es|] == es;
    }
  }

  lemma {:induction false} SetByStays(needs: Needs, base: set<Id>, es: seq<Entity>, i: nat, m: nat, n: nat)
    requires i < |es| && m <= n
    requires SetBy(needs, base, es, i, m)
    ensures SetBy(needs, base, es, i, n)
    decreases n
  {
    if m < n {
      SetByStays(needs, base, es, i, m, n - 1);
    }
  }

  lemma SkippedNone(needs: Needs, base: set<Id>, es: seq<Entity>, n: nat)
    requires DistinctIds(es) && 0 < n <= LOOPS_TO_RUN
    ensures Passes(SetIfReady(needs), base, es, n).skipped == {} <==>
            forall i :: 0 <= i < |es| ==> SetBy(needs, base, es, i, n) || (n == LOOPS_TO_RUN && Optional(es[i]))
  {
    PassesSetExactly(needs, base, es, n);
    var q := Passes(SetIfReady(needs), base, es, n);
    if q.skipped != {} {
      var id :| id in q.skipped;
      SkippedInPasses(SetIfReady(needs), base, es, n, id);
    }
  }

  lemma {:induction false} SkippedInPasses<S>(set_: Setter<S>, start: S, es: seq<Entity>, n: nat, id: Id)
    requires id in Passes(set_, start, es, n).skipped
    ensures exists i :: 0 <= i < |es| && es[i].id == id
  {
    if n > 0 {
      SkippedAreEntities(set_, Passes(set_, start, es, n - 1), es, n == 1, n == LOOPS_TO_RUN, id);
      if id in Passes(set_, start, es, n - 1).skipped {
        SkippedInPasses(set_, start, es, n - 1, id);
      }
    }
  }

  // some pass ends with nothing skipped
  ghost predicate Commits(needs: Needs, base: set<Id>, es: seq<Entity>) {
    exists n :: 1 <= n <= LOOPS_TO_RUN && Passes(SetIfReady(needs), base, es, n).skipped == {}
  }

  ghost predicate AllSetInTime(needs: Needs, base: set<Id>, es: seq<Entity>) {
    forall i :: 0 <= i < |es| ==> SetBy(needs, base, es, i, LOOPS_TO_RUN) || Optional(es[i])
  }

  // The import commits if and only if every entity but unprotected presets is set by the tenth pass.
  lemma CommitsIffAllSet(needs: Needs, base: set<Id>, es: seq<Entity>)
    requires DistinctIds(es)
    ensures Commits(needs, base, es) <==> AllSetInTime(needs, base, es)
  {
    SkippedNone(needs, base, es, LOOPS_TO_RUN);
    if n :| 1 <= n <= LOOPS_TO_RUN && Passes(SetIfReady(needs), base, es, n).skipped == {} {
      SkippedNone(needs, base, es, n);
      forall i | 0 <= i < |es|
        ensures SetBy(needs, base, es, i, LOOPS_TO_RUN) || Optional(es[i])
      {
        if SetBy(needs, base, es, i, n) {
          SetByStays(needs, base, es, i, n, LOOPS_TO_RUN);
        }
      }
    }
  }

  // ---- how many passes an entity takes

  // entity i needs entity j, which was not there before
  ghost predicate Needed(needs: Needs, base: set<Id>, es: seq<Entity>, i: nat, j: nat)
    requires i < |es| && j < |es|
  {
    es[i].id in needs && es[j].id in needs[es[i].id] && es[j].id !in base
  }

  // Prerequisites can be met at all: they are there or imported, and a rank shows that they have no cycles.
  ghost predicate Satisfiable(needs: Needs, base: set<Id>, es: seq<Entity>, rank: seq<nat>) {
    && DistinctIds(es) && |rank| == |es|
    && (forall i :: 0 <= i < |es| ==>
          es[i].id in needs && forall p :: p in needs[es[i].id] ==>
                p in base || exists j :: 0 <= j < |es| && es[j].id == p)
    && (forall i, j :: 0 <= i < |es| && 0 <= j < |es| && Needed(needs, base, es, i, j) ==> rank[j] < rank[i])
  }

  // The largest number of steps back in the order on any chain of prerequisites of entity i.
  ghost function Late(needs: Needs, base: set<Id>, es: seq<Entity>, rank: seq<nat>, i: nat): nat
    requires i < |es| && Satisfiable(needs, base, es, rank)
    decreases rank[i], |es| + 1
  {
    LateAmong(needs, base, es, rank, i, |es|)
  }

  ghost function LateAmong(needs: Needs, base: set<Id>, es: seq<Entity>, rank: seq<nat>, i: nat, k: nat): nat
    requires i < |es| && k <= |es| && Satisfiable(needs, base, es, rank)
    decreases rank[i], k
  {
    if k == 0 then 0
    else
      var rest := LateAmong(needs, base, es, rank, i, k - 1);
      if Needed(needs, base, es, i, k - 1) then
        var via := Late(needs, base, es, rank, k - 1) + if k - 1 > i then 1 else 0;
        if via > rest then via else rest
      else rest
  }

  ghost predicate EarlyVia(needs: Needs, base: set<Id>, es: seq<Entity>, rank: seq<nat>, i: nat, j: nat, n: nat)
    requires i < |es| && j < |es| && Satisfiable(needs, base, es, rank)
  {
    Needed(needs, base, es, i, j) ==> Late(needs, base, es, rank, j) + (if j > i then 1 else 0) < n
  }

  lemma {:induction false} LateIsMaximum(needs: Needs, base: set<Id>, es: seq<Entity>, rank: seq<nat>, i: nat, k: nat,
                                         n: nat)
    requires i < |es| && k <= |es| && Satisfiable(needs, base, es, rank) && n > 0
    ensures LateAmong(needs, base, es, rank, i, k) < n <==>
            forall j :: 0 <= j < k ==> EarlyVia(needs, base, es, rank, i, j, n)
    decreases k
  {
    if k > 0 {
      LateIsMaximum(needs, base, es, rank, i, k - 1, n);
      assert EarlyVia(needs, base, es, rank, i, k - 1, n) || !EarlyVia(needs, base, es, rank, i, k - 1, n);
    }
  }

  // If some condition says which of its prerequisites entity i finds in pass n, it finds all of them if and
  // only if the condition holds for each.
  lemma ReadyIffFound(needs: Needs, base: set<Id>, es: seq<Entity>, rank: seq<nat>, i: nat, n: nat, found: nat -> bool)
    requires i < |es| && Satisfiable(needs, base, es, rank) && 0 < n
    requires forall j :: 0 <= j < |es| && Needed(needs, base, es, i, j) ==>
               (SetBy(needs, base, es, j, if j < i then n else n - 1) <==> found(j))
    ensures (forall p :: p in needs[es[i].id] ==> Available(needs, base, es, i, n, p)) <==>
            forall j :: 0 <= j < |es| && Needed(needs, base, es, i, j) ==> found(j)
  {
    if forall p :: p in needs[es[i].id] ==> Available(needs, base, es, i, n, p) {
      forall j | 0 <= j < |es| && Needed(needs, base, es, i, j)
        ensures found(j)
      {
        assert Available(needs, base, es, i, n, es[j].id);
      }
    }
    if forall j :: 0 <= j < |es| && Needed(needs, base, es, i, j) ==> found(j) {
      forall p | p in needs[es[i].id]
        ensures Available(needs, base, es, i, n, p)
      {
        if p !in base {
          var j :| 0 <= j < |es| && es[j].id == p;
          assert Needed(needs, base, es, i, j) && found(j);
        }
      }
    }
  }

  // Before the last pass, an entity with at most k steps back on any chain is set by pass k + 1, and not
  // before.
  lemma {:induction false} SetByIffLate(needs: Needs, base: set<Id>, es: seq<Entity>, rank: seq<nat>, i: nat, n: nat)
    requires i < |es| && Satisfiable(needs, base, es, rank) && n < LOOPS_TO_RUN
    ensures SetBy(needs, base, es, i, n) <==> Late(needs, base, es, rank, i) < n
    decreases rank[i], n
  {
    if n > 0 {
      SetByIffLate(needs, base, es, rank, i, n - 1);
      var early := (j: nat) => j < |es| && EarlyVia(needs, base, es, rank, i, j, n);
      forall j | 0 <= j < |es| && Needed(needs, base, es, i, j)
        ensures SetBy(needs, base, es, j, if j < i then n else n - 1) <==> early(j)
      {
        SetByIffLate(needs, base, es, rank, j, n);
        SetByIffLate(needs, base, es, rank, j, n - 1);
      }
      ReadyIffFound(needs, base, es, rank, i, n, early);
      LateIsMaximum(needs, base, es, rank, i, |es|, n);
    }
  }

  // The last pass sets no unprotected preset. So an entity that takes all ten passes is in time only if it
  // is none itself, and waits for none that comes earlier in the order and takes ten passes.
  ghost predicate InTime(needs: Needs, base: set<Id>, es: seq<Entity>, rank: seq<nat>, i: nat)
    requires i < |es| && Satisfiable(needs, base, es, rank)
    decreases i
  {
    var late := Late(needs, base, es, rank, i);
    late < 9 ||
    (late == 9 && !Optional(es[i]) &&
     forall j :: 0 <= j < i && Needed(needs, base, es, i, j) ==> InTime(needs, base, es, rank, j))
  }

  // whether entity i, not set before the last pass, finds entity j in it
  ghost predicate InTimeVia(needs: Needs, base: set<Id>, es: seq<Entity>, rank: seq<nat>, i: nat, j: nat)
    requires i < |es| && j < |es| && Satisfiable(needs, base, es, rank)
  {
    if j < i then InTime(needs, base, es, rank, j) else Late(needs, base, es, rank, j) < LOOPS_TO_RUN - 1
  }

  lemma InTimeIffVia(needs: Needs, base: set<Id>, es: seq<Entity>, rank: seq<nat>, i: nat)
    requires i < |es| && Satisfiable(needs, base, es, rank)
    requires Late(needs, base, es, rank, i) >= LOOPS_TO_RUN - 1
    ensures InTime(needs, base, es, rank, i) <==>
            !Optional(es[i]) && forall j :: 0 <= j < |es| && Needed(needs, base, es, i, j) ==>
                  InTimeVia(needs, base, es, rank, i, j)
  {
    LateIsMaximum(needs, base, es, rank, i, |es|, LOOPS_TO_RUN);
    if Late(needs, base, es, rank, i) < LOOPS_TO_RUN {
      forall j | 0 <= j < |es| && Needed(needs, base, es, i, j)
        ensures j >= i ==> InTimeVia(needs, base, es, rank, i, j)
      {
        assert EarlyVia(needs, base, es, rank, i, j, LOOPS_TO_RUN) && j != i;
      }
    } else {
      var j :| 0 <= j < |es| && !EarlyVia(needs, base, es, rank, i, j, LOOPS_TO_RUN);
      assert Needed(needs, base, es, i, j) && !InTimeVia(needs, base, es, rank, i, j);
    }
  }

  // An entity is set by the tenth pass if and only if it is in time.
  lemma {:induction false} SetByTenthIffInTime(needs: Needs, base: set<Id>, es: seq<Entity>, rank: seq<nat>, i: nat)
    requires i < |es| && Satisfiable(needs, base, es, rank)
    ensures SetBy(needs, base, es, i, LOOPS_TO_RUN) <==> InTime(needs, base, es, rank, i)
    decreases i
  {
    var n := LOOPS_TO_RUN;
    SetByIffLate(needs, base, es, rank, i, n - 1);
    if Late(needs, base, es, rank, i) >= n - 1 {
      var inTime := (j: nat) => j < |es| && InTimeVia(needs, base, es, rank, i, j);
      forall j | 0 <= j < |es| && Needed(needs, base, es, i, j)
        ensures SetBy(needs, base, es, j, if j < i then n else n - 1) <==> inTime(j)
      {
        if j < i {
          SetByTenthIffInTime(needs, base, es, rank, j);
        } else {
          SetByIffLate(needs, base, es, rank, j, n - 1);
        }
      }
      InTimeIffVia(needs, base, es, rank, i);
      ReadyIffFound(needs, base, es, rank, i, n, inTime);
    }
  }

  // The import commits if and only if every entity but unprotected presets is in time.
  lemma CommitsIffInTime(needs: Needs, base: set<Id>, es: seq<Entity>, rank: seq<nat>)
    requires Satisfiable(needs, base, es, rank)
    ensures Commits(needs, base, es) <==>
            forall i :: 0 <= i < |es| ==> Optional(es[i]) || InTime(needs, base, es, rank, i)
  {
    CommitsIffAllSet(needs, base, es);
    forall i | 0 <= i < |es|
      ensures SetBy(needs, base, es, i, LOOPS_TO_RUN) <==> InTime(needs, base, es, rank, i)
    {
      SetByTenthIffInTime(needs, base, es, rank, i);
    }
  }

  // ---- an import that cannot commit

  // protected presets, each of which needs the next one
  function ChainOf(m: nat): (es: seq<Entity>)
    ensures |es| == m
  {
    seq(m, i requires 0 <= i < m => Entity(i, true, true))
  }

  function NextOf(i: Id, m: nat): set<Id> {
    if i + 1 < m then {i + 1} else {}
  }

  function ChainNeeds(m: nat): Needs {
    map i: Id | 0 <= i < m :: NextOf(i, m)
  }

  function ChainRank(m: nat): (rank: seq<nat>)
    ensures |rank| == m
  {
    seq(m, i requires 0 <= i < m => var left: nat := m - 1 - i; left)
  }

  lemma ChainIsSatisfiable(m: nat)
    ensures Satisfiable(ChainNeeds(m), {}, ChainOf(m), ChainRank(m))
    ensures NextNeeded(ChainNeeds(m), {}, ChainOf(m))
  {
    var needs, es := ChainNeeds(m), ChainOf(m);
    forall i | 0 <= i < |es|
      ensures forall p :: p in needs[es[i].id] ==> exists j :: 0 <= j < |es| && es[j].id == p
    {
      assert i + 1 < m ==> es[i + 1].id == i + 1;
    }
  }

  ghost predicate NextNeeded(needs: Needs, base: set<Id>, es: seq<Entity>) {
    forall i, j :: 0 <= i < |es| && 0 <= j < |es| ==> (Needed(needs, base, es, i, j) <==> j == i + 1)
  }

  lemma {:induction false} LateInChain(needs: Needs, base: set<Id>, es: seq<Entity>, rank: seq<nat>, i: nat)
    requires i < |es| && Satisfiable(needs, base, es, rank) && NextNeeded(needs, base, es)
    ensures Late(needs, base, es, rank, i) == |es| - 1 - i
    decreases |es| - i
  {
    LateIsMaximum(needs, base, es, rank, i, |es|, |es| - i);
    if i + 1 < |es| {
      LateInChain(needs, base, es, rank, i + 1);
      LateIsMaximum(needs, base, es, rank, i, |es|, |es| - 1 - i);
      assert !EarlyVia(needs, base, es, rank, i, i + 1, |es| - 1 - i);
    }
  }

  // Prerequisites that all come one place too late: ten such entities can be imported, eleven cannot.
  lemma BackwardChainCommitsIffShort(m: nat)
    ensures Satisfiable(ChainNeeds(m), {}, ChainOf(m), ChainRank(m))
    ensures Commits(ChainNeeds(m), {}, ChainOf(m)) <==> m <= 10
  {
    ChainIsSatisfiable(m);
    ChainCommits(ChainNeeds(m), {}, ChainOf(m), ChainRank(m));
  }

  lemma ChainCommits(needs: Needs, base: set<Id>, es: seq<Entity>, rank: seq<nat>)
    requires Satisfiable(needs, base, es, rank) && NextNeeded(needs, base, es)
    requires forall i :: 0 <= i < |es| ==> !Optional(es[i])
    ensures Commits(needs, base, es) <==> |es| <= LOOPS_TO_RUN
  {
    CommitsIffInTime(needs, base, es, rank);
    forall i | 0 <= i < |es|
      ensures InTime(needs, base, es, rank, i) <==> |es| - i <= LOOPS_TO_RUN
    {
      LateInChain(needs, base, es, rank, i);
    }
    if es != [] {
      assert InTime(needs, base, es, rank, 0) <==> |es| <= LOOPS_TO_RUN;
    }
  }

  // ---- every pass makes progress

  // lateness grows by single steps, so every smaller number occurs among the prerequisites
  lemma {:induction false} LateHasNoGaps(needs: Needs, base: set<Id>, es: seq<Entity>, rank: seq<nat>, i: nat, m: nat)
    returns (k: nat)
    requires i < |es| && Satisfiable(needs, base, es, rank)
    requires m <= Late(needs, base, es, rank, i)
    ensures k < |es| && Late(needs, base, es, rank, k) == m
    decreases rank[i]
  {
    var late := Late(needs, base, es, rank, i);
    if late == m {
      k := i;
    } else {
      LateIsMaximum(needs, base, es, rank, i, |es|, late);
      var j :| 0 <= j < |es| && !EarlyVia(needs, base, es, rank, i, j, late);
      k := LateHasNoGaps(needs, base, es, rank, j, m);
    }
  }

  // the first entity in the order that takes exactly m + 1 passes
  lemma {:induction false} FirstLate(needs: Needs, base: set<Id>, es: seq<Entity>, rank: seq<nat>, i: nat, m: nat)
    returns (k: nat)
    requires i < |es| && Satisfiable(needs, base, es, rank)
    requires Late(needs, base, es, rank, i) == m
    ensures k < |es| && Late(needs, base, es, rank, k) == m
    ensures forall j :: 0 <= j < k ==> Late(needs, base, es, rank, j) != m
    decreases i
  {
    if j :| 0 <= j < i && Late(needs, base, es, rank, j) == m {
      k := FirstLate(needs, base, es, rank, j, m);
    } else {
      k := i;
    }
  }

  lemma SetInLastPass(needs: Needs, base: set<Id>, es: seq<Entity>, rank: seq<nat>, k: nat)
    requires k < |es| && Satisfiable(needs, base, es, rank)
    requires Late(needs, base, es, rank, k) == LOOPS_TO_RUN - 1 && !Optional(es[k])
    requires forall j :: 0 <= j < k ==> Late(needs, base, es, rank, j) != LOOPS_TO_RUN - 1
    ensures SetBy(needs, base, es, k, LOOPS_TO_RUN)
  {
    LateIsMaximum(needs, base, es, rank, k, |es|, LOOPS_TO_RUN);
    forall j | 0 <= j < k && Needed(needs, base, es, k, j)
      ensures InTime(needs, base, es, rank, j)
    {
      assert EarlyVia(needs, base, es, rank, k, j, LOOPS_TO_RUN);
    }
    SetByTenthIffInTime(needs, base, es, rank, k);
  }

  // Each repeated pass that starts with skipped entities ends with strictly fewer, the last one included.
  lemma EveryPassMakesProgress(needs: Needs, base: set<Id>, es: seq<Entity>, rank: seq<nat>, n: nat)
    requires Satisfiable(needs, base, es, rank) && 1 < n <= LOOPS_TO_RUN
    requires Passes(SetIfReady(needs), base, es, n - 1).skipped != {}
    ensures Passes(SetIfReady(needs), base, es, n).skipped < Passes(SetIfReady(needs), base, es, n - 1).skipped
  {
    var before, after := Passes(SetIfReady(needs), base, es, n - 1), Passes(SetIfReady(needs), base, es, n);
    PassesSetExactly(needs, base, es, n - 1);
    PassesSetExactly(needs, base, es, n);
    forall id | id in after.skipped
      ensures id in before.skipped
    {
      SkippedInPasses(SetIfReady(needs), base, es, n, id);
      var i :| 0 <= i < |es| && es[i].id == id;
      if SetBy(needs, base, es, i, n - 1) {
        SetByStays(needs, base, es, i, n - 1, n);
      }
    }
    var id :| id in before.skipped;
    SkippedInPasses(SetIfReady(needs), base, es, n - 1, id);
    var i :| 0 <= i < |es| && es[i].id == id;
    SetByIffLate(needs, base, es, rank, i, n - 1);
    var k := LateHasNoGaps(needs, base, es, rank, i, n - 1);
    k := FirstLate(needs, base, es, rank, k, n - 1);
    SetByIffLate(needs, base, es, rank, k, n - 1);
    if n < LOOPS_TO_RUN {
      SetByIffLate(needs, base, es, rank, k, n);
    } else if !Optional(es[k]) {
      SetInLastPass(needs, base, es, rank, k);
    }
    assert es[k].id in before.skipped && es[k].id !in after.skipped;
  }
}
