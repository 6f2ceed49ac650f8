/** Copying a tenant's schedulers to two new tenants, by two find-then-insert loops that run at the same
    time on the same collection. */
module SchedulerCopies {
  import opened Basics
  import opened Schedulers

  /** Copies without _id, for another tenant. */
  function BuildLspSchedulers(schedulers: seq<Stored>, lspId: string): (r: seq<Scheduler>)
    ensures |r| == |schedulers|
    ensures forall k :: 0 <= k < |r| ==> r[k] == schedulers[k].scheduler.(lspId := lspId)
  {
    seq(|schedulers|, k requires 0 <= k < |schedulers| => schedulers[k].scheduler.(lspId := lspId))
  }

  // ----- One loop on its own -----

  function NameIn(rs: seq<Scheduler>, name: string): bool {
    exists s :: s in rs && s.name == name
  }

  function CopyOne(rs: seq<Scheduler>, s: Scheduler): seq<Scheduler> {
    if NameIn(rs, s.name) then rs else rs + [s]
  }

  /** The tenant's schedulers after its loop: each copy is appended unless its name is there already. */
  function CopyAll(rs: seq<Scheduler>, copies: seq<Scheduler>): seq<Scheduler> {
    if copies == [] then rs else CopyOne(CopyAll(rs, copies[..|copies| - 1]), copies[|copies| - 1])
  }

  lemma NameInSnoc(rs: seq<Scheduler>, s: Scheduler, name: string)
    ensures NameIn(rs + [s], name) <==> NameIn(rs, name) || s.name == name
  {
  }

  /** Afterwards exactly the old and the copied names are there. */
  lemma {:induction false} CopyAllNames(rs: seq<Scheduler>, copies: seq<Scheduler>, name: string)
    ensures NameIn(CopyAll(rs, copies), name) <==> NameIn(rs, name) || NameIn(copies, name)
  {
    if copies != [] {
      var front, last := copies[..|copies| - 1], copies[|copies| - 1];
      assert copies == front + [last];
      CopyAllNames(rs, front, name);
      NameInSnoc(front, last, name);
      NameInSnoc(CopyAll(rs, front), last, name);
    }
  }

  /** The old schedulers stand first; each appended one is a copy whose name was not there before it. */
  lemma {:induction false} CopyAllAppends(rs: seq<Scheduler>, copies: seq<Scheduler>, k: nat)
    ensures rs <= CopyAll(rs, copies)
    ensures |rs| <= k < |CopyAll(rs, copies)| ==>
              CopyAll(rs, copies)[k] in copies && !NameIn(CopyAll(rs, copies)[..k], CopyAll(rs, copies)[k].name)
    decreases |copies|
  {
    if copies != [] {
      var front, last := copies[..|copies| - 1], copies[|copies| - 1];
      var mid, r := CopyAll(rs, front), CopyAll(rs, copies);
      assert copies == front + [last];
      CopyAllAppends(rs, front, k);
      if k <= |mid| { assert r[..k] == mid[..k]; }
      assert mid[..|mid|] == mid;
    }
  }

  // ----- Two loops at the same time -----

  /** The schedulers of one tenant, in the order of the collection. */
  function Records(docs: seq<Stored>, lspId: string): seq<Scheduler> {
    if docs == [] then []
    else
      var d := docs[|docs| - 1];
      Records(docs[..|docs| - 1], lspId) + if d.scheduler.lspId == lspId then [d.scheduler] else []
  }

  lemma RecordsSnoc(docs: seq<Stored>, d: Stored, lspId: string)
    ensures Records(docs + [d], lspId) ==
            Records(docs, lspId) + if d.scheduler.lspId == lspId then [d.scheduler] else []
  {
  }

  lemma {:induction false} FindOneSeesRecords(docs: seq<Stored>, name: string, lspId: string)
    ensures FindOne(docs, name, lspId) < |docs| <==> NameIn(Records(docs, lspId), name)
  {
    if docs != [] {
      var front, d := docs[..|docs| - 1], docs[|docs| - 1];
      assert docs == front + [d];
      RecordsSnoc(front, d, lspId);
      FindOneSeesRecords(front, name, lspId);
      assert forall k :: 0 <= k < |front| ==> docs[k] == front[k];
    }
  }

  /** A loop: the copies it has dealt with, and, between its two database calls, what it has found. */
  datatype Loop = Loop(copies: seq<Scheduler>, done: nat, found: Option<bool>)

  datatype State = State(docs: seq<Stored>, first: Loop, second: Loop)

  /** The find, or the continuation after it, of one of the loops; an insertion takes an unused id. */
  datatype Event =
    | Find(inFirst: bool)
    | Continue(inFirst: bool, freshId: nat)

  function LoopOf(s: State, inFirst: bool): Loop {
    if inFirst then s.first else s.second
  }

  function SetLoop(s: State, inFirst: bool, p: Loop): State {
    if inFirst then s.(first := p) else s.(second := p)
  }

  predicate Finished(p: Loop) {
    p.done == |p.copies|
  }

  ghost predicate Enabled(s: State, e: Event) {
    var p := LoopOf(s, e.inFirst);
    p.done < |p.copies| &&
    match e
    case Find(_) => p.found.None?
    case Continue(_, id) => p.found.Some? && (!p.found.value ==> !HasId(s.docs, id))
  }

  ghost function Next(s: State, e: Event): State
    requires Enabled(s, e)
  {
    hide HasId, NameIn;
    var p := LoopOf(s, e.inFirst);
    var copy := p.copies[p.done];
    match e
    case Find(inFirst) =>
      SetLoop(s, inFirst, p.(found := Some(FindOne(s.docs, copy.name, copy.lspId) < |s.docs|)))
    case Continue(inFirst, id) =>
      SetLoop(s.(docs := if p.found.value then s.docs else s.docs + [Stored(id, copy)]), inFirst,
              p.(done := p.done + 1, found := None))
  }

  ghost predicate Reaches(s: State, es: seq<Event>, last: State)
    decreases es
  {
    if es == [] then s == last else Enabled(s, es[0]) && Reaches(Next(s, es[0]), es[1..], last)
  }

  ghost predicate AllFor(copies: seq<Scheduler>, lspId: string) {
    forall k :: 0 <= k < |copies| ==> copies[k].lspId == lspId
  }

  /** A loop has the effect it would have alone on its tenant, and its finding is still true. */
  ghost predicate LoopInv(docs0: seq<Stored>, docs: seq<Stored>, p: Loop, lspId: string) {
    && p.done <= |p.copies| && AllFor(p.copies, lspId)
    && Records(docs, lspId) == CopyAll(Records(docs0, lspId), p.copies[..p.done])
    && (p.found.Some? ==> p.done < |p.copies|)
    && (p.found.Some? ==> p.found.value == NameIn(Records(docs, lspId), p.copies[p.done].name))
  }

  ghost predicate Inv(docs0: seq<Stored>, s: State, a: string, b: string) {
    && LoopInv(docs0, s.docs, s.first, a) && LoopInv(docs0, s.docs, s.second, b)
    && (forall l :: l != a && l != b ==> Records(s.docs, l) == Records(docs0, l))
    && DistinctIds(s.docs) && docs0 <= s.docs
  }

  lemma FindKeepsLoop(docs0: seq<Stored>, s: State, inFirst: bool, lspId: string)
    requires Enabled(s, Find(inFirst)) && LoopInv(docs0, s.docs, LoopOf(s, inFirst), lspId)
    ensures var s' := Next(s, Find(inFirst)); LoopInv(docs0, s'.docs, LoopOf(s', inFirst), lspId)
  {
    hide Records, CopyAll, NameIn, FindOne;
    var p := LoopOf(s, inFirst);
    FindOneSeesRecords(s.docs, p.copies[p.done].name, lspId);
  }

  lemma ContinueKeepsLoop(docs0: seq<Stored>, s: State, inFirst: bool, id: nat, lspId: string)
    requires Enabled(s, Continue(inFirst, id)) && LoopInv(docs0, s.docs, LoopOf(s, inFirst), lspId)
    ensures var s' := Next(s, Continue(inFirst, id)); LoopInv(docs0, s'.docs, LoopOf(s', inFirst), lspId)
  {
    hide Records, NameIn, HasId;
    var p := LoopOf(s, inFirst);
    RecordsSnoc(s.docs, Stored(id, p.copies[p.done]), lspId);
    var dealt := p.copies[..p.done + 1];
    assert dealt[..p.done] == p.copies[..p.done];
    assert CopyAll(Records(docs0, lspId), dealt) == CopyOne(Records(s.docs, lspId), p.copies[p.done]);
  }

  lemma OwnStep(docs0: seq<Stored>, s: State, e: Event, lspId: string)
    requires Enabled(s, e) && LoopInv(docs0, s.docs, LoopOf(s, e.inFirst), lspId)
    ensures LoopInv(docs0, Next(s, e).docs, LoopOf(Next(s, e), e.inFirst), lspId)
  {
    hide LoopInv, Next;
    match e
    case Find(inFirst) => FindKeepsLoop(docs0, s, inFirst, lspId);
    case Continue(inFirst, id) => ContinueKeepsLoop(docs0, s, inFirst, id, lspId);
  }

  /** A step of one loop does not disturb what the other loop, for another tenant, relies on. */
  lemma OtherStep(docs0: seq<Stored>, s: State, e: Event, own: string, l: string)
    requires Enabled(s, e) && AllFor(LoopOf(s, e.inFirst).copies, own) && l != own
    ensures Records(Next(s, e).docs, l) == Records(s.docs, l)
    ensures LoopOf(Next(s, e), !e.inFirst) == LoopOf(s, !e.inFirst)
    ensures s.docs <= Next(s, e).docs && (DistinctIds(s.docs) ==> DistinctIds(Next(s, e).docs))
  {
  }

  lemma LoopCopies(docs0: seq<Stored>, docs: seq<Stored>, p: Loop, lspId: string)
    requires LoopInv(docs0, docs, p, lspId)
    ensures AllFor(p.copies, lspId)
  {
  }

  lemma OtherLoopKept(docs0: seq<Stored>, docs: seq<Stored>, docs': seq<Stored>, p: Loop, lspId: string)
    requires LoopInv(docs0, docs, p, lspId) && Records(docs', lspId) == Records(docs, lspId)
    ensures LoopInv(docs0, docs', p, lspId)
  {
  }

  lemma StepKeepsInv(docs0: seq<Stored>, s: State, e: Event, a: string, b: string)
    requires a != b && Inv(docs0, s, a, b) && Enabled(s, e)
    ensures Inv(docs0, Next(s, e), a, b)
  {
    hide LoopInv, Next, Enabled, Records, DistinctIds, AllFor;
    var own, other := if e.inFirst then a else b, if e.inFirst then b else a;
    OwnStep(docs0, s, e, own);
    LoopCopies(docs0, s.docs, LoopOf(s, e.inFirst), own);
    OtherStep(docs0, s, e, own, other);
    OtherLoopKept(docs0, s.docs, Next(s, e).docs, LoopOf(s, !e.inFirst), other);
    forall l | l != a && l != b ensures Records(Next(s, e).docs, l) == Records(docs0, l) {
      OtherStep(docs0, s, e, own, l);
    }
  }

  lemma {:induction false} RunKeepsInv(docs0: seq<Stored>, s: State, es: seq<Event>, last: State, a: string, b: string)
    requires a != b && Inv(docs0, s, a, b) && Reaches(s, es, last)
    ensures Inv(docs0, last, a, b) && last.first.copies == s.first.copies && last.second.copies == s.second.copies
    decreases es
  {
    if es != [] {
      StepKeepsInv(docs0, s, es[0], a, b);
      RunKeepsInv(docs0, Next(s, es[0]), es[1..], last, a, b);
    }
  }

  function Start(docs: seq<Stored>, source: seq<Stored>, a: string, b: string): State {
    State(docs, Loop(BuildLspSchedulers(source, a), 0, None), Loop(BuildLspSchedulers(source, b), 0, None))
  }

  /** For two different tenants every interleaving that finishes both loops gives the same records: each
      tenant's are those its loop alone would leave, all other tenants' are untouched, and no id is
      taken twice. Only the fresh ids depend on the interleaving. */
  lemma EveryInterleavingCopiesTheSame(docs0: seq<Stored>, source: seq<Stored>, a: string, b: string,
                                       es: seq<Event>, last: State)
    requires a != b && DistinctIds(docs0)
    requires Reaches(Start(docs0, source, a, b), es, last) && Finished(last.first) && Finished(last.second)
    ensures Records(last.docs, a) == CopyAll(Records(docs0, a), BuildLspSchedulers(source, a))
    ensures Records(last.docs, b) == CopyAll(Records(docs0, b), BuildLspSchedulers(source, b))
    ensures forall l :: l != a && l != b ==> Records(last.docs, l) == Records(docs0, l)
    ensures docs0 <= last.docs && DistinctIds(last.docs)
  {
    RunKeepsInv(docs0, Start(docs0, source, a, b), es, last, a, b);
    assert last.first.copies[..last.first.done] == last.first.copies;
    assert last.second.copies[..last.second.done] == last.second.copies;
  }

  // ----- The same tenant in both loops -----

  function CountName(rs: seq<Scheduler>, name: string): nat {
    if rs == [] then 0 else CountName(rs[..|rs| - 1], name) + if rs[|rs| - 1].name == name then 1 else 0
  }

  lemma {:induction false} CountZero(rs: seq<Scheduler>, name: string)
    ensures CountName(rs, name) == 0 <==> !NameIn(rs, name)
  {
    if rs != [] {
      var front, last := rs[..|rs| - 1], rs[|rs| - 1];
      assert rs == front + [last];
      NameInSnoc(front, last, name);
      CountZero(front, name);
    }
  }

  lemma CountSnoc(rs: seq<Scheduler>, s: Scheduler, name: string)
    ensures CountName(rs + [s], name) == CountName(rs, name) + if s.name == name then 1 else 0
  {
    assert (rs + [s])[..|rs|] == rs;
  }

  /** A loop on its own never copies a name twice. */
  lemma {:induction false} CopyAllOnce(rs: seq<Scheduler>, copies: seq<Scheduler>, name: string)
    ensures CountName(CopyAll(rs, copies), name) <= if NameIn(rs, name) then CountName(rs, name) else 1
  {
    CountZero(rs, name);
    if copies != [] {
      var front, last := copies[..|copies| - 1], copies[|copies| - 1];
      var mid := CopyAll(rs, front);
      CopyAllOnce(rs, front, name);
      CountSnoc(mid, last, name);
      CountZero(mid, last.name);
    }
  }

  /** Records are only added. */
  lemma {:induction false} RecordsGrow(docs: seq<Stored>, more: seq<Stored>, lspId: string, name: string)
    requires docs <= more
    ensures CountName(Records(docs, lspId), name) <= CountName(Records(more, lspId), name)
    decreases |more|
  {
    if docs != more {
      var front, d := more[..|more| - 1], more[|more| - 1];
      RecordsGrow(docs, front, lspId, name);
      assert more == front + [d];
      RecordsSnoc(front, d, lspId);
      CountSnoc(Records(front, lspId), d.scheduler, name);
      assert Records(front, lspId) + [] == Records(front, lspId);
    }
  }

  lemma {:induction false} ReachesAppend(s: State, es: seq<Event>, mid: State, es': seq<Event>, last: State)
    requires Reaches(s, es, mid) && Reaches(mid, es', last)
    ensures Reaches(s, es + es', last)
    decreases es
  {
    hide Next, Enabled;
    if es == [] {
      assert es + es' == es';
    } else {
      assert (es + es')[1..] == es[1..] + es';
      ReachesAppend(Next(s, es[0]), es[1..], mid, es', last);
    }
  }

  lemma {:induction false} UnusedId(docs: seq<Stored>) returns (id: nat)
    ensures forall n: nat :: id <= n ==> !HasId(docs, n)
  {
    if docs == [] {
      id := 0;
    } else {
      var m := UnusedId(docs[1..]);
      id := if docs[0].id < m then m else docs[0].id + 1;
      forall n: nat | id <= n ensures !HasId(docs, n) {
        assert !HasId(docs[1..], n);
        assert forall k :: 1 <= k < |docs| ==> docs[k] == docs[1..][k - 1];
      }
    }
  }

  /** The loops can always be run to their end. */
  lemma {:induction false} CanFinish(s: State) returns (es: seq<Event>, last: State)
    requires s.first.done <= |s.first.copies| && s.second.done <= |s.second.copies|
    requires s.first.found.Some? ==> !Finished(s.first)
    requires s.second.found.Some? ==> !Finished(s.second)
    ensures Reaches(s, es, last) && Finished(last.first) && Finished(last.second) && s.docs <= last.docs
    decreases |s.first.copies| - s.first.done + |s.second.copies| - s.second.done,
              (if s.first.found.None? then 1 else 0) + (if s.second.found.None? then 1 else 0)
  {
    if Finished(s.first) && Finished(s.second) {
      es, last := [], s;
    } else {
      var inFirst := !Finished(s.first);
      var id := UnusedId(s.docs);
      assert !HasId(s.docs, id);
      var e := if LoopOf(s, inFirst).found.None? then Find(inFirst) else Continue(inFirst, id);
      var rest;
      rest, last := CanFinish(Next(s, e));
      es := [e] + rest;
      assert es[1..] == rest;
    }
  }

  /** Both loops at the same copy, with nothing inserted yet. */
  function Lockstep(docs: seq<Stored>, copies: seq<Scheduler>, done: nat): State {
    State(docs, Loop(copies, done, None), Loop(copies, done, None))
  }

  lemma OneSkips(s: State, inFirst: bool, i: nat)
    requires LoopOf(s, inFirst).done == i < |LoopOf(s, inFirst).copies| && LoopOf(s, inFirst).found.None?
    requires var copy := LoopOf(s, inFirst).copies[i]; FindOne(s.docs, copy.name, copy.lspId) < |s.docs|
    ensures var p := LoopOf(s, inFirst);
            Reaches(s, [Find(inFirst), Continue(inFirst, 0)], SetLoop(s, inFirst, Loop(p.copies, i + 1, None)))
  {
    hide FindOne, HasId;
    assert [Find(inFirst), Continue(inFirst, 0)][1..] == [Continue(inFirst, 0)];
    var found := SetLoop(s, inFirst, Loop(LoopOf(s, inFirst).copies, i, Some(true)));
    assert Next(s, Find(inFirst)) == found;
    assert Reaches(Next(found, Continue(inFirst, 0)), [], Next(found, Continue(inFirst, 0)));
    assert Reaches(found, [Continue(inFirst, 0)], Next(found, Continue(inFirst, 0)));
  }

  /** Both loops skip a copy whose name is there. */
  lemma LockstepSkips(docs: seq<Stored>, copies: seq<Scheduler>, i: nat) returns (es: seq<Event>)
    requires i < |copies| && NameIn(Records(docs, copies[i].lspId), copies[i].name)
    ensures Reaches(Lockstep(docs, copies, i), es, Lockstep(docs, copies, i + 1))
  {
    hide Reaches, Records, NameIn, FindOne;
    FindOneSeesRecords(docs, copies[i].name, copies[i].lspId);
    var mid := State(docs, Loop(copies, i + 1, None), Loop(copies, i, None));
    OneSkips(Lockstep(docs, copies, i), true, i);
    OneSkips(mid, false, i);
    es := [Find(true), Continue(true, 0)] + [Find(false), Continue(false, 0)];
    ReachesAppend(Lockstep(docs, copies, i), [Find(true), Continue(true, 0)], mid,
                  [Find(false), Continue(false, 0)], Lockstep(docs, copies, i + 1));
  }

  lemma BothFindNothing(docs: seq<Stored>, copies: seq<Scheduler>, i: nat)
    requires i < |copies| && FindOne(docs, copies[i].name, copies[i].lspId) == |docs|
    ensures var s, es, found := Lockstep(docs, copies, i), [Find(true), Find(false)], Loop(copies, i, Some(false));
            Reaches(s, es, State(docs, found, found))
  {
    hide FindOne;
    var found := Loop(copies, i, Some(false));
    assert [Find(true), Find(false)][1..] == [Find(false)];
    assert Reaches(State(docs, found, Loop(copies, i, None)), [Find(false)], State(docs, found, found));
  }

  lemma BothInsert(docs: seq<Stored>, copies: seq<Scheduler>, i: nat, m: nat, n: nat)
    requires i < |copies| && m != n && !HasId(docs, m) && !HasId(docs, n)
    ensures var found := Loop(copies, i, Some(false));
            Reaches(State(docs, found, found), [Continue(true, m), Continue(false, n)],
                    Lockstep(docs + [Stored(m, copies[i]), Stored(n, copies[i])], copies, i + 1))
  {
    hide FindOne;
    var found, done := Loop(copies, i, Some(false)), Loop(copies, i + 1, None);
    var one := docs + [Stored(m, copies[i])];
    assert one + [Stored(n, copies[i])] == docs + [Stored(m, copies[i]), Stored(n, copies[i])];
    assert [Continue(true, m), Continue(false, n)][1..] == [Continue(false, n)];
    assert Reaches(State(one, done, found), [Continue(false, n)], State(one + [Stored(n, copies[i])], done, done));
  }

  /** Both loops find nothing, and then both insert. */
  lemma LockstepRaces(docs: seq<Stored>, copies: seq<Scheduler>, i: nat) returns (es: seq<Event>, last: State)
    requires i < |copies| && !NameIn(Records(docs, copies[i].lspId), copies[i].name)
    ensures Reaches(Lockstep(docs, copies, i), es, last)
    ensures exists m, n :: last == Lockstep(docs + [Stored(m, copies[i]), Stored(n, copies[i])], copies, i + 1)
  {
    hide *;
    FindOneSeesRecords(docs, copies[i].name, copies[i].lspId);
    var id := UnusedId(docs);
    assert !HasId(docs, id) && !HasId(docs, id + 1);
    BothFindNothing(docs, copies, i);
    BothInsert(docs, copies, i, id, id + 1);
    var found := Loop(copies, i, Some(false));
    last := Lockstep(docs + [Stored(id, copies[i]), Stored(id + 1, copies[i])], copies, i + 1);
    es := [Find(true), Find(false)] + [Continue(true, id), Continue(false, id + 1)];
    ReachesAppend(Lockstep(docs, copies, i), [Find(true), Find(false)], State(docs, found, found),
                  [Continue(true, id), Continue(false, id + 1)], last);
  }

  lemma {:induction false} LockstepReachesRace(docs: seq<Stored>, copies: seq<Scheduler>, i: nat, lspId: string)
    returns (es: seq<Event>, last: State, j: nat)
    requires i <= |copies| && AllFor(copies, lspId)
    requires exists k :: i <= k < |copies| && !NameIn(Records(docs, lspId), copies[k].name)
    ensures j < |copies| && !NameIn(Records(docs, lspId), copies[j].name)
    ensures Reaches(Lockstep(docs, copies, i), es, last)
    ensures exists m, n :: last == Lockstep(docs + [Stored(m, copies[j]), Stored(n, copies[j])], copies, j + 1)
    decreases |copies| - i
  {
    hide Reaches, Records, NameIn;
    if NameIn(Records(docs, lspId), copies[i].name) {
      var skip := LockstepSkips(docs, copies, i);
      var rest;
      rest, last, j := LockstepReachesRace(docs, copies, i + 1, lspId);
      ReachesAppend(Lockstep(docs, copies, i), skip, Lockstep(docs, copies, i + 1), rest, last);
      es := skip + rest;
    } else {
      j := i;
      es, last := LockstepRaces(docs, copies, i);
    }
  }

  /** Two insertions of one name are more than a loop on its own makes. */
  lemma TwiceInserted(docs: seq<Stored>, copies: seq<Scheduler>, j: nat, m: nat, n: nat, lspId: string,
                      more: seq<Stored>)
    requires j < |copies| && AllFor(copies, lspId) && !NameIn(Records(docs, lspId), copies[j].name)
    requires docs + [Stored(m, copies[j]), Stored(n, copies[j])] <= more
    ensures Records(more, lspId) != CopyAll(Records(docs, lspId), copies)
  {
    hide Records, CountName, CopyAll, NameIn, HasId;
    var copy, rs, one := copies[j], Records(docs, lspId), docs + [Stored(m, copies[j])];
    var both := one + [Stored(n, copy)];
    assert both == docs + [Stored(m, copy), Stored(n, copy)];
    RecordsSnoc(docs, Stored(m, copy), lspId);
    RecordsSnoc(one, Stored(n, copy), lspId);
    CountSnoc(rs, copy, copy.name);
    CountSnoc(rs + [copy], copy, copy.name);
    RecordsGrow(both, more, lspId, copy.name);
    CopyAllOnce(rs, copies, copy.name);
  }

  /** For one and the same tenant, as when the migration runs twice at the same time, and a copied name that is
      not there, some interleaving leaves more than either loop alone would. */
  lemma SameTenantRaces(docs0: seq<Stored>, source: seq<Stored>, a: string) returns (es: seq<Event>, last: State)
    requires exists k :: 0 <= k < |source| && !NameIn(Records(docs0, a), source[k].scheduler.name)
    ensures Reaches(Start(docs0, source, a, a), es, last) && Finished(last.first) && Finished(last.second)
    ensures Records(last.docs, a) != CopyAll(Records(docs0, a), BuildLspSchedulers(source, a))
  {
    var copies, rs := BuildLspSchedulers(source, a), Records(docs0, a);
    hide Records, CopyAll, NameIn, Reaches;
    var k :| 0 <= k < |source| && !NameIn(rs, source[k].scheduler.name);
    assert copies[k].name == source[k].scheduler.name;
    var es1, mid, j := LockstepReachesRace(docs0, copies, 0, a);
    var es2;
    es2, last := CanFinish(mid);
    es := es1 + es2;
    ReachesAppend(Start(docs0, source, a, a), es1, mid, es2, last);
    var m, n :| mid == Lockstep(docs0 + [Stored(m, copies[j]), Stored(n, copies[j])], copies, j + 1);
    TwiceInserted(docs0, copies, j, m, n, a, last.docs);
  }

  /** Every copied name is there already. */
  ghost predicate AllThere(docs: seq<Stored>, source: seq<Stored>, lspId: string) {
    forall k :: 0 <= k < |source| ==> NameIn(Records(docs, lspId), source[k].scheduler.name)
  }

  lemma {:induction false} NothingToCopy(rs: seq<Scheduler>, copies: seq<Scheduler>)
    requires forall k :: 0 <= k < |copies| ==> NameIn(rs, copies[k].name)
    ensures CopyAll(rs, copies) == rs
  {
    if copies != [] { NothingToCopy(rs, copies[..|copies| - 1]); }
  }

  ghost predicate Idle(docs: seq<Stored>, p: Loop, lspId: string) {
    && AllFor(p.copies, lspId) && p.found != Some(false)
    && forall k :: 0 <= k < |p.copies| ==> NameIn(Records(docs, lspId), p.copies[k].name)
  }

  lemma {:induction false} IdleRunInsertsNothing(s: State, es: seq<Event>, last: State, a: string)
    requires Reaches(s, es, last) && Idle(s.docs, s.first, a) && Idle(s.docs, s.second, a)
    ensures last.docs == s.docs
    decreases es
  {
    if es != [] {
      var p := LoopOf(s, es[0].inFirst);
      FindOneSeesRecords(s.docs, p.copies[p.done].name, a);
      IdleRunInsertsNothing(Next(s, es[0]), es[1..], last, a);
    }
  }

  /** Each tenant's records are those that its loop alone would leave. */
  ghost predicate CopiedAsAlone(docs0: seq<Stored>, source: seq<Stored>, a: string, b: string, last: State) {
    && Records(last.docs, a) == CopyAll(Records(docs0, a), BuildLspSchedulers(source, a))
    && Records(last.docs, b) == CopyAll(Records(docs0, b), BuildLspSchedulers(source, b))
  }

  ghost predicate RunsToEnd(s: State, es: seq<Event>, last: State) {
    Reaches(s, es, last) && Finished(last.first) && Finished(last.second)
  }

  /** Every interleaving leaves what the loops alone would leave exactly when the tenants differ or there is
      nothing to copy. */
  lemma EveryInterleavingIsAloneExactly(docs0: seq<Stored>, source: seq<Stored>, a: string, b: string)
    requires DistinctIds(docs0)
    ensures (forall es, last :: RunsToEnd(Start(docs0, source, a, b), es, last) ==>
               CopiedAsAlone(docs0, source, a, b, last))
            <==> a != b || AllThere(docs0, source, a)
  {
    var copies := BuildLspSchedulers(source, a);
    if a == b && !AllThere(docs0, source, a) {
      var es, last := SameTenantRaces(docs0, source, a);
      assert RunsToEnd(Start(docs0, source, a, b), es, last) && !CopiedAsAlone(docs0, source, a, b, last);
    } else {
      forall es, last | RunsToEnd(Start(docs0, source, a, b), es, last)
        ensures CopiedAsAlone(docs0, source, a, b, last)
      {
        if a != b {
          EveryInterleavingCopiesTheSame(docs0, source, a, b, es, last);
        } else {
          NothingToCopy(Records(docs0, a), copies);
          IdleRunInsertsNothing(Start(docs0, source, a, b), es, last, a);
        }
      }
    }
  }
}
