/** Turning embedded copies of documents back into their ids, one collection at a time, with a counter
    that decides when the whole collection is done. */
module EmbeddingRevert {
  import opened Basics

  /** A reference field: nil, an object id, or an embedded object that may lack its _id. */
  datatype Value = Nil | Id(id: string) | Embedded(objectId: Option<string>, rest: map<string, string>)

  /** The reference fields of a document; a dotted path is one field name. `request` is the number of
      the request that a transaction embeds. */
  datatype Doc = Doc(scalars: map<string, Value>, lists: map<string, seq<Value>>, request: Option<string>,
                     requestNo: Option<string>)

  /** What a driver reverts in its collection. */
  datatype Config = Config(fields: seq<string>, listFields: seq<string>, flattensRequest: bool)

  datatype Error = ReadOfNil

  /** The _id of an embedded object; an absent one is stored as nil. */
  function ObjectId(v: Value): Value
    requires v.Embedded?
  {
    if v.objectId.Some? then Id(v.objectId.value) else Nil
  }

  function ToId(v: Value): Value {
    if v.Embedded? then ObjectId(v) else v
  }

  // ----- The two builders -----

  /** The set body: the ids of the fields that hold embedded objects. */
  function UpdateSetBody(scalars: map<string, Value>, fields: seq<string>): (r: map<string, Value>)
    ensures forall f :: f in r <==> f in fields && f in scalars && scalars[f].Embedded?
    ensures forall f <- r :: r[f] == ToId(scalars[f])
  {
    map f | f in scalars && f in fields && scalars[f].Embedded? :: ObjectId(scalars[f])
  }

  method BuildUpdateSetBody(scalars: map<string, Value>, fields: seq<string>)
    returns (updateSetBody: map<string, Value>)
    ensures updateSetBody == UpdateSetBody(scalars, fields)
  {
    updateSetBody := map[];
    for k := 0 to |fields|
      invariant updateSetBody == UpdateSetBody(scalars, fields[..k])
    {
      var field := fields[k];
      assert fields[..k + 1] == fields[..k] + [field];
      var fieldValue := if field in scalars then scalars[field] else Nil;
      if !fieldValue.Nil? && !fieldValue.Id? {
        updateSetBody := updateSetBody[field := ObjectId(fieldValue)];
      }
    }
    assert fields[..|fields|] == fields;
  }

  ghost predicate NoNil(vs: seq<Value>) {
    forall k :: 0 <= k < |vs| ==> !vs[k].Nil?
  }

  function Ids(vs: seq<Value>): (r: seq<Value>)
    ensures |r| == |vs| && forall k :: 0 <= k < |vs| ==> r[k] == ToId(vs[k])
  {
    seq(|vs|, k requires 0 <= k < |vs| => ToId(vs[k]))
  }

  /** The list of ids, in order; reading the _id of a nil element throws. */
  method ObjectsToIds(objects: seq<Value>) returns (r: Result<seq<Value>, Error>)
    ensures r == if NoNil(objects) then Ok(Ids(objects)) else Err(ReadOfNil)
  {
    var ids := [];
    for k := 0 to |objects|
      invariant NoNil(objects[..k]) && ids == Ids(objects[..k])
    {
      var item := objects[k];
      assert objects[..k + 1] == objects[..k] + [item];
      if item.Nil? {
        return Err(ReadOfNil);
      }
      ids := ids + [if item.Id? then item else ObjectId(item)];
    }
    assert objects[..|objects|] == objects;
    return Ok(ids);
  }

  // ----- The update of one document -----

  datatype Update = Update(scalars: map<string, Value>, lists: map<string, seq<Value>>, requestNo: Option<string>)

  /** Nothing in the lists to be reverted is nil. */
  ghost predicate Revertible(d: Doc, c: Config) {
    forall f <- d.lists :: f in c.listFields ==> NoNil(d.lists[f])
  }

  function ListUpdates(d: Doc, listFields: seq<string>): map<string, seq<Value>> {
    map f | f in d.lists && f in listFields && d.lists[f] != [] :: Ids(d.lists[f])
  }

  function BuildUpdate(d: Doc, c: Config): Update {
    Update(UpdateSetBody(d.scalars, c.fields),
           ListUpdates(d, c.listFields),
           if c.flattensRequest then d.request else None)
  }

  /** updateOne with the set and unset bodies. */
  function ApplyUpdate(d: Doc, u: Update): Doc {
    Doc(d.scalars + u.scalars, d.lists + u.lists,
        if u.requestNo.Some? then None else d.request,
        if u.requestNo.Some? then u.requestNo else d.requestNo)
  }

  function Reverted(d: Doc, c: Config): Doc {
    ApplyUpdate(d, BuildUpdate(d, c))
  }

  predicate IsEmpty(u: Update) {
    u.scalars == map[] && u.lists == map[] && u.requestNo.None?
  }

  // ----- What reverting means -----

  ghost predicate EmbedsId(plain: Value, v: Value) {
    plain.Id? && v.Embedded? && v.objectId == Some(plain.id)
  }

  ghost predicate ListEmbeds(plain: seq<Value>, vs: seq<Value>) {
    |vs| == |plain| &&
    forall k :: 0 <= k < |vs| ==> plain[k].Id? && (vs[k] == plain[k] || EmbedsId(plain[k], vs[k]))
  }

  /** `plain` is `d` with embedded objects, each carrying the id that stood in its place, put back to ids, and
      with the number of an embedded request in place of the request. */
  ghost predicate EmbeddingOf(plain: Doc, d: Doc, c: Config) {
    && d.scalars.Keys == plain.scalars.Keys && d.lists.Keys == plain.lists.Keys
    && (forall f <- d.scalars ::
          d.scalars[f] == plain.scalars[f] || (f in c.fields && EmbedsId(plain.scalars[f], d.scalars[f])))
    && (forall f <- d.scalars :: f in c.fields ==> !plain.scalars[f].Embedded?)
    && (forall f <- d.lists :: if f in c.listFields then ListEmbeds(plain.lists[f], d.lists[f])
                               else d.lists[f] == plain.lists[f])
    && (if c.flattensRequest && d.request.Some? then plain.request.None? && plain.requestNo == d.request
        else d.request == plain.request && d.requestNo == plain.requestNo)
  }

  lemma RevertUndoesScalars(plain: Doc, d: Doc, c: Config)
    requires EmbeddingOf(plain, d, c)
    ensures Reverted(d, c).scalars == plain.scalars
  {
  }

  lemma RevertUndoesLists(plain: Doc, d: Doc, c: Config)
    requires EmbeddingOf(plain, d, c)
    ensures Revertible(d, c) && Reverted(d, c).lists == plain.lists
  {
    forall f | f in d.lists && f in c.listFields ensures Ids(d.lists[f]) == plain.lists[f] {
    }
  }

  /** Reverting undoes every embedding: mixed lists become the same ids in the same order. */
  lemma RevertUndoesEmbedding(plain: Doc, d: Doc, c: Config)
    requires EmbeddingOf(plain, d, c)
    ensures Revertible(d, c) && Reverted(d, c) == plain
  {
    RevertUndoesScalars(plain, d, c);
    RevertUndoesLists(plain, d, c);
  }

  /** No list element to be reverted is an embedded object without its _id. */
  ghost predicate ListsHaveIds(d: Doc, c: Config) {
    forall f <- d.lists :: f in c.listFields ==>
      forall k :: 0 <= k < |d.lists[f]| ==> !(d.lists[f][k].Embedded? && d.lists[f][k].objectId.None?)
  }

  lemma ToIdTwice(vs: seq<Value>)
    ensures Ids(Ids(vs)) == Ids(vs)
    ensures NoNil(Ids(vs)) <==> NoNil(vs) && forall k :: 0 <= k < |vs| ==> !(vs[k].Embedded? && vs[k].objectId.None?)
  {
  }

  lemma RevertedFields(d: Doc, c: Config)
    ensures var r := Reverted(d, c);
            && r.scalars.Keys == d.scalars.Keys && r.lists.Keys == d.lists.Keys
            && (forall f <- d.scalars :: r.scalars[f] == if f in c.fields then ToId(d.scalars[f]) else d.scalars[f])
            && (forall f <- d.lists :: r.lists[f] == if f in c.listFields then Ids(d.lists[f]) else d.lists[f])
            && (c.flattensRequest ==> r.request.None?)
  {
  }

  lemma NothingToRevert(d: Doc, c: Config)
    requires forall f <- d.scalars :: f in c.fields ==> !d.scalars[f].Embedded?
    requires forall f <- d.lists :: f in c.listFields ==> Ids(d.lists[f]) == d.lists[f]
    requires c.flattensRequest ==> d.request.None?
    ensures Reverted(d, c) == d
  {
    assert Reverted(d, c).scalars == d.scalars;
    assert Reverted(d, c).lists == d.lists;
  }

  lemma SecondRunGoesThrough(d: Doc, c: Config)
    requires Revertible(d, c)
    ensures Revertible(Reverted(d, c), c) <==> ListsHaveIds(d, c)
  {
  }

  /** A second run over a reverted document changes nothing; it goes through exactly when no list held
      an embedded object without its _id. */
  lemma RevertAgain(d: Doc, c: Config)
    requires Revertible(d, c)
    ensures Revertible(Reverted(d, c), c) <==> ListsHaveIds(d, c)
    ensures Reverted(Reverted(d, c), c) == Reverted(d, c)
  {
    hide Revertible, ListsHaveIds, Reverted;
    RevertedFields(d, c);
    forall f | f in d.lists ensures Ids(Ids(d.lists[f])) == Ids(d.lists[f]) {
      ToIdTwice(d.lists[f]);
    }
    NothingToRevert(Reverted(d, c), c);
    SecondRunGoesThrough(d, c);
  }

  /** Element by element, in the same places. */
  ghost predicate RevertedList(vs: seq<Value>, ids: seq<Value>) {
    |ids| == |vs| &&
    forall k :: 0 <= k < |vs| ==>
      ids[k] == match vs[k]
                case Embedded(objectId, _) => if objectId.Some? then Id(objectId.value) else Nil
                case Id(_) => vs[k]
                case Nil => Nil
  }

  /** The reverted document, field by field: an embedded object becomes its _id, or nil if it has none; ids and nil
      stay, and so does every field that is not listed; a request that is to be flattened leaves its number. */
  lemma RevertedSpelledOut(d: Doc, c: Config)
    ensures var r := Reverted(d, c);
            && r.scalars.Keys == d.scalars.Keys && r.lists.Keys == d.lists.Keys
            && (forall f <- d.scalars :: f !in c.fields || !d.scalars[f].Embedded? ==> r.scalars[f] == d.scalars[f])
            && (forall f <- d.scalars :: f in c.fields && d.scalars[f].Embedded? ==>
                  r.scalars[f] == if d.scalars[f].objectId.Some? then Id(d.scalars[f].objectId.value) else Nil)
            && (forall f <- d.lists :: f !in c.listFields ==> r.lists[f] == d.lists[f])
            && (forall f <- d.lists :: f in c.listFields ==> RevertedList(d.lists[f], r.lists[f]))
            && (c.flattensRequest && d.request.Some? ==> r.request == None && r.requestNo == d.request)
            && (!c.flattensRequest || d.request.None? ==> r.request == d.request && r.requestNo == d.requestNo)
  {
    RevertedFields(d, c);
  }

  /** A document goes through exactly when no element of a list to be reverted is nil. */
  lemma RevertibleExactly(d: Doc, c: Config)
    ensures Revertible(d, c) <==>
            forall f <- c.listFields :: f in d.lists ==>
              forall k :: 0 <= k < |d.lists[f]| ==> d.lists[f][k].Id? || d.lists[f][k].Embedded?
  {
  }

  // ----- The counted stream -----

  type Docs = map<string, Doc>

  /** How far the handler of a document has come: not yet called, waiting for its update to be stored,
      stored but not yet resumed, finished, or ended by an exception. */
  datatype Phase = Waiting | Writing(update: Update) | Stored | Finished | Thrown

  datatype State = State(docs: Docs, phase: map<string, Phase>, updated: nat, resolved: bool)

  /** The stretches of a handler between its awaits. */
  datatype Event =
    | Data(id: string)    // the stream delivers a document
    | Store(id: string)   // the database applies its update
    | Resume(id: string)  // the handler goes on after the update

  function Init(docs: Docs): State {
    State(docs, map id | id in docs :: Waiting, 0, |docs| == 0)
  }

  predicate Enabled(s: State, e: Event) {
    e.id in s.phase && e.id in s.docs &&
    match e
    case Data(id) => s.phase[id].Waiting?
    case Store(id) => s.phase[id].Writing?
    case Resume(id) => s.phase[id].Stored?
  }

  /** Counts a finished document and resolves the promise when the count is reached. */
  function Finish(s: State, id: string, count: nat): State {
    s.(phase := s.phase[id := Finished], updated := s.updated + 1, resolved := s.resolved || s.updated + 1 == count)
  }

  ghost function Next(s: State, e: Event, c: Config, count: nat): State
    requires Enabled(s, e)
  {
    match e
    case Data(id) =>
      if !Revertible(s.docs[id], c) then s.(phase := s.phase[id := Thrown])
      else if IsEmpty(BuildUpdate(s.docs[id], c)) then Finish(s, id, count)
      else s.(phase := s.phase[id := Writing(BuildUpdate(s.docs[id], c))])
    case Store(id) =>
      s.(docs := s.docs[id := ApplyUpdate(s.docs[id], s.phase[id].update)], phase := s.phase[id := Stored])
    case Resume(id) => Finish(s, id, count)
  }

  /** `last` is where the handlers stand after some interleaving of their stretches. */
  ghost predicate Reaches(s: State, es: seq<Event>, c: Config, count: nat, last: State)
    decreases es
  {
    if es == [] then s == last else Enabled(s, es[0]) && Reaches(Next(s, es[0], c, count), es[1..], c, count, last)
  }

  function FinishedIds(s: State): set<string> {
    set id | id in s.phase && s.phase[id].Finished?
  }

  /** What holds of a document in each phase of its handler. */
  ghost predicate DocInv(before: Doc, now: Doc, phase: Phase, c: Config) {
    match phase
    case Waiting => now == before
    case Writing(u) => Revertible(before, c) && now == before && u == BuildUpdate(before, c)
    case Stored => Revertible(before, c) && now == Reverted(before, c)
    case Finished => Revertible(before, c) && now == Reverted(before, c)
    case Thrown => !Revertible(before, c) && now == before
  }

  ghost predicate CountInv(s: State, ids: set<string>) {
    s.updated == |FinishedIds(s)| && (s.resolved <==> FinishedIds(s) == ids)
  }

  /** What every step keeps. */
  ghost predicate Inv(s: State, docs0: Docs, c: Config) {
    && s.docs.Keys == docs0.Keys == s.phase.Keys
    && (forall id <- docs0 :: DocInv(docs0[id], s.docs[id], s.phase[id], c))
    && CountInv(s, docs0.Keys)
  }

  lemma EmptyUpdateIsReverted(d: Doc, c: Config)
    requires IsEmpty(BuildUpdate(d, c))
    ensures Reverted(d, c) == d
  {
  }

  lemma SubsetSize(a: set<string>, b: set<string>)
    requires a <= b
    ensures |a| <= |b| && (|a| == |b| <==> a == b)
  {
    assert b == a + (b - a);
    assert |b| == |a| + |b - a|;
  }

  lemma FinishKeepsCount(s: State, id: string, ids: set<string>)
    requires s.phase.Keys == ids && id in ids && !s.phase[id].Finished? && CountInv(s, ids)
    ensures CountInv(Finish(s, id, |ids|), ids)
  {
    var s' := Finish(s, id, |ids|);
    assert FinishedIds(s') == FinishedIds(s) + {id};
    SubsetSize(FinishedIds(s'), ids);
  }

  lemma OtherPhaseKeepsCount(s: State, id: string, phase: Phase, ids: set<string>)
    requires s.phase.Keys == ids && id in ids && !s.phase[id].Finished? && !phase.Finished? && CountInv(s, ids)
    ensures CountInv(s.(phase := s.phase[id := phase]), ids)
  {
    assert FinishedIds(s.(phase := s.phase[id := phase])) == FinishedIds(s);
  }

  lemma StepKeepsDocInv(s: State, e: Event, c: Config, count: nat, before: Doc)
    requires Enabled(s, e) && DocInv(before, s.docs[e.id], s.phase[e.id], c)
    ensures var s' := Next(s, e, c, count);
            && s'.docs == s.docs[e.id := s'.docs[e.id]] && s'.phase == s.phase[e.id := s'.phase[e.id]]
            && DocInv(before, s'.docs[e.id], s'.phase[e.id], c)
            && (s'.phase[e.id].Finished? ==>
                  s'.updated == s.updated + 1 && (s'.resolved <==> s.resolved || s'.updated == count))
            && (!s'.phase[e.id].Finished? ==> s'.updated == s.updated && s'.resolved == s.resolved)
  {
    hide Revertible, BuildUpdate, ApplyUpdate;
    if e.Data? && IsEmpty(BuildUpdate(before, c)) { EmptyUpdateIsReverted(before, c); }
    assert s.docs == s.docs[e.id := s.docs[e.id]];
  }

  lemma SameCount(s: State, t: State, ids: set<string>)
    requires CountInv(s, ids) && t.phase == s.phase && t.updated == s.updated && t.resolved == s.resolved
    ensures CountInv(t, ids)
  {
  }

  lemma StepKeepsCount(s: State, e: Event, c: Config, ids: set<string>)
    requires s.phase.Keys == ids && Enabled(s, e) && CountInv(s, ids)
    ensures CountInv(Next(s, e, c, |ids|), ids)
  {
    hide Revertible, BuildUpdate, ApplyUpdate, IsEmpty, CountInv, FinishedIds;
    var id, next := e.id, Next(s, e, c, |ids|);
    if next.phase[id].Finished? {
      FinishKeepsCount(s, id, ids);
    } else {
      OtherPhaseKeepsCount(s, id, next.phase[id], ids);
      SameCount(s.(phase := next.phase), next, ids);
    }
  }

  lemma StepKeepsInv(s: State, e: Event, docs0: Docs, c: Config)
    requires Inv(s, docs0, c) && Enabled(s, e)
    ensures Inv(Next(s, e, c, |docs0.Keys|), docs0, c)
  {
    hide CountInv, DocInv, Next;
    StepKeepsDocInv(s, e, c, |docs0.Keys|, docs0[e.id]);
    StepKeepsCount(s, e, c, docs0.Keys);
  }

  lemma InitInv(docs0: Docs, c: Config)
    ensures Inv(Init(docs0), docs0, c)
  {
  }

  lemma {:induction false} RunKeepsInv(s: State, es: seq<Event>, docs0: Docs, c: Config, last: State)
    requires Inv(s, docs0, c) && Reaches(s, es, c, |docs0.Keys|, last)
    ensures Inv(last, docs0, c)
    decreases es
  {
    if es != [] {
      StepKeepsInv(s, es[0], docs0, c);
      RunKeepsInv(Next(s, es[0], c, |docs0.Keys|), es[1..], docs0, c, last);
    }
  }

  /** In every interleaving the counter is the number of finished handlers, and the promise is resolved
      only when every document has been reverted. */
  lemma ResolvedMeansReverted(docs0: Docs, c: Config, es: seq<Event>, last: State)
    requires Reaches(Init(docs0), es, c, |docs0.Keys|, last)
    ensures last.updated == |FinishedIds(last)|
    ensures last.resolved ==>
              last.docs.Keys == docs0.Keys && forall id <- docs0 :: last.docs[id] == Reverted(docs0[id], c)
  {
    InitInv(docs0, c);
    RunKeepsInv(Init(docs0), es, docs0, c, last);
    if last.resolved {
      forall id | id in docs0 ensures last.docs[id] == Reverted(docs0[id], c) {
        assert id in FinishedIds(last);
        assert DocInv(docs0[id], last.docs[id], last.phase[id], c);
      }
    }
  }

  /** The cursor is paused while a handler waits for its update, and for ever after an exception. */
  ghost predicate Paused(s: State) {
    exists id :: id in s.phase && (s.phase[id].Writing? || s.phase[id].Stored? || s.phase[id].Thrown?)
  }

  /** Nothing can happen any more, except that a paused cursor holds documents back. */
  ghost predicate Stuck(s: State) {
    forall e :: Enabled(s, e) ==> e.Data? && Paused(s)
  }

  /** A run that can go no further, whether the cursor honours the pause or not, has resolved the promise
      exactly when no document has a nil element in a list to be reverted; otherwise the promise stays
      open for ever. */
  lemma StuckRunResolvedExactly(docs0: Docs, c: Config, es: seq<Event>, last: State)
    requires Reaches(Init(docs0), es, c, |docs0.Keys|, last) && Stuck(last)
    ensures last.resolved <==> forall id <- docs0 :: Revertible(docs0[id], c)
  {
    hide Revertible, BuildUpdate, ApplyUpdate, Reverted, Reaches, Init;
    InitInv(docs0, c);
    RunKeepsInv(Init(docs0), es, docs0, c, last);
    forall id | id in docs0
      ensures last.phase[id].Finished? || last.phase[id].Waiting? || last.phase[id].Thrown?
      ensures DocInv(docs0[id], last.docs[id], last.phase[id], c)
    {
      assert !Enabled(last, Store(id)) && !Enabled(last, Resume(id));
    }
    assert FinishedIds(last) <= docs0.Keys;
    if Paused(last) {
      var id :| id in last.phase && last.phase[id].Thrown?;
      assert id !in FinishedIds(last) && !Revertible(docs0[id], c);
    } else {
      forall id | id in docs0 ensures id in FinishedIds(last) && Revertible(docs0[id], c) {
        assert !Enabled(last, Data(id));
      }
    }
  }

  /** One user with a nil project manager: the handler throws, and nothing more happens. */
  lemma NilManagerNeverResolves()
    ensures var docs0 := map["user" := Doc(map[], map["projectManagers" := [Nil]], None, None)];
            var c := Config(["company"], ["projectManagers"], false);
            var last := State(docs0, map["user" := Thrown], 0, false);
            Reaches(Init(docs0), [Data("user")], c, |docs0.Keys|, last) && Stuck(last) && !last.resolved
  {
    var d := Doc(map[], map["projectManagers" := [Nil]], None, None);
    var docs0, c := map["user" := d], Config(["company"], ["projectManagers"], false);
    var last := State(docs0, map["user" := Thrown], 0, false);
    assert d.lists["projectManagers"][0].Nil? && !Revertible(d, c);
    assert Init(docs0).phase == map["user" := Waiting];
    assert [Data("user")][1..] == [];
    assert Reaches(last, [], c, |docs0.Keys|, last);
    assert Next(Init(docs0), Data("user"), c, |docs0.Keys|) == last;
  }

  // ----- Runs end -----

  function In(s: State, waiting: bool, writing: bool, stored: bool): set<string> {
    set id | id in s.phase &&
             ((waiting && s.phase[id].Waiting?) || (writing && s.phase[id].Writing?) || (stored && s.phase[id].Stored?))
  }

  /** How many stretches are left at most: three for a waiting document, two before its update is stored, one
      before its handler goes on. */
  function Left(s: State): nat {
    |In(s, true, false, false)| + |In(s, true, true, false)| + |In(s, true, true, true)|
  }

  lemma StepLeavesLess(s: State, e: Event, c: Config, count: nat)
    requires Enabled(s, e)
    ensures Left(Next(s, e, c, count)) < Left(s)
  {
    hide Revertible, BuildUpdate, ApplyUpdate, IsEmpty;
    var s' := Next(s, e, c, count);
    SubsetSize(In(s', true, false, false), In(s, true, false, false));
    SubsetSize(In(s', true, true, false), In(s, true, true, false));
    SubsetSize(In(s', true, true, true), In(s, true, true, true));
    assert e.id in In(s, e.Data?, e.Store?, e.Resume?);
    assert e.Data? ==> e.id !in In(s', true, false, false);
    assert e.Store? ==> e.id !in In(s', true, true, false);
    assert e.Resume? ==> e.id !in In(s', true, true, true);
  }

  lemma {:induction false} RunIsBounded(s: State, es: seq<Event>, c: Config, count: nat, last: State)
    requires Reaches(s, es, c, count, last)
    ensures |es| + Left(last) <= Left(s)
    decreases es
  {
    if es != [] {
      StepLeavesLess(s, es[0], c, count);
      RunIsBounded(Next(s, es[0], c, count), es[1..], c, count, last);
    }
  }

  /** Every run comes to an end: a document takes at most three stretches. */
  lemma EveryRunEnds(docs0: Docs, c: Config, es: seq<Event>, last: State)
    requires Reaches(Init(docs0), es, c, |docs0.Keys|, last)
    ensures |es| <= 3 * |docs0|
  {
    var s := Init(docs0);
    RunIsBounded(s, es, c, |docs0.Keys|, last);
    assert In(s, true, false, false) == In(s, true, true, false) == In(s, true, true, true) == docs0.Keys;
    assert |docs0| == |docs0.Keys|;
  }

  // ----- The handler that does it -----

  lemma ListUpdatesStep(d: Doc, listFields: seq<string>, k: nat)
    requires k < |listFields|
    ensures var f := listFields[k];
            ListUpdates(d, listFields[..k + 1]) ==
            if f in d.lists && d.lists[f] != [] then ListUpdates(d, listFields[..k])[f := Ids(d.lists[f])]
            else ListUpdates(d, listFields[..k])
  {
  }

  /** The synchronous beginning of a handler: all ids of the document, or the exception of a nil element. */
  method CollectUpdate(d: Doc, c: Config) returns (r: Result<Update, Error>)
    ensures r == if Revertible(d, c) then Ok(BuildUpdate(d, c)) else Err(ReadOfNil)
  {
    var updateSetBody := BuildUpdateSetBody(d.scalars, c.fields);
    var lists: map<string, seq<Value>> := map[];
    for k := 0 to |c.listFields|
      invariant lists == ListUpdates(d, c.listFields[..k])
      invariant forall f <- d.lists :: f in c.listFields[..k] ==> NoNil(d.lists[f])
    {
      var f := c.listFields[k];
      ListUpdatesStep(d, c.listFields, k);
      assert c.listFields[..k + 1] == c.listFields[..k] + [f];
      if f in d.lists && d.lists[f] != [] {
        var ids := ObjectsToIds(d.lists[f]);
        if ids.Err? { return Err(ReadOfNil); }
        lists := lists[f := ids.value];
      }
    }
    assert c.listFields[..|c.listFields|] == c.listFields;
    return Ok(Update(updateSetBody, lists, if c.flattensRequest then d.request else None));
  }

  class Driver {
    const c: Config
    const count: nat
    var docs: Docs
    var phase: map<string, Phase>
    var updated: nat
    var resolved: bool

    constructor (docs: Docs, c: Config)
      ensures this.c == c && count == |docs.Keys| && CurrentState() == Init(docs)
    {
      this.c, count, this.docs, updated, resolved := c, |docs.Keys|, docs, 0, |docs| == 0;
      phase := map id | id in docs :: Waiting;
    }

    ghost function CurrentState(): State
      reads this
    {
      State(docs, phase, updated, resolved)
    }

    method FinishDocument(id: string)
      modifies this
      ensures CurrentState() == Finish(old(CurrentState()), id, count)
    {
      phase := phase[id := Finished];
      updated := updated + 1;
      if updated == count { resolved := true; }
    }

    /** One stretch of the handler of one document. */
    method Handle(e: Event)
      requires Enabled(CurrentState(), e)
      modifies this
      ensures CurrentState() == Next(old(CurrentState()), e, c, count)
    {
      match e
      case Data(id) =>
        var body := CollectUpdate(docs[id], c);
        if body.Err? {
          phase := phase[id := Thrown];
        } else if body.value.scalars == map[] && body.value.lists == map[] && body.value.requestNo.None? {
          FinishDocument(id);
        } else {
          phase := phase[id := Writing(body.value)];
        }
      case Store(id) =>
        docs := docs[id := ApplyUpdate(docs[id], phase[id].update)];
        phase := phase[id := Stored];
      case Resume(id) =>
        FinishDocument(id);
    }
  }
}
