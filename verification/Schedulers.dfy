/** Schedulers per tenant: an upsert loop that reuses one template object, and two concurrent copy loops. */
module Schedulers {
  import opened Basics

  datatype Scheduler = Scheduler(name: string, lspId: string, data: map<string, string>)

  /** A document of the collection. */
  datatype Stored = Stored(id: nat, scheduler: Scheduler)

  datatype Error = DuplicateKey

  ghost predicate HasId(docs: seq<Stored>, id: nat) {
    exists k :: 0 <= k < |docs| && docs[k].id == id
  }

  ghost predicate DistinctIds(docs: seq<Stored>) {
    forall i, j :: 0 <= i < j < |docs| ==> docs[i].id != docs[j].id
  }

  predicate Matches(d: Stored, name: string, lspId: string) {
    d.scheduler.name == name && d.scheduler.lspId == lspId
  }

  /** findOne: the index of the first match, or the length. */
  function FindOne(docs: seq<Stored>, name: string, lspId: string): (i: nat)
    ensures i <= |docs|
    ensures i < |docs| ==> Matches(docs[i], name, lspId)
    ensures forall j :: 0 <= j < i ==> !Matches(docs[j], name, lspId)
  {
    if docs == [] then 0 else if Matches(docs[0], name, lspId) then 0 else FindOne(docs[1..], name, lspId) + 1
  }

  function CountOf(docs: seq<Stored>, name: string, lspId: string): nat {
    if docs == [] then 0
    else CountOf(docs[..|docs| - 1], name, lspId) + if Matches(docs[|docs| - 1], name, lspId) then 1 else 0
  }

  // ----- The upsert -----

  /** $set of the template's fields on an existing document. */
  function Overlaid(d: Stored, lspId: string, data: map<string, string>): Stored {
    d.(scheduler := Scheduler(d.scheduler.name, lspId, d.scheduler.data + data))
  }

  function Upsert(docs: seq<Stored>, name: string, data: map<string, string>, lspId: string, freshId: nat)
    : seq<Stored>
  {
    var i := FindOne(docs, name, lspId);
    if i < |docs| then docs[i := Overlaid(docs[i], lspId, data)]
    else docs + [Stored(freshId, Scheduler(name, lspId, data))]
  }

  function UpsertAll(docs: seq<Stored>, name: string, data: map<string, string>, tenants: seq<string>,
                     freshIds: seq<nat>)
    : seq<Stored>
    requires |freshIds| == |tenants|
  {
    if tenants == [] then docs
    else
      var m := |tenants| - 1;
      Upsert(UpsertAll(docs, name, data, tenants[..m], freshIds[..m]), name, data, tenants[m], freshIds[m])
  }

  /** The ids that the driver would generate are unused and distinct. */
  ghost predicate FreshIds(docs: seq<Stored>, ids: seq<nat>) {
    && (forall k :: 0 <= k < |ids| ==> !HasId(docs, ids[k]))
    && forall i, j :: 0 <= i < j < |ids| ==> ids[i] != ids[j]
  }

  lemma {:induction false} SameMatchesSameCount(a: seq<Stored>, b: seq<Stored>, name: string, lspId: string)
    requires |a| == |b| && forall k :: 0 <= k < |a| ==> (Matches(a[k], name, lspId) <==> Matches(b[k], name, lspId))
    ensures CountOf(a, name, lspId) == CountOf(b, name, lspId)
  {
    if a != [] {
      SameMatchesSameCount(a[..|a| - 1], b[..|a| - 1], name, lspId);
    }
  }

  lemma {:induction false} CountZero(docs: seq<Stored>, name: string, lspId: string)
    ensures CountOf(docs, name, lspId) == 0 <==> FindOne(docs, name, lspId) == |docs|
  {
    if docs != [] {
      var front := docs[..|docs| - 1];
      CountZero(front, name, lspId);
      assert forall k :: 0 <= k < |front| ==> front[k] == docs[k];
    }
  }

  /** One upsert: its key then has one document if it had none and as many as before otherwise; the counts
      of all other keys stay. */
  lemma UpsertCounts(docs: seq<Stored>, name: string, data: map<string, string>, lspId: string, freshId: nat,
                     n: string, l: string)
    ensures CountOf(Upsert(docs, name, data, lspId, freshId), n, l) ==
            if n == name && l == lspId && CountOf(docs, n, l) == 0 then 1 else CountOf(docs, n, l)
  {
    var i, r := FindOne(docs, name, lspId), Upsert(docs, name, data, lspId, freshId);
    CountZero(docs, name, lspId);
    if i < |docs| {
      SameMatchesSameCount(docs, r, n, l);
    } else {
      assert r[..|r| - 1] == docs;
    }
  }

  /** After the loop every listed tenant has one scheduler of the name if it had none, and as many as
      before otherwise; every other key keeps its count. */
  lemma {:induction false} UpsertAllCounts(docs: seq<Stored>, name: string, data: map<string, string>,
                                           tenants: seq<string>, freshIds: seq<nat>, n: string, l: string)
    requires |freshIds| == |tenants|
    ensures CountOf(UpsertAll(docs, name, data, tenants, freshIds), n, l) ==
            if n == name && l in tenants && CountOf(docs, n, l) == 0 then 1 else CountOf(docs, n, l)
    decreases |tenants|
  {
    if tenants != [] {
      var m := |tenants| - 1;
      UpsertAllCounts(docs, name, data, tenants[..m], freshIds[..m], n, l);
      UpsertCounts(UpsertAll(docs, name, data, tenants[..m], freshIds[..m]), name, data, tenants[m], freshIds[m], n, l);
      assert l in tenants <==> l in tenants[..m] || l == tenants[m];
    }
  }

  /** The document that the upsert of some listed tenant updates. */
  ghost predicate Updated(docs: seq<Stored>, name: string, tenants: seq<string>, k: nat) {
    k < |docs| && docs[k].scheduler.lspId in tenants && FindOne(docs, name, docs[k].scheduler.lspId) == k
  }

  lemma {:induction false} FindOneAgrees(a: seq<Stored>, b: seq<Stored>, name: string, lspId: string)
    requires |a| <= |b| && forall k :: 0 <= k < |a| ==> (Matches(a[k], name, lspId) <==> Matches(b[k], name, lspId))
    ensures if FindOne(a, name, lspId) < |a| then FindOne(b, name, lspId) == FindOne(a, name, lspId)
            else FindOne(b, name, lspId) >= |a|
  {
  }

  /** One upsert: the first match is overlaid, or the new document comes last with the fresh id. */
  lemma UpsertKeeps(docs: seq<Stored>, name: string, data: map<string, string>, lspId: string, freshId: nat, k: nat)
    requires k < |docs|
    ensures k < |Upsert(docs, name, data, lspId, freshId)|
    ensures Upsert(docs, name, data, lspId, freshId)[k] ==
            if FindOne(docs, name, lspId) == k then Overlaid(docs[k], lspId, data) else docs[k]
  {
  }

  lemma OverlaidTwice(d: Stored, lspId: string, data: map<string, string>)
    ensures Overlaid(Overlaid(d, lspId, data), lspId, data) == Overlaid(d, lspId, data)
  {
  }

  ghost predicate UpdatedIn(docs: seq<Stored>, name: string, data: map<string, string>, tenants: seq<string>,
                            k: nat, now: Stored)
    requires k < |docs|
  {
    now == if Updated(docs, name, tenants, k) then Overlaid(docs[k], docs[k].scheduler.lspId, data) else docs[k]
  }

  lemma UpdatedSnoc(docs: seq<Stored>, name: string, front: seq<string>, t: string, k: nat)
    requires k < |docs|
    ensures Updated(docs, name, front + [t], k) <==> Updated(docs, name, front, k) || FindOne(docs, name, t) == k
  {
  }

  /** Every old document keeps its place and id; it is overlaid with the template if it is the first match
      of a listed tenant, and untouched otherwise. */
  lemma {:induction false} UpsertAllKeeps(docs: seq<Stored>, name: string, data: map<string, string>,
                                          tenants: seq<string>, freshIds: seq<nat>)
    requires |freshIds| == |tenants|
    ensures var r := UpsertAll(docs, name, data, tenants, freshIds);
            |docs| <= |r| && forall k :: 0 <= k < |docs| ==> UpdatedIn(docs, name, data, tenants, k, r[k])
    decreases |tenants|
  {
    if tenants != [] {
      var m := |tenants| - 1;
      var front, t := tenants[..m], tenants[m];
      var mid := UpsertAll(docs, name, data, front, freshIds[..m]);
      UpsertAllKeeps(docs, name, data, front, freshIds[..m]);
      assert forall k :: 0 <= k < |docs| ==> UpdatedIn(docs, name, data, front, k, mid[k]);
      FindOneAgrees(docs, mid, name, t);
      forall k | 0 <= k < |docs|
        ensures UpdatedIn(docs, name, data, tenants, k, Upsert(mid, name, data, t, freshIds[m])[k])
      {
        UpsertKeeps(mid, name, data, t, freshIds[m], k);
        OverlaidTwice(docs[k], docs[k].scheduler.lspId, data);
        UpdatedSnoc(docs, name, front, t, k);
        assert tenants == front + [t];
      }
    }
  }

  lemma {:induction false} UpsertAllIds(docs: seq<Stored>, name: string, data: map<string, string>,
                                        tenants: seq<string>, freshIds: seq<nat>, id: nat)
    requires |freshIds| == |tenants| && HasId(UpsertAll(docs, name, data, tenants, freshIds), id)
    ensures HasId(docs, id) || id in freshIds
    decreases |tenants|
  {
    if tenants != [] {
      var m := |tenants| - 1;
      var mid := UpsertAll(docs, name, data, tenants[..m], freshIds[..m]);
      var r := UpsertAll(docs, name, data, tenants, freshIds);
      var k :| 0 <= k < |r| && r[k].id == id;
      if k < |mid| {
        UpsertKeeps(mid, name, data, tenants[m], freshIds[m], k);
        assert mid[k].id == id;
        UpsertAllIds(docs, name, data, tenants[..m], freshIds[..m], id);
      }
    }
  }

  lemma UpsertDistinct(docs: seq<Stored>, name: string, data: map<string, string>, lspId: string, freshId: nat)
    requires DistinctIds(docs) && !HasId(docs, freshId)
    ensures DistinctIds(Upsert(docs, name, data, lspId, freshId))
  {
  }

  /** The loop never meets a duplicate key. */
  lemma UpsertAllFresh(docs: seq<Stored>, name: string, data: map<string, string>,
                       tenants: seq<string>, freshIds: seq<nat>, k: nat)
    requires |freshIds| == |tenants| && FreshIds(docs, freshIds) && k < |tenants|
    ensures !HasId(UpsertAll(docs, name, data, tenants[..k], freshIds[..k]), freshIds[k])
  {
    if HasId(UpsertAll(docs, name, data, tenants[..k], freshIds[..k]), freshIds[k]) {
      UpsertAllIds(docs, name, data, tenants[..k], freshIds[..k], freshIds[k]);
    }
  }

  lemma {:induction false} UpsertAllDistinct(docs: seq<Stored>, name: string, data: map<string, string>,
                                             tenants: seq<string>, freshIds: seq<nat>)
    requires |freshIds| == |tenants| && DistinctIds(docs) && FreshIds(docs, freshIds)
    ensures DistinctIds(UpsertAll(docs, name, data, tenants, freshIds))
    decreases |tenants|
  {
    if tenants != [] {
      var m := |tenants| - 1;
      var front := freshIds[..m];
      assert forall k :: 0 <= k < m ==> front[k] == freshIds[k];
      hide Upsert, DistinctIds, HasId;
      UpsertAllDistinct(docs, name, data, tenants[..m], front);
      UpsertAllFresh(docs, name, data, tenants, freshIds, m);
      UpsertDistinct(UpsertAll(docs, name, data, tenants[..m], front), name, data, tenants[m], freshIds[m]);
    }
  }

  /** Some document has the key. */
  ghost predicate HasKey(docs: seq<Stored>, name: string, lspId: string) {
    exists k :: 0 <= k < |docs| && docs[k].scheduler.name == name && docs[k].scheduler.lspId == lspId
  }

  /** Document k is the first one of its name and tenant, the name is the template's and the tenant is listed. */
  ghost predicate Chosen(docs: seq<Stored>, name: string, tenants: seq<string>, k: nat) {
    && k < |docs| && docs[k].scheduler.name == name && docs[k].scheduler.lspId in tenants
    && forall j :: 0 <= j < k ==>
         !(docs[j].scheduler.name == name && docs[j].scheduler.lspId == docs[k].scheduler.lspId)
  }

  lemma ChosenIsUpdated(docs: seq<Stored>, name: string, tenants: seq<string>, k: nat)
    ensures Chosen(docs, name, tenants, k) <==> Updated(docs, name, tenants, k)
  {
  }

  /** An old document after the loop: its place, id, name and tenant stay; if it is a chosen one it holds every field
      of the template, in the template's value, beside its other fields, and if not it is untouched. */
  lemma OldDocumentsAfter(docs: seq<Stored>, name: string, data: map<string, string>, tenants: seq<string>,
                          freshIds: seq<nat>, k: nat)
    requires |freshIds| == |tenants| && k < |docs|
    ensures var r := UpsertAll(docs, name, data, tenants, freshIds);
            && k < |r| && r[k].id == docs[k].id
            && r[k].scheduler.name == docs[k].scheduler.name && r[k].scheduler.lspId == docs[k].scheduler.lspId
            && (!Chosen(docs, name, tenants, k) ==> r[k] == docs[k])
            && (Chosen(docs, name, tenants, k) ==>
                  && r[k].scheduler.data.Keys == docs[k].scheduler.data.Keys + data.Keys
                  && forall f <- r[k].scheduler.data ::
                       r[k].scheduler.data[f] == if f in data then data[f] else docs[k].scheduler.data[f])
  {
    UpsertAllKeeps(docs, name, data, tenants, freshIds);
    ChosenIsUpdated(docs, name, tenants, k);
    assert UpdatedIn(docs, name, data, tenants, k, UpsertAll(docs, name, data, tenants, freshIds)[k]);
  }

  lemma FindOneFindsKey(docs: seq<Stored>, name: string, lspId: string)
    ensures FindOne(docs, name, lspId) < |docs| <==> HasKey(docs, name, lspId)
  {
  }

  lemma OverlaidSame(d: Stored, name: string, lspId: string, data: map<string, string>)
    requires d.scheduler == Scheduler(name, lspId, data)
    ensures Overlaid(d, lspId, data) == d
  {
    assert data + data == data;
  }

  lemma OldKeysStay(docs: seq<Stored>, name: string, data: map<string, string>, tenants: seq<string>,
                    freshIds: seq<nat>, lspId: string)
    requires |freshIds| == |tenants| && HasKey(docs, name, lspId)
    ensures HasKey(UpsertAll(docs, name, data, tenants, freshIds), name, lspId)
  {
    var k: nat :| k < |docs| && docs[k].scheduler.name == name && docs[k].scheduler.lspId == lspId;
    OldDocumentsAfter(docs, name, data, tenants, freshIds, k);
    assert UpsertAll(docs, name, data, tenants, freshIds)[k].scheduler.name == name;
  }

  /** A new document after the loop: exactly the template, for a listed tenant that had no scheduler of the name, and
      with a generated id. */
  lemma {:induction false} NewDocumentsAfter(docs: seq<Stored>, name: string, data: map<string, string>,
                                             tenants: seq<string>, freshIds: seq<nat>, k: nat)
    requires |freshIds| == |tenants|
    requires |docs| <= k < |UpsertAll(docs, name, data, tenants, freshIds)|
    ensures var d := UpsertAll(docs, name, data, tenants, freshIds)[k];
            && d.scheduler.name == name && d.scheduler.data == data && d.scheduler.lspId in tenants
            && !HasKey(docs, name, d.scheduler.lspId) && d.id in freshIds
    decreases |tenants|
  {
    hide HasKey;
    var m := |tenants| - 1;
    var mid := UpsertAll(docs, name, data, tenants[..m], freshIds[..m]);
    UpsertAllKeeps(docs, name, data, tenants[..m], freshIds[..m]);
    if k < |mid| {
      NewDocumentsAfter(docs, name, data, tenants[..m], freshIds[..m], k);
      UpsertKeeps(mid, name, data, tenants[m], freshIds[m], k);
      if FindOne(mid, name, tenants[m]) == k { OverlaidSame(mid[k], name, tenants[m], data); }
    } else {
      FindOneFindsKey(mid, name, tenants[m]);
      if HasKey(docs, name, tenants[m]) { OldKeysStay(docs, name, data, tenants[..m], freshIds[..m], tenants[m]); }
    }
  }

  // ----- The loop over the shared template object -----

  class Template {
    const name: string
    const data: map<string, string>
    var objectId: Option<nat>
    var lspId: Option<string>

    constructor (name: string, data: map<string, string>)
      ensures this.name == name && this.data == data && objectId == None && lspId == None
    {
      this.name, this.data, objectId, lspId := name, data, None, None;
    }
  }

  class Collection {
    var docs: seq<Stored>

    constructor (docs: seq<Stored>)
      ensures this.docs == docs
    {
      this.docs := docs;
    }

    /** insert: the driver writes a fresh _id into the inserted object if it has none, and the database
        refuses an _id that is taken. */
    method Insert(template: Template, freshId: nat) returns (r: Result<(), Error>)
      requires template.lspId.Some?
      modifies this, template`objectId
      ensures var id := old(template.objectId).GetOr(freshId);
              && template.objectId == Some(id)
              && (r.Err? <==> HasId(old(docs), id))
              && docs == if r.Err? then old(docs)
                         else old(docs) + [Stored(id, Scheduler(template.name, template.lspId.value, template.data))]
    {
      if template.objectId.None? {
        template.objectId := Some(freshId);
      }
      var id := template.objectId.value;
      if exists k | 0 <= k < |docs| :: docs[k].id == id {
        return Err(DuplicateKey);
      }
      docs := docs + [Stored(id, Scheduler(template.name, template.lspId.value, template.data))];
      return Ok(());
    }

    /** Whatever _id the template still carries from an earlier insertion, the upsert goes through. */
    method InsertIfMissing(lspId: string, template: Template, freshId: nat) returns (r: Result<(), Error>)
      requires !HasId(docs, freshId)
      modifies this, template
      ensures r.Ok? && docs == Upsert(old(docs), template.name, template.data, lspId, freshId)
      ensures template.lspId == Some(lspId)
      ensures template.objectId == if |docs| > |old(docs)| then Some(freshId) else None
    {
      var i := FindOne(docs, template.name, lspId);
      template.objectId := None;
      template.lspId := Some(lspId);
      if i == |docs| {
        r := Insert(template, freshId);
      } else {
        docs := docs[i := Overlaid(docs[i], template.lspId.value, template.data)];
        r := Ok(());
      }
    }

    /** One tenant after the other, all with the same template object. */
    method InsertForTenants(tenants: seq<string>, template: Template, freshIds: seq<nat>) returns (r: Result<(), Error>)
      requires |freshIds| == |tenants| && DistinctIds(docs) && FreshIds(docs, freshIds)
      modifies this, template
      ensures r.Ok? && DistinctIds(docs)
      ensures docs == UpsertAll(old(docs), template.name, template.data, tenants, freshIds)
      ensures template.lspId == if tenants == [] then old(template.lspId) else Some(tenants[|tenants| - 1])
    {
      hide Upsert, HasId;
      UpsertAllDistinct(docs, template.name, template.data, tenants, freshIds);
      r := Ok(());
      for k := 0 to |tenants|
        invariant r.Ok? && template.lspId == if k == 0 then old(template.lspId) else Some(tenants[k - 1])
        invariant docs == UpsertAll(old(docs), template.name, template.data, tenants[..k], freshIds[..k])
      {
        assert tenants[..k + 1][..k] == tenants[..k] && freshIds[..k + 1][..k] == freshIds[..k];
        UpsertAllFresh(old(docs), template.name, template.data, tenants, freshIds, k);
        r := InsertIfMissing(tenants[k], template, freshIds[k]);
      }
      assert tenants[..|tenants|] == tenants && freshIds[..|tenants|] == freshIds;
    }
  }
}
