/** Company hierarchies: the embedded chain of parent companies, the recursive printer that turns it
    into a path, and the direct printer that works from the three parent ids. */
module Hierarchy {
  import opened Basics
  import opened Paths
  import opened PaddedPaths

  /** A text field: absent, null, or a text. */
  datatype Name = Undefined | Null | Known(text: string)

  /** The embedded copy of a parent company: the projected fields and its own parent. */
  datatype Parent = Parent(id: Option<string>, name: Name, hierarchy: Name, status: Option<string>,
                           securityPolicy: Option<string>, parentCompany: Option<Parent>)

  datatype Company = Company(name: Name, hierarchy: Name, status: Option<string>,
                             securityPolicy: Option<string>, parentId: Option<string>, subParentId: Option<string>,
                             subSubParentId: Option<string>, parentCompany: Option<Parent>)

  /** A name inside a template string. */
  function Text(name: Name): string {
    match name
    case Undefined => "undefined"
    case Null => "null"
    case Known(text) => text
  }

  predicate HasText(name: Name) {
    name.Known? && name.text != ""
  }

  /** A missing name shows as a word of its own in the printed paths, and so does a null one. */
  lemma ShownNames(text: string)
    ensures Text(Undefined) == "undefined" && Text(Null) == "null" && Text(Known(text)) == text
    ensures !HasText(Undefined) && !HasText(Null) && !HasText(Known("")) && (text != "" ==> HasText(Known(text)))
  {
  }

  // ----- The recursive printer -----

  predicate Named(parent: Option<Parent>) {
    parent.Some? && HasText(parent.value.name)
  }

  function SetHierarchy(name: Name, parent: Option<Parent>, hierarchy: string): string
    decreases parent
  {
    if Named(parent) then
      var begun := if hierarchy == "" then Text(name) else hierarchy;
      SetHierarchy(parent.value.name, parent.value.parentCompany, begun + ":" + Text(parent.value.name))
    else
      Trim(Join(Reverse(Split(hierarchy, ':')), " : "))
  }

  /** The names from the company itself up through its named ancestors. */
  function Names(name: Name, parent: Option<Parent>): (r: seq<string>)
    ensures r != [] && r[0] == Text(name)
    decreases parent
  {
    [Text(name)] + (if Named(parent) then Names(parent.value.name, parent.value.parentCompany) else [])
  }

  function PrintNames(accumulated: string): string {
    Trim(Join(Reverse(Split(accumulated, ':')), " : "))
  }

  lemma OneMoreName(soFar: seq<string>, above: seq<string>, first: string)
    requires above != [] && above[0] == first
    ensures soFar + above == soFar + [first] + above[1..]
  {
  }

  /** The accumulator: whatever has been joined so far is continued with the ancestors' names. */
  lemma {:induction false} AccumulatorJoinsNames(soFar: seq<string>, name: Name, parent: Option<Parent>)
    requires soFar != [] && Join(soFar, ":") != ""
    ensures SetHierarchy(name, parent, Join(soFar, ":")) ==
            PrintNames(Join(soFar + Names(name, parent)[1..], ":"))
    decreases parent
  {
    hide Join, Split, Reverse, Trim;
    if Named(parent) {
      var p := parent.value;
      var further, above := soFar + [Text(p.name)], Names(p.name, p.parentCompany);
      JoinSnoc(soFar, Text(p.name), ":");
      AccumulatorJoinsNames(further, p.name, p.parentCompany);
      OneMoreName(soFar, above, Text(p.name));
      assert Names(name, parent)[1..] == above;
    } else {
      assert soFar + Names(name, parent)[1..] == soFar;
    }
  }

  /** For chains of any depth and with any names, the printer splits at every colon, its own or a name's. */
  lemma PrinterSplitsNames(name: Name, parent: Option<Parent>)
    requires Named(parent)
    ensures SetHierarchy(name, parent, "") ==
            Trim(Join(Reverse(SplitAll(Names(name, parent), ':')), " : "))
  {
    var p := parent.value;
    var soFar := [Text(name), Text(p.name)];
    assert soFar[1..] == [Text(p.name)];
    assert Join(soFar, ":") == Text(name) + ":" + Text(p.name);
    AccumulatorJoinsNames(soFar, p.name, p.parentCompany);
    assert soFar + Names(p.name, p.parentCompany)[1..] == Names(name, parent);
    SplitJoined(Names(name, parent), ':');
  }

  lemma NamesOfNamed(name: Name, parent: Option<Parent>)
    requires Named(parent)
    ensures |Names(name, parent)| > 1
  {
  }

  /** For colon-free names the printer gives the root-to-leaf path, trimmed; the trimming matters exactly
      when the path begins or ends with a space. */
  lemma PrinterGivesPath(name: Name, parent: Option<Parent>)
    requires Named(parent) && Free(Names(name, parent), ':')
    ensures var path := Join(Reverse(Names(name, parent)), " : ");
            && SetHierarchy(name, parent, "") == Trim(path)
            && path != ""
            && (SetHierarchy(name, parent, "") == path <==> !IsSpace(path[0]) && !IsSpace(path[|path| - 1]))
            && Split(Join(Names(name, parent), ":"), ':') == Names(name, parent)
  {
    hide *;
    NamesOfNamed(name, parent);
    PrinterSplitsNames(name, parent);
    ColonFreePath(Names(name, parent));
  }

  // ----- The direct printer and the chain builder -----

  type Docs = map<string, Company>

  predicate Present(id: Option<string>) {
    id.GetOr("") != ""
  }

  /** The ids of the parents that are present, nearest first. */
  function ParentIds(c: Company): seq<string> {
    (if Present(c.subSubParentId) then [c.subSubParentId.value] else []) +
    (if Present(c.subParentId) then [c.subParentId.value] else []) +
    (if Present(c.parentId) then [c.parentId.value] else [])
  }

  predicate AllFound(docs: Docs, ids: seq<string>) {
    forall k :: 0 <= k < |ids| ==> ids[k] in docs
  }

  function FirstMissing(docs: Docs, ids: seq<string>): (r: Option<string>)
    ensures r.None? <==> AllFound(docs, ids)
  {
    if ids == [] then None else if ids[0] in docs then FirstMissing(docs, ids[1..]) else Some(ids[0])
  }

  lemma FirstMissingAt(docs: Docs, ids: seq<string>, k: nat)
    requires k < |ids| && ids[k] !in docs && AllFound(docs, ids[..k])
    ensures FirstMissing(docs, ids) == Some(ids[k])
  {
    if k > 0 {
      assert ids[..k][0] == ids[0] && ids[1..][..k - 1] == ids[..k][1..];
      FirstMissingAt(docs, ids[1..], k - 1);
    }
  }

  /** A stream handler fails on the first parent, nearest first, that is not in the collection. */
  function Outcome(docs: Docs, c: Company): (r: Result<(), string>)
    ensures r.Ok? <==> AllFound(docs, ParentIds(c))
  {
    var missing := FirstMissing(docs, ParentIds(c));
    if missing.None? then Ok(()) else Err(missing.value)
  }

  /** _.pick of the projected fields. */
  function Picked(id: string, c: Company): Parent {
    Parent(Some(id), c.name, c.hierarchy, c.status, c.securityPolicy, None)
  }

  /** Hangs a parent below the nearest free place of a chain of at most two. */
  function AssignParent(parentCompany: Option<Parent>, parent: Parent): Option<Parent> {
    if parentCompany.None? then Some(parent)
    else if parentCompany.value.parentCompany.None? then Some(parentCompany.value.(parentCompany := Some(parent)))
    else
      var second := parentCompany.value.parentCompany.value;
      Some(parentCompany.value.(parentCompany := Some(second.(parentCompany := Some(parent)))))
  }

  /** The chain of the listed companies, each the parent of the one before it. */
  function ChainOf(docs: Docs, ids: seq<string>): Option<Parent>
    requires AllFound(docs, ids)
  {
    if ids == [] then None
    else Some(Picked(ids[0], docs[ids[0]]).(parentCompany := ChainOf(docs, ids[1..])))
  }

  /** The names of the company and of its listed ancestors, leaf first. */
  function PathNames(docs: Docs, name: Name, ids: seq<string>): (r: seq<string>)
    requires AllFound(docs, ids)
    ensures |r| == |ids| + 1
    decreases ids
  {
    [Text(name)] + (if ids == [] then [] else PathNames(docs, docs[ids[0]].name, ids[1..]))
  }

  /** The path that the ids describe, root first. */
  function PathOf(docs: Docs, c: Company): seq<string>
    requires AllFound(docs, ParentIds(c))
  {
    Reverse(PathNames(docs, c.name, ParentIds(c)))
  }

  ghost predicate AllNamed(docs: Docs, ids: seq<string>)
    requires AllFound(docs, ids)
  {
    forall k :: 0 <= k < |ids| ==> HasText(docs[ids[k]].name)
  }

  /** The name itself for a company without parents, else the path joined by ": ". */
  function DirectOver(docs: Docs, name: Name, ids: seq<string>): Name
    requires AllFound(docs, ids)
  {
    if ids == [] then name else Known(Join(Reverse(PathNames(docs, name, ids)), ": "))
  }

  function DirectHierarchy(docs: Docs, c: Company): Name
    requires AllFound(docs, ParentIds(c))
  {
    DirectOver(docs, c.name, ParentIds(c))
  }

  lemma DirectWithoutParents(docs: Docs, name: Name)
    ensures DirectOver(docs, name, []) == name
  {
  }

  lemma ReverseSnoc(parts: seq<string>, last: string)
    ensures Reverse(parts + [last]) == [last] + Reverse(parts)
  {
  }

  lemma PathNamesSnoc(docs: Docs, name: Name, ids: seq<string>, id: string)
    requires AllFound(docs, ids) && id in docs
    ensures AllFound(docs, ids + [id])
    ensures PathNames(docs, name, ids + [id]) == PathNames(docs, name, ids) + [Text(docs[id].name)]
    decreases ids
  {
    if ids != [] {
      assert (ids + [id])[1..] == ids[1..] + [id];
      PathNamesSnoc(docs, docs[ids[0]].name, ids[1..], id);
    }
  }

  /** Prepending one more ancestor prints the longer path. */
  lemma DirectPrepends(docs: Docs, name: Name, ids: seq<string>, id: string)
    requires AllFound(docs, ids) && id in docs
    ensures AllFound(docs, ids + [id])
    ensures DirectOver(docs, name, ids + [id]) == Known(Text(docs[id].name) + ": " + Text(DirectOver(docs, name, ids)))
  {
    var names := PathNames(docs, name, ids);
    PathNamesSnoc(docs, name, ids, id);
    ReverseSnoc(names, Text(docs[id].name));
    var longer := [Text(docs[id].name)] + Reverse(names);
    assert longer[1..] == Reverse(names);
    assert Join(longer, ": ") == Text(docs[id].name) + ": " + Join(Reverse(names), ": ");
    if ids == [] {
      assert names == [Text(name)];
      assert Reverse(names) == [Text(name)];
    }
    assert ids + [id] != [];
  }

  /** Assigning one more parent extends the chain at its far end. */
  lemma AssignParentAppends(docs: Docs, ids: seq<string>, id: string)
    requires AllFound(docs, ids) && id in docs && |ids| <= 2
    ensures AllFound(docs, ids + [id])
    ensures AssignParent(ChainOf(docs, ids), Picked(id, docs[id])) == ChainOf(docs, ids + [id])
  {
    if |ids| > 0 {
      assert (ids + [id])[1..] == ids[1..] + [id];
      if |ids| > 1 { assert (ids[1..] + [id])[1..] == ids[2..] + [id] == [id]; assert ids[1..][1..] == []; }
    }
  }

  // ----- The streams, company by company -----

  /** A company after the direct printer; unchanged if a parent is missing. */
  function DirectReset(docs: Docs, c: Company): Company {
    if AllFound(docs, ParentIds(c)) then c.(hierarchy := DirectHierarchy(docs, c)) else c
  }

  function AllDirect(docs: Docs): (r: Docs)
    ensures r.Keys == docs.Keys
  {
    map id | id in docs :: DirectReset(docs, docs[id])
  }

  function ParentsReset(docs: Docs, c: Company): Company {
    if AllFound(docs, ParentIds(c)) then c.(parentCompany := ChainOf(docs, ParentIds(c))) else c
  }

  function AllParents(docs: Docs): (r: Docs)
    ensures r.Keys == docs.Keys
  {
    map id | id in docs :: ParentsReset(docs, docs[id])
  }

  function Printed(c: Company): Company {
    if c.parentCompany.None? || c.parentCompany.value.id.None? then c.(hierarchy := c.name)
    else c.(hierarchy := Known(SetHierarchy(c.name, c.parentCompany, "")))
  }

  function AllPrinted(docs: Docs): Docs {
    map id | id in docs :: Printed(docs[id])
  }

  /** The companies in `done` have their target value, the others their old one. */
  ghost predicate HalfWay(before: Docs, now: Docs, done: seq<string>, target: Docs) {
    && before.Keys == now.Keys == target.Keys
    && forall id <- before :: now[id] == if id in done then target[id] else before[id]
  }

  /** A stream delivers every id exactly once. */
  ghost predicate Enumerates(order: seq<string>, ids: set<string>) {
    && (forall k, l :: 0 <= k < l < |order| ==> order[k] != order[l])
    && (forall id :: id in order <==> id in ids)
  }

  lemma HalfWayStep(before: Docs, now: Docs, order: seq<string>, k: nat, target: Docs)
    requires Enumerates(order, before.Keys) && k < |order| && HalfWay(before, now, order[..k], target)
    ensures order[k] in before && now[order[k]] == before[order[k]]
    ensures HalfWay(before, now[order[k] := target[order[k]]], order[..k + 1], target)
  {
  }

  lemma HalfWayStart(before: Docs, target: Docs)
    requires before.Keys == target.Keys
    ensures HalfWay(before, before, [], target)
  {
  }

  lemma HalfWayDone(before: Docs, now: Docs, order: seq<string>, target: Docs)
    requires Enumerates(order, before.Keys) && HalfWay(before, now, order, target)
    ensures now == target
  {
  }

  ghost predicate SameKeysAndNames(docs1: Docs, docs2: Docs) {
    docs1.Keys == docs2.Keys && forall id <- docs1 :: docs1[id].name == docs2[id].name
  }

  lemma SameMissing(docs1: Docs, docs2: Docs, ids: seq<string>)
    requires docs1.Keys == docs2.Keys
    ensures FirstMissing(docs1, ids) == FirstMissing(docs2, ids)
  {
  }

  lemma SameNames(docs1: Docs, docs2: Docs, name: Name, ids: seq<string>)
    requires SameKeysAndNames(docs1, docs2) && AllFound(docs1, ids)
    ensures AllFound(docs2, ids) && PathNames(docs1, name, ids) == PathNames(docs2, name, ids)
    decreases ids
  {
    if ids != [] { SameNames(docs1, docs2, docs1[ids[0]].name, ids[1..]); }
  }

  lemma SameLookups(docs1: Docs, docs2: Docs, c: Company)
    requires SameKeysAndNames(docs1, docs2)
    ensures Outcome(docs1, c) == Outcome(docs2, c)
    ensures Outcome(docs1, c).Ok? ==> DirectHierarchy(docs1, c) == DirectHierarchy(docs2, c)
  {
    SameMissing(docs1, docs2, ParentIds(c));
    if Outcome(docs1, c).Ok? { SameNames(docs1, docs2, c.name, ParentIds(c)); }
  }

  lemma HalfDirectLooksSame(before: Docs, now: Docs, done: seq<string>, id: string)
    requires HalfWay(before, now, done, AllDirect(before)) && id in before
    ensures Outcome(now, before[id]) == Outcome(before, before[id])
    ensures DirectReset(now, before[id]) == DirectReset(before, before[id])
  {
    SameLookups(before, now, before[id]);
  }

  lemma SameProjections(docs1: Docs, docs2: Docs, ids: seq<string>)
    requires docs1.Keys == docs2.Keys
    requires forall id <- docs1 :: Picked(id, docs1[id]) == Picked(id, docs2[id])
    ensures FirstMissing(docs1, ids) == FirstMissing(docs2, ids)
    ensures AllFound(docs1, ids) ==> AllFound(docs2, ids) && ChainOf(docs1, ids) == ChainOf(docs2, ids)
  {
  }

  lemma HalfParentsLooksSame(before: Docs, now: Docs, done: seq<string>, id: string)
    requires HalfWay(before, now, done, AllParents(before)) && id in before
    ensures Outcome(now, before[id]) == Outcome(before, before[id])
    ensures ParentsReset(now, before[id]) == ParentsReset(before, before[id])
  {
    SameProjections(before, now, ParentIds(before[id]));
  }

  /** The error that the handler of one company leaves, if any. */
  function Failure(docs: Docs, id: string): seq<string> {
    if id in docs && Outcome(docs, docs[id]).Err? then [Outcome(docs, docs[id]).error] else []
  }

  /** The errors of a stream over the companies in `order`. */
  function Failures(docs: Docs, order: seq<string>): (r: seq<string>)
    ensures order == [] ==> r == []
  {
    if order == [] then [] else Failures(docs, order[..|order| - 1]) + Failure(docs, order[|order| - 1])
  }

  lemma FailuresStep(docs: Docs, order: seq<string>, k: nat)
    requires k < |order|
    ensures Failures(docs, order[..k + 1]) == Failures(docs, order[..k]) + Failure(docs, order[k])
  {
    assert order[..k + 1][..k] == order[..k];
  }

  lemma ErrorsStep(errors: seq<string>, docs: Docs, order: seq<string>, k: nat)
    requires k < |order|
    ensures errors + Failures(docs, order[..k + 1]) == errors + Failures(docs, order[..k]) + Failure(docs, order[k])
    ensures Failure(docs, order[k]) == [] ==>
              errors + Failures(docs, order[..k + 1]) == errors + Failures(docs, order[..k])
  {
    FailuresStep(docs, order, k);
  }

  lemma SameFailures(docs1: Docs, docs2: Docs, order: seq<string>)
    requires docs1.Keys == docs2.Keys
    requires forall id <- docs1 :: ParentIds(docs1[id]) == ParentIds(docs2[id])
    ensures Failures(docs1, order) == Failures(docs2, order)
  {
    if order != [] {
      var m := |order| - 1;
      SameFailures(docs1, docs2, order[..m]);
      if order[m] in docs1 { SameMissing(docs1, docs2, ParentIds(docs1[order[m]])); }
    }
  }

  lemma DirectSameFailures(docs: Docs, order: seq<string>)
    ensures AllDirect(docs).Keys == docs.Keys
    ensures Failures(AllDirect(docs), order) == Failures(docs, order)
  {
    SameFailures(docs, AllDirect(docs), order);
  }

  /** The collection, and the errors that the stream handlers collect. */
  class Companies {
    var docs: Docs
    var errors: seq<string>

    constructor (docs: Docs)
      ensures this.docs == docs && errors == []
    {
      this.docs := docs;
      errors := [];
    }

    method GetParent(id: string) returns (r: Result<Parent, string>)
      ensures id in docs ==> r == Ok(Picked(id, docs[id]))
      ensures id !in docs ==> r == Err(id)
    {
      r := if id in docs then Ok(Picked(id, docs[id])) else Err(id);
    }

    /** The direct printer: prepends the name of each parent that is present, nearest first. */
    method ResetHierarchy(id: string) returns (r: Result<(), string>)
      requires id in docs
      modifies this`docs
      ensures r == Outcome(old(docs), old(docs)[id])
      ensures docs == old(docs)[id := DirectReset(old(docs), old(docs)[id])]
    {
      hide DirectOver, FirstMissing;
      var company := docs[id];
      var hierarchy := company.name;
      ghost var seen: seq<string> := [];
      DirectWithoutParents(docs, company.name);
      if Present(company.subSubParentId) {
        var p := GetParent(company.subSubParentId.value);
        if p.Err? { FirstMissingAt(docs, ParentIds(company), |seen|); return Err(p.error); }
        DirectPrepends(docs, company.name, seen, company.subSubParentId.value);
        hierarchy := Known(Text(p.value.name) + ": " + Text(hierarchy));
        seen := seen + [company.subSubParentId.value];
      }
      if Present(company.subParentId) {
        var p := GetParent(company.subParentId.value);
        if p.Err? { FirstMissingAt(docs, ParentIds(company), |seen|); return Err(p.error); }
        DirectPrepends(docs, company.name, seen, company.subParentId.value);
        hierarchy := Known(Text(p.value.name) + ": " + Text(hierarchy));
        seen := seen + [company.subParentId.value];
      }
      if Present(company.parentId) {
        var p := GetParent(company.parentId.value);
        if p.Err? { FirstMissingAt(docs, ParentIds(company), |seen|); return Err(p.error); }
        DirectPrepends(docs, company.name, seen, company.parentId.value);
        hierarchy := Known(Text(p.value.name) + ": " + Text(hierarchy));
        seen := seen + [company.parentId.value];
      }
      assert seen == ParentIds(company);
      docs := docs[id := company.(hierarchy := hierarchy)];
      r := Ok(());
    }

    method ResetParents(id: string) returns (r: Result<(), string>)
      requires id in docs
      modifies this`docs
      ensures r == Outcome(old(docs), old(docs)[id])
      ensures docs == old(docs)[id := ParentsReset(old(docs), old(docs)[id])]
    {
      var company := docs[id];
      var parentCompany: Option<Parent> := None;
      ghost var seen: seq<string> := [];
      if Present(company.subSubParentId) {
        var p := GetParent(company.subSubParentId.value);
        if p.Err? { FirstMissingAt(docs, ParentIds(company), |seen|); return Err(p.error); }
        AssignParentAppends(docs, seen, company.subSubParentId.value);
        parentCompany := AssignParent(parentCompany, p.value);
        seen := seen + [company.subSubParentId.value];
      }
      if Present(company.subParentId) {
        var p := GetParent(company.subParentId.value);
        if p.Err? { FirstMissingAt(docs, ParentIds(company), |seen|); return Err(p.error); }
        AssignParentAppends(docs, seen, company.subParentId.value);
        parentCompany := AssignParent(parentCompany, p.value);
        seen := seen + [company.subParentId.value];
      }
      if Present(company.parentId) {
        var p := GetParent(company.parentId.value);
        if p.Err? { FirstMissingAt(docs, ParentIds(company), |seen|); return Err(p.error); }
        AssignParentAppends(docs, seen, company.parentId.value);
        parentCompany := AssignParent(parentCompany, p.value);
        seen := seen + [company.parentId.value];
      }
      assert seen == ParentIds(company);
      docs := docs[id := company.(parentCompany := parentCompany)];
      r := Ok(());
    }

    /** The data handler for one company, which keeps the error instead of throwing it. */
    method HierarchyData(ghost before: Docs, order: seq<string>, k: nat)
      requires Enumerates(order, before.Keys) && k < |order| && HalfWay(before, docs, order[..k], AllDirect(before))
      modifies this
      ensures HalfWay(before, docs, order[..k + 1], AllDirect(before))
      ensures errors == old(errors) + Failure(before, order[k])
    {
      HalfWayStep(before, docs, order, k, AllDirect(before));
      HalfDirectLooksSame(before, docs, order[..k], order[k]);
      var r := ResetHierarchy(order[k]);
      if r.Err? { errors := errors + [r.error]; }
    }

    /** The first stream: every company once, in any order; a failing handler only leaves an error. */
    method ResetHierarchies(order: seq<string>)
      requires Enumerates(order, docs.Keys)
      modifies this
      ensures HalfWay(old(docs), docs, order, AllDirect(old(docs)))
      ensures errors == old(errors) + Failures(old(docs), order)
    {
      hide *;
      ghost var before := docs;
      HalfWayStart(before, AllDirect(before));
      var k := 0;
      assert order[..0] == [] && Failures(before, []) == [];
      while k < |order|
        invariant 0 <= k <= |order| && HalfWay(before, docs, order[..k], AllDirect(before))
        invariant errors == old(errors) + Failures(before, order[..k])
      {
        ErrorsStep(old(errors), before, order, k);
        HierarchyData(before, order, k);
        k := k + 1;
      }
      assert order[..k] == order;
    }

    /** The data handler for one company in the second stream. */
    method ParentsData(ghost before: Docs, order: seq<string>, k: nat)
      requires Enumerates(order, before.Keys) && k < |order| && HalfWay(before, docs, order[..k], AllParents(before))
      modifies this
      ensures HalfWay(before, docs, order[..k + 1], AllParents(before))
      ensures errors == old(errors) + Failure(before, order[k])
    {
      HalfWayStep(before, docs, order, k, AllParents(before));
      HalfParentsLooksSame(before, docs, order[..k], order[k]);
      var r := ResetParents(order[k]);
      if r.Err? { errors := errors + [r.error]; }
    }

    /** The second stream. */
    method ResetAllParents(order: seq<string>)
      requires Enumerates(order, docs.Keys)
      modifies this
      ensures HalfWay(old(docs), docs, order, AllParents(old(docs)))
      ensures errors == old(errors) + Failures(old(docs), order)
    {
      hide *;
      ghost var before := docs;
      HalfWayStart(before, AllParents(before));
      var k := 0;
      assert order[..0] == [] && Failures(before, []) == [];
      while k < |order|
        invariant 0 <= k <= |order| && HalfWay(before, docs, order[..k], AllParents(before))
        invariant errors == old(errors) + Failures(before, order[..k])
      {
        ErrorsStep(old(errors), before, order, k);
        ParentsData(before, order, k);
        k := k + 1;
      }
      assert order[..k] == order;
    }

    /** The stream of the later migration. */
    method SetHierarchies(order: seq<string>)
      requires Enumerates(order, docs.Keys)
      modifies this`docs
      ensures HalfWay(old(docs), docs, order, AllPrinted(old(docs)))
    {
      var k := 0;
      while k < |order|
        invariant 0 <= k <= |order| && HalfWay(old(docs), docs, order[..k], AllPrinted(old(docs)))
      {
        HalfWayStep(old(docs), docs, order, k, AllPrinted(old(docs)));
        var company := docs[order[k]];
        var hierarchy: Name;
        if company.parentCompany.None? || company.parentCompany.value.id.None? {
          hierarchy := company.name;
        } else {
          hierarchy := Known(SetHierarchy(company.name, company.parentCompany, ""));
        }
        docs := docs[order[k] := company.(hierarchy := hierarchy)];
        k := k + 1;
      }
      assert order[..k] == order;
    }

    /** Both migrations, each stream in its own order. */
    method MigrateHierarchies(order1: seq<string>, order2: seq<string>, order3: seq<string>)
      requires Enumerates(order1, docs.Keys) && Enumerates(order2, docs.Keys) && Enumerates(order3, docs.Keys)
      modifies this
      ensures docs == AllPrinted(AllParents(AllDirect(old(docs))))
      ensures errors == old(errors) + Failures(old(docs), order1) + Failures(old(docs), order2)
    {
      ResetHierarchies(order1);
      HalfWayDone(old(docs), docs, order1, AllDirect(old(docs)));
      DirectSameFailures(old(docs), order2);
      ghost var direct := docs;
      ResetAllParents(order2);
      HalfWayDone(direct, docs, order2, AllParents(direct));
      ghost var chained := docs;
      SetHierarchies(order3);
      HalfWayDone(chained, docs, order3, AllPrinted(chained));
    }
  }

  // ----- What the two printers print -----

  /** The chain lists the names of the ids exactly when every ancestor has a name. */
  lemma {:induction false} ChainListsNames(docs: Docs, name: Name, ids: seq<string>)
    requires AllFound(docs, ids)
    ensures Names(name, ChainOf(docs, ids)) == PathNames(docs, name, ids) <==> AllNamed(docs, ids)
    decreases ids
  {
    if ids != [] {
      var first := docs[ids[0]];
      ChainListsNames(docs, first.name, ids[1..]);
      assert AllNamed(docs, ids) <==> HasText(first.name) && AllNamed(docs, ids[1..]);
      if Named(ChainOf(docs, ids)) {
        assert PathNames(docs, name, ids)[1..] == PathNames(docs, first.name, ids[1..]);
        assert Names(name, ChainOf(docs, ids))[1..] == Names(first.name, ChainOf(docs, ids[1..]));
      }
    }
  }

  /** The chain's names are the path's as far as they go. */
  lemma {:induction false} ChainNamesBeginPath(docs: Docs, name: Name, ids: seq<string>)
    requires AllFound(docs, ids)
    ensures Names(name, ChainOf(docs, ids)) <= PathNames(docs, name, ids)
    decreases ids
  {
    if ids != [] { ChainNamesBeginPath(docs, docs[ids[0]].name, ids[1..]); }
  }

  lemma EmptyPrint(name: Name, parent: Option<Parent>)
    requires !Named(parent)
    ensures SetHierarchy(name, parent, "") == ""
  {
    assert Split("", ':') == [""] && Reverse([""]) == [""] && Join([""], " : ") == "";
  }

  lemma PrintedCount(docs: Docs, name: Name, ids: seq<string>)
    requires AllFound(docs, ids) && ids != [] && Free(PathNames(docs, name, ids), ':')
    ensures multiset(SetHierarchy(name, ChainOf(docs, ids), ""))[':'] == |Names(name, ChainOf(docs, ids))| - 1
  {
    var chain := ChainOf(docs, ids);
    var names := Names(name, chain);
    ChainNamesBeginPath(docs, name, ids);
    assert forall k :: 0 <= k < |names| ==> names[k] == PathNames(docs, name, ids)[k];
    if Named(chain) {
      PrinterGivesPath(name, chain);
      TrimmedPathCount(names);
      SplitAllFree(names, ':');
    } else {
      assert SetHierarchy(name, chain, "") == "" by { EmptyPrint(name, chain); }
    }
  }

  /** For colon-free names the recursive printer prints the path of the ids exactly when every ancestor has a
      name. */
  lemma ChainPrintsPathExactly(docs: Docs, name: Name, ids: seq<string>)
    requires AllFound(docs, ids) && ids != [] && Free(PathNames(docs, name, ids), ':')
    ensures SetHierarchy(name, ChainOf(docs, ids), "") == Trim(Join(Reverse(PathNames(docs, name, ids)), " : "))
            <==> AllNamed(docs, ids)
  {
    hide SetHierarchy, Names, Trim, Join, Reverse;
    ChainListsNames(docs, name, ids);
    ChainNamesBeginPath(docs, name, ids);
    if AllNamed(docs, ids) {
      PrinterGivesPath(name, ChainOf(docs, ids));
    } else {
      PrintedCount(docs, name, ids);
      TrimmedPathCount(PathNames(docs, name, ids));
      SplitAllFree(PathNames(docs, name, ids), ':');
    }
  }

  lemma ReverseSame(parts1: seq<string>, parts2: seq<string>)
    ensures Reverse(parts1) == Reverse(parts2) <==> parts1 == parts2
  {
    if Reverse(parts1) == Reverse(parts2) {
      forall k | 0 <= k < |parts1| ensures parts1[k] == parts2[k] {
        assert Reverse(parts1)[|parts1| - 1 - k] == Reverse(parts2)[|parts1| - 1 - k];
      }
    }
  }

  /** For every subset of the three parent ids: the chain that is built from them and the direct printer
      describe the same ancestor path exactly when every ancestor has a name. The direct printer joins that
      path by ": "; for colon-free names the recursive one prints it, joined by " : ", in exactly the same case. */
  lemma PrintersListSamePath(docs: Docs, c: Company)
    requires AllFound(docs, ParentIds(c))
    ensures var ids, chain := ParentIds(c), ChainOf(docs, ParentIds(c));
            && (Reverse(Names(c.name, chain)) == PathOf(docs, c) <==> AllNamed(docs, ids))
            && (ids != [] ==> DirectHierarchy(docs, c) == Known(Join(PathOf(docs, c), ": ")))
            && (ids != [] && Free(PathNames(docs, c.name, ids), ':') ==>
                  (SetHierarchy(c.name, chain, "") == Trim(Join(PathOf(docs, c), " : ")) <==> AllNamed(docs, ids)))
  {
    hide SetHierarchy, Trim, Join, Names, PathNames, ChainOf, ParentIds, Reverse, AllNamed, Free;
    var ids, chain := ParentIds(c), ChainOf(docs, ParentIds(c));
    ChainListsNames(docs, c.name, ids);
    ReverseSame(Names(c.name, chain), PathNames(docs, c.name, ids));
    if ids != [] && Free(PathNames(docs, c.name, ids), ':') { ChainPrintsPathExactly(docs, c.name, ids); }
  }

  lemma ChainHasId(docs: Docs, ids: seq<string>)
    requires AllFound(docs, ids)
    ensures if ids == [] then ChainOf(docs, ids).None?
            else ChainOf(docs, ids).Some? && ChainOf(docs, ids).value.id.Some?
  {
  }

  lemma DirectThenParents(docs: Docs, id: string)
    requires id in docs && AllFound(docs, ParentIds(docs[id]))
    ensures var direct, ids := AllDirect(docs), ParentIds(docs[id]);
            && SameKeysAndNames(docs, direct) && AllFound(direct, ids)
            && AllPrinted(AllParents(direct))[id].hierarchy ==
               if ids == [] then docs[id].name else Known(SetHierarchy(docs[id].name, ChainOf(direct, ids), ""))
  {
    hide SetHierarchy, ChainOf, DirectHierarchy, Outcome;
    var direct := AllDirect(docs);
    assert direct[id].name == docs[id].name && AllParents(direct)[id] == ParentsReset(direct, direct[id]);
    ChainHasId(direct, ParentIds(docs[id]));
  }

  /** After both migrations, whatever the stream orders: a company whose parents all exist, with no colon in any
      name of the path, carries its path printed root first exactly when all its ancestors have names. */
  lemma MigrationPrintsPath(docs: Docs, id: string)
    requires id in docs && AllFound(docs, ParentIds(docs[id]))
    requires Free(PathNames(docs, docs[id].name, ParentIds(docs[id])), ':')
    ensures AllPrinted(AllParents(AllDirect(docs)))[id].hierarchy ==
            (if ParentIds(docs[id]) == [] then docs[id].name else Known(Trim(Join(PathOf(docs, docs[id]), " : "))))
            <==> AllNamed(docs, ParentIds(docs[id]))
  {
    hide AllDirect, AllParents, AllPrinted, Trim, Join, SetHierarchy;
    var direct, ids, name := AllDirect(docs), ParentIds(docs[id]), docs[id].name;
    DirectThenParents(docs, id);
    if ids != [] {
      SameNames(docs, direct, name, ids);
      ChainPrintsPathExactly(direct, name, ids);
    }
  }

  lemma PrintedIsNotEmpty(name: Name, parent: Option<Parent>)
    requires Named(parent)
    ensures SetHierarchy(name, parent, "") != ""
  {
    hide SetHierarchy, Trim, Join, Reverse;
    PrinterSplitsNames(name, parent);
    SplitAllPieces(Names(name, parent), ':');
    TrimmedPathCount(SplitAll(Names(name, parent), ':'));
    SplitAllFree(SplitAll(Names(name, parent), ':'), ':');
  }

  /** A company whose parents all exist loses its path altogether, which the direct printer had written, exactly
      when its nearest parent has no name. */
  lemma UnnamedParentBlanksHierarchy(docs: Docs, id: string)
    requires id in docs && AllFound(docs, ParentIds(docs[id])) && ParentIds(docs[id]) != []
    ensures AllPrinted(AllParents(AllDirect(docs)))[id].hierarchy == Known("") <==>
            !HasText(docs[ParentIds(docs[id])[0]].name)
  {
    var direct, ids, name := AllDirect(docs), ParentIds(docs[id]), docs[id].name;
    DirectThenParents(docs, id);
    var chain := ChainOf(direct, ids);
    assert Named(chain) <==> HasText(docs[ids[0]].name);
    if Named(chain) {
      PrintedIsNotEmpty(name, chain);
    } else {
      EmptyPrint(name, chain);
    }
  }

  /** One parent without a name: the direct printer's path is there first and blank after the later migration. */
  lemma NamelessParent(status: Option<string>)
    ensures var parent := Company(Undefined, Undefined, status, None, None, None, None, None);
            var company := Company(Known("Leaf"), Undefined, status, None, Some("p"), None, None, None);
            var docs := map["p" := parent, "c" := company];
            && AllDirect(docs)["c"].hierarchy == Known("undefined: Leaf")
            && AllPrinted(AllParents(AllDirect(docs)))["c"].hierarchy == Known("")
  {
    var parent := Company(Undefined, Undefined, status, None, None, None, None, None);
    var company := Company(Known("Leaf"), Undefined, status, None, Some("p"), None, None, None);
    var docs := map["p" := parent, "c" := company];
    assert ParentIds(company) == ["p"];
    DirectPrepends(docs, company.name, [], "p");
    assert [] + ["p"] == ["p"];
    assert Text(Undefined) + ": " + "Leaf" == "undefined: Leaf";
    UnnamedParentBlanksHierarchy(docs, "c");
  }

  // ----- The three parents, spelled out -----

  /** The parents that are present exist: all those that the company's three fields name. */
  ghost predicate ParentsExist(docs: Docs, c: Company) {
    && (c.parentId.GetOr("") != "" ==> c.parentId.value in docs)
    && (c.subParentId.GetOr("") != "" ==> c.subParentId.value in docs)
    && (c.subSubParentId.GetOr("") != "" ==> c.subSubParentId.value in docs)
  }

  lemma ParentsExistAreFound(docs: Docs, c: Company)
    ensures ParentsExist(docs, c) <==> AllFound(docs, ParentIds(c))
  {
    var ids := ParentIds(c);
    if AllFound(docs, ids) {
      assert c.subSubParentId.GetOr("") != "" ==> ids[0] == c.subSubParentId.value;
      assert c.parentId.GetOr("") != "" ==> ids[|ids| - 1] == c.parentId.value;
      assert c.subParentId.GetOr("") != "" ==> c.subParentId.value in ids;
    }
  }

  function With(ids: seq<string>, id: Option<string>): seq<string> {
    if id.GetOr("") != "" then ids + [id.value] else ids
  }

  lemma ParentIdsInTurn(c: Company)
    ensures ParentIds(c) == With(With(With([], c.subSubParentId), c.subParentId), c.parentId)
  {
  }

  lemma FourTexts(a: string, b: string, c: string, d: string)
    ensures a + (b + (c + d)) == a + b + c + d
  {
  }

  /** The name of a parent that is present, with its separator. */
  function Ahead(docs: Docs, id: Option<string>): string {
    if id.GetOr("") != "" && id.value in docs then Text(docs[id.value].name) + ": " else ""
  }

  lemma AheadPrepends(docs: Docs, name: Name, ids: seq<string>, id: Option<string>)
    requires AllFound(docs, ids) && (id.GetOr("") != "" ==> id.value in docs)
    ensures var more := With(ids, id);
            && AllFound(docs, more)
            && Text(DirectOver(docs, name, more)) == Ahead(docs, id) + Text(DirectOver(docs, name, ids))
            && (more != [] ==> DirectOver(docs, name, more).Known?)
  {
    if id.GetOr("") != "" { DirectPrepends(docs, name, ids, id.value); }
  }

  lemma DirectInTurn(docs: Docs, c: Company)
    requires ParentsExist(docs, c)
    ensures AllFound(docs, ParentIds(c))
    ensures var r := DirectOver(docs, c.name, ParentIds(c));
            && Text(r) == Ahead(docs, c.parentId) + Ahead(docs, c.subParentId)
                          + Ahead(docs, c.subSubParentId) + Text(c.name)
            && (c.parentId.GetOr("") == c.subParentId.GetOr("") == c.subSubParentId.GetOr("") == "" ==> r == c.name)
            && (c.parentId.GetOr("") != "" || c.subParentId.GetOr("") != "" || c.subSubParentId.GetOr("") != "" ==>
                  r.Known?)
  {
    hide DirectOver, Text, ParentIds, Ahead;
    var ids1 := With([], c.subSubParentId);
    var ids2 := With(ids1, c.subParentId);
    AheadPrepends(docs, c.name, [], c.subSubParentId);
    AheadPrepends(docs, c.name, ids1, c.subParentId);
    AheadPrepends(docs, c.name, ids2, c.parentId);
    ParentIdsInTurn(c);
    DirectWithoutParents(docs, c.name);
    FourTexts(Ahead(docs, c.parentId), Ahead(docs, c.subParentId), Ahead(docs, c.subSubParentId), Text(c.name));
  }

  /** The direct printer's result: the names of the parents that are present, parentId first, then subParentId, then
      subSubParentId, then the company's own. A company with a missing parent stays as it is, and of the others
      nothing but the hierarchy changes. */
  lemma DirectSpelledOut(docs: Docs, id: string)
    requires id in docs
    ensures var c, r := docs[id], AllDirect(docs)[id];
            if !ParentsExist(docs, c) then r == c
            else
              && r == c.(hierarchy := r.hierarchy)
              && Text(r.hierarchy) == Ahead(docs, c.parentId) + Ahead(docs, c.subParentId)
                                      + Ahead(docs, c.subSubParentId) + Text(c.name)
              && (c.parentId.GetOr("") == c.subParentId.GetOr("") == c.subSubParentId.GetOr("") == "" ==>
                    r.hierarchy == c.name)
              && (c.parentId.GetOr("") != "" || c.subParentId.GetOr("") != "" || c.subSubParentId.GetOr("") != "" ==>
                    r.hierarchy.Known?)
  {
    hide DirectOver, Text, ParentIds, With, Ahead, ParentsExist;
    var c := docs[id];
    ParentsExistAreFound(docs, c);
    if ParentsExist(docs, c) { DirectInTurn(docs, c); }
  }

  /** The ids along an embedded chain, nearest parent first. */
  function IdsAlong(parent: Option<Parent>): seq<Option<string>>
    decreases parent
  {
    if parent.None? then [] else [parent.value.id] + IdsAlong(parent.value.parentCompany)
  }

  /** Every parent along the chain is a copy of the stored company of its id. */
  ghost predicate CopiesAlong(docs: Docs, parent: Option<Parent>)
    decreases parent
  {
    parent.Some? ==>
      var p := parent.value;
      && p.id.Some? && p.id.value in docs
      && p.name == docs[p.id.value].name && p.hierarchy == docs[p.id.value].hierarchy
      && p.status == docs[p.id.value].status && p.securityPolicy == docs[p.id.value].securityPolicy
      && CopiesAlong(docs, p.parentCompany)
  }

  lemma {:induction false} ChainAlong(docs: Docs, ids: seq<string>)
    requires AllFound(docs, ids)
    ensures CopiesAlong(docs, ChainOf(docs, ids))
    ensures |IdsAlong(ChainOf(docs, ids))| == |ids|
    ensures forall k :: 0 <= k < |ids| ==> IdsAlong(ChainOf(docs, ids))[k] == Some(ids[k])
  {
    if ids != [] { ChainAlong(docs, ids[1..]); }
  }

  function Here(id: Option<string>): seq<Option<string>> {
    if id.GetOr("") != "" then [id] else []
  }

  lemma HereAre(c: Company, ids: seq<Option<string>>)
    requires |ids| == |ParentIds(c)| && forall k :: 0 <= k < |ids| ==> ids[k] == Some(ParentIds(c)[k])
    ensures ids == Here(c.subSubParentId) + Here(c.subParentId) + Here(c.parentId)
  {
  }

  /** The chain: subSubParentId nearest, parentId farthest, each a copy of the stored company. A company with a
      missing parent stays as it is, and of the others nothing but the chain changes. */
  lemma ChainSpelledOut(docs: Docs, id: string)
    requires id in docs
    ensures var c, r := docs[id], AllParents(docs)[id];
            if !ParentsExist(docs, c) then r == c
            else
              && r == c.(parentCompany := r.parentCompany)
              && IdsAlong(r.parentCompany) == Here(c.subSubParentId) + Here(c.subParentId) + Here(c.parentId)
              && CopiesAlong(docs, r.parentCompany)
  {
    hide ChainOf, ParentIds, ParentsExist, IdsAlong, CopiesAlong;
    var c := docs[id];
    ParentsExistAreFound(docs, c);
    if ParentsExist(docs, c) {
      ChainAlong(docs, ParentIds(c));
      HereAre(c, IdsAlong(ChainOf(docs, ParentIds(c))));
    }
  }

  /** The name of a parent that is present. */
  function Above(docs: Docs, id: Option<string>): seq<string> {
    if id.GetOr("") != "" && id.value in docs then [Text(docs[id.value].name)] else []
  }

  lemma AboveExtends(docs: Docs, name: Name, ids: seq<string>, id: Option<string>)
    requires AllFound(docs, ids) && (id.GetOr("") != "" ==> id.value in docs)
    ensures var more := With(ids, id);
            && AllFound(docs, more)
            && Reverse(PathNames(docs, name, more)) == Above(docs, id) + Reverse(PathNames(docs, name, ids))
  {
    if id.GetOr("") != "" {
      PathNamesSnoc(docs, name, ids, id.value);
      ReverseSnoc(PathNames(docs, name, ids), Text(docs[id.value].name));
    }
  }

  lemma OwnName(docs: Docs, name: Name)
    ensures Reverse(PathNames(docs, name, [])) == [Text(name)]
  {
  }

  lemma FourPaths(a: seq<string>, b: seq<string>, c: seq<string>, d: seq<string>)
    ensures a + (b + (c + d)) == a + b + c + d
  {
  }

  /** The path of which the other results speak, by the three fields. */
  lemma PathSpelledOut(docs: Docs, c: Company)
    requires ParentsExist(docs, c)
    ensures AllFound(docs, ParentIds(c))
    ensures PathOf(docs, c) == Above(docs, c.parentId) + Above(docs, c.subParentId)
                               + Above(docs, c.subSubParentId) + [Text(c.name)]
  {
    hide Text, Reverse, ParentIds, PathNames, Above;
    var ids1 := With([], c.subSubParentId);
    var ids2 := With(ids1, c.subParentId);
    AboveExtends(docs, c.name, [], c.subSubParentId);
    AboveExtends(docs, c.name, ids1, c.subParentId);
    AboveExtends(docs, c.name, ids2, c.parentId);
    ParentIdsInTurn(c);
    OwnName(docs, c.name);
    FourPaths(Above(docs, c.parentId), Above(docs, c.subParentId), Above(docs, c.subSubParentId), [Text(c.name)]);
  }

  /** A handler fails on a missing subSubParentId first, then on subParentId, then on parentId. */
  lemma FailureSpelledOut(docs: Docs, id: string)
    requires id in docs
    ensures var c, f := docs[id], Failure(docs, id);
            if c.subSubParentId.GetOr("") != "" && c.subSubParentId.value !in docs then f == [c.subSubParentId.value]
            else if c.subParentId.GetOr("") != "" && c.subParentId.value !in docs then f == [c.subParentId.value]
            else if c.parentId.GetOr("") != "" && c.parentId.value !in docs then f == [c.parentId.value]
            else f == []
  {
    var c := docs[id];
    var ids := ParentIds(c);
    ParentsExistAreFound(docs, c);
    var n1 := if c.subSubParentId.GetOr("") != "" then 1 else 0;
    var n2 := n1 + if c.subParentId.GetOr("") != "" then 1 else 0;
    if n1 == 1 && ids[0] !in docs {
      FirstMissingAt(docs, ids, 0);
    } else if n2 > n1 && ids[n1] !in docs {
      FirstMissingAt(docs, ids, n1);
    } else if |ids| > n2 && ids[n2] !in docs {
      FirstMissingAt(docs, ids, n2);
    }
  }

  /** The later migration changes nothing but the hierarchy; without an embedded parent, or with one that has no id,
      that becomes the company's own name. */
  lemma PrintedSpelledOut(docs: Docs, id: string)
    requires id in docs
    ensures var c, r := docs[id], AllPrinted(docs)[id];
            && r == c.(hierarchy := r.hierarchy)
            && (c.parentCompany.None? || c.parentCompany.value.id.None? ==> r.hierarchy == c.name)
            && (c.parentCompany.Some? && c.parentCompany.value.id.Some? ==>
                  r.hierarchy == Known(SetHierarchy(c.name, c.parentCompany, "")))
  {
  }

  // ----- Names with colons -----

  /** For names without outer spaces, of any number and depth, the recursive printer gives the root-to-leaf path
      exactly when no name contains a colon. */
  lemma PrinterGivesPathExactly(name: Name, parent: Option<Parent>)
    requires Named(parent) && AllTidy(Names(name, parent))
    ensures SetHierarchy(name, parent, "") == Join(Reverse(Names(name, parent)), " : ") <==>
            Free(Names(name, parent), ':')
  {
    hide *;
    NamesOfNamed(name, parent);
    PrinterSplitsNames(name, parent);
    PiecesPrintPathExactly(Names(name, parent));
  }

  /** The company has a name, and no name on the path begins or ends with a space. */
  ghost predicate WellSpaced(names: seq<string>) {
    && names != [] && names[0] != ""
    && forall k :: 0 <= k < |names| ==> names[k] == "" || Tidy(names[k])
  }

  lemma {:induction false} PathNameAt(docs: Docs, name: Name, ids: seq<string>, k: nat)
    requires AllFound(docs, ids) && 0 < k <= |ids|
    ensures PathNames(docs, name, ids)[k] == Text(docs[ids[k - 1]].name)
    decreases ids
  {
    if k > 1 { PathNameAt(docs, docs[ids[0]].name, ids[1..], k - 1); }
  }

  lemma NamedPathIsTidy(docs: Docs, name: Name, ids: seq<string>)
    requires AllFound(docs, ids) && AllNamed(docs, ids) && WellSpaced(PathNames(docs, name, ids))
    ensures AllTidy(PathNames(docs, name, ids))
  {
    forall k: nat | 0 < k <= |ids| ensures PathNames(docs, name, ids)[k] != "" {
      PathNameAt(docs, name, ids, k);
    }
  }

  /** A print that leaves out an ancestor has too few colons to be the path. */
  lemma ShortPrintIsNotPath(docs: Docs, name: Name, ids: seq<string>)
    requires AllFound(docs, ids) && ids != [] && !AllNamed(docs, ids)
    ensures SetHierarchy(name, ChainOf(docs, ids), "") != Join(Reverse(PathNames(docs, name, ids)), " : ")
  {
    hide SetHierarchy, Trim, Join, Reverse, SplitAll, Names, PathNames, ChainOf, AllNamed, Named, Free;
    var chain, path := ChainOf(docs, ids), PathNames(docs, name, ids);
    var names := Names(name, chain);
    ChainListsNames(docs, name, ids);
    ChainNamesBeginPath(docs, name, ids);
    assert path == names + path[|names|..];
    SplitAllAppend(names, path[|names|..], ':');
    SplitAllPieces(path[|names|..], ':');
    SplitAllPieces(names, ':');
    PathCount(path);
    if Named(chain) {
      PrinterSplitsNames(name, chain);
      TrimmedPathCount(SplitAll(names, ':'));
      SplitAllFree(SplitAll(names, ':'), ':');
    } else {
      EmptyPrint(name, chain);
    }
  }

  /** After both migrations: a company whose parents all exist, with no outer spaces in the names on the path,
      carries that path exactly when all its ancestors have names and none of the names contains a colon. */
  lemma MigrationPrintsPathExactly(docs: Docs, id: string)
    requires id in docs && AllFound(docs, ParentIds(docs[id])) && ParentIds(docs[id]) != []
    requires WellSpaced(PathNames(docs, docs[id].name, ParentIds(docs[id])))
    ensures AllPrinted(AllParents(AllDirect(docs)))[id].hierarchy == Known(Join(PathOf(docs, docs[id]), " : ")) <==>
            && AllNamed(docs, ParentIds(docs[id]))
            && Free(PathNames(docs, docs[id].name, ParentIds(docs[id])), ':')
  {
    hide AllDirect, AllParents, AllPrinted, Join, SetHierarchy, ParentIds, WellSpaced, AllTidy, Names;
    var direct, ids, name := AllDirect(docs), ParentIds(docs[id]), docs[id].name;
    DirectThenParents(docs, id);
    SameNames(docs, direct, name, ids);
    if AllNamed(docs, ids) {
      ChainListsNames(direct, name, ids);
      NamedPathIsTidy(docs, name, ids);
      PrinterGivesPathExactly(name, ChainOf(direct, ids));
    } else {
      ShortPrintIsNotPath(direct, name, ids);
    }
  }
}
