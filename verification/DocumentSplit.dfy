/** Splitting the documents of a request over two migrations: the first copies all of them into a
    language combination and collects the final ones, tagged with languages; the second removes the
    final ones from the combinations. */
module DocumentSplit {
  import opened Basics
  import Paths

  datatype Lang = Lang(id: Option<string>, name: string, isoCode: string)

  datatype Document = Document(id: string, isFinal: Option<bool>, srcLang: Option<Lang>, tgtLang: Option<Lang>,
                               rest: map<string, string>)

  /** `files` are the ids of the attached files. */
  datatype ProviderTask = ProviderTask(status: string, files: Option<seq<string>>)
  datatype Task = Task(ability: string, providerTasks: seq<ProviderTask>)
  datatype Workflow = Workflow(language: Option<Lang>, srcLang: Option<Lang>, tgtLang: Option<Lang>, tasks: seq<Task>)
  datatype Combination = Combination(srcLangs: seq<Lang>, tgtLangs: seq<Lang>, documents: seq<Document>)

  const DELIVERY := "Validation and Delivery"
  const COMPLETED := "completed"

  // ----- Final documents -----

  predicate IsFinal(d: Document) {
    d.isFinal == Some(true)
  }

  function Finals(ds: seq<Document>): (r: seq<Document>)
    ensures forall k :: 0 <= k < |r| ==> IsFinal(r[k])
  {
    if ds == [] then [] else (if IsFinal(ds[0]) then [ds[0]] else []) + Finals(ds[1..])
  }

  function NonFinals(ds: seq<Document>): (r: seq<Document>)
    ensures forall k :: 0 <= k < |r| ==> !IsFinal(r[k])
  {
    if ds == [] then [] else (if IsFinal(ds[0]) then [] else [ds[0]]) + NonFinals(ds[1..])
  }

  lemma FilterStep(ds: seq<Document>)
    requires ds != []
    ensures IsFinal(ds[0]) ==> Finals(ds) == [ds[0]] + Finals(ds[1..]) && NonFinals(ds) == NonFinals(ds[1..])
    ensures !IsFinal(ds[0]) ==> NonFinals(ds) == [ds[0]] + NonFinals(ds[1..]) && Finals(ds) == Finals(ds[1..])
    ensures ds == [ds[0]] + ds[1..]
  {
    assert ds == [ds[0]] + ds[1..];
    if IsFinal(ds[0]) {
      assert [] + NonFinals(ds[1..]) == NonFinals(ds[1..]);
    } else {
      assert [] + Finals(ds[1..]) == Finals(ds[1..]);
    }
  }

  /** The two filters split the documents: nothing is lost and nothing doubled. */
  lemma {:induction false} FiltersPartition(ds: seq<Document>)
    ensures multiset(Finals(ds)) + multiset(NonFinals(ds)) == multiset(ds)
  {
    if ds != [] {
      FiltersPartition(ds[1..]);
      FilterStep(ds);
    }
  }

  lemma {:induction false} NonFinalsKeepsAll(ds: seq<Document>)
    ensures |NonFinals(ds)| <= |ds|
    ensures NonFinals(ds) == ds <==> forall k :: 0 <= k < |ds| ==> !IsFinal(ds[k])
  {
    if ds != [] {
      NonFinalsKeepsAll(ds[1..]);
      if IsFinal(ds[0]) {
        assert |NonFinals(ds)| < |ds|;
      } else {
        assert NonFinals(ds)[1..] == NonFinals(ds[1..]);
      }
    }
  }

  /** Both filters keep the order. */
  lemma {:induction false} FiltersKeepOrder(ds1: seq<Document>, ds2: seq<Document>)
    ensures Finals(ds1 + ds2) == Finals(ds1) + Finals(ds2)
    ensures NonFinals(ds1 + ds2) == NonFinals(ds1) + NonFinals(ds2)
  {
    if ds1 == [] {
      assert ds1 + ds2 == ds2;
    } else {
      hide Finals, NonFinals;
      assert (ds1 + ds2)[1..] == ds1[1..] + ds2 && (ds1 + ds2)[0] == ds1[0];
      FiltersKeepOrder(ds1[1..], ds2);
      FilterStep(ds1);
      FilterStep(ds1 + ds2);
    }
  }

  // ----- Tagging -----

  /** The provider task is a completed delivery that holds the file. */
  predicate Delivers(t: Task, pt: ProviderTask, id: string) {
    t.ability == DELIVERY && pt.status == COMPLETED && id in pt.files.GetOr([])
  }

  predicate SomeDelivers(t: Task, pts: seq<ProviderTask>, id: string) {
    exists pt :: pt in pts && Delivers(t, pt, id)
  }

  predicate TaskDelivers(t: Task, id: string) {
    SomeDelivers(t, t.providerTasks, id)
  }

  predicate WorkflowDelivers(w: Workflow, id: string) {
    exists t :: t in w.tasks && TaskDelivers(t, id)
  }

  function Tag(d: Document, w: Workflow): Document {
    d.(srcLang := w.srcLang, tgtLang := w.tgtLang)
  }

  function TagIf(d: Document, w: Workflow, condition: bool): Document {
    if condition then Tag(d, w) else d
  }

  /** The document with the languages of the last workflow that delivers it, if any does. */
  function Tagged(d: Document, ws: seq<Workflow>): (r: Document)
    ensures r.id == d.id && r.isFinal == d.isFinal && r.rest == d.rest
  {
    if ws == [] then d
    else
      var last := ws[|ws| - 1];
      if WorkflowDelivers(last, d.id) then Tag(d, last) else Tagged(d, ws[..|ws| - 1])
  }

  /** Workflow i is the last one that delivers the document. */
  ghost predicate IsLastDeliverer(ws: seq<Workflow>, id: string, i: nat) {
    i < |ws| && WorkflowDelivers(ws[i], id) && forall j :: i < j < |ws| ==> !WorkflowDelivers(ws[j], id)
  }

  lemma {:induction false} TaggedByNobody(d: Document, ws: seq<Workflow>)
    requires forall i :: 0 <= i < |ws| ==> !WorkflowDelivers(ws[i], d.id)
    ensures Tagged(d, ws) == d
  {
    hide WorkflowDelivers;
    if ws != [] { TaggedByNobody(d, ws[..|ws| - 1]); }
  }

  /** The tag is that of the last deliverer. */
  lemma {:induction false} TaggedByLastDeliverer(d: Document, ws: seq<Workflow>, i: nat)
    requires IsLastDeliverer(ws, d.id, i)
    ensures Tagged(d, ws) == Tag(d, ws[i])
  {
    hide WorkflowDelivers;
    var front := ws[..|ws| - 1];
    if i < |front| {
      assert !WorkflowDelivers(ws[|ws| - 1], d.id);
      assert IsLastDeliverer(front, d.id, i);
      TaggedByLastDeliverer(d, front, i);
    }
  }

  method TagFiles(ds: seq<Document>, files: seq<string>, w: Workflow) returns (r: seq<Document>)
    ensures |r| == |ds| && forall k :: 0 <= k < |ds| ==> r[k] == TagIf(ds[k], w, ds[k].id in files)
  {
    r := ds;
    for f := 0 to |files|
      invariant |r| == |ds| && forall k :: 0 <= k < |ds| ==> r[k] == TagIf(ds[k], w, ds[k].id in files[..f])
    {
      assert files[..f + 1] == files[..f] + [files[f]];
      r := seq(|r|, k requires 0 <= k < |r| => TagIf(r[k], w, r[k].id == files[f]));
    }
    assert files[..|files|] == files;
  }

  method TagProviderTasks(ds: seq<Document>, t: Task, w: Workflow) returns (r: seq<Document>)
    ensures |r| == |ds| && forall k :: 0 <= k < |ds| ==> r[k] == TagIf(ds[k], w, TaskDelivers(t, ds[k].id))
  {
    r := ds;
    for p := 0 to |t.providerTasks|
      invariant |r| == |ds|
      invariant forall k :: 0 <= k < |ds| ==>
                  r[k] == TagIf(ds[k], w, SomeDelivers(t, t.providerTasks[..p], ds[k].id))
    {
      var pt := t.providerTasks[p];
      assert t.providerTasks[..p + 1] == t.providerTasks[..p] + [pt];
      forall id ensures SomeDelivers(t, t.providerTasks[..p + 1], id) <==>
                        SomeDelivers(t, t.providerTasks[..p], id) || Delivers(t, pt, id) {
      }
      if t.ability == DELIVERY && pt.status == COMPLETED {
        if pt.files.GetOr([]) != [] {
          r := TagFiles(r, pt.files.value, w);
        }
      }
    }
    assert t.providerTasks[..|t.providerTasks|] == t.providerTasks;
  }

  method TagTasks(ds: seq<Document>, w: Workflow) returns (r: seq<Document>)
    ensures |r| == |ds| && forall k :: 0 <= k < |ds| ==> r[k] == TagIf(ds[k], w, WorkflowDelivers(w, ds[k].id))
  {
    r := ds;
    for t := 0 to |w.tasks|
      invariant |r| == |ds|
      invariant forall k :: 0 <= k < |ds| ==>
                  r[k] == TagIf(ds[k], w, exists u :: u in w.tasks[..t] && TaskDelivers(u, ds[k].id))
    {
      assert w.tasks[..t + 1] == w.tasks[..t] + [w.tasks[t]];
      r := TagProviderTasks(r, w.tasks[t], w);
    }
    assert w.tasks[..|w.tasks|] == w.tasks;
  }

  /** The nested loops over workflows, tasks, provider tasks and files. */
  method TagFinalDocuments(ds: seq<Document>, ws: seq<Workflow>) returns (finalDocuments: seq<Document>)
    ensures |finalDocuments| == |ds| && forall k :: 0 <= k < |ds| ==> finalDocuments[k] == Tagged(ds[k], ws)
  {
    finalDocuments := ds;
    for w := 0 to |ws|
      invariant |finalDocuments| == |ds|
      invariant forall k :: 0 <= k < |ds| ==> finalDocuments[k] == Tagged(ds[k], ws[..w])
    {
      assert ws[..w + 1][..w] == ws[..w] && ws[..w + 1][w] == ws[w];
      finalDocuments := TagTasks(finalDocuments, ws[w]);
    }
    assert ws[..|ws|] == ws;
  }

  // ----- The request -----

  datatype RequestData = RequestData(
    srcLang: Option<Lang>, tgtLangs: Option<seq<Lang>>, documents: Option<seq<Document>>, workflows: seq<Workflow>,
    languageCombinations: Option<seq<Combination>>, languageCombinationsText: Option<string>,
    finalDocuments: Option<seq<Document>>)

  /** The requests that the first migration restructures. */
  predicate Splits(s: RequestData) {
    && s.languageCombinations.None?
    && s.srcLang.Some? && s.srcLang.value.name != "" && s.tgtLangs.GetOr([]) != []
  }

  /** A workflow without a language of its own gets name and code of the first target language. */
  function WithLanguages(w: Workflow, srcLang: Lang, tgtLangs: seq<Lang>): Workflow
    requires tgtLangs != []
  {
    w.(srcLang := Some(srcLang), language := None,
       tgtLang := if w.language.None? then Some(Lang(None, tgtLangs[0].name, tgtLangs[0].isoCode)) else w.language)
  }

  function AllWithLanguages(ws: seq<Workflow>, srcLang: Lang, tgtLangs: seq<Lang>): (r: seq<Workflow>)
    requires tgtLangs != []
    ensures |r| == |ws| && forall k :: 0 <= k < |ws| ==> r[k] == WithLanguages(ws[k], srcLang, tgtLangs)
  {
    seq(|ws|, k requires 0 <= k < |ws| => WithLanguages(ws[k], srcLang, tgtLangs))
  }

  function TaggedAll(ds: seq<Document>, ws: seq<Workflow>): (r: seq<Document>)
    ensures |r| == |ds| && forall k :: 0 <= k < |ds| ==> r[k] == Tagged(ds[k], ws)
  {
    seq(|ds|, k requires 0 <= k < |ds| => Tagged(ds[k], ws))
  }

  function JoinNames(langs: seq<Lang>): string {
    if langs == [] then ""
    else if |langs| == 1 then langs[0].name
    else langs[0].name + ", " + JoinNames(langs[1..])
  }

  /** The first migration. */
  function Split(s: RequestData): RequestData
    requires Splits(s) ==> s.documents.Some?
  {
    if !Splits(s) then s
    else
      var src, tgts := s.srcLang.value, s.tgtLangs.value;
      var ws := AllWithLanguages(s.workflows, src, tgts);
      RequestData(None, None, None, ws,
                  Some([Combination([src], tgts, s.documents.value)]),
                  Some(src.name + " - " + JoinNames(tgts)),
                  Some(TaggedAll(Finals(s.documents.value), ws)))
  }

  function WithoutFinals(c: Combination): Combination {
    c.(documents := NonFinals(c.documents))
  }

  function AllWithoutFinals(cs: seq<Combination>): (r: seq<Combination>)
    ensures |r| == |cs| && forall k :: 0 <= k < |cs| ==> r[k] == WithoutFinals(cs[k])
  {
    seq(|cs|, k requires 0 <= k < |cs| => WithoutFinals(cs[k]))
  }

  /** The second migration. */
  function Pull(s: RequestData): RequestData {
    if s.languageCombinations.None? then s
    else s.(languageCombinations := Some(AllWithoutFinals(s.languageCombinations.value)))
  }

  class Request {
    var srcLang: Option<Lang>
    var tgtLangs: Option<seq<Lang>>
    var documents: Option<seq<Document>>
    var workflows: seq<Workflow>
    var languageCombinations: Option<seq<Combination>>
    var languageCombinationsText: Option<string>
    var finalDocuments: Option<seq<Document>>

    constructor (s: RequestData)
      ensures Data() == s
    {
      srcLang, tgtLangs, documents, workflows := s.srcLang, s.tgtLangs, s.documents, s.workflows;
      languageCombinations, languageCombinationsText := s.languageCombinations, s.languageCombinationsText;
      finalDocuments := s.finalDocuments;
    }

    ghost function Data(): RequestData
      reads this
    {
      RequestData(srcLang, tgtLangs, documents, workflows, languageCombinations, languageCombinationsText,
                  finalDocuments)
    }

    /** Moves the language of every workflow into its target language. */
    method MapWorkflows(src: Lang, tgts: seq<Lang>)
      requires tgts != []
      modifies this`workflows
      ensures workflows == AllWithLanguages(old(workflows), src, tgts)
    {
      for k := 0 to |workflows|
        invariant |workflows| == |old(workflows)|
        invariant forall j :: 0 <= j < k ==> workflows[j] == WithLanguages(old(workflows)[j], src, tgts)
        invariant forall j :: k <= j < |workflows| ==> workflows[j] == old(workflows)[j]
      {
        var w := workflows[k].(srcLang := Some(src));
        if w.language.None? {
          w := w.(tgtLang := Some(Lang(None, tgts[0].name, tgts[0].isoCode)));
        } else {
          w := w.(tgtLang := w.language);
        }
        workflows := workflows[k := w.(language := None)];
      }
    }

    /** The first migration on a request; the source throws where a request to be split has no documents. */
    method SplitDocuments()
      requires Splits(Data()) ==> documents.Some?
      modifies this
      ensures Data() == Split(old(Data()))
    {
      if languageCombinations.None? && srcLang.Some? && srcLang.value.name != "" && tgtLangs.GetOr([]) != [] {
        var src, tgts, ds := srcLang.value, tgtLangs.value, documents.value;
        languageCombinationsText := Some(src.name + " - " + JoinNames(tgts));
        languageCombinations := Some([Combination([src], tgts, ds)]);
        srcLang := None;
        MapWorkflows(src, tgts);
        var finals := Finals(ds);
        finals := TagFinalDocuments(finals, workflows);
        finalDocuments := Some(finals);
        documents, tgtLangs := None, None;
        assert finals == TaggedAll(Finals(ds), workflows);
      }
    }

    /** The second migration on a request. */
    method PullFinalDocuments()
      modifies this`languageCombinations
      ensures Data() == Pull(old(Data()))
    {
      if languageCombinations.Some? {
        languageCombinations := Some(AllWithoutFinals(languageCombinations.value));
      }
    }

    method Migrate()
      requires Splits(Data()) ==> documents.Some?
      modifies this
      ensures Data() == Pull(Split(old(Data())))
    {
      SplitDocuments();
      PullFinalDocuments();
    }
  }

  // ----- Conservation -----

  function DocumentIds(ds: seq<Document>): (r: seq<string>)
    ensures |r| == |ds|
    ensures forall k :: 0 <= k < |ds| ==> r[k] == ds[k].id
  {
    if ds == [] then [] else [ds[0].id] + DocumentIds(ds[1..])
  }

  lemma IdsCons(d: Document, rest: seq<Document>)
    ensures multiset(DocumentIds([d] + rest)) == multiset{d.id} + multiset(DocumentIds(rest))
  {
  }

  lemma {:induction false} IdsPartition(ds: seq<Document>)
    ensures multiset(DocumentIds(Finals(ds))) + multiset(DocumentIds(NonFinals(ds))) == multiset(DocumentIds(ds))
  {
    if ds != [] {
      hide Finals, NonFinals, IsFinal, DocumentIds;
      var d, rest := ds[0], ds[1..];
      IdsPartition(rest);
      FilterStep(ds);
      IdsCons(d, rest);
      IdsCons(d, Finals(rest));
      IdsCons(d, NonFinals(rest));
    }
  }

  /** After both migrations the combination and the final documents partition the original documents: the
      former keeps those that are not final, the latter the final ones. */
  lemma SplitConservesDocuments(s: RequestData)
    requires Splits(s) && s.documents.Some?
    ensures var r := Pull(Split(s));
            && r.documents.None? && r.languageCombinations.Some? && |r.languageCombinations.value| == 1
            && r.finalDocuments.Some?
            && var kept, ds := r.languageCombinations.value[0].documents, s.documents.value;
               var finals := r.finalDocuments.value;
            && multiset(kept) + multiset(Finals(ds)) == multiset(ds)
            && multiset(DocumentIds(kept)) + multiset(DocumentIds(finals)) == multiset(DocumentIds(ds))
            && (forall d <- kept :: d.isFinal != Some(true)) && (forall d <- finals :: d.isFinal == Some(true))
  {
    hide Finals, NonFinals, DocumentIds, Tagged;
    var ds := s.documents.value;
    var finals := Pull(Split(s)).finalDocuments.value;
    FiltersPartition(ds);
    IdsPartition(ds);
    assert DocumentIds(finals) == DocumentIds(Finals(ds));
  }

  /** Each final document is unchanged but for its languages: the source language of the request and the
      target language of the last workflow that delivers it; without such a workflow nothing changes. */
  lemma FinalDocumentsTaggedByLastDeliverer(s: RequestData, k: nat)
    requires Splits(s) && s.documents.Some? && k < |Finals(s.documents.value)|
    ensures var r, d := Split(s), Finals(s.documents.value)[k];
            && Pull(r).finalDocuments == r.finalDocuments && |r.finalDocuments.value| == |Finals(s.documents.value)|
            && (forall i: nat :: IsLastDeliverer(r.workflows, d.id, i) ==>
                  r.finalDocuments.value[k] == d.(srcLang := s.srcLang, tgtLang := r.workflows[i].tgtLang))
            && ((forall i :: 0 <= i < |r.workflows| ==> !WorkflowDelivers(r.workflows[i], d.id)) ==>
                  r.finalDocuments.value[k] == d)
  {
    hide WorkflowDelivers, Finals;
    var d, ws := Finals(s.documents.value)[k], Split(s).workflows;
    forall i: nat | IsLastDeliverer(ws, d.id, i) ensures Tagged(d, ws) == Tag(d, ws[i]) {
      TaggedByLastDeliverer(d, ws, i);
    }
    if forall i :: 0 <= i < |ws| ==> !WorkflowDelivers(ws[i], d.id) { TaggedByNobody(d, ws); }
  }

  /** A request that already had combinations is not split, but the second migration still strips its
      final documents: it keeps all its documents exactly when no combination holds a final one. */
  lemma EarlierCombinationsKeepDocumentsExactly(s: RequestData)
    requires s.languageCombinations.Some?
    ensures Pull(Split(s)) == s <==>
            forall c <- s.languageCombinations.value :: forall d <- c.documents :: d.isFinal != Some(true)
  {
    var cs := s.languageCombinations.value;
    var rs := AllWithoutFinals(cs);
    forall k | 0 <= k < |cs| ensures rs[k] == cs[k] <==> forall d <- cs[k].documents :: !IsFinal(d) {
      NonFinalsKeepsAll(cs[k].documents);
    }
    assert Pull(Split(s)) == s <==> rs == cs;
    if rs == cs {
      forall c | c in cs ensures forall d <- c.documents :: !IsFinal(d) {
        var k :| 0 <= k < |cs| && cs[k] == c;
        assert rs[k] == cs[k];
      }
    }
  }

  // ----- The two migrations, field by field -----

  /** A completed provider task of a delivery task of the workflow holds the file. */
  ghost predicate DeliveredBy(w: Workflow, id: string, t: nat, p: nat) {
    && t < |w.tasks| && w.tasks[t].ability == "Validation and Delivery"
    && p < |w.tasks[t].providerTasks| && w.tasks[t].providerTasks[p].status == "completed"
    && w.tasks[t].providerTasks[p].files.Some? && id in w.tasks[t].providerTasks[p].files.value
  }

  lemma DeliversExactly(w: Workflow, id: string)
    ensures WorkflowDelivers(w, id) <==> exists t: nat, p: nat :: DeliveredBy(w, id, t, p)
  {
    if WorkflowDelivers(w, id) {
      var task :| task in w.tasks && TaskDelivers(task, id);
      var pt :| pt in task.providerTasks && Delivers(task, pt, id);
      var t: nat :| t < |w.tasks| && w.tasks[t] == task;
      var p: nat :| p < |task.providerTasks| && task.providerTasks[p] == pt;
      assert DeliveredBy(w, id, t, p);
    }
    if t: nat, p: nat :| DeliveredBy(w, id, t, p) {
      assert Delivers(w.tasks[t], w.tasks[t].providerTasks[p], id);
      assert w.tasks[t].providerTasks[p] in w.tasks[t].providerTasks && TaskDelivers(w.tasks[t], id);
    }
  }

  /** Every workflow keeps its tasks, gets the request's source language and loses its own language, which becomes
      its target language; one without a language gets name and code of the first target language. */
  lemma WorkflowsAfterSplit(s: RequestData, k: nat)
    requires Splits(s) && s.documents.Some? && k < |s.workflows|
    ensures var r, w := Split(s).workflows, s.workflows[k];
            && |r| == |s.workflows|
            && r[k].language == None && r[k].srcLang == s.srcLang && r[k].tasks == w.tasks
            && (w.language.Some? ==> r[k].tgtLang == w.language)
            && (w.language.None? ==>
                  && r[k].tgtLang.Some? && r[k].tgtLang.value.id == None
                  && r[k].tgtLang.value.name == s.tgtLangs.value[0].name
                  && r[k].tgtLang.value.isoCode == s.tgtLangs.value[0].isoCode)
  {
  }

  /** Workflow i is the last one of the original request that delivers the document. */
  ghost predicate LastDeliveredBy(ws: seq<Workflow>, id: string, i: nat) {
    && i < |ws| && (exists t: nat, p: nat :: DeliveredBy(ws[i], id, t, p))
    && forall j: nat, t: nat, p: nat :: i < j < |ws| ==> !DeliveredBy(ws[j], id, t, p)
  }

  lemma SameDeliveries(w1: Workflow, w2: Workflow, id: string)
    requires w1.tasks == w2.tasks
    ensures forall t: nat, p: nat :: DeliveredBy(w1, id, t, p) <==> DeliveredBy(w2, id, t, p)
  {
  }

  lemma LastDelivererAfterSplit(s: RequestData, id: string, i: nat)
    requires Splits(s) && s.documents.Some? && LastDeliveredBy(s.workflows, id, i)
    ensures IsLastDeliverer(Split(s).workflows, id, i)
  {
    hide WorkflowDelivers;
    var ws := Split(s).workflows;
    forall j: nat | j < |ws|
      ensures WorkflowDelivers(ws[j], id) <==> exists t: nat, p: nat :: DeliveredBy(s.workflows[j], id, t, p)
    {
      DeliversExactly(ws[j], id);
      SameDeliveries(ws[j], s.workflows[j], id);
    }
  }

  lemma SameTasks(s: RequestData, i: nat)
    requires Splits(s) && s.documents.Some? && i < |s.workflows|
    ensures Split(s).workflows[i].tasks == s.workflows[i].tasks
    ensures forall id: string, t: nat, p: nat ::
              DeliveredBy(Split(s).workflows[i], id, t, p) <==> DeliveredBy(s.workflows[i], id, t, p)
  {
  }

  /** Over the original request alone: the k-th final document gets the request's source language, and as target
      language the language of the last workflow that delivers it, or name and code of the first target language if
      that workflow has none; nothing else of it changes, and without such a workflow nothing does. */
  lemma TagByOriginalWorkflows(s: RequestData, k: nat)
    requires Splits(s) && s.documents.Some? && k < |Finals(s.documents.value)|
    ensures var r, d, ws := Pull(Split(s)).finalDocuments, Finals(s.documents.value)[k], s.workflows;
            && r.Some? && |r.value| == |Finals(s.documents.value)|
            && (forall i: nat :: LastDeliveredBy(ws, d.id, i) ==>
                  var first := s.tgtLangs.value[0];
                  r.value[k] == d.(srcLang := s.srcLang,
                                   tgtLang := if ws[i].language.Some? then ws[i].language
                                              else Some(Lang(None, first.name, first.isoCode))))
            && ((forall i: nat, t: nat, p: nat :: i < |ws| ==> !DeliveredBy(ws[i], d.id, t, p)) ==> r.value[k] == d)
  {
    hide Finals, WorkflowDelivers, DeliveredBy;
    var d, ws := Finals(s.documents.value)[k], s.workflows;
    FinalDocumentsTaggedByLastDeliverer(s, k);
    forall i: nat | LastDeliveredBy(ws, d.id, i)
      ensures IsLastDeliverer(Split(s).workflows, d.id, i)
    {
      LastDelivererAfterSplit(s, d.id, i);
      WorkflowsAfterSplit(s, i);
    }
    if forall i: nat, t: nat, p: nat :: i < |ws| ==> !DeliveredBy(ws[i], d.id, t, p) {
      forall i: nat | i < |ws| ensures !WorkflowDelivers(Split(s).workflows[i], d.id) {
        DeliversExactly(Split(s).workflows[i], d.id);
        SameTasks(s, i);
      }
    }
  }

  function LangNames(langs: seq<Lang>): (r: seq<string>)
    ensures |r| == |langs| && forall k :: 0 <= k < |langs| ==> r[k] == langs[k].name
  {
    if langs == [] then [] else [langs[0].name] + LangNames(langs[1..])
  }

  lemma {:induction false} JoinedNames(langs: seq<Lang>)
    ensures JoinNames(langs) == Paths.Join(LangNames(langs), ", ")
  {
    if langs != [] {
      JoinedNames(langs[1..]);
      assert LangNames(langs)[1..] == LangNames(langs[1..]);
    }
  }

  /** Which requests the first migration restructures, and into what: a request without combinations, with a named
      source language and a target language; all others stay as they are. */
  lemma SplitSpelledOut(s: RequestData)
    requires Splits(s) ==> s.documents.Some?
    ensures var r := Split(s);
            if s.languageCombinations.None? && s.srcLang.Some? && s.srcLang.value.name != ""
               && s.tgtLangs.Some? && s.tgtLangs.value != [] then
              && s.documents.Some? && r.srcLang == None && r.tgtLangs == None && r.documents == None
              && r.languageCombinations ==
                 Some([Combination([s.srcLang.value], s.tgtLangs.value, s.documents.value)])
              && r.languageCombinationsText ==
                 Some(s.srcLang.value.name + " - " + Paths.Join(LangNames(s.tgtLangs.value), ", "))
            else r == s
  {
    if Splits(s) { JoinedNames(s.tgtLangs.value); }
  }

  lemma {:induction false} NonFinalsCount(ds: seq<Document>, d: Document)
    ensures multiset(NonFinals(ds))[d] == if d.isFinal == Some(true) then 0 else multiset(ds)[d]
  {
    if ds != [] {
      hide NonFinals;
      NonFinalsCount(ds[1..], d);
      FilterStep(ds);
    }
  }

  /** The second migration takes the final documents, and nothing else, out of every combination. */
  lemma PullSpelledOut(s: RequestData)
    ensures Pull(s) == s.(languageCombinations := Pull(s).languageCombinations)
    ensures s.languageCombinations.None? ==> Pull(s).languageCombinations.None?
    ensures s.languageCombinations.Some? ==>
              var cs, rs := s.languageCombinations.value, Pull(s).languageCombinations.GetOr([]);
              && Pull(s).languageCombinations.Some? && |rs| == |cs|
              && forall k :: 0 <= k < |cs| ==>
                   && rs[k].srcLangs == cs[k].srcLangs && rs[k].tgtLangs == cs[k].tgtLangs
                   && forall d :: multiset(rs[k].documents)[d] ==
                                  if d.isFinal == Some(true) then 0 else multiset(cs[k].documents)[d]
  {
    if s.languageCombinations.Some? {
      var cs := s.languageCombinations.value;
      forall k, d | 0 <= k < |cs|
        ensures multiset(WithoutFinals(cs[k]).documents)[d] ==
                if d.isFinal == Some(true) then 0 else multiset(cs[k].documents)[d]
      {
        NonFinalsCount(cs[k].documents, d);
      }
    }
  }
}
