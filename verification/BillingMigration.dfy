/** processRequest of the billing migrations: every quantity of every provider task is written, in the
    completion order of its callback, to the provider task's billDetails and to the invoiceDetails that
    all provider tasks of a task share. */
module BillingMigration {
  import opened Basics
  import opened SlotFilling

  datatype Quantity = Quantity(amount: int, units: string)

  /** A document of the translationUnits or breakdowns collection. */
  datatype UnitDoc = UnitDoc(id: string, name: Option<string>, lspId: string)

  /** The picked fields _id and name of such a document. */
  datatype UnitRef = UnitRef(id: string, name: Option<string>)

  datatype UnitNames = UnitNames(breakdown: Option<string>, translationUnit: Option<string>)

  /** What a run reads: its unit mapping table, the two lookup collections and the tenant. */
  datatype Env = Env(mapping: map<string, UnitNames>, translationUnits: seq<UnitDoc>, breakdowns: seq<UnitDoc>,
                     lspId: string)

  datatype Price = Price(breakdown: Option<UnitRef>, translationUnit: Option<UnitRef>, unitPrice: int, quantity: int)
  datatype Invoice = Invoice(invoice: Price, projectedCost: Price)

  /** findOne by name and tenant; a nil name selects documents without a name. */
  function FindOne(docs: seq<UnitDoc>, name: Option<string>, lspId: string): Option<UnitRef> {
    if docs == [] then None
    else if docs[0].name == name && docs[0].lspId == lspId then Some(UnitRef(docs[0].id, docs[0].name))
    else FindOne(docs[1..], name, lspId)
  }

  function InvoiceFor(q: Quantity, env: Env): Invoice {
    var names := if q.units in env.mapping then env.mapping[q.units] else UnitNames(None, None);
    Invoice(
      Price(FindOne(env.breakdowns, names.breakdown, env.lspId),
            FindOne(env.translationUnits, names.translationUnit, env.lspId), 0, 0),
      Price(None, None, 0, 0))
  }

  /** `found` is the _id and name of the first document of the name and tenant, or nothing if there is none. */
  ghost predicate IsFirstOf(found: Option<UnitRef>, docs: seq<UnitDoc>, name: Option<string>, lspId: string) {
    && (found.None? <==> forall k :: 0 <= k < |docs| ==> !(docs[k].name == name && docs[k].lspId == lspId))
    && forall k :: 0 <= k < |docs| && docs[k].name == name && docs[k].lspId == lspId &&
         (forall j :: 0 <= j < k ==> !(docs[j].name == name && docs[j].lspId == lspId))
         ==> found == Some(UnitRef(docs[k].id, docs[k].name))
  }

  /** What an invoice entry for a quantity is: the breakdown and the translation unit that the mapping names for
      its units, both nameless for units that are not in the mapping; no prices, and an empty projected cost. */
  ghost predicate IsEntry(entry: Invoice, q: Quantity, env: Env) {
    && (q.units in env.mapping ==>
          && IsFirstOf(entry.invoice.breakdown, env.breakdowns, env.mapping[q.units].breakdown, env.lspId)
          && IsFirstOf(entry.invoice.translationUnit, env.translationUnits, env.mapping[q.units].translationUnit,
                       env.lspId))
    && (q.units !in env.mapping ==>
          && IsFirstOf(entry.invoice.breakdown, env.breakdowns, None, env.lspId)
          && IsFirstOf(entry.invoice.translationUnit, env.translationUnits, None, env.lspId))
    && entry.invoice.unitPrice == 0 && entry.invoice.quantity == 0
    && entry.projectedCost.breakdown == None && entry.projectedCost.translationUnit == None
    && entry.projectedCost.unitPrice == 0 && entry.projectedCost.quantity == 0
  }

  lemma {:induction false} FindOneIsFirst(docs: seq<UnitDoc>, name: Option<string>, lspId: string)
    ensures IsFirstOf(FindOne(docs, name, lspId), docs, name, lspId)
  {
    if docs != [] {
      var rest := docs[1..];
      FindOneIsFirst(rest, name, lspId);
      assert forall k :: 1 <= k < |docs| ==> docs[k] == rest[k - 1];
      if !(docs[0].name == name && docs[0].lspId == lspId) {
        forall k | 0 <= k < |docs| && docs[k].name == name && docs[k].lspId == lspId &&
            (forall j :: 0 <= j < k ==> !(docs[j].name == name && docs[j].lspId == lspId))
          ensures FindOne(rest, name, lspId) == Some(UnitRef(docs[k].id, docs[k].name))
        {
          assert forall j :: 0 <= j < k - 1 ==> rest[j] == docs[j + 1];
        }
      }
    }
  }

  lemma {:induction false} LeastMatch(docs: seq<UnitDoc>, name: Option<string>, lspId: string, k: nat)
    returns (first: nat)
    requires k < |docs| && docs[k].name == name && docs[k].lspId == lspId
    ensures first < |docs| && docs[first].name == name && docs[first].lspId == lspId
    ensures forall j :: 0 <= j < first ==> !(docs[j].name == name && docs[j].lspId == lspId)
    decreases k
  {
    first := k;
    if j: nat :| j < k && docs[j].name == name && docs[j].lspId == lspId {
      first := LeastMatch(docs, name, lspId, j);
    }
  }

  lemma FirstIsUnique(found1: Option<UnitRef>, found2: Option<UnitRef>, docs: seq<UnitDoc>, name: Option<string>,
                      lspId: string)
    requires IsFirstOf(found1, docs, name, lspId) && IsFirstOf(found2, docs, name, lspId)
    ensures found1 == found2
  {
    if found1.Some? {
      var k: nat :| k < |docs| && docs[k].name == name && docs[k].lspId == lspId;
      var first := LeastMatch(docs, name, lspId, k);
    }
  }

  /** The entry of a quantity is that, and nothing else is. */
  lemma InvoiceEntry(q: Quantity, env: Env, entry: Invoice)
    ensures IsEntry(InvoiceFor(q, env), q, env)
    ensures IsEntry(entry, q, env) ==> entry == InvoiceFor(q, env)
  {
    hide IsFirstOf, FindOne;
    var names := if q.units in env.mapping then env.mapping[q.units] else UnitNames(None, None);
    var inv := InvoiceFor(q, env);
    FindOneIsFirst(env.breakdowns, names.breakdown, env.lspId);
    FindOneIsFirst(env.translationUnits, names.translationUnit, env.lspId);
    if IsEntry(entry, q, env) {
      FirstIsUnique(entry.invoice.breakdown, inv.invoice.breakdown, env.breakdowns, names.breakdown, env.lspId);
      FirstIsUnique(entry.invoice.translationUnit, inv.invoice.translationUnit, env.translationUnits,
                    names.translationUnit, env.lspId);
    }
  }

  /** The slot of index i, if there is one, or the new slot at the end. */
  function WrittenSlot<P>(slots: Slots<P>, i: nat): nat {
    if i < |slots| && slots[i].Some? then i else |slots|
  }

  // ----- The specification: one task, its provider tasks, and a completion order -----

  /** The callback of quantity `index` of provider task `provider` has finished. */
  datatype Event = Event(provider: nat, index: nat)

  /** The fields of a task that matter, and those of its provider tasks. */
  datatype TaskState = TaskState(bills: seq<Option<Slots<int>>>, invoices: Option<Slots<Invoice>>)

  type Lists = seq<seq<Quantity>>

  ghost predicate InLists(e: Event, lists: Lists) {
    e.provider < |lists| && e.index < |lists[e.provider]|
  }

  /** A nil array is created before the first write. */
  function FillField<P>(field: Option<Slots<P>>, w: Write<P>): Option<Slots<P>> {
    Some(Fill(field.GetOr([]), w))
  }

  function Step(s: TaskState, e: Event, lists: Lists, env: Env): (r: TaskState)
    requires InLists(e, lists) && |s.bills| == |lists|
    ensures |r.bills| == |lists|
  {
    var q := lists[e.provider][e.index];
    TaskState(s.bills[e.provider := FillField(s.bills[e.provider], Write(e.index, q.amount))],
              FillField(s.invoices, Write(e.index, InvoiceFor(q, env))))
  }

  ghost predicate AllInLists(es: seq<Event>, lists: Lists) {
    forall k :: 0 <= k < |es| ==> InLists(es[k], lists)
  }

  function RunTask(s: TaskState, es: seq<Event>, lists: Lists, env: Env): (r: TaskState)
    requires AllInLists(es, lists) && |s.bills| == |lists|
    ensures |r.bills| == |lists|
    decreases es
  {
    if es == [] then s else RunTask(Step(s, es[0], lists, env), es[1..], lists, env)
  }

  lemma RunTaskSnoc(s: TaskState, es: seq<Event>, e: Event, lists: Lists, env: Env)
    requires AllInLists(es, lists) && InLists(e, lists) && |s.bills| == |lists|
    ensures AllInLists(es + [e], lists)
    ensures RunTask(s, es + [e], lists, env) == Step(RunTask(s, es, lists, env), e, lists, env)
    decreases es
  {
    if es == [] {
      assert (es + [e])[1..] == [];
    } else {
      assert (es + [e])[1..] == es[1..] + [e];
      RunTaskSnoc(Step(s, es[0], lists, env), es[1..], e, lists, env);
    }
  }

  // ----- The objects that the migration updates in place -----

  class ProviderTask {
    const quantity: Option<seq<Quantity>>
    var billDetails: Option<Slots<int>>

    constructor (quantity: Option<seq<Quantity>>, billDetails: Option<Slots<int>>)
      ensures this.quantity == quantity && this.billDetails == billDetails
    {
      this.quantity := quantity;
      this.billDetails := billDetails;
    }
  }

  class Task {
    const providerTasks: seq<ProviderTask>
    var invoiceDetails: Option<Slots<Invoice>>

    constructor (providerTasks: seq<ProviderTask>, invoiceDetails: Option<Slots<Invoice>>)
      ensures this.providerTasks == providerTasks && this.invoiceDetails == invoiceDetails
    {
      this.providerTasks := providerTasks;
      this.invoiceDetails := invoiceDetails;
    }

    /** The provider tasks are distinct objects, as a decoded document's are. */
    ghost predicate Valid() {
      forall p, q :: 0 <= p < q < |providerTasks| ==> providerTasks[p] != providerTasks[q]
    }

    /** The quantity lists; a provider task without one starts no callback. */
    function Lists(): (r: Lists)
      ensures |r| == |providerTasks|
      ensures forall p :: 0 <= p < |r| ==> r[p] == providerTasks[p].quantity.GetOr([])
    {
      seq(|providerTasks|, p requires 0 <= p < |providerTasks| => providerTasks[p].quantity.GetOr([]))
    }

    ghost function State(): (s: TaskState)
      reads this, providerTasks
      ensures |s.bills| == |providerTasks|
    {
      TaskState(seq(|providerTasks|, p requires 0 <= p < |providerTasks| reads providerTasks =>
                      providerTasks[p].billDetails),
                invoiceDetails)
    }

    /** The part of a quantity callback that runs after its two database reads. */
    method FinishCallback(e: Event, env: Env)
      requires Valid() && InLists(e, Lists())
      modifies this`invoiceDetails, providerTasks
      ensures State() == Step(old(State()), e, Lists(), env)
      ensures var q, k := Lists()[e.provider][e.index], WrittenSlot(old(invoiceDetails).GetOr([]), e.index);
              && invoiceDetails.Some? && k < |invoiceDetails.value| && invoiceDetails.value[k].Some?
              && IsEntry(invoiceDetails.value[k].value.written, q, env)
      ensures var pt := providerTasks[e.provider];
              var q, k := Lists()[e.provider][e.index], WrittenSlot(old(pt.billDetails).GetOr([]), e.index);
              && pt.billDetails.Some? && k < |pt.billDetails.value| && pt.billDetails.value[k].Some?
              && pt.billDetails.value[k].value.written == q.amount
    {
      InvoiceEntry(Lists()[e.provider][e.index], env, InvoiceFor(Lists()[e.provider][e.index], env));
      hide IsEntry;
      var providerTask := providerTasks[e.provider];
      var quantity := providerTask.quantity.value[e.index];
      if providerTask.billDetails.None? {
        providerTask.billDetails := Some([]);
      }
      var bills := providerTask.billDetails.value;
      if e.index < |bills| && bills[e.index].Some? {
        bills := bills[e.index := Some(bills[e.index].value.(written := quantity.amount))];
      } else {
        bills := bills + [Some(Detail(quantity.amount, map[]))];
      }
      providerTask.billDetails := Some(bills);
      if invoiceDetails.None? {
        invoiceDetails := Some([]);
      }
      var invoices := invoiceDetails.value;
      var newInvoiceDetail := InvoiceFor(quantity, env);
      if e.index < |invoices| && invoices[e.index].Some? {
        invoices := invoices[e.index := Some(invoices[e.index].value.(written := newInvoiceDetail))];
      } else {
        invoices := invoices + [Some(Detail(newInvoiceDetail, map[]))];
      }
      invoiceDetails := Some(invoices);
    }
  }

  /** The callback of quantity `event.index` of a provider task of task `task` has finished. */
  datatype RequestEvent = RequestEvent(task: nat, event: Event)

  /** The events of task t, in completion order. */
  function Project(es: seq<RequestEvent>, t: nat): seq<Event> {
    if es == [] then []
    else if es[0].task == t then [es[0].event] + Project(es[1..], t)
    else Project(es[1..], t)
  }

  lemma ProjectAppend(a: seq<RequestEvent>, b: seq<RequestEvent>, t: nat)
    ensures Project(a + b, t) == Project(a, t) + Project(b, t)
  {
    if a == [] {
      assert a + b == b;
    } else {
      assert (a + b)[1..] == a[1..] + b;
      ProjectAppend(a[1..], b, t);
    }
  }

  lemma ProjectPrefix(es: seq<RequestEvent>, k: nat, t: nat)
    requires k < |es|
    ensures Project(es[..k + 1], t) ==
            if es[k].task == t then Project(es[..k], t) + [es[k].event] else Project(es[..k], t)
  {
    assert es[..k + 1] == es[..k] + [es[k]];
    ProjectAppend(es[..k], [es[k]], t);
  }

  class Request {
    /** The tasks of all workflows, in order. */
    const tasks: seq<Task>

    constructor (tasks: seq<Task>)
      ensures this.tasks == tasks
    {
      this.tasks := tasks;
    }

    /** A document is decoded into distinct objects. */
    ghost predicate Valid() {
      && (forall t :: 0 <= t < |tasks| ==> tasks[t].Valid())
      && (forall t, u :: 0 <= t < u < |tasks| ==> tasks[t] != tasks[u])
      && (forall t, u, p, q :: 0 <= t < u < |tasks| &&
            0 <= p < |tasks[t].providerTasks| && 0 <= q < |tasks[u].providerTasks|
            ==> tasks[t].providerTasks[p] != tasks[u].providerTasks[q])
    }

    ghost function Footprint(): set<object> {
      (set t | t in tasks) + (set t, p | t in tasks && p in t.providerTasks :: p)
    }

    ghost predicate AllInTasks(es: seq<RequestEvent>) {
      forall k :: 0 <= k < |es| ==> es[k].task < |tasks| && InLists(es[k].event, tasks[es[k].task].Lists())
    }

    /** Finishing a callback touches its own task only. */
    method Finish(e: RequestEvent, env: Env)
      requires Valid() && e.task < |tasks| && InLists(e.event, tasks[e.task].Lists())
      modifies Footprint()
      ensures tasks[e.task].State() == Step(old(tasks[e.task].State()), e.event, tasks[e.task].Lists(), env)
      ensures forall t :: 0 <= t < |tasks| && t != e.task ==> tasks[t].State() == old(tasks[t].State())
    {
      assert tasks[e.task] in tasks;
      assert forall p <- tasks[e.task].providerTasks :: p in Footprint();
      tasks[e.task].FinishCallback(e.event, env);
    }

    /** All callbacks of the request, run in the order in which they finish. Every task ends in the state
        that its own callbacks alone lead to. */
    method ProcessRequest(completion: seq<RequestEvent>, env: Env)
      requires Valid() && AllInTasks(completion)
      modifies Footprint()
      ensures forall t :: 0 <= t < |tasks| ==>
                && AllInLists(Project(completion, t), tasks[t].Lists())
                && tasks[t].State() == RunTask(old(tasks[t].State()), Project(completion, t), tasks[t].Lists(), env)
    {
      var k := 0;
      while k < |completion|
        invariant 0 <= k <= |completion|
        invariant forall t :: 0 <= t < |tasks| ==>
                    && AllInLists(Project(completion[..k], t), tasks[t].Lists())
                    && tasks[t].State() ==
                       RunTask(old(tasks[t].State()), Project(completion[..k], t), tasks[t].Lists(), env)
      {
        var e := completion[k];
        Finish(e, env);
        forall t | 0 <= t < |tasks|
          ensures AllInLists(Project(completion[..k + 1], t), tasks[t].Lists())
          ensures tasks[t].State() ==
                  RunTask(old(tasks[t].State()), Project(completion[..k + 1], t), tasks[t].Lists(), env)
        {
          ProjectPrefix(completion, k, t);
          if t == e.task {
            RunTaskSnoc(old(tasks[t].State()), Project(completion[..k], t), e.event, tasks[t].Lists(), env);
          }
        }
        k := k + 1;
      }
      assert completion[..k] == completion;
    }
  }

  // ----- What a run means for each array -----

  function RunField<P>(field: Option<Slots<P>>, ws: seq<Write<P>>): Option<Slots<P>> {
    if ws == [] then field else Some(Run(field.GetOr([]), ws))
  }

  /** The quantity indices of provider task p, in the order in which its callbacks finish. */
  function Order(es: seq<Event>, p: nat): seq<nat> {
    if es == [] then []
    else if es[0].provider == p then [es[0].index] + Order(es[1..], p)
    else Order(es[1..], p)
  }

  function Amounts(qs: seq<Quantity>): (r: seq<int>)
    ensures |r| == |qs| && forall i :: 0 <= i < |qs| ==> r[i] == qs[i].amount
  {
    seq(|qs|, i requires 0 <= i < |qs| => qs[i].amount)
  }

  function InvoiceWrites(es: seq<Event>, lists: Lists, env: Env): (r: seq<Write<Invoice>>)
    requires AllInLists(es, lists)
    ensures |r| == |es|
    ensures forall k :: 0 <= k < |es| ==>
              r[k] == Write(es[k].index, InvoiceFor(lists[es[k].provider][es[k].index], env))
  {
    seq(|es|, k requires 0 <= k < |es| && InLists(es[k], lists) =>
          Write(es[k].index, InvoiceFor(lists[es[k].provider][es[k].index], env)))
  }

  lemma OrderMembers(es: seq<Event>, p: nat)
    ensures forall i: nat :: i in Order(es, p) <==> Event(p, i) in es
  {
  }

  lemma OrderBounded(es: seq<Event>, p: nat, lists: Lists)
    requires AllInLists(es, lists) && p < |lists|
    ensures Bounded(Order(es, p), |lists[p]|)
  {
  }

  lemma RunFieldCons<P>(field: Option<Slots<P>>, ws: seq<Write<P>>)
    requires ws != []
    ensures RunField(field, ws) == RunField(FillField(field, ws[0]), ws[1..])
  {
    assert Run(field.GetOr([]), ws) == Run(Fill(field.GetOr([]), ws[0]), ws[1..]);
  }

  /** A run of a task is a run of each array with the writes meant for it. */
  lemma {:induction false} RunTaskByField(s: TaskState, es: seq<Event>, lists: Lists, env: Env, p: nat)
    requires AllInLists(es, lists) && |s.bills| == |lists| && p < |lists|
    requires Bounded(Order(es, p), |lists[p]|)
    ensures RunTask(s, es, lists, env).bills[p] ==
            RunField(s.bills[p], Callbacks(Order(es, p), Amounts(lists[p])))
    ensures RunTask(s, es, lists, env).invoices == RunField(s.invoices, InvoiceWrites(es, lists, env))
    decreases es
  {
    if es != [] {
      var e, s' := es[0], Step(s, es[0], lists, env);
      OrderBounded(es[1..], p, lists);
      RunTaskByField(s', es[1..], lists, env, p);
      assert InvoiceWrites(es, lists, env)[1..] == InvoiceWrites(es[1..], lists, env);
      RunFieldCons(s.invoices, InvoiceWrites(es, lists, env));
      if e.provider == p {
        var ws := Callbacks(Order(es, p), Amounts(lists[p]));
        assert ws[1..] == Callbacks(Order(es[1..], p), Amounts(lists[p]));
        RunFieldCons(s.bills[p], ws);
      }
    }
  }

  // ----- Complete runs and their order -----

  /** Every quantity callback of the task finishes exactly once. */
  ghost predicate Complete(es: seq<Event>, lists: Lists) {
    && AllInLists(es, lists)
    && (forall k, l :: 0 <= k < l < |es| ==> es[k] != es[l])
    && (forall p: nat, i: nat :: p < |lists| && i < |lists[p]| ==> Event(p, i) in es)
  }

  /** The callbacks of provider task p for the indices from b on finish in increasing order; nothing is
      said about how they interleave with those of other provider tasks. */
  ghost predicate ProviderInOrder(es: seq<Event>, p: nat, b: nat) {
    InOrderFrom(Order(es, p), b)
  }

  ghost predicate AllInOrder(es: seq<Event>, b: nat) {
    forall p: nat :: ProviderInOrder(es, p, b)
  }

  /** Past the old end of each array that it writes, every quantity list finishes in order. */
  ghost predicate OrderedFor(s: TaskState, es: seq<Event>) {
    && AllInOrder(es, |s.invoices.GetOr([])|)
    && forall p :: 0 <= p < |s.bills| ==> ProviderInOrder(es, p, |s.bills[p].GetOr([])|)
  }

  lemma {:induction false} OrderDistinct(es: seq<Event>, p: nat)
    requires forall k, l :: 0 <= k < l < |es| ==> es[k] != es[l]
    ensures Distinct(Order(es, p))
  {
    if es != [] {
      OrderDistinct(es[1..], p);
      OrderMembers(es[1..], p);
      assert es[0] !in es[1..];
      if es[0].provider == p {
        assert es[0].index !in Order(es[1..], p);
      }
    }
  }

  /** Order in the projection is order in the run. */
  lemma {:induction false} InOrderPositions(es: seq<Event>, p: nat, b: nat, k: nat, l: nat)
    requires InOrderFrom(Order(es, p), b) && k < l < |es| && es[k].provider == p && es[l].provider == p
    requires b <= es[k].index && b <= es[l].index
    ensures es[k].index < es[l].index
  {
    var r := Order(es[1..], p);
    if k == 0 {
      OrderMembers(es[1..], p);
      assert es[l] == es[1..][l - 1] == Event(p, es[l].index);
      var j :| 0 <= j < |r| && r[j] == es[l].index;
      assert Order(es, p)[0] == es[0].index && Order(es, p)[j + 1] == r[j];
    } else {
      if es[0].provider == p {
        assert forall j :: 0 <= j < |r| ==> r[j] == Order(es, p)[j + 1];
      }
      InOrderPositions(es[1..], p, b, k - 1, l - 1);
    }
  }

  lemma CompleteIsSchedule(es: seq<Event>, lists: Lists, p: nat)
    requires Complete(es, lists) && p < |lists|
    ensures IsSchedule(Order(es, p), |lists[p]|)
  {
    OrderBounded(es, p, lists);
    OrderDistinct(es, p);
    OrderMembers(es, p);
  }

  /** In every interleaving of all callbacks of a task: a provider task's billDetails end up holding
      amount i in slot i, for every i, exactly when its own callbacks past the old end finished in
      order and none of the slots to be written was nil; and then the array is the intended one. */
  lemma BillsAlignedExactlyInOrder(s: TaskState, es: seq<Event>, lists: Lists, env: Env, p: nat)
    requires Complete(es, lists) && |s.bills| == |lists| && p < |lists|
    ensures var before, amounts := s.bills[p].GetOr([]), Amounts(lists[p]);
            var after := RunTask(s, es, lists, env).bills[p].GetOr([]);
            && (Aligned(after, amounts) <==> Ready(before, |amounts|) && ProviderInOrder(es, p, |before|))
            && (Aligned(after, amounts) ==> after == Target(before, amounts))
  {
    CompleteIsSchedule(es, lists, p);
    RunTaskByField(s, es, lists, env, p);
    var before, amounts, order := s.bills[p].GetOr([]), Amounts(lists[p]), Order(es, p);
    AlignedExactlyInOrder(before, amounts, order);
  }

  ghost predicate ListsWithin(lists: Lists, n: nat) {
    forall p :: 0 <= p < |lists| ==> |lists[p]| <= n
  }

  /** A smaller index of the same list has been written before. */
  lemma SmallerWrittenBefore(es: seq<Event>, lists: Lists, len: nat, k: nat, i: nat) returns (j: nat)
    requires Complete(es, lists) && AllInOrder(es, len) && k < |es| && len <= i < es[k].index
    ensures j < k && es[j].index == i
  {
    hide Order, InOrderFrom;
    var p := es[k].provider;
    assert InLists(es[k], lists) && ProviderInOrder(es, p, len);
    assert Event(p, i) in es;
    j :| 0 <= j < |es| && es[j] == Event(p, i);
    if k < j { InOrderPositions(es, p, len, k, j); }
  }

  lemma InvoiceWritesGapless(es: seq<Event>, lists: Lists, env: Env, len: nat)
    requires Complete(es, lists) && AllInOrder(es, len)
    ensures Gapless(Indices(InvoiceWrites(es, lists, env)), len)
  {
    hide InvoiceFor, InvoiceWrites, Indices, AllInOrder;
    var order := Indices(InvoiceWrites(es, lists, env));
    forall k, i: nat | 0 <= k < |order| && len <= i < order[k] ensures i in order[..k] {
      var j := SmallerWrittenBefore(es, lists, len, k, i);
      assert order[..k][j] == i;
    }
  }

  lemma InvoiceWritesWithin(es: seq<Event>, lists: Lists, env: Env, n: nat)
    requires AllInLists(es, lists) && ListsWithin(lists, n)
    ensures Within(InvoiceWrites(es, lists, env), n)
  {
  }

  /** The invoiceDetails shared by the provider tasks: if past the old end of the array each list finishes in
      its own order, then in every interleaving of the lists slot i holds the invoice of the last callback
      of index i. */
  lemma InvoicesHoldLastWriter(s: TaskState, es: seq<Event>, lists: Lists, env: Env, n: nat)
    requires Complete(es, lists) && AllInOrder(es, |s.invoices.GetOr([])|) && |s.bills| == |lists|
    requires ListsWithin(lists, n) && Ready(s.invoices.GetOr([]), n)
    ensures WrittenOver(s.invoices.GetOr([]), InvoiceWrites(es, lists, env),
                        RunTask(s, es, lists, env).invoices.GetOr([]))
  {
    var before, ws := s.invoices.GetOr([]), InvoiceWrites(es, lists, env);
    if lists == [] {
      assert es == [] by { assert es == [] || InLists(es[0], lists); }
    } else {
      OrderBounded(es, 0, lists);
      RunTaskByField(s, es, lists, env, 0);
    }
    InvoiceWritesGapless(es, lists, env, |before|);
    InvoiceWritesWithin(es, lists, env, n);
    GaplessRunWritesOver(before, ws, n);
  }

  lemma {:induction false} LastPayloadAt<P>(ws: seq<Write<P>>, k: nat)
    requires k < |ws| && forall l :: k < l < |ws| ==> ws[l].index != ws[k].index
    ensures Touched(ws, ws[k].index) && LastPayload(ws, ws[k].index) == ws[k].payload
  {
    var m := |ws| - 1;
    if k < m { LastPayloadAt(ws[..m], k); }
  }

  /** After a complete run with each list in order, slot i holds the entry of the quantity whose callback was the
      last one of index i, beside the other fields that the slot had. */
  lemma InvoiceSlotsHoldEntries(s: TaskState, es: seq<Event>, lists: Lists, env: Env, n: nat, k: nat)
    requires Complete(es, lists) && AllInOrder(es, |s.invoices.GetOr([])|) && |s.bills| == |lists|
    requires ListsWithin(lists, n) && Ready(s.invoices.GetOr([]), n)
    requires k < |es| && forall l :: k < l < |es| ==> es[l].index != es[k].index
    ensures InLists(es[k], lists)
    ensures var before, after, i := s.invoices.GetOr([]), RunTask(s, es, lists, env).invoices.GetOr([]), es[k].index;
            && i < |after| && after[i].Some? && IsEntry(after[i].value.written, lists[es[k].provider][i], env)
            && after[i].value.rest == (if i < |before| then before[i].value.rest else map[])
  {
    hide InvoiceFor, InvoiceWrites, IsEntry, Touched, LastPayload, AllInOrder;
    var ws := InvoiceWrites(es, lists, env);
    InvoicesHoldLastWriter(s, es, lists, env, n);
    assert InLists(es[k], lists);
    LastPayloadAt(ws, k);
    var q := lists[es[k].provider][es[k].index];
    InvoiceEntry(q, env, InvoiceFor(q, env));
  }

  // ----- When the interleaving of the lists matters -----

  /** Wherever two lists of a task share an index they give the same invoice entry. */
  ghost predicate InvoicesAgree(lists: Lists, env: Env) {
    forall p: nat, q: nat, i: nat :: p < |lists| && q < |lists| && i < |lists[p]| && i < |lists[q]| ==>
      InvoiceFor(lists[p][i], env) == InvoiceFor(lists[q][i], env)
  }

  /** A complete run in which, past the first b slots, each list finishes in its own order. */
  ghost predicate OrderlyRun(es: seq<Event>, lists: Lists, b: nat) {
    Complete(es, lists) && AllInOrder(es, b)
  }

  lemma {:induction false} LastPayloadIsWritten<P>(ws: seq<Write<P>>, i: nat) returns (k: nat)
    requires Touched(ws, i)
    ensures k < |ws| && ws[k].index == i && ws[k].payload == LastPayload(ws, i)
  {
    k := |ws| - 1;
    if ws[k].index != i {
      var j :| 0 <= j < |ws| && ws[j].index == i;
      assert ws[..k][j].index == i;
      k := LastPayloadIsWritten(ws[..k], i);
    }
  }

  lemma SameWrittenOver<P>(before: Slots<P>, ws1: seq<Write<P>>, ws2: seq<Write<P>>, after1: Slots<P>, after2: Slots<P>)
    requires WrittenOver(before, ws1, after1) && WrittenOver(before, ws2, after2)
    requires forall i: nat :: Touched(ws1, i) <==> Touched(ws2, i)
    requires forall i: nat :: Touched(ws1, i) ==> LastPayload(ws1, i) == LastPayload(ws2, i)
    ensures after1 == after2
  {
    hide Touched, LastPayload;
    assert |after1| == |after2| by {
      assert !Touched(ws1, |after1|) && !Touched(ws2, |after2|);
    }
  }

  lemma InvoiceWriteOfList(es: seq<Event>, lists: Lists, env: Env, i: nat) returns (p: nat)
    requires AllInLists(es, lists) && Touched(InvoiceWrites(es, lists, env), i)
    ensures p < |lists| && i < |lists[p]|
    ensures LastPayload(InvoiceWrites(es, lists, env), i) == InvoiceFor(lists[p][i], env)
  {
    hide InvoiceFor, InvoiceWrites, Touched, LastPayload;
    var k := LastPayloadIsWritten(InvoiceWrites(es, lists, env), i);
    assert InLists(es[k], lists);
    p := es[k].provider;
  }

  lemma FieldOfRun(s: TaskState, es: seq<Event>, lists: Lists, env: Env)
    requires AllInLists(es, lists) && |s.bills| == |lists| != 0
    ensures var after := RunTask(s, es, lists, env).invoices;
            after == if es == [] then s.invoices else Some(after.GetOr([]))
  {
    OrderBounded(es, 0, lists);
    RunTaskByField(s, es, lists, env, 0);
  }

  lemma SameEvents(es1: seq<Event>, es2: seq<Event>, lists: Lists)
    requires Complete(es1, lists) && Complete(es2, lists)
    ensures es1 == [] <==> es2 == []
  {
    if es1 != [] { assert InLists(es1[0], lists); }
    if es2 != [] { assert InLists(es2[0], lists); }
  }

  lemma SameIndicesWritten(es1: seq<Event>, es2: seq<Event>, lists: Lists, env1: Env, env2: Env)
    requires AllInLists(es1, lists) && Complete(es2, lists)
    ensures forall i: nat :: Touched(InvoiceWrites(es1, lists, env1), i) ==> Touched(InvoiceWrites(es2, lists, env2), i)
  {
  }

  lemma AgreeingRunsLeaveSame(s: TaskState, lists: Lists, env: Env, n: nat, es1: seq<Event>, es2: seq<Event>)
    requires |s.bills| == |lists| && ListsWithin(lists, n) && Ready(s.invoices.GetOr([]), n)
    requires InvoicesAgree(lists, env)
    requires OrderlyRun(es1, lists, |s.invoices.GetOr([])|) && OrderlyRun(es2, lists, |s.invoices.GetOr([])|)
    ensures RunTask(s, es1, lists, env).invoices == RunTask(s, es2, lists, env).invoices
  {
    hide InvoiceFor, InvoiceWrites, Touched, LastPayload, RunTask, Run, WrittenOver, AllInOrder, Order, Ready;
    if lists == [] {
      assert es1 == [] by { assert es1 == [] || InLists(es1[0], lists); }
      assert es2 == [] by { assert es2 == [] || InLists(es2[0], lists); }
    } else {
      var ws1, ws2 := InvoiceWrites(es1, lists, env), InvoiceWrites(es2, lists, env);
      InvoicesHoldLastWriter(s, es1, lists, env, n);
      InvoicesHoldLastWriter(s, es2, lists, env, n);
      SameIndicesWritten(es1, es2, lists, env, env);
      SameIndicesWritten(es2, es1, lists, env, env);
      forall i: nat | Touched(ws1, i) ensures LastPayload(ws1, i) == LastPayload(ws2, i) {
        var p := InvoiceWriteOfList(es1, lists, env, i);
        var q := InvoiceWriteOfList(es2, lists, env, i);
      }
      var after1, after2 := RunTask(s, es1, lists, env).invoices, RunTask(s, es2, lists, env).invoices;
      SameWrittenOver(s.invoices.GetOr([]), ws1, ws2, after1.GetOr([]), after2.GetOr([]));
      FieldOfRun(s, es1, lists, env);
      FieldOfRun(s, es2, lists, env);
      SameEvents(es1, es2, lists);
    }
  }

  // ----- One list after the other -----

  function ListEvents(p: nat, n: nat): (es: seq<Event>)
    ensures |es| == n && forall i :: 0 <= i < n ==> es[i] == Event(p, i)
  {
    seq(n, i requires 0 <= i < n => Event(p, i))
  }

  /** The lists before the m-th, except list x. */
  function ListsExcept(lists: Lists, m: nat, x: nat): seq<Event>
    requires m <= |lists|
  {
    if m == 0 then []
    else ListsExcept(lists, m - 1, x) + (if m - 1 == x then [] else ListEvents(m - 1, |lists[m - 1]|))
  }

  /** Every list in order, list x as the last. */
  function LastList(lists: Lists, x: nat): seq<Event>
    requires x < |lists|
  {
    ListsExcept(lists, |lists|, x) + ListEvents(x, |lists[x]|)
  }

  lemma {:induction false} OrderAppend(es1: seq<Event>, es2: seq<Event>, p: nat)
    ensures Order(es1 + es2, p) == Order(es1, p) + Order(es2, p)
  {
    if es1 == [] {
      assert es1 + es2 == es2;
    } else {
      assert (es1 + es2)[1..] == es1[1..] + es2;
      OrderAppend(es1[1..], es2, p);
    }
  }

  lemma {:induction false} UpwardSnoc(lo: nat, hi: nat)
    requires lo <= hi
    ensures Upward(lo, hi + 1) == Upward(lo, hi) + [hi]
    decreases hi - lo
  {
    if lo < hi { UpwardSnoc(lo + 1, hi); }
  }

  lemma {:induction false} OrderOfList(x: nat, n: nat, p: nat)
    ensures Order(ListEvents(x, n), p) == if p == x then Upward(0, n) else []
  {
    if n > 0 {
      assert ListEvents(x, n) == ListEvents(x, n - 1) + [Event(x, n - 1)];
      OrderAppend(ListEvents(x, n - 1), [Event(x, n - 1)], p);
      OrderOfList(x, n - 1, p);
      UpwardSnoc(0, n - 1);
      assert [Event(x, n - 1)][1..] == [];
    }
  }

  lemma OrderExceptStep(lists: Lists, m: nat, x: nat, p: nat)
    requires 0 < m <= |lists|
    ensures Order(ListsExcept(lists, m, x), p) == Order(ListsExcept(lists, m - 1, x), p) +
            (if p == m - 1 && p != x then Upward(0, |lists[p]|) else [])
  {
    hide Order, ListEvents, Upward;
    var before := ListsExcept(lists, m - 1, x);
    if m - 1 == x {
      assert ListsExcept(lists, m, x) == before;
    } else {
      OrderAppend(before, ListEvents(m - 1, |lists[m - 1]|), p);
      OrderOfList(m - 1, |lists[m - 1]|, p);
    }
  }

  lemma NoOrder(p: nat)
    ensures Order([], p) == []
  {
  }

  lemma {:induction false} OrderExcept(lists: Lists, m: nat, x: nat, p: nat)
    requires m <= |lists|
    ensures Order(ListsExcept(lists, m, x), p) == if p < m && p != x then Upward(0, |lists[p]|) else []
  {
    hide Order, Upward, ListEvents;
    if m == 0 {
      NoOrder(p);
    } else {
      hide ListsExcept;
      OrderExcept(lists, m - 1, x, p);
      OrderExceptStep(lists, m, x, p);
    }
  }

  lemma OrderLastList(lists: Lists, x: nat, p: nat)
    requires x < |lists|
    ensures Order(LastList(lists, x), p) == if p < |lists| then Upward(0, |lists[p]|) else []
  {
    hide Order, ListEvents, ListsExcept;
    OrderAppend(ListsExcept(lists, |lists|, x), ListEvents(x, |lists[x]|), p);
    OrderExcept(lists, |lists|, x, p);
    OrderOfList(x, |lists[x]|, p);
  }

  /** No event comes twice if no index comes twice in the order of any list. */
  lemma {:induction false} DistinctOrders(es: seq<Event>)
    requires forall p: nat :: Distinct(Order(es, p))
    ensures forall k, l :: 0 <= k < l < |es| ==> es[k] != es[l]
  {
    if es != [] {
      var e, rest := es[0], es[1..];
      forall p: nat ensures Distinct(Order(rest, p)) {
        var whole := Order(es, p);
        assert Distinct(whole) && Order(rest, p) == if e.provider == p then whole[1..] else whole;
      }
      DistinctOrders(rest);
      assert e !in rest by {
        OrderMembers(rest, e.provider);
        assert Distinct(Order(es, e.provider)) && Order(es, e.provider) == [e.index] + Order(rest, e.provider);
        assert forall j :: 0 <= j < |Order(rest, e.provider)| ==>
            Order(rest, e.provider)[j] == Order(es, e.provider)[j + 1];
      }
    }
  }

  lemma {:induction false} UpwardAt(lo: nat, hi: nat, k: nat)
    requires lo <= hi && k < hi - lo
    ensures Upward(lo, hi)[k] == lo + k
    decreases hi - lo
  {
    if k > 0 { UpwardAt(lo + 1, hi, k - 1); }
  }

  lemma UpwardInOrder(n: nat, b: nat)
    ensures Distinct(Upward(0, n)) && InOrderFrom(Upward(0, n), b)
  {
    forall k | 0 <= k < n ensures Upward(0, n)[k] == k { UpwardAt(0, n, k); }
  }

  lemma EmptyUpward()
    ensures Upward(0, 0) == []
  {
  }

  lemma LastListIsOrderly(lists: Lists, x: nat, b: nat)
    requires x < |lists|
    ensures OrderlyRun(LastList(lists, x), lists, b)
  {
    hide LastList, Order, Upward, Distinct, InOrderFrom;
    var es := LastList(lists, x);
    forall p: nat ensures Distinct(Order(es, p)) && ProviderInOrder(es, p, b) {
      OrderLastList(lists, x, p);
      UpwardInOrder(if p < |lists| then |lists[p]| else 0, b);
      EmptyUpward();
    }
    DistinctOrders(es);
    forall p: nat, i: nat ensures Event(p, i) in es <==> p < |lists| && i < |lists[p]| {
      OrderLastList(lists, x, p);
      OrderMembers(es, p);
    }
    forall k | 0 <= k < |es| ensures InLists(es[k], lists) {
      assert Event(es[k].provider, es[k].index) in es;
    }
  }

  /** With list x as the last, slot i ends with the entry of list x. */
  lemma LastListWins(s: TaskState, lists: Lists, env: Env, n: nat, x: nat, i: nat)
    requires |s.bills| == |lists| && ListsWithin(lists, n) && Ready(s.invoices.GetOr([]), n)
    requires x < |lists| && i < |lists[x]|
    ensures AllInLists(LastList(lists, x), lists)
    ensures var after := RunTask(s, LastList(lists, x), lists, env).invoices.GetOr([]);
            i < |after| && after[i].Some? && after[i].value.written == InvoiceFor(lists[x][i], env)
  {
    hide InvoiceFor, RunTask, Ready, ListsExcept, Touched, LastPayload, AllInOrder;
    var es := LastList(lists, x);
    LastListIsOrderly(lists, x, |s.invoices.GetOr([])|);
    InvoicesHoldLastWriter(s, es, lists, env, n);
    var ws, k := InvoiceWrites(es, lists, env), |es| - |lists[x]| + i;
    assert forall l :: k <= l < |ws| ==> ws[l].index == i + (l - k);
    LastPayloadAt(ws, k);
  }

  /** The shared invoiceDetails do not depend on how the lists of a task interleave exactly when the lists agree
      wherever they share an index. */
  lemma InvoicesUntimedExactly(s: TaskState, lists: Lists, env: Env, n: nat)
    requires |s.bills| == |lists| && ListsWithin(lists, n) && Ready(s.invoices.GetOr([]), n)
    ensures InvoicesAgree(lists, env) <==>
            forall es1, es2 ::
              OrderlyRun(es1, lists, |s.invoices.GetOr([])|) && OrderlyRun(es2, lists, |s.invoices.GetOr([])|)
              ==> RunTask(s, es1, lists, env).invoices == RunTask(s, es2, lists, env).invoices
  {
    hide RunTask, Ready, InvoiceFor, ListsWithin, LastList;
    var b := |s.invoices.GetOr([])|;
    if InvoicesAgree(lists, env) {
      forall es1, es2 | OrderlyRun(es1, lists, b) && OrderlyRun(es2, lists, b)
        ensures RunTask(s, es1, lists, env).invoices == RunTask(s, es2, lists, env).invoices
      {
        AgreeingRunsLeaveSame(s, lists, env, n, es1, es2);
      }
    } else {
      var p: nat, q: nat, i: nat :| p < |lists| && q < |lists| && i < |lists[p]| && i < |lists[q]|
                                    && InvoiceFor(lists[p][i], env) != InvoiceFor(lists[q][i], env);
      LastListIsOrderly(lists, p, b);
      LastListIsOrderly(lists, q, b);
      LastListWins(s, lists, env, n, p, i);
      LastListWins(s, lists, env, n, q, i);
      assert OrderlyRun(LastList(lists, p), lists, b) && OrderlyRun(LastList(lists, q), lists, b);
    }
  }

  lemma SingleListsOrderly(lists: Lists)
    requires |lists| == 2 && |lists[0]| == |lists[1]| == 1
    ensures OrderlyRun([Event(0, 0), Event(1, 0)], lists, 0) && OrderlyRun([Event(1, 0), Event(0, 0)], lists, 0)
  {
    hide OrderlyRun;
    assert ListsExcept(lists, 0, 0) == [] && ListsExcept(lists, 0, 1) == [];
    assert ListsExcept(lists, 1, 0) == [] && ListsExcept(lists, 1, 1) == [Event(0, 0)];
    assert LastList(lists, 0) == [Event(1, 0), Event(0, 0)] && LastList(lists, 1) == [Event(0, 0), Event(1, 0)];
    LastListIsOrderly(lists, 0, 0);
    LastListIsOrderly(lists, 1, 0);
  }

  lemma TwoSteps(s: TaskState, e1: Event, e2: Event, lists: Lists, env: Env)
    requires InLists(e1, lists) && InLists(e2, lists) && |s.bills| == |lists|
    ensures AllInLists([e1, e2], lists)
    ensures RunTask(s, [e1, e2], lists, env) == Step(Step(s, e1, lists, env), e2, lists, env)
  {
    assert [e1, e2][1..] == [e2] && [e2][1..] == [];
    var once := Step(s, e1, lists, env);
    assert RunTask(once, [e2], lists, env) == RunTask(Step(once, e2, lists, env), [], lists, env);
  }

  lemma FirstFill<P>(payload: P)
    ensures Fill([], Write(0, payload)) == [Some(Detail(payload, map[]))]
  {
  }

  lemma LaterInvoiceStays(s: TaskState, e1: Event, e2: Event, lists: Lists, env: Env)
    requires InLists(e1, lists) && InLists(e2, lists) && e1.index == e2.index == 0 && |s.bills| == |lists|
    requires s.invoices.None?
    ensures AllInLists([e1, e2], lists)
    ensures RunTask(s, [e1, e2], lists, env).invoices ==
            Some([Some(Detail(InvoiceFor(lists[e2.provider][0], env), map[]))])
  {
    TwoSteps(s, e1, e2, lists, env);
    hide InvoiceFor;
    var once := Step(s, e1, lists, env);
    FirstFill(InvoiceFor(lists[e1.provider][0], env));
    assert once.invoices == Some([Some(Detail(InvoiceFor(lists[e1.provider][0], env), map[]))]);
    assert Step(once, e2, lists, env).invoices ==
           Some(once.invoices.value[0 := Some(Detail(InvoiceFor(lists[e2.provider][0], env), map[]))]);
    assert once.invoices.value[0 := Some(Detail(InvoiceFor(lists[e2.provider][0], env), map[]))] ==
           [Some(Detail(InvoiceFor(lists[e2.provider][0], env), map[]))];
  }

  /** Two provider tasks, one priced by the page and one by an unknown unit: whichever is last decides the
      invoice, although each list finishes in order. */
  lemma InvoiceDependsOnTiming(amount1: int, amount2: int)
    ensures var lists := [[Quantity(amount1, "Pages")], [Quantity(amount2, "Rooms")]];
            var names := UnitNames(None, Some("Page"));
            var env := Env(map["Pages" := names], [UnitDoc("u1", Some("Page"), "lsp")], [], "lsp");
            var s, es1, es2 := TaskState([None, None], None), [Event(0, 0), Event(1, 0)], [Event(1, 0), Event(0, 0)];
            && OrderlyRun(es1, lists, 0) && OrderlyRun(es2, lists, 0)
            && RunTask(s, es1, lists, env).invoices != RunTask(s, es2, lists, env).invoices
  {
    var lists := [[Quantity(amount1, "Pages")], [Quantity(amount2, "Rooms")]];
    var env := Env(map["Pages" := UnitNames(None, Some("Page"))], [UnitDoc("u1", Some("Page"), "lsp")], [], "lsp");
    SingleListsOrderly(lists);
    LaterInvoiceStays(TaskState([None, None], None), Event(0, 0), Event(1, 0), lists, env);
    LaterInvoiceStays(TaskState([None, None], None), Event(1, 0), Event(0, 0), lists, env);
    assert InvoiceFor(lists[0][0], env).invoice.translationUnit == Some(UnitRef("u1", Some("Page")));
    assert InvoiceFor(lists[1][0], env).invoice.translationUnit == None;
  }

  // ----- The later migration -----

  lemma RunFieldSupersedes<P>(field: Option<Slots<P>>, earlier: seq<Write<P>>, later: seq<Write<P>>, n: nat)
    requires var slots := field.GetOr([]);
             && Ready(slots, n) && Within(earlier, n) && Within(later, n)
             && Gapless(Indices(later), |slots|)
    requires forall i: nat :: Touched(earlier, i) ==> Touched(later, i)
    ensures RunField(RunField(field, earlier), later) == RunField(field, later)
  {
    LaterRunSupersedes(field.GetOr([]), earlier, later, n);
    if later == [] && earlier != [] {
      assert Touched(earlier, earlier[0].index);
    }
  }

  /** No slot that the run writes is nil. */
  ghost predicate NoNilSlots(s: TaskState, lists: Lists, n: nat) {
    && |s.bills| == |lists| && ListsWithin(lists, n) && Ready(s.invoices.GetOr([]), n)
    && forall p :: 0 <= p < |lists| ==> Ready(s.bills[p].GetOr([]), |lists[p]|)
  }

  lemma BillsSuperseded(s: TaskState, es1: seq<Event>, es2: seq<Event>, lists: Lists, env1: Env, env2: Env, p: nat)
    requires AllInLists(es1, lists) && Complete(es2, lists)
    requires |s.bills| == |lists| && p < |lists| && Ready(s.bills[p].GetOr([]), |lists[p]|)
    requires ProviderInOrder(es2, p, |s.bills[p].GetOr([])|)
    ensures RunTask(RunTask(s, es1, lists, env1), es2, lists, env2).bills[p] == RunTask(s, es2, lists, env2).bills[p]
  {
    var field, amounts := s.bills[p], Amounts(lists[p]);
    OrderBounded(es1, p, lists);
    CompleteIsSchedule(es2, lists, p);
    RunTaskByField(s, es1, lists, env1, p);
    RunTaskByField(s, es2, lists, env2, p);
    RunTaskByField(RunTask(s, es1, lists, env1), es2, lists, env2, p);
    var ws1, ws2 := Callbacks(Order(es1, p), amounts), Callbacks(Order(es2, p), amounts);
    InOrderIsGapless(Order(es2, p), |field.GetOr([])|, |amounts|);
    forall i: nat | Touched(ws1, i) ensures Touched(ws2, i) {
      TouchedIsIndex(ws1, i);
      TouchedIsIndex(ws2, i);
      OrderMembers(es1, p);
    }
    RunFieldSupersedes(field, ws1, ws2, |amounts|);
  }

  lemma InvoicesSuperseded(s: TaskState, es1: seq<Event>, es2: seq<Event>, lists: Lists, env1: Env, env2: Env, n: nat)
    requires AllInLists(es1, lists) && Complete(es2, lists) && AllInOrder(es2, |s.invoices.GetOr([])|)
    requires NoNilSlots(s, lists, n) && lists != []
    ensures RunTask(RunTask(s, es1, lists, env1), es2, lists, env2).invoices == RunTask(s, es2, lists, env2).invoices
  {
    hide InvoiceFor, InvoiceWrites, RunTask, RunField, Touched, Gapless, AllInOrder, Callbacks, Within, Indices;
    OrderBounded(es1, 0, lists);
    OrderBounded(es2, 0, lists);
    RunTaskByField(s, es1, lists, env1, 0);
    RunTaskByField(s, es2, lists, env2, 0);
    RunTaskByField(RunTask(s, es1, lists, env1), es2, lists, env2, 0);
    var ws1, ws2 := InvoiceWrites(es1, lists, env1), InvoiceWrites(es2, lists, env2);
    InvoiceWritesGapless(es2, lists, env2, |s.invoices.GetOr([])|);
    InvoiceWritesWithin(es1, lists, env1, n);
    InvoiceWritesWithin(es2, lists, env2, n);
    SameIndicesWritten(es1, es2, lists, env1, env2);
    RunFieldSupersedes(s.invoices, ws1, ws2, n);
  }

  /** Running the earlier migration and then the later one is running the later one alone, whatever the
      two unit mappings and lookup collections contain and however the lists interleave in the later run.
      The earlier run may have gone in any order, its callbacks overtaking each other, or not to its end. */
  lemma LaterMigrationSupersedes(s: TaskState, es1: seq<Event>, es2: seq<Event>, lists: Lists, env1: Env, env2: Env,
                                 n: nat)
    requires AllInLists(es1, lists) && Complete(es2, lists) && NoNilSlots(s, lists, n) && OrderedFor(s, es2)
    ensures RunTask(RunTask(s, es1, lists, env1), es2, lists, env2) == RunTask(s, es2, lists, env2)
  {
    var both, once := RunTask(RunTask(s, es1, lists, env1), es2, lists, env2), RunTask(s, es2, lists, env2);
    forall p: nat | p < |lists| ensures both.bills[p] == once.bills[p] {
      BillsSuperseded(s, es1, es2, lists, env1, env2, p);
    }
    assert both.bills == once.bills;
    if lists == [] {
      assert es1 == [] by { assert es1 == [] || InLists(es1[0], lists); }
    } else {
      InvoicesSuperseded(s, es1, es2, lists, env1, env2, n);
    }
  }

  /** The two migrations run one after the other on a request, the earlier one in any completion order. */
  method RunBothMigrations(request: Request, completion1: seq<RequestEvent>, completion2: seq<RequestEvent>,
                           env1: Env, env2: Env, ghost n: nat)
    requires request.Valid() && request.AllInTasks(completion1) && request.AllInTasks(completion2)
    requires forall t :: 0 <= t < |request.tasks| ==>
               var es1, es2, lists := Project(completion1, t), Project(completion2, t), request.tasks[t].Lists();
               && AllInLists(es1, lists) && Complete(es2, lists)
               && NoNilSlots(request.tasks[t].State(), lists, n) && OrderedFor(request.tasks[t].State(), es2)
    modifies request.Footprint()
    ensures forall t :: 0 <= t < |request.tasks| ==>
              && AllInLists(Project(completion2, t), request.tasks[t].Lists())
              && request.tasks[t].State() ==
              RunTask(old(request.tasks[t].State()), Project(completion2, t), request.tasks[t].Lists(), env2)
  {
    request.ProcessRequest(completion1, env1);
    request.ProcessRequest(completion2, env2);
    forall t | 0 <= t < |request.tasks|
      ensures request.tasks[t].State() ==
              RunTask(old(request.tasks[t].State()), Project(completion2, t), request.tasks[t].Lists(), env2)
    {
      LaterMigrationSupersedes(old(request.tasks[t].State()), Project(completion1, t), Project(completion2, t),
                               request.tasks[t].Lists(), env1, env2, n);
    }
  }
}
