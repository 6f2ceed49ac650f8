/** Conversion of amounts to the local currency by a rate table that is read once and kept, or, when calls
    overlap, more than once. */
module CurrencyConverter {
  import opened Basics
  import opened Rounding

  // ----- The converter and its cached rate table -----

  /** One entry of a tenant's rate table; nil fields make the conversion throw when they are reached. */
  datatype ExchangeDetail = ExchangeDetail(quote: Option<string>, quotation: Option<real>)

  /** What reading the tenant's document gives. */
  datatype Lookup = ReadFailed | NoTenant | Tenant(details: Option<seq<ExchangeDetail>>)

  /** `places` is what Big.DP holds when the call divides. */
  datatype Call = Call(amount: real, fromCurrencyId: Option<string>, precision: int, places: nat, lookup: Lookup)

  datatype RestError = FailedToConvert

  /** The table that a call finds after its lookup step: the kept one, or the one it reads. */
  function TableAfter(table: Option<seq<ExchangeDetail>>, lookup: Lookup): Option<seq<ExchangeDetail>> {
    if table.Some? then table else if lookup.Tenant? then lookup.details else None
  }

  /** The first entry for the currency; `Err` if an entry without a quote comes before it. */
  function FindDetail(details: seq<ExchangeDetail>, id: string): Result<ExchangeDetail, RestError> {
    if details == [] || details[0].quote.None? then Err(FailedToConvert)
    else if details[0].quote.value == id then Ok(details[0])
    else FindDetail(details[1..], id)
  }

  /** The answer of a converter that reads this table on every call. */
  function Uncached(table: Option<seq<ExchangeDetail>>, call: Call): Result<real, RestError> {
    if table.None? || call.fromCurrencyId.None? then Err(FailedToConvert)
    else
      var found := FindDetail(table.value, call.fromCurrencyId.value);
      if found.Err? then Err(FailedToConvert)
      else if found.value.quotation.None? || found.value.quotation.value == 0.0 then Err(FailedToConvert)
      else Ok(Convert(call.amount, found.value.quotation.value, call.precision, call.places))
  }

  /** Entry k is the one for the currency: the first of its quote, with no entry without a quote before it, and
      with a rate to divide by. */
  ghost predicate IsRateOf(details: seq<ExchangeDetail>, id: string, k: nat) {
    && k < |details| && details[k].quote == Some(id)
    && details[k].quotation.Some? && details[k].quotation.value != 0.0
    && forall j :: 0 <= j < k ==> details[j].quote.Some? && details[j].quote.value != id
  }

  /** What a call is answered on a table: the conversion at the rate of the currency, or the error if there is no
      table, no currency or no such rate. */
  ghost predicate IsAnswer(r: Result<real, RestError>, table: Option<seq<ExchangeDetail>>, call: Call) {
    && (r.Ok? <==> table.Some? && call.fromCurrencyId.Some? &&
                   exists k: nat :: IsRateOf(table.value, call.fromCurrencyId.value, k))
    && (table.Some? && call.fromCurrencyId.Some? ==>
          forall k: nat :: IsRateOf(table.value, call.fromCurrencyId.value, k) ==>
            r == Ok(Convert(call.amount, table.value[k].quotation.value, call.precision, call.places)))
  }

  lemma {:induction false} FoundIsFirst(details: seq<ExchangeDetail>, id: string)
    returns (k: nat)
    ensures FindDetail(details, id).Ok? ==>
              && k < |details| && FindDetail(details, id).value == details[k] && details[k].quote == Some(id)
              && forall j :: 0 <= j < k ==> details[j].quote.Some? && details[j].quote.value != id
    ensures forall i: nat :: i < |details| && details[i].quote == Some(id) &&
              (forall j :: 0 <= j < i ==> details[j].quote.Some? && details[j].quote.value != id)
              ==> FindDetail(details, id) == Ok(details[i])
  {
    k := 0;
    if details != [] && details[0].quote.Some? && details[0].quote.value != id {
      var rest := details[1..];
      var l := FoundIsFirst(rest, id);
      k := l + 1;
      assert forall j :: 1 <= j < |details| ==> details[j] == rest[j - 1];
      forall i: nat | i < |details| && details[i].quote == Some(id) &&
          (forall j :: 0 <= j < i ==> details[j].quote.Some? && details[j].quote.value != id)
        ensures FindDetail(details, id) == Ok(details[i])
      {
        assert forall j :: 0 <= j < i - 1 ==> rest[j] == details[j + 1];
      }
    }
  }

  /** The uncached answer is that answer. */
  lemma UncachedIsAnswer(table: Option<seq<ExchangeDetail>>, call: Call)
    ensures IsAnswer(Uncached(table, call), table, call)
  {
    hide Convert, FindDetail;
    if table.Some? && call.fromCurrencyId.Some? {
      var id := call.fromCurrencyId.value;
      var k := FoundIsFirst(table.value, id);
      assert Uncached(table, call).Ok? ==> IsRateOf(table.value, id, k);
    }
  }

  /** The table read by the earliest call that reads one. */
  function FirstTable(calls: seq<Call>): Option<seq<ExchangeDetail>> {
    if calls == [] then None
    else if calls[0].lookup.Tenant? && calls[0].lookup.details.Some? then calls[0].lookup.details
    else FirstTable(calls[1..])
  }

  lemma {:induction false} FirstTableSnoc(calls: seq<Call>, call: Call)
    ensures FirstTable(calls + [call]) == TableAfter(FirstTable(calls), call.lookup)
  {
    if calls == [] {
      assert (calls + [call])[1..] == [];
    } else {
      assert (calls + [call])[1..] == calls[1..] + [call];
      FirstTableSnoc(calls[1..], call);
    }
  }

  lemma FirstTableStep(calls: seq<Call>, k: nat)
    requires k < |calls|
    ensures FirstTable(calls[..k + 1]) == TableAfter(FirstTable(calls[..k]), calls[k].lookup)
  {
    assert calls[..k + 1] == calls[..k] + [calls[k]];
    FirstTableSnoc(calls[..k], calls[k]);
  }

  /** Call j reads the tenant's table, and no call before it does. */
  ghost predicate IsFirstRead(calls: seq<Call>, j: nat) {
    && j < |calls| && calls[j].lookup.Tenant? && calls[j].lookup.details.Some?
    && forall i :: 0 <= i < j ==> !(calls[i].lookup.Tenant? && calls[i].lookup.details.Some?)
  }

  lemma {:induction false} FirstTableIsFirstRead(calls: seq<Call>)
    ensures forall j: nat :: IsFirstRead(calls, j) ==> FirstTable(calls) == calls[j].lookup.details
    ensures FirstTable(calls).Some? ==> exists j: nat :: IsFirstRead(calls, j)
  {
    if calls != [] {
      var rest := calls[1..];
      FirstTableIsFirstRead(rest);
      assert forall i :: 1 <= i < |calls| ==> calls[i] == rest[i - 1];
      if calls[0].lookup.Tenant? && calls[0].lookup.details.Some? {
        assert IsFirstRead(calls, 0);
      } else {
        forall j: nat | IsFirstRead(calls, j) ensures FirstTable(calls) == calls[j].lookup.details {
          assert forall i :: 0 <= i < j - 1 ==> rest[i] == calls[i + 1];
          assert IsFirstRead(rest, j - 1);
        }
        if FirstTable(rest).Some? {
          var j: nat :| IsFirstRead(rest, j);
          assert IsFirstRead(calls, j + 1);
        }
      }
    }
  }

  lemma ReadOfPrefix(calls: seq<Call>, k: nat, j: nat)
    requires j <= k < |calls| && IsFirstRead(calls, j)
    ensures IsFirstRead(calls[..k + 1], j) && calls[..k + 1][j] == calls[j]
  {
  }

  lemma TableHasReader(calls: seq<Call>, k: nat)
    requires k < |calls|
    ensures FirstTable(calls[..k + 1]).Some? ==> exists j: nat :: j <= k && IsFirstRead(calls, j)
  {
    FirstTableIsFirstRead(calls[..k + 1]);
    if FirstTable(calls[..k + 1]).Some? {
      var j: nat :| IsFirstRead(calls[..k + 1], j);
      assert IsFirstRead(calls, j);
    }
  }

  lemma ServedMeaning(calls: seq<Call>)
    ensures forall k, j :: 0 <= j <= k < |calls| && IsFirstRead(calls, j) ==>
              IsAnswer(Uncached(FirstTable(calls[..k + 1]), calls[k]), calls[j].lookup.details, calls[k])
    ensures forall k :: 0 <= k < |calls| && (forall j :: 0 <= j <= k ==> !IsFirstRead(calls, j)) ==>
              Uncached(FirstTable(calls[..k + 1]), calls[k]) == Err(FailedToConvert)
  {
    hide IsAnswer, FirstTable;
    forall k, j | 0 <= j <= k < |calls| && IsFirstRead(calls, j)
      ensures IsAnswer(Uncached(FirstTable(calls[..k + 1]), calls[k]), calls[j].lookup.details, calls[k])
    {
      ReadOfPrefix(calls, k, j);
      FirstTableIsFirstRead(calls[..k + 1]);
      UncachedIsAnswer(calls[j].lookup.details, calls[k]);
    }
    forall k | 0 <= k < |calls| && (forall j :: 0 <= j <= k ==> !IsFirstRead(calls, j))
      ensures Uncached(FirstTable(calls[..k + 1]), calls[k]) == Err(FailedToConvert)
    {
      TableHasReader(calls, k);
    }
  }

  // ----- The class -----

  class CurrencyConverter {
    var currencyExchangeDetails: Option<seq<ExchangeDetail>>

    constructor ()
      ensures currencyExchangeDetails == None
    {
      currencyExchangeDetails := None;
    }

    /** What follows the lookup step. */
    method Answer(call: Call) returns (r: Result<real, RestError>)
      ensures r == Uncached(currencyExchangeDetails, call)
      ensures IsAnswer(r, currencyExchangeDetails, call)
    {
      UncachedIsAnswer(currencyExchangeDetails, call);
      if call.fromCurrencyId.None? || currencyExchangeDetails.None? {
        return Err(FailedToConvert);
      }
      var exchangeDetail := FindDetail(currencyExchangeDetails.value, call.fromCurrencyId.value);
      if exchangeDetail.Err? {
        return Err(FailedToConvert);
      }
      var quotation := exchangeDetail.value.quotation;
      if quotation.None? || quotation.value == 0.0 {
        return Err(FailedToConvert);
      }
      var convertedAmount := BigDiv(call.amount, quotation.value, call.places);
      return Ok(RoundHalfUp(convertedAmount, Scale(Min(call.precision, MAX_PRECISION))));
    }

    /** The stretch of a call before its read, which a kept table makes the whole call. */
    method BeginCall(call: Call) returns (r: Option<Result<real, RestError>>)
      ensures r == if currencyExchangeDetails.Some? then Some(Uncached(currencyExchangeDetails, call)) else None
    {
      r := None;
      if currencyExchangeDetails.Some? {
        var answer := Answer(call);
        r := Some(answer);
      }
    }

    /** The stretch after the read. What it reads replaces the kept table, whatever that has become. */
    method FinishCall(call: Call) returns (r: Result<real, RestError>)
      modifies this
      ensures currencyExchangeDetails ==
              if call.lookup.Tenant? then call.lookup.details else old(currencyExchangeDetails)
      ensures r == if call.lookup.Tenant? then Uncached(call.lookup.details, call) else Err(FailedToConvert)
    {
      if call.lookup.ReadFailed? || call.lookup.NoTenant? {
        return Err(FailedToConvert);
      }
      currencyExchangeDetails := call.lookup.details;
      r := Answer(call);
    }

    /** A call that no other call overlaps. */
    method ConvertToLocalCurrency(call: Call) returns (r: Result<real, RestError>)
      modifies this
      ensures currencyExchangeDetails == TableAfter(old(currencyExchangeDetails), call.lookup)
      ensures r == Uncached(currencyExchangeDetails, call)
      ensures IsAnswer(r, currencyExchangeDetails, call)
    {
      hide IsAnswer;
      UncachedIsAnswer(TableAfter(currencyExchangeDetails, call.lookup), call);
      var begun := BeginCall(call);
      if begun.Some? {
        return begun.value;
      }
      r := FinishCall(call);
    }

    /** A sequence of calls on a new converter, failing ones included: each answer is that of the uncached
        conversion with the first table that any call so far has read, and an error before there is one. */
    method Serve(calls: seq<Call>) returns (replies: seq<Result<real, RestError>>)
      requires currencyExchangeDetails == None
      modifies this
      ensures |replies| == |calls|
      ensures forall k :: 0 <= k < |calls| ==> replies[k] == Uncached(FirstTable(calls[..k + 1]), calls[k])
      ensures forall k, j :: 0 <= j <= k < |calls| && IsFirstRead(calls, j) ==>
                IsAnswer(replies[k], calls[j].lookup.details, calls[k])
      ensures forall k :: 0 <= k < |calls| && (forall j :: 0 <= j <= k ==> !IsFirstRead(calls, j)) ==>
                replies[k] == Err(FailedToConvert)
    {
      ServedMeaning(calls);
      hide IsAnswer, Uncached, IsFirstRead;
      replies := [];
      while |replies| < |calls|
        invariant |replies| <= |calls|
        invariant currencyExchangeDetails == FirstTable(calls[..|replies|])
        invariant forall k :: 0 <= k < |replies| ==> replies[k] == Uncached(FirstTable(calls[..k + 1]), calls[k])
      {
        FirstTableStep(calls, |replies|);
        var r := ConvertToLocalCurrency(calls[|replies|]);
        replies := replies + [r];
      }
    }
  }

  // ----- Overlapping calls -----

  /** A call is not yet begun, waiting for its read, or answered; `source` is the call whose read gave the kept
      table. */
  datatype State = State(table: Option<seq<ExchangeDetail>>, source: Option<nat>, waiting: set<nat>,
                         replies: map<nat, Result<real, RestError>>)

  const START := State(None, None, {}, map[])

  /** The two stretches of a call, before and after its read; a call that finds a table has only the first. */
  datatype Event = Begin(call: nat) | AfterRead(call: nat)

  predicate Enabled(calls: seq<Call>, s: State, e: Event) {
    e.call < |calls| && e.call !in s.replies && (e.AfterRead? <==> e.call in s.waiting)
  }

  function Next(calls: seq<Call>, s: State, e: Event): State
    requires Enabled(calls, s, e)
  {
    var call := calls[e.call];
    match e
    case Begin(k) =>
      if s.table.Some? then s.(replies := s.replies[k := Uncached(s.table, call)]) else s.(waiting := s.waiting + {k})
    case AfterRead(k) =>
      if call.lookup.Tenant?
      then State(call.lookup.details, Some(k), s.waiting - {k}, s.replies[k := Uncached(call.lookup.details, call)])
      else s.(waiting := s.waiting - {k}, replies := s.replies[k := Err(FailedToConvert)])
  }

  ghost predicate Reaches(calls: seq<Call>, s: State, es: seq<Event>, last: State)
    decreases es
  {
    if es == [] then s == last else Enabled(calls, s, es[0]) && Reaches(calls, Next(calls, s, es[0]), es[1..], last)
  }

  /** Call j has read a tenant, and that tenant's table answers call k. */
  ghost predicate AnsweredBy(calls: seq<Call>, s: State, k: nat, j: nat) {
    && k in s.replies && k < |calls| && j < |calls| && j in s.replies && calls[j].lookup.Tenant?
    && s.replies[k] == Uncached(calls[j].lookup.details, calls[k])
  }

  ghost predicate OwnReadFailed(calls: seq<Call>, s: State, k: nat) {
    k in s.replies && k < |calls| && !calls[k].lookup.Tenant? && s.replies[k] == Err(FailedToConvert)
  }

  ghost predicate KeepsLastRead(calls: seq<Call>, s: State) {
    && (s.source.None? ==> s.table.None?)
    && (s.source.Some? ==> var j := s.source.value;
          j < |calls| && j in s.replies && calls[j].lookup.Tenant? && s.table == calls[j].lookup.details)
  }

  ghost predicate Answered(calls: seq<Call>, s: State, k: nat) {
    OwnReadFailed(calls, s, k) || exists j :: AnsweredBy(calls, s, k, j)
  }

  /** The kept table is that of the last read, and every answer comes from a table that some call has read. */
  ghost predicate Inv(calls: seq<Call>, s: State) {
    && s.waiting !! s.replies.Keys
    && KeepsLastRead(calls, s)
    && forall k <- s.replies :: Answered(calls, s, k)
  }

  lemma OldAnswerStays(calls: seq<Call>, s: State, e: Event, k: nat)
    requires Enabled(calls, s, e) && k in s.replies && Answered(calls, s, k)
    ensures Answered(calls, Next(calls, s, e), k)
  {
    hide Uncached;
    if !OwnReadFailed(calls, s, k) {
      var j :| AnsweredBy(calls, s, k, j);
      assert AnsweredBy(calls, Next(calls, s, e), k, j);
    }
  }

  lemma NewAnswer(calls: seq<Call>, s: State, e: Event)
    requires Inv(calls, s) && Enabled(calls, s, e)
    ensures e.call in Next(calls, s, e).replies ==> Answered(calls, Next(calls, s, e), e.call)
  {
    hide Uncached;
    var s', k := Next(calls, s, e), e.call;
    if e.Begin? {
      assert s.table.Some? ==> AnsweredBy(calls, s', k, s.source.value);
    } else {
      assert calls[k].lookup.Tenant? ==> AnsweredBy(calls, s', k, k);
    }
  }

  lemma StepKeepsInv(calls: seq<Call>, s: State, e: Event)
    requires Inv(calls, s) && Enabled(calls, s, e)
    ensures Inv(calls, Next(calls, s, e))
  {
    hide Uncached, Answered;
    forall k | k in Next(calls, s, e).replies ensures Answered(calls, Next(calls, s, e), k) {
      if k in s.replies { OldAnswerStays(calls, s, e, k); } else { NewAnswer(calls, s, e); }
    }
  }

  lemma {:induction false} RunKeepsInv(calls: seq<Call>, s: State, es: seq<Event>, last: State)
    requires Inv(calls, s) && Reaches(calls, s, es, last)
    ensures Inv(calls, last)
    decreases es
  {
    if es != [] {
      StepKeepsInv(calls, s, es[0]);
      RunKeepsInv(calls, Next(calls, s, es[0]), es[1..], last);
    }
  }

  /** Calls that overlap: in every interleaving each answer is the uncached one on a table that some call has
      read, or the error of a read of its own that failed; and the table of the last read is kept. */
  lemma OverlappingCalls(calls: seq<Call>, es: seq<Event>, last: State)
    requires Reaches(calls, START, es, last)
    ensures forall k <- last.replies :: Answered(calls, last, k)
    ensures KeepsLastRead(calls, last)
  {
    RunKeepsInv(calls, START, es, last);
  }

  /** As long as every read that finds the tenant finds the same table, overlapping does not matter: every
      answer is the uncached one on that table, or the error of a read of its own that failed. */
  lemma OverlappingCallsOnOneTable(calls: seq<Call>, es: seq<Event>, last: State, table: Option<seq<ExchangeDetail>>)
    requires Reaches(calls, START, es, last)
    requires forall k :: 0 <= k < |calls| && calls[k].lookup.Tenant? ==> calls[k].lookup.details == table
    ensures forall k <- last.replies :: k < |calls| &&
              (last.replies[k] == Uncached(table, calls[k]) || OwnReadFailed(calls, last, k))
  {
    hide Uncached;
    OverlappingCalls(calls, es, last);
    forall k | k in last.replies && !OwnReadFailed(calls, last, k)
      ensures k < |calls| && last.replies[k] == Uncached(table, calls[k])
    {
      var j :| AnsweredBy(calls, last, k, j);
    }
  }
}
