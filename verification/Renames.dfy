/** Renaming by a table: every entry is one database update, and the updates run one after the other or
    all at once, in which case the database takes them in any order. */
module Renames {
  datatype Rule = Rule(oldName: string, newName: string)

  // ----- The updates -----

  function RenameOne(name: string, r: Rule): string {
    if name == r.oldName then r.newName else name
  }

  /** update with the option multi: every record of the old name. */
  function UpdateMany(records: seq<string>, r: Rule): (s: seq<string>)
    ensures |s| == |records| && forall k :: 0 <= k < |records| ==> s[k] == RenameOne(records[k], r)
  {
    seq(|records|, k requires 0 <= k < |records| => RenameOne(records[k], r))
  }

  function IndexOf(records: seq<string>, name: string): (i: nat)
    ensures i <= |records| && (i < |records| ==> records[i] == name)
    ensures forall j :: 0 <= j < i ==> records[j] != name
  {
    if records == [] then 0 else if records[0] == name then 0 else IndexOf(records[1..], name) + 1
  }

  /** updateOne: the first record of the old name. */
  function UpdateOne(records: seq<string>, r: Rule): (s: seq<string>)
    ensures |s| == |records|
  {
    var i := IndexOf(records, r.oldName);
    if i < |records| then records[i := r.newName] else records
  }

  function RunMany(records: seq<string>, order: seq<Rule>): (s: seq<string>)
    ensures |s| == |records|
    decreases order
  {
    if order == [] then records else RunMany(UpdateMany(records, order[0]), order[1..])
  }

  function RunOne(records: seq<string>, order: seq<Rule>): (s: seq<string>)
    ensures |s| == |records|
    decreases order
  {
    if order == [] then records else RunOne(UpdateOne(records, order[0]), order[1..])
  }

  /** The simultaneous rename of one name. */
  function Rename(name: string, table: seq<Rule>): string {
    if table == [] then name
    else if table[0].oldName == name then table[0].newName
    else Rename(name, table[1..])
  }

  function Simultaneous(records: seq<string>, table: seq<Rule>): (s: seq<string>)
    ensures |s| == |records| && forall k :: 0 <= k < |records| ==> s[k] == Rename(records[k], table)
  {
    seq(|records|, k requires 0 <= k < |records| => Rename(records[k], table))
  }

  // ----- Conditions on a table -----

  ghost predicate UniqueOld(table: seq<Rule>) {
    forall i, j :: 0 <= i < j < |table| ==> table[i].oldName != table[j].oldName
  }

  /** No new name is the old name of another entry, unless that entry changes nothing. */
  ghost predicate Unchained(table: seq<Rule>) {
    forall r1, r2 :: r1 in table && r2 in table && r1 != r2 && r1.newName == r2.oldName ==> r2.newName == r2.oldName
  }

  ghost predicate IsOrder(order: seq<Rule>, table: seq<Rule>) {
    multiset(order) == multiset(table)
  }

  lemma {:induction false} RenameFinds(name: string, table: seq<Rule>, r: Rule)
    requires UniqueOld(table) && r in table && r.oldName == name
    ensures Rename(name, table) == r.newName
  {
    if table[0] != r {
      var k :| 0 <= k < |table| && table[k] == r;
      assert r in table[1..] by { assert table[1..][k - 1] == r; }
      RenameFinds(name, table[1..], r);
    }
  }

  lemma {:induction false} RenameMisses(name: string, table: seq<Rule>)
    requires forall r <- table :: r.oldName != name
    ensures Rename(name, table) == name
  {
    if table != [] { RenameMisses(name, table[1..]); }
  }

  // ----- One record through the updates -----

  function RunName(name: string, order: seq<Rule>): string
    decreases order
  {
    if order == [] then name else RunName(RenameOne(name, order[0]), order[1..])
  }

  lemma {:induction false} RunManyByRecord(records: seq<string>, order: seq<Rule>, k: nat)
    requires k < |records|
    ensures RunMany(records, order)[k] == RunName(records[k], order)
    decreases order
  {
    if order != [] { RunManyByRecord(UpdateMany(records, order[0]), order[1..], k); }
  }

  lemma {:induction false} RunNameStays(name: string, order: seq<Rule>)
    requires forall r <- order :: r.oldName == name ==> r.newName == name
    ensures RunName(name, order) == name
    decreases order
  {
    if order != [] { RunNameStays(name, order[1..]); }
  }

  lemma {:induction false} RunNameAppend(name: string, a: seq<Rule>, b: seq<Rule>)
    ensures RunName(name, a + b) == RunName(RunName(name, a), b)
    decreases a
  {
    if a == [] {
      assert a + b == b;
    } else {
      assert (a + b)[1..] == a[1..] + b;
      RunNameAppend(RenameOne(name, a[0]), a[1..], b);
    }
  }

  ghost predicate SameMembers(order: seq<Rule>, table: seq<Rule>) {
    forall r :: r in order <==> r in table
  }

  lemma OrderMembers(order: seq<Rule>, table: seq<Rule>)
    requires IsOrder(order, table)
    ensures SameMembers(order, table) && |order| == |table|
  {
    forall r ensures r in order <==> r in table {
      assert r in multiset(order) <==> r in multiset(table);
    }
    assert |multiset(order)| == |multiset(table)|;
  }

  lemma SameOldSameRule(table: seq<Rule>, q: Rule, r: Rule)
    requires UniqueOld(table) && q in table && r in table && q.oldName == r.oldName
    ensures q == r
  {
  }

  /** A name renamed by some entry of the rest is renamed exactly so by running the rest. */
  lemma {:induction false} RunNameRenames(name: string, order: seq<Rule>, r: Rule, table: seq<Rule>)
    requires UniqueOld(table) && Unchained(table) && r in order && r.oldName == name
    requires forall q <- order :: q in table
    ensures RunName(name, order) == r.newName
    decreases order
  {
    var q := order[0];
    if q.oldName == name {
      assert q == r by { SameOldSameRule(table, q, r); }
      forall p | p in order[1..] && p.oldName == r.newName ensures p.newName == r.newName {
        assert p == r || p != r;
      }
      RunNameStays(r.newName, order[1..]);
    } else {
      assert r in order[1..] by {
        var k :| 0 <= k < |order| && order[k] == r;
        assert order[1..][k - 1] == r;
      }
      RunNameRenames(name, order[1..], r, table);
    }
  }

  lemma RunNameIsRename(name: string, order: seq<Rule>, table: seq<Rule>)
    requires UniqueOld(table) && Unchained(table) && IsOrder(order, table)
    ensures RunName(name, order) == Rename(name, table)
  {
    OrderMembers(order, table);
    if r :| r in table && r.oldName == name {
      RunNameRenames(name, order, r, table);
      RenameFinds(name, table, r);
    } else {
      RunNameStays(name, order);
      RenameMisses(name, table);
    }
  }

  /** In every order the multi updates are the simultaneous rename, if the table is unchained. */
  lemma RunManyIsSimultaneous(records: seq<string>, order: seq<Rule>, table: seq<Rule>)
    requires UniqueOld(table) && Unchained(table) && IsOrder(order, table)
    ensures RunMany(records, order) == Simultaneous(records, table)
  {
    forall k | 0 <= k < |records| ensures RunMany(records, order)[k] == Simultaneous(records, table)[k] {
      RunManyByRecord(records, order, k);
      RunNameIsRename(records[k], order, table);
    }
  }

  // ----- Necessity -----

  function Without(table: seq<Rule>, r: Rule): (s: seq<Rule>)
    requires r in table
    ensures multiset(table) == multiset(s) + multiset{r}
  {
    if table[0] == r then
      assert table == [table[0]] + table[1..];
      table[1..]
    else
      assert table == [table[0]] + table[1..];
      [table[0]] + Without(table[1..], r)
  }

  lemma ChainRenamesTwice(rest: seq<Rule>, r1: Rule, r2: Rule)
    requires forall q <- rest :: q.oldName != r1.oldName
    requires r1.newName == r2.oldName
    ensures RunName(r1.oldName, rest + [r1, r2]) == r2.newName
  {
    RunNameStays(r1.oldName, rest);
    RunNameAppend(r1.oldName, rest, [r1, r2]);
    assert [r1, r2][1..] == [r2] && [r2][1..] == [];
    assert RunName(r1.newName, [r2]) == RunName(r2.newName, []);
    assert RunName(r1.oldName, [r1, r2]) == RunName(r1.newName, [r2]);
  }

  lemma TakenOutAndAppended(table: seq<Rule>, less: seq<Rule>, rest: seq<Rule>, r1: Rule, r2: Rule)
    requires multiset(table) == multiset(less) + multiset{r1} && multiset(less) == multiset(rest) + multiset{r2}
    ensures IsOrder(rest + [r1, r2], table)
  {
  }

  lemma CountAtMostOnce(table: seq<Rule>, r: Rule)
    requires UniqueOld(table)
    ensures multiset(table)[r] <= 1
  {
    if table != [] {
      assert table == [table[0]] + table[1..];
      CountAtMostOnce(table[1..], r);
      if r == table[0] { assert r !in table[1..]; }
    }
  }

  lemma RestHasOtherOld(table: seq<Rule>, r1: Rule, less: seq<Rule>, rest: seq<Rule>, r2: Rule, q: Rule)
    requires UniqueOld(table) && r1 in table && q in rest
    requires multiset(table) == multiset(less) + multiset{r1} && multiset(less) == multiset(rest) + multiset{r2}
    ensures q.oldName != r1.oldName
  {
    assert q in multiset(rest) && q in multiset(less) && q in multiset(table);
    CountAtMostOnce(table, r1);
    assert r1 !in multiset(less);
    if q.oldName == r1.oldName { SameOldSameRule(table, q, r1); }
  }

  lemma PutLast(table: seq<Rule>, r1: Rule, r2: Rule) returns (rest: seq<Rule>)
    requires UniqueOld(table) && r1 in table && r2 in table && r1 != r2
    ensures IsOrder(rest + [r1, r2], table)
    ensures forall q <- rest :: q.oldName != r1.oldName
  {
    hide UniqueOld, IsOrder;
    var less := Without(table, r1);
    assert r2 in multiset(table) && r2 in multiset(less) && r2 in less;
    rest := Without(less, r2);
    TakenOutAndAppended(table, less, rest, r1, r2);
    forall q | q in rest ensures q.oldName != r1.oldName {
      RestHasOtherOld(table, r1, less, rest, r2, q);
    }
  }

  /** A chained table has an order that renames some record twice. */
  lemma ChainedOrderDiffers(table: seq<Rule>, r1: Rule, r2: Rule) returns (order: seq<Rule>, records: seq<string>)
    requires UniqueOld(table) && r1 in table && r2 in table && r1 != r2
    requires r1.newName == r2.oldName && r2.newName != r2.oldName
    ensures IsOrder(order, table) && RunMany(records, order) != Simultaneous(records, table)
  {
    var rest := PutLast(table, r1, r2);
    order, records := rest + [r1, r2], [r1.oldName];
    ChainRenamesTwice(rest, r1, r2);
    RunManyByRecord(records, order, 0);
    RenameFinds(r1.oldName, table, r1);
    assert RunMany(records, order)[0] != Simultaneous(records, table)[0];
  }

  /** The multi updates equal the simultaneous rename for all records and in every order exactly when no
      new name feeds another entry. */
  lemma EveryOrderIsSimultaneousExactly(table: seq<Rule>)
    requires UniqueOld(table)
    ensures Unchained(table) <==>
            forall order, records :: IsOrder(order, table) ==> RunMany(records, order) == Simultaneous(records, table)
  {
    if Unchained(table) {
      forall order, records | IsOrder(order, table)
        ensures RunMany(records, order) == Simultaneous(records, table)
      {
        RunManyIsSimultaneous(records, order, table);
      }
    } else {
      var r1, r2 :| r1 in table && r2 in table && r1 != r2 && r1.newName == r2.oldName && r2.newName != r2.oldName;
      var order, records := ChainedOrderDiffers(table, r1, r2);
    }
  }

  // ----- Single updates -----

  ghost predicate AtMostOnce(records: seq<string>, name: string) {
    forall i, j :: 0 <= i < j < |records| ==> !(records[i] == name && records[j] == name)
  }

  /** Each old name that an entry changes occurs at most once. */
  ghost predicate Single(records: seq<string>, rules: seq<Rule>) {
    forall r <- rules :: r.newName != r.oldName ==> AtMostOnce(records, r.oldName)
  }

  lemma SingleUpdateIsMulti(records: seq<string>, r: Rule)
    requires r.newName != r.oldName ==> AtMostOnce(records, r.oldName)
    ensures UpdateOne(records, r) == UpdateMany(records, r)
  {
  }

  lemma UpdateKeepsSingle(records: seq<string>, q: Rule, rest: seq<Rule>)
    requires Single(records, rest)
    requires forall r <- rest :: q.newName == r.oldName ==> r.newName == r.oldName
    ensures Single(UpdateMany(records, q), rest)
  {
  }

  lemma {:induction false} SingleRunIsMulti(records: seq<string>, order: seq<Rule>, table: seq<Rule>)
    requires Unchained(table) && Single(records, order) && forall r <- order :: r in table
    ensures RunOne(records, order) == RunMany(records, order)
    decreases order
  {
    if order != [] {
      var q, rest := order[0], order[1..];
      SingleUpdateIsMulti(records, q);
      forall r | r in rest && q.newName == r.oldName ensures r.newName == r.oldName {
        assert q in table && r in table;
      }
      UpdateKeepsSingle(records, q, rest);
      SingleRunIsMulti(UpdateMany(records, q), rest, table);
    }
  }

  lemma {:induction false} UntouchedRecordStays(records: seq<string>, order: seq<Rule>, j: nat)
    requires j < |records| && forall r <- order :: r.oldName != records[j]
    ensures RunOne(records, order)[j] == records[j]
    decreases order
  {
    if order != [] { UntouchedRecordStays(UpdateOne(records, order[0]), order[1..], j); }
  }

  /** Of two records of one old name the second is left behind. */
  lemma {:induction false} SecondRecordLeftBehind(records: seq<string>, order: seq<Rule>, name: string, i: nat, j: nat)
    requires i < j < |records| && records[i] == name && records[j] == name && UniqueOld(order)
    ensures RunOne(records, order)[j] == name
    decreases order
  {
    if order != [] {
      var q, records' := order[0], UpdateOne(records, order[0]);
      if q.oldName == name {
        assert records'[j] == name;
        forall r | r in order[1..] ensures r.oldName != name {
          var k :| 0 <= k < |order[1..]| && order[1..][k] == r;
          assert order[k + 1] == r;
        }
        UntouchedRecordStays(records', order[1..], j);
      } else {
        SecondRecordLeftBehind(records', order[1..], name, i, j);
      }
    }
  }

  lemma TwiceCounted(order: seq<Rule>, i: nat, j: nat)
    requires i < j < |order| && order[i] == order[j]
    ensures multiset(order)[order[i]] >= 2
  {
    assert order == order[..j] + [order[j]] + order[j + 1..];
    assert order[i] in order[..j];
  }

  lemma OrderIsUnique(order: seq<Rule>, table: seq<Rule>)
    requires UniqueOld(table) && IsOrder(order, table)
    ensures UniqueOld(order)
  {
    OrderMembers(order, table);
    forall i, j | 0 <= i < j < |order| ensures order[i].oldName != order[j].oldName {
      if order[i].oldName == order[j].oldName {
        SameOldSameRule(table, order[i], order[j]);
        CountAtMostOnce(table, order[i]);
        TwiceCounted(order, i, j);
      }
    }
  }

  /** With single updates, in any order, the outcome is the simultaneous rename exactly when every old name
      to be changed occurs at most once among the records. */
  lemma SingleUpdatesSimultaneousExactly(records: seq<string>, order: seq<Rule>, table: seq<Rule>)
    requires UniqueOld(table) && Unchained(table) && IsOrder(order, table)
    ensures RunOne(records, order) == Simultaneous(records, table) <==> Single(records, table)
  {
    OrderMembers(order, table);
    if Single(records, table) {
      SingleRunIsMulti(records, order, table);
      RunManyIsSimultaneous(records, order, table);
    } else {
      var r :| r in table && r.newName != r.oldName && !AtMostOnce(records, r.oldName);
      var i: nat, j: nat :| i < j < |records| && records[i] == r.oldName && records[j] == r.oldName;
      OrderIsUnique(order, table);
      SecondRecordLeftBehind(records, order, r.oldName, i, j);
      RenameFinds(r.oldName, table, r);
    }
  }

  // ----- The updates in place -----

  class Collection {
    var names: seq<string>

    constructor (names: seq<string>)
      ensures this.names == names
    {
      this.names := names;
    }

    /** updateOne for every entry, in the order in which the database takes them. */
    method UpdateEachOnce(order: seq<Rule>)
      modifies this
      ensures names == RunOne(old(names), order)
    {
      var k := 0;
      while k < |order|
        invariant 0 <= k <= |order|
        invariant RunOne(names, order[k..]) == RunOne(old(names), order)
      {
        assert order[k..][1..] == order[k + 1..];
        var i := IndexOf(names, order[k].oldName);
        if i < |names| {
          names := names[i := order[k].newName];
        }
        k := k + 1;
      }
    }

    /** A series of multi updates. */
    method UpdateEachMany(order: seq<Rule>)
      modifies this
      ensures names == RunMany(old(names), order)
    {
      var k := 0;
      while k < |order|
        invariant 0 <= k <= |order|
        invariant RunMany(names, order[k..]) == RunMany(old(names), order)
      {
        assert order[k..][1..] == order[k + 1..];
        names := UpdateMany(names, order[k]);
        k := k + 1;
      }
    }
  }

  // ----- The shipped tables -----

  const COUNTRIES: seq<Rule> := [
    Rule("Viet Nam", "Vietnam"),
    Rule("Venezuela, Bolivarian Republic of", "Venezuela"),
    Rule("Holy See (Vatican City State)", "Vatican City State"),
    Rule("United States Minor Outlying Islands", "US Minor Outlying Islands"),
    Rule("Taiwan, Province of China", "Taiwan"),
    Rule("Sint Maarten (Dutch part)", "Sint Maarten"),
    Rule("Saint Helena, Ascension and Tristan da Cunha", "Saint Helena"),
    Rule("R\U{E9}union", "Reunion"),
    Rule("Palestine, State of", "Palestinian Territory, Occupied"),
    Rule("Macedonia, the Former Yugoslav Republic of", "Macedonia"),
    Rule("Saint Martin(French part)", "Saint Martin"),
    Rule("Libya", "Libyan Arab Jamahiriya"),
    Rule("Lao People's Democratic Republic", "Lao"),
    Rule("Korea, Democratic People's Republic of", "Korea, Demo. People's Rep"),
    Rule("Heard Island and McDonald Islands", "Heard Is. & Mcdonald Islands"),
    Rule("South Georgia and the South Sandwich Islands", "S.Georgia & S.Sandwich Is"),
    Rule("Micronesia, Federated States of", "Micronesia"),
    Rule("Congo, the Democratic Republic of the", "Congo, Democratic Republic"),
    Rule("Bolivia, Plurinational State of", "Bolivia"),
    Rule("Saint Barth\U{E9}lemy", "Saint Barthelemy"),
    Rule("\U{C5}land Islands", "Aland Islands")
  ]

  const STATUSES: seq<Rule> := [
    Rule("approved", "In progress"),
    Rule("delivered", "Delivered"),
    Rule("cancelled", "Cancelled"),
    Rule("quotationRequired", "On Hold"),
    Rule("toBeTreated", "To be processed"),
    Rule("waitingForQuote", "Waiting for Quote"),
    Rule("waitingForApproval", "Waiting for approval")
  ]

  /** The lengths of the names. */
  const COUNTRY_OLD: seq<nat> := [8, 33, 29, 36, 25, 25, 44, 7, 19, 42, 25, 5, 32, 38, 33, 44, 31, 37, 31, 16, 13]
  const COUNTRY_NEW: seq<nat> := [7, 9, 18, 25, 6, 12, 12, 7, 31, 9, 12, 22, 3, 25, 28, 25, 10, 26, 7, 16, 13]
  const STATUS_OLD: seq<nat> := [8, 9, 9, 17, 11, 15, 18]
  const STATUS_NEW: seq<nat> := [11, 9, 9, 7, 15, 17, 20]

  ghost predicate Measured(table: seq<Rule>, olds: seq<nat>, news: seq<nat>) {
    |olds| == |news| == |table| &&
    forall i :: 0 <= i < |table| ==> |table[i].oldName| == olds[i] && |table[i].newName| == news[i]
  }

  /** Only names of the same length have to be compared. */
  lemma MeasuredTableIsSound(table: seq<Rule>, olds: seq<nat>, news: seq<nat>)
    requires Measured(table, olds, news)
    requires forall i, j :: 0 <= i < j < |table| && olds[i] == olds[j] ==> table[i].oldName != table[j].oldName
    requires forall i, j :: 0 <= i < |table| && 0 <= j < |table| && news[i] == olds[j] ==>
               table[i].newName != table[j].oldName
    ensures UniqueOld(table) && Unchained(table)
  {
    forall i, j | 0 <= i < |table| && 0 <= j < |table| ensures table[i].newName != table[j].oldName {
    }
    forall i, j | 0 <= i < j < |table| ensures table[i].oldName != table[j].oldName {
    }
  }

  lemma CountriesMeasured()
    ensures Measured(COUNTRIES, COUNTRY_OLD, COUNTRY_NEW)
  {
  }

  lemma StatusesMeasured()
    ensures Measured(STATUSES, STATUS_OLD, STATUS_NEW)
  {
  }

  lemma OldCountriesDiffer(i: nat, j: nat)
    requires i < j < |COUNTRY_OLD| && COUNTRY_OLD[i] == COUNTRY_OLD[j]
    ensures j < |COUNTRIES| && COUNTRIES[i].oldName != COUNTRIES[j].oldName
  {
  }

  lemma EarlierNewCountriesDiffer(i: nat, j: nat)
    requires i < 11 && j < |COUNTRY_OLD| && COUNTRY_NEW[i] == COUNTRY_OLD[j]
    ensures i < |COUNTRIES| && j < |COUNTRIES| && COUNTRIES[i].newName != COUNTRIES[j].oldName
  {
  }

  lemma LaterNewCountriesDiffer(i: nat, j: nat)
    requires 11 <= i < |COUNTRY_NEW| && j < |COUNTRY_OLD| && COUNTRY_NEW[i] == COUNTRY_OLD[j]
    ensures i < |COUNTRIES| && j < |COUNTRIES| && COUNTRIES[i].newName != COUNTRIES[j].oldName
  {
  }

  lemma CountriesSound()
    ensures UniqueOld(COUNTRIES) && Unchained(COUNTRIES)
  {
    hide UniqueOld, Unchained, COUNTRIES;
    CountriesMeasured();
    forall i, j | 0 <= i < j < |COUNTRIES| && COUNTRY_OLD[i] == COUNTRY_OLD[j]
      ensures COUNTRIES[i].oldName != COUNTRIES[j].oldName
    {
      OldCountriesDiffer(i, j);
    }
    forall i, j | 0 <= i < |COUNTRIES| && 0 <= j < |COUNTRIES| && COUNTRY_NEW[i] == COUNTRY_OLD[j]
      ensures COUNTRIES[i].newName != COUNTRIES[j].oldName
    {
      if i < 11 { EarlierNewCountriesDiffer(i, j); } else { LaterNewCountriesDiffer(i, j); }
    }
    MeasuredTableIsSound(COUNTRIES, COUNTRY_OLD, COUNTRY_NEW);
  }

  lemma StatusesDiffer(i: nat, j: nat)
    requires i < |STATUS_NEW| && j < |STATUS_OLD|
    ensures i < |STATUSES| && j < |STATUSES|
    ensures i < j && STATUS_OLD[i] == STATUS_OLD[j] ==> STATUSES[i].oldName != STATUSES[j].oldName
    ensures STATUS_NEW[i] == STATUS_OLD[j] ==> STATUSES[i].newName != STATUSES[j].oldName
  {
  }

  lemma StatusesSound()
    ensures UniqueOld(STATUSES) && Unchained(STATUSES)
  {
    hide UniqueOld, Unchained, STATUSES;
    StatusesMeasured();
    forall i, j | 0 <= i < |STATUSES| && 0 <= j < |STATUSES|
      ensures i < j && STATUS_OLD[i] == STATUS_OLD[j] ==> STATUSES[i].oldName != STATUSES[j].oldName
      ensures STATUS_NEW[i] == STATUS_OLD[j] ==> STATUSES[i].newName != STATUSES[j].oldName
    {
      StatusesDiffer(i, j);
    }
    MeasuredTableIsSound(STATUSES, STATUS_OLD, STATUS_NEW);
  }

  /** The country table: in every order of the concurrent single updates the outcome is the simultaneous
      rename exactly when no old country name occurs twice. */
  lemma CountryRenames(records: seq<string>)
    ensures forall order :: IsOrder(order, COUNTRIES) ==>
              (RunOne(records, order) == Simultaneous(records, COUNTRIES) <==> Single(records, COUNTRIES))
  {
    hide *;
    CountriesSound();
    forall order | IsOrder(order, COUNTRIES)
      ensures RunOne(records, order) == Simultaneous(records, COUNTRIES) <==> Single(records, COUNTRIES)
    {
      SingleUpdatesSimultaneousExactly(records, order, COUNTRIES);
    }
  }

  /** The status table: the series of multi updates is the simultaneous rename of all records. */
  lemma StatusRenames(records: seq<string>)
    ensures RunMany(records, STATUSES) == Simultaneous(records, STATUSES)
  {
    StatusesSound();
    RunManyIsSimultaneous(records, STATUSES, STATUSES);
  }
}
