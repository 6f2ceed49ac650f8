/** The rule by which the quantities of a provider task are copied, by index, into billDetails and
    invoiceDetails: overwrite the slot of that index when there is one, push otherwise. The callbacks
    wait for two database reads and may therefore finish in any order. */
module SlotFilling {
  import opened Basics

  /** An array element: the fields that the migration assigns, and all the other fields. */
  datatype Detail<P> = Detail(written: P, rest: map<string, string>)

  /** A details array; `None` is an element that is null or undefined. */
  type Slots<P> = seq<Option<Detail<P>>>

  /** What one finished callback writes. */
  datatype Write<P> = Write(index: nat, payload: P)

  function Fill<P>(slots: Slots<P>, w: Write<P>): Slots<P> {
    if w.index < |slots| && slots[w.index].Some?
    then slots[w.index := Some(slots[w.index].value.(written := w.payload))]
    else slots + [Some(Detail(w.payload, map[]))]
  }

  function Run<P>(slots: Slots<P>, ws: seq<Write<P>>): Slots<P>
    decreases ws
  {
    if ws == [] then slots else Run(Fill(slots, ws[0]), ws[1..])
  }

  function Indices<P>(ws: seq<Write<P>>): (r: seq<nat>)
    ensures |r| == |ws| && forall k :: 0 <= k < |ws| ==> r[k] == ws[k].index
  {
    if ws == [] then [] else [ws[0].index] + Indices(ws[1..])
  }

  ghost predicate Bounded(order: seq<nat>, n: nat) {
    forall k :: 0 <= k < |order| ==> order[k] < n
  }

  /** Each write carries the entry of `payloads` at its index. */
  ghost predicate FromList<P>(ws: seq<Write<P>>, payloads: seq<P>) {
    forall k :: 0 <= k < |ws| ==> ws[k].index < |payloads| && ws[k].payload == payloads[ws[k].index]
  }

  /** The writes of the callbacks of one quantity list, in completion order. */
  function Callbacks<P>(order: seq<nat>, payloads: seq<P>): (r: seq<Write<P>>)
    requires Bounded(order, |payloads|)
    ensures Indices(r) == order && FromList(r, payloads)
  {
    if order == [] then [] else [Write(order[0], payloads[order[0]])] + Callbacks(order[1..], payloads)
  }

  // ----- Conditions on the completion order and on the array -----

  ghost predicate Distinct(order: seq<nat>) {
    forall p, q :: 0 <= p < q < |order| ==> order[p] != order[q]
  }

  /** Every one of the n callbacks finishes exactly once. */
  ghost predicate IsSchedule(order: seq<nat>, n: nat) {
    Bounded(order, n) && Distinct(order) && forall i: nat :: i < n ==> i in order
  }

  /** The callbacks for the indices from `b` on finish in increasing order. */
  ghost predicate InOrderFrom(order: seq<nat>, b: nat) {
    forall p, q :: 0 <= p < q < |order| && b <= order[p] && b <= order[q] ==> order[p] < order[q]
  }

  /** Before an index is written, all smaller indices past the end of the array have been. */
  ghost predicate Gapless(order: seq<nat>, len: nat) {
    forall k, i: nat :: 0 <= k < |order| && len <= i < order[k] ==> i in order[..k]
  }

  /** No nil element among the first n. */
  ghost predicate Ready<P>(slots: Slots<P>, n: nat) {
    forall i :: 0 <= i < |slots| && i < n ==> slots[i].Some?
  }

  /** Slot i carries payload i, for every i. */
  ghost predicate Aligned<P>(slots: Slots<P>, payloads: seq<P>) {
    |payloads| <= |slots| &&
    forall i :: 0 <= i < |payloads| ==> slots[i].Some? && slots[i].value.written == payloads[i]
  }

  ghost predicate Within<P>(ws: seq<Write<P>>, n: nat) {
    forall k :: 0 <= k < |ws| ==> ws[k].index < n
  }

  // ----- What a gapless run leaves in each slot -----

  ghost predicate Touched<P>(ws: seq<Write<P>>, i: nat) {
    exists k :: 0 <= k < |ws| && ws[k].index == i
  }

  /** The payload of the last write to index i. */
  ghost function LastPayload<P>(ws: seq<Write<P>>, i: nat): P
    requires Touched(ws, i)
  {
    var last := ws[|ws| - 1];
    if last.index == i then last.payload else LastPayload(ws[..|ws| - 1], i)
  }

  function RestAt<P>(slots: Slots<P>, i: nat): map<string, string> {
    if i < |slots| && slots[i].Some? then slots[i].value.rest else map[]
  }

  /** `after` is `before` with every written index holding its last payload beside its old other
      fields, every other slot as it was, and no further slot. */
  ghost predicate WrittenOver<P>(before: Slots<P>, ws: seq<Write<P>>, after: Slots<P>) {
    && |before| <= |after|
    && (forall i: nat :: Touched(ws, i) ==> i < |after|)
    && (forall i: nat :: i < |after| ==> i < |before| || Touched(ws, i))
    && (forall i: nat :: i < |after| ==>
          after[i] == if Touched(ws, i) then Some(Detail(LastPayload(ws, i), RestAt(before, i))) else before[i])
  }

  lemma RunSnoc<P>(slots: Slots<P>, ws: seq<Write<P>>, w: Write<P>)
    ensures Run(slots, ws + [w]) == Fill(Run(slots, ws), w)
    decreases ws
  {
    if ws == [] {
      assert (ws + [w])[1..] == [];
    } else {
      assert (ws + [w])[1..] == ws[1..] + [w];
      RunSnoc(Fill(slots, ws[0]), ws[1..], w);
    }
  }

  lemma TouchedIsIndex<P>(ws: seq<Write<P>>, i: nat)
    ensures Touched(ws, i) <==> i in Indices(ws)
  {
  }

  lemma TouchedSnoc<P>(ws: seq<Write<P>>, w: Write<P>, i: nat)
    ensures Touched(ws + [w], i) <==> Touched(ws, i) || i == w.index
    ensures Touched(ws, i) && i != w.index ==> LastPayload(ws + [w], i) == LastPayload(ws, i)
    ensures i == w.index ==> LastPayload(ws + [w], i) == w.payload
  {
    assert (ws + [w])[..|ws|] == ws;
    if Touched(ws, i) {
      var k :| 0 <= k < |ws| && ws[k].index == i;
      assert (ws + [w])[k].index == i;
    }
    if i == w.index { assert (ws + [w])[|ws|].index == i; }
  }

  lemma FillWritesOver<P>(before: Slots<P>, ws: seq<Write<P>>, mid: Slots<P>, w: Write<P>, n: nat)
    requires WrittenOver(before, ws, mid) && Ready(before, n) && w.index < n && w.index <= |mid|
    ensures WrittenOver(before, ws + [w], Fill(mid, w))
  {
    var after := Fill(mid, w);
    TouchedSnoc(ws, w, w.index);
    forall i: nat | Touched(ws + [w], i) ensures i < |after| { TouchedSnoc(ws, w, i); }
    forall i: nat | i < |after|
      ensures i < |before| || Touched(ws + [w], i)
      ensures after[i] == if Touched(ws + [w], i)
                          then Some(Detail(LastPayload(ws + [w], i), RestAt(before, i))) else before[i]
    {
      TouchedSnoc(ws, w, i);
    }
  }

  lemma GaplessPrefix(order: seq<nat>, len: nat)
    requires order != [] && Gapless(order, len)
    ensures Gapless(order[..|order| - 1], len)
  {
    var front := order[..|order| - 1];
    forall k, i: nat | 0 <= k < |front| && len <= i < front[k] ensures i in front[..k] {
      assert front[..k] == order[..k];
    }
  }

  lemma IndicesPrefix<P>(ws: seq<Write<P>>, m: nat)
    requires m <= |ws|
    ensures Indices(ws[..m]) == Indices(ws)[..m]
  {
  }

  /** A gapless completion order never misplaces a write. */
  lemma {:induction false} GaplessRunWritesOver<P>(slots: Slots<P>, ws: seq<Write<P>>, n: nat)
    requires Ready(slots, n) && Within(ws, n) && Gapless(Indices(ws), |slots|)
    ensures WrittenOver(slots, ws, Run(slots, ws))
    decreases |ws|
  {
    if ws != [] {
      var m := |ws| - 1;
      var front, last := ws[..m], ws[m];
      assert ws == front + [last];
      IndicesPrefix(ws, m);
      GaplessPrefix(Indices(ws), |slots|);
      GaplessRunWritesOver(slots, front, n);
      RunSnoc(slots, front, last);
      var mid := Run(slots, front);
      TouchedIsIndex(front, |mid|);
      assert |mid| in Indices(ws)[..m] || last.index <= |mid|;
      FillWritesOver(slots, front, mid, last, n);
    }
  }

  // ----- Which completion orders keep one quantity list aligned -----

  function Beyond(order: seq<nat>, b: nat): seq<nat> {
    if order == [] then []
    else if order[0] < b then Beyond(order[1..], b)
    else [order[0]] + Beyond(order[1..], b)
  }

  function Upward(lo: nat, hi: nat): (r: seq<nat>)
    requires lo <= hi
    ensures |r| == hi - lo && forall i: nat :: i in r <==> lo <= i < hi
    decreases hi - lo
  {
    if lo == hi then [] else [lo] + Upward(lo + 1, hi)
  }

  lemma BeyondMembers(order: seq<nat>, b: nat)
    ensures forall i: nat :: i in Beyond(order, b) <==> i in order && b <= i
  {
  }

  lemma BeyondDistinct(order: seq<nat>, b: nat)
    requires Distinct(order)
    ensures Distinct(Beyond(order, b))
  {
    if order != [] {
      BeyondDistinct(order[1..], b);
      BeyondMembers(order[1..], b);
      assert order[0] !in order[1..];
    }
  }

  lemma {:induction false} DistinctRangeLength(s: seq<nat>, lo: nat, hi: nat)
    requires lo <= hi && Distinct(s) && forall i: nat :: i in s <==> lo <= i < hi
    ensures |s| == hi - lo
    decreases hi - lo
  {
    if s == [] {
      assert lo !in s;
    } else {
      assert s[0] in s;
      assert hi - 1 in s;
      var k :| 0 <= k < |s| && s[k] == hi - 1;
      var t := s[..k] + s[k + 1..];
      forall i: nat ensures i in t <==> lo <= i < hi - 1 {
        if i in s && i != hi - 1 {
          var j :| 0 <= j < |s| && s[j] == i;
          assert t[if j < k then j else j - 1] == i;
        }
        if i in t {
          var j :| 0 <= j < |t| && t[j] == i;
          assert s[if j < k then j else j + 1] == i;
        }
      }
      DistinctRangeLength(t, lo, hi - 1);
    }
  }

  lemma ScheduleBeyondLength(order: seq<nat>, b: nat, n: nat)
    requires IsSchedule(order, n) && b <= n
    ensures |Beyond(order, b)| == n - b
  {
    BeyondMembers(order, b);
    BeyondDistinct(order, b);
    DistinctRangeLength(Beyond(order, b), b, n);
  }

  lemma {:induction false} LengthBounds<P>(slots: Slots<P>, ws: seq<Write<P>>)
    ensures |slots| <= |Run(slots, ws)|
    decreases ws
  {
    if ws != [] { LengthBounds(Fill(slots, ws[0]), ws[1..]); }
  }

  /** A run that pushes for every index past the old end pushes them in increasing order. */
  lemma {:induction false} FullLengthForcesOrder<P>(slots: Slots<P>, ws: seq<Write<P>>, b: nat, n: nat)
    requires Ready(slots, n) && Within(ws, n) && b <= |slots| <= n
    requires Distinct(Indices(ws))
    ensures |Run(slots, ws)| <= |slots| + |Beyond(Indices(ws), b)|
    ensures |slots| + |Beyond(Indices(ws), b)| == n && |Run(slots, ws)| == n ==>
              Beyond(Indices(ws), b) == Upward(|slots|, n)
    decreases ws
  {
    if ws != [] {
      var slots' := Fill(slots, ws[0]);
      assert Indices(ws)[1..] == Indices(ws[1..]);
      if |slots'| <= n {
        FullLengthForcesOrder(slots', ws[1..], b, n);
        BeyondMembers(Indices(ws[1..]), b);
        if |slots| + |Beyond(Indices(ws), b)| == n && |Run(slots, ws)| == n {
          if |slots'| == |slots| + 1 {
            var first := ws[0].index;
            assert first !in Indices(ws[1..]);
            assert Beyond(Indices(ws), b) == [first] + Upward(|slots| + 1, n) == Upward(|slots|, n);
          }
        }
      }
    }
  }

  lemma {:induction false} UpwardBeyondIsInOrder(order: seq<nat>, b: nat, lo: nat, hi: nat)
    requires b <= lo <= hi && Beyond(order, b) == Upward(lo, hi)
    ensures InOrderFrom(order, b)
    decreases order
  {
    if order != [] {
      BeyondMembers(order[1..], b);
      if order[0] < b {
        UpwardBeyondIsInOrder(order[1..], b, lo, hi);
      } else {
        assert Upward(lo, hi)[0] == lo;
        assert Beyond(order[1..], b) == Upward(lo, hi)[1..] == Upward(lo + 1, hi);
        UpwardBeyondIsInOrder(order[1..], b, lo + 1, hi);
      }
      forall p, q | 0 <= p < q < |order| && b <= order[p] && b <= order[q] ensures order[p] < order[q] {
        assert order[q] == order[1..][q - 1];
        if p == 0 {
          assert order[q] in Beyond(order[1..], b);
        } else {
          assert order[p] == order[1..][p - 1];
        }
      }
    }
  }

  lemma InOrderIsGapless(order: seq<nat>, b: nat, n: nat)
    requires IsSchedule(order, n) && InOrderFrom(order, b)
    ensures Gapless(order, b)
  {
    forall k, i: nat | 0 <= k < |order| && b <= i < order[k] ensures i in order[..k] {
      assert order[k] in order;
      assert i in order;
      var j :| 0 <= j < |order| && order[j] == i;
      assert order[..k][j] == i;
    }
  }

  lemma {:induction false} NilStays<P>(slots: Slots<P>, ws: seq<Write<P>>, i: nat)
    requires i < |slots| && slots[i].None?
    ensures i < |Run(slots, ws)| && Run(slots, ws)[i].None?
    decreases ws
  {
    if ws != [] { NilStays(Fill(slots, ws[0]), ws[1..], i); }
  }

  lemma {:induction false} LastPayloadOfList<P>(ws: seq<Write<P>>, payloads: seq<P>, i: nat)
    requires Touched(ws, i)
    requires FromList(ws, payloads)
    ensures i < |payloads| && LastPayload(ws, i) == payloads[i]
  {
    var m := |ws| - 1;
    if ws[m].index != i {
      assert Touched(ws[..m], i) by { var k :| 0 <= k < |ws| && ws[k].index == i; assert ws[..m][k].index == i; }
      LastPayloadOfList(ws[..m], payloads, i);
    }
  }

  /** The intended outcome: slot i holds payload i beside its old other fields, later slots are kept. */
  function Target<P>(slots: Slots<P>, payloads: seq<P>): (r: Slots<P>)
    ensures |r| == if |payloads| <= |slots| then |slots| else |payloads|
    ensures Aligned(r, payloads)
    ensures forall i :: |payloads| <= i < |r| ==> r[i] == slots[i]
    ensures forall i :: 0 <= i < |payloads| ==> r[i].value.rest == RestAt(slots, i)
  {
    seq(|payloads|, i requires 0 <= i < |payloads| => Some(Detail(payloads[i], RestAt(slots, i)))) +
    (if |payloads| <= |slots| then slots[|payloads|..] else [])
  }

  lemma WrittenListIsTarget<P>(slots: Slots<P>, ws: seq<Write<P>>, after: Slots<P>, payloads: seq<P>)
    requires WrittenOver(slots, ws, after) && FromList(ws, payloads)
    requires forall i: nat :: Touched(ws, i) <==> i < |payloads|
    ensures after == Target(slots, payloads)
  {
    hide Touched, LastPayload;
    var target := Target(slots, payloads);
    assert |after| == |target| by {
      assert !Touched(ws, |payloads|);
      assert payloads == [] || Touched(ws, |payloads| - 1);
      assert after == [] || |after| - 1 < |slots| || Touched(ws, |after| - 1);
    }
    forall i: nat | i < |after| ensures after[i] == target[i] {
      if Touched(ws, i) { LastPayloadOfList(ws, payloads, i); }
    }
  }

  lemma InOrderReachesTarget<P>(slots: Slots<P>, payloads: seq<P>, order: seq<nat>)
    requires IsSchedule(order, |payloads|) && Ready(slots, |payloads|) && InOrderFrom(order, |slots|)
    ensures Run(slots, Callbacks(order, payloads)) == Target(slots, payloads)
  {
    hide Touched, Target, WrittenOver, Run;
    var ws, n := Callbacks(order, payloads), |payloads|;
    InOrderIsGapless(order, |slots|, n);
    GaplessRunWritesOver(slots, ws, n);
    forall i: nat ensures Touched(ws, i) <==> i < n {
      TouchedIsIndex(ws, i);
    }
    WrittenListIsTarget(slots, ws, Run(slots, ws), payloads);
  }

  /** Exactly which completion orders keep the alignment, for every initial array: those in which the
      callbacks past the old end finish in increasing order, provided no slot to be written is nil. */
  lemma AlignedExactlyInOrder<P>(slots: Slots<P>, payloads: seq<P>, order: seq<nat>)
    requires IsSchedule(order, |payloads|)
    ensures var after := Run(slots, Callbacks(order, payloads));
            && (Aligned(after, payloads) <==> Ready(slots, |payloads|) && InOrderFrom(order, |slots|))
            && (after == Target(slots, payloads) <==> Aligned(after, payloads))
            && (Ready(slots, |payloads|) ==>
                  (|after| == (if |payloads| <= |slots| then |slots| else |payloads|) <==> InOrderFrom(order, |slots|)))
  {
    var ws, n := Callbacks(order, payloads), |payloads|;
    var after := Run(slots, ws);
    if !Ready(slots, n) {
      var i: nat :| i < |slots| && i < n && slots[i].None?;
      NilStays(slots, ws, i);
    } else if InOrderFrom(order, |slots|) {
      InOrderReachesTarget(slots, payloads, order);
    } else {
      assert |slots| < n;
      FullLengthForcesOrder(slots, ws, |slots|, n);
      ScheduleBeyondLength(order, |slots|, n);
      if |after| == n {
        UpwardBeyondIsInOrder(order, |slots|, |slots|, n);
      }
    }
  }

  /** When every quantity already has a slot, the completion order does not matter. */
  lemma OrderIrrelevantWhenSlotsExist<P>(slots: Slots<P>, payloads: seq<P>, order1: seq<nat>, order2: seq<nat>)
    requires |payloads| <= |slots| && Ready(slots, |payloads|)
    requires IsSchedule(order1, |payloads|) && IsSchedule(order2, |payloads|)
    ensures Run(slots, Callbacks(order1, payloads)) == Run(slots, Callbacks(order2, payloads))
    ensures Run(slots, Callbacks(order1, payloads)) == Target(slots, payloads)
  {
    InOrderReachesTarget(slots, payloads, order1);
    InOrderReachesTarget(slots, payloads, order2);
  }

  /** In every order, aligned or not, an old element keeps its other fields, and a pushed one has none. */
  lemma {:induction false} OtherFieldsStay<P>(slots: Slots<P>, ws: seq<Write<P>>, i: nat)
    ensures |slots| <= |Run(slots, ws)|
    ensures i < |slots| && slots[i].Some? ==>
              Run(slots, ws)[i].Some? && Run(slots, ws)[i].value.rest == slots[i].value.rest
    ensures |slots| <= i < |Run(slots, ws)| ==> Run(slots, ws)[i].Some? && Run(slots, ws)[i].value.rest == map[]
    decreases ws
  {
    if ws != [] { OtherFieldsStay(Fill(slots, ws[0]), ws[1..], i); }
  }

  // ----- Running again -----

  lemma {:induction false} MatchingRunIsIdentity<P>(slots: Slots<P>, ws: seq<Write<P>>)
    requires forall k :: 0 <= k < |ws| ==>
               && ws[k].index < |slots| && slots[ws[k].index].Some?
               && slots[ws[k].index].value.written == ws[k].payload
    ensures Run(slots, ws) == slots
    decreases ws
  {
    if ws != [] {
      assert Fill(slots, ws[0]) == slots;
      MatchingRunIsIdentity(slots, ws[1..]);
    }
  }

  lemma {:induction false} UnpushedRunHoldsLast<P>(slots: Slots<P>, ws: seq<Write<P>>, i: nat)
    requires |Run(slots, ws)| == |slots| && Touched(ws, i)
    ensures i < |slots| && Run(slots, ws)[i].Some? && Run(slots, ws)[i].value.written == LastPayload(ws, i)
    decreases ws
  {
    var m := |ws| - 1;
    var front := ws[..m];
    assert ws == front + [ws[m]];
    RunSnoc(slots, front, ws[m]);
    LengthBounds(slots, front);
    if ws[m].index != i {
      assert Touched(front, i) by { var k :| 0 <= k < |ws| && ws[k].index == i; assert front[k].index == i; }
      UnpushedRunHoldsLast(slots, front, i);
    }
  }

  /** A further run, in whatever order, changes nothing exactly when the array is aligned. */
  lemma RerunUnchangedExactlyWhenAligned<P>(slots: Slots<P>, payloads: seq<P>, order: seq<nat>)
    requires IsSchedule(order, |payloads|)
    ensures Run(slots, Callbacks(order, payloads)) == slots <==> Aligned(slots, payloads)
  {
    var ws := Callbacks(order, payloads);
    if Aligned(slots, payloads) {
      MatchingRunIsIdentity(slots, ws);
    }
    if Run(slots, ws) == slots {
      forall i: nat | i < |payloads|
        ensures i < |slots| && slots[i].Some? && slots[i].value.written == payloads[i]
      {
        TouchedIsIndex(ws, i);
        UnpushedRunHoldsLast(slots, ws, i);
        LastPayloadOfList(ws, payloads, i);
      }
      if payloads != [] {
        TouchedIsIndex(ws, |payloads| - 1);
        UnpushedRunHoldsLast(slots, ws, |payloads| - 1);
      }
    }
  }

  /** Out of order the claim fails: a callback that overtakes its predecessor loses a slot, and the next run
      appends it. */
  lemma OvertakingIsNotIdempotent(x: int, y: int)
    ensures var ws := [Write(1, y), Write(0, x)];
            && Run([], ws) == [Some(Detail(x, map[]))]
            && Run(Run([], ws), ws) == [Some(Detail(x, map[])), Some(Detail(y, map[]))]
  {
    var ws := [Write(1, y), Write(0, x)];
    assert ws[1..] == [Write(0, x)] && ws[1..][1..] == [];
    var none: Slots<int>, once: Slots<int> := [], [Some(Detail(x, map[]))];
    var overtaken: Slots<int>, twice: Slots<int> := [Some(Detail(y, map[]))], once + [Some(Detail(y, map[]))];
    assert Fill(none, ws[0]) == overtaken && Fill(overtaken, ws[1]) == once;
    assert Run(none, ws) == Run(overtaken, ws[1..]) == Run(once, []);
    assert Fill(once, ws[0]) == twice && Fill(twice, ws[1]) == twice;
    assert Run(once, ws) == Run(twice, ws[1..]) == Run(twice, []);
  }

  lemma GaplessForLonger(order: seq<nat>, len: nat, longer: nat)
    requires Gapless(order, len) && len <= longer
    ensures Gapless(order, longer)
  {
  }

  /** A gapless run that writes past the end writes at the end. */
  lemma GaplessTouchesEnd<P>(ws: seq<Write<P>>, len: nat, i: nat)
    requires Gapless(Indices(ws), len) && Touched(ws, i) && len <= i
    ensures Touched(ws, len)
  {
    TouchedIsIndex(ws, i);
    TouchedIsIndex(ws, len);
    var k :| 0 <= k < |ws| && Indices(ws)[k] == i;
    assert len == i || len in Indices(ws)[..k];
  }

  /** A single write, even a misplaced one, leaves no trace after a gapless run that covers its index. */
  lemma LaterRunAbsorbs<P>(slots: Slots<P>, w: Write<P>, later: seq<Write<P>>, n: nat)
    requires Ready(slots, n) && w.index < n && Within(later, n)
    requires Gapless(Indices(later), |slots|) && Touched(later, w.index)
    ensures Run(Fill(slots, w), later) == Run(slots, later)
  {
    hide Gapless, LastPayload, Touched, Run, Indices;
    var mid := Fill(slots, w);
    GaplessRunWritesOver(slots, later, n);
    GaplessForLonger(Indices(later), |slots|, |mid|);
    GaplessRunWritesOver(mid, later, n);
    if |mid| > |slots| { GaplessTouchesEnd(later, |slots|, w.index); }
    var both, once := Run(mid, later), Run(slots, later);
    assert |both| == |once| by {
      assert !Touched(later, |both|) && !Touched(later, |once|);
    }
    forall i: nat | i < |both| ensures both[i] == once[i] {
      assert Touched(later, i) || i < |slots|;
    }
  }

  /** A gapless run over at least the same indices erases every trace of an earlier run, in whatever order
      the writes of the earlier one came. */
  lemma {:induction false} LaterRunSupersedes<P>(slots: Slots<P>, earlier: seq<Write<P>>, later: seq<Write<P>>, n: nat)
    requires Ready(slots, n) && Within(earlier, n) && Within(later, n) && Gapless(Indices(later), |slots|)
    requires forall i: nat :: Touched(earlier, i) ==> Touched(later, i)
    ensures Run(Run(slots, earlier), later) == Run(slots, later)
    decreases earlier
  {
    if earlier != [] {
      var w, rest := earlier[0], earlier[1..];
      assert Touched(earlier, w.index);
      LaterRunAbsorbs(slots, w, later, n);
      forall i: nat | Touched(rest, i) ensures Touched(earlier, i) {
        var k :| 0 <= k < |rest| && rest[k].index == i;
        assert earlier[k + 1].index == i;
      }
      LaterRunSupersedes(Fill(slots, w), rest, later, n);
    }
  }
}
