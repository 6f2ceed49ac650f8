/** The dictionary rewriting of scheduler subjects and templates: one global replacement per entry, in
    the order of the dictionary. */
module ReplaceText {
  import opened Basics

  datatype Rule = Rule(key: string, value: string)

  const REPLACEMENT_DICT: seq<Rule> := [
    Rule("customers", "companies"),
    Rule("Customers", "Companies"),
    Rule("CUSTOMERS", "COMPANIES"),
    Rule("customer", "company"),
    Rule("Customer", "Company"),
    Rule("CUSTOMER", "COMPANY")
  ]

  // ----- Sequential replacement -----

  predicate StartsWith(s: string, key: string) {
    key <= s
  }

  /** text.replace(new RegExp(key, 'g'), value): leftmost occurrences, not overlapping. */
  function ReplaceAll(s: string, r: Rule): string
    requires r.key != []
  {
    if s == [] then []
    else if StartsWith(s, r.key) then r.value + ReplaceAll(s[|r.key|..], r)
    else [s[0]] + ReplaceAll(s[1..], r)
  }

  ghost predicate Keyed(rules: seq<Rule>) {
    forall i :: 0 <= i < |rules| ==> rules[i].key != []
  }

  // ----- One simultaneous pass -----

  /** The index of the first rule whose key starts s, or |rules|. */
  function FirstMatch(s: string, rules: seq<Rule>): (i: nat)
    ensures i <= |rules|
    ensures i < |rules| ==> StartsWith(s, rules[i].key)
    ensures forall j :: 0 <= j < i ==> !StartsWith(s, rules[j].key)
  {
    if rules == [] then 0
    else if StartsWith(s, rules[0].key) then 0
    else FirstMatch(s, rules[1..]) + 1
  }

  /** At each position the first matching rule is applied and its key skipped. */
  function Simultaneous(s: string, rules: seq<Rule>): string
    requires Keyed(rules)
  {
    if s == [] then []
    else
      var i := FirstMatch(s, rules);
      if i < |rules| then rules[i].value + Simultaneous(s[|rules[i].key|..], rules)
      else [s[0]] + Simultaneous(s[1..], rules)
  }

  // ----- When the two agree -----

  /** The two strings differ at some position that both have. */
  ghost predicate Clash(a: string, b: string) {
    exists k :: 0 <= k < |a| && k < |b| && a[k] != b[k]
  }

  /** The key cannot start at any position of the value, not even running over its end. */
  ghost predicate Foreign(key: string, value: string)
    requires key != []
  {
    value != [] ==> Clash(value, key) && key[0] !in value[1..]
  }

  /** No key or value of `a` begins with a character that occurs inside the key of `b`, and the key of
      `b` cannot start inside the value of `a`. */
  ghost predicate Independent(a: Rule, b: Rule) {
    && a.key != [] && a.value != [] && b.key != []
    && a.key[0] !in b.key[1..] && a.value[0] !in b.key[1..]
    && Foreign(b.key, a.value)
  }

  ghost predicate Separated(rules: seq<Rule>) {
    forall i, j :: 0 <= i < |rules| && 0 <= j < |rules| ==> Independent(rules[i], rules[j])
  }

  lemma ForeignNowhere(key: string, v: string, t: string, p: nat)
    requires key != [] && Foreign(key, v) && p < |v|
    ensures !StartsWith((v + t)[p..], key)
  {
  }

  lemma ForeignRest(key: string, v: string)
    requires key != [] && v != [] && Foreign(key, v)
    ensures Foreign(key, v[1..])
  {
  }

  lemma {:induction false} ReplaceSkipsForeign(v: string, t: string, r: Rule)
    requires r.key != [] && Foreign(r.key, v)
    ensures ReplaceAll(v + t, r) == v + ReplaceAll(t, r)
    decreases |v|
  {
    if v == [] {
      assert v + t == t;
    } else {
      var s := v + t;
      ForeignNowhere(r.key, v, t, 0);
      assert s[0..] == s && s[1..] == v[1..] + t;
      ForeignRest(r.key, v);
      ReplaceSkipsForeign(v[1..], t, r);
    }
  }

  lemma NoLeadingKey(s: string, rules: seq<Rule>)
    requires s != [] && Keyed(rules) && forall i :: 0 <= i < |rules| ==> rules[i].key[0] != s[0]
    ensures FirstMatch(s, rules) == |rules|
    ensures Simultaneous(s, rules) == [s[0]] + Simultaneous(s[1..], rules)
  {
  }

  lemma ConcatAssociative(a: string, b: string, c: string)
    ensures a + (b + c) == (a + b) + c
  {
  }

  /** Text without any of the rules' leading key characters is copied. */
  lemma {:induction false} CopiesPlain(u: string, t: string, rules: seq<Rule>)
    requires Keyed(rules)
    requires forall i :: 0 <= i < |rules| ==> rules[i].key[0] !in u
    ensures Simultaneous(u + t, rules) == u + Simultaneous(t, rules)
  {
    if u == [] {
      assert u + t == t;
    } else {
      var s := u + t;
      assert s[0] in u;
      NoLeadingKey(s, rules);
      assert s[1..] == u[1..] + t;
      CopiesPlain(u[1..], t, rules);
      ConcatAssociative([u[0]], u[1..], Simultaneous(t, rules));
    }
  }

  /** A string of characters that no key or value begins with starts the rewritten text only if it
      starts the text. */
  lemma {:induction false} PlainPrefixIsOld(s: string, u: string, rules: seq<Rule>)
    requires Keyed(rules) && StartsWith(Simultaneous(s, rules), u)
    requires forall i :: 0 <= i < |rules| ==> rules[i].value != [] && rules[i].value[0] !in u
    ensures StartsWith(s, u)
  {
    if u != [] {
      var i := FirstMatch(s, rules);
      var out := Simultaneous(s, rules);
      assert s != [];
      assert out[0] == u[0];
      assert i == |rules|;
      assert out[1..] == Simultaneous(s[1..], rules);
      assert u[1..] <= out[1..];
      PlainPrefixIsOld(s[1..], u[1..], rules);
      assert s == [s[0]] + s[1..] && u == [u[0]] + u[1..];
    }
  }

  lemma FirstMatchAppend(s: string, rules: seq<Rule>, r: Rule)
    ensures FirstMatch(s, rules + [r]) ==
            if FirstMatch(s, rules) < |rules| || StartsWith(s, r.key) then FirstMatch(s, rules) else |rules| + 1
  {
    var all := rules + [r];
    assert forall j :: 0 <= j < |rules| ==> all[j] == rules[j];
    assert all[|rules|] == r;
  }

  /** A pass brings no key of another rule to the front of text that it copies. */
  lemma UnmatchedStaysUnmatched(s: string, rules: seq<Rule>, r: Rule)
    requires s != [] && r.key != [] && Keyed(rules) && FirstMatch(s, rules) == |rules| && !StartsWith(s, r.key)
    requires forall i :: 0 <= i < |rules| ==> Independent(rules[i], r)
    ensures !StartsWith(Simultaneous(s, rules), r.key)
  {
    var out := Simultaneous(s, rules);
    assert out[1..] == Simultaneous(s[1..], rules);
    if StartsWith(out, r.key) {
      assert r.key[1..] <= out[1..];
      PlainPrefixIsOld(s[1..], r.key[1..], rules);
    }
  }

  lemma SplitKey(s: string, key: string)
    requires key != [] && StartsWith(s, key)
    ensures s[1..] == key[1..] + s[|key|..] && key == [s[0]] + key[1..]
  {
  }

  /** A key that an earlier pass does not touch is still there, with the rest rewritten behind it. */
  lemma KeySurvivesPass(s: string, rules: seq<Rule>, r: Rule)
    requires s != [] && r.key != [] && Keyed(rules) && FirstMatch(s, rules) == |rules| && StartsWith(s, r.key)
    requires forall i :: 0 <= i < |rules| ==> Independent(rules[i], r)
    ensures Simultaneous(s, rules) == r.key + Simultaneous(s[|r.key|..], rules)
  {
    var inner, rest := r.key[1..], s[|r.key|..];
    SplitKey(s, r.key);
    CopiesPlain(inner, rest, rules);
    var tail := Simultaneous(rest, rules);
    assert Simultaneous(s, rules) == [s[0]] + (inner + tail);
    ConcatAssociative([s[0]], inner, tail);
  }

  lemma ReplaceSkipsKey(t: string, r: Rule)
    requires r.key != []
    ensures ReplaceAll(r.key + t, r) == r.value + ReplaceAll(t, r)
  {
  }

  lemma PassWithNewRule(s: string, rules: seq<Rule>, r: Rule)
    requires s != [] && r.key != [] && Keyed(rules) && Keyed(rules + [r])
    ensures var i := FirstMatch(s, rules);
            Simultaneous(s, rules + [r]) ==
              if i < |rules| then rules[i].value + Simultaneous(s[|rules[i].key|..], rules + [r])
              else if StartsWith(s, r.key) then r.value + Simultaneous(s[|r.key|..], rules + [r])
              else [s[0]] + Simultaneous(s[1..], rules + [r])
  {
    FirstMatchAppend(s, rules, r);
  }

  /** Replacing one more key after a simultaneous pass is a simultaneous pass with one more rule. */
  lemma {:induction false} ReplaceAfterPass(s: string, rules: seq<Rule>, r: Rule)
    requires r.key != [] && Keyed(rules) && Keyed(rules + [r])
    requires forall i :: 0 <= i < |rules| ==> Independent(rules[i], r)
    ensures ReplaceAll(Simultaneous(s, rules), r) == Simultaneous(s, rules + [r])
    decreases |s|
  {
    if s != [] {
      var i := FirstMatch(s, rules);
      PassWithNewRule(s, rules, r);
      if i < |rules| {
        var rest := s[|rules[i].key|..];
        ReplaceSkipsForeign(rules[i].value, Simultaneous(rest, rules), r);
        ReplaceAfterPass(rest, rules, r);
      } else if StartsWith(s, r.key) {
        var rest := s[|r.key|..];
        KeySurvivesPass(s, rules, r);
        ReplaceSkipsKey(Simultaneous(rest, rules), r);
        ReplaceAfterPass(rest, rules, r);
      } else {
        var out := Simultaneous(s, rules);
        assert out[1..] == Simultaneous(s[1..], rules);
        UnmatchedStaysUnmatched(s, rules, r);
        ReplaceAfterPass(s[1..], rules, r);
      }
    }
  }

  // ----- The sequence of replacements -----

  function Sequential(s: string, rules: seq<Rule>): string
    requires Keyed(rules)
  {
    if rules == [] then s
    else
      var m := |rules| - 1;
      ReplaceAll(Sequential(s, rules[..m]), rules[m])
  }

  lemma {:induction false} NoRules(s: string)
    ensures Simultaneous(s, []) == s
  {
    if s != [] { NoRules(s[1..]); }
  }

  /** Rewriting rule by rule is one simultaneous pass, on every text, for separated rules. */
  lemma {:induction false} SequentialIsSimultaneous(s: string, rules: seq<Rule>)
    requires Keyed(rules) && Separated(rules)
    ensures Sequential(s, rules) == Simultaneous(s, rules)
    decreases |rules|
  {
    if rules == [] {
      NoRules(s);
    } else {
      var front, r := rules[..|rules| - 1], rules[|rules| - 1];
      assert rules == front + [r];
      assert forall i :: 0 <= i < |front| ==> front[i] == rules[i];
      assert Separated(front) && Keyed(front);
      SequentialIsSimultaneous(s, front);
      ReplaceAfterPass(s, front, r);
    }
  }

  /** No key is left anywhere in the rewritten text. */
  lemma {:induction false} NoKeyLeft(s: string, rules: seq<Rule>, p: nat, i: nat)
    requires Keyed(rules) && Separated(rules) && i < |rules| && p <= |Simultaneous(s, rules)|
    ensures !StartsWith(Simultaneous(s, rules)[p..], rules[i].key)
    decreases |s|
  {
    var out, r := Simultaneous(s, rules), rules[i];
    if s != [] {
      var j := FirstMatch(s, rules);
      if j < |rules| {
        var v, rest := rules[j].value, s[|rules[j].key|..];
        var tail := Simultaneous(rest, rules);
        assert Independent(rules[j], r) && Foreign(r.key, v);
        assert out == v + tail;
        hide Simultaneous, Separated, Foreign, FirstMatch;
        if p < |v| {
          ForeignNowhere(r.key, v, tail, p);
        } else {
          assert out[p..] == tail[p - |v|..];
          NoKeyLeft(rest, rules, p - |v|, i);
        }
      } else if p == 0 {
        assert forall k :: 0 <= k < |rules| ==> Independent(rules[k], r);
        UnmatchedStaysUnmatched(s, rules, r);
        assert out[0..] == out;
      } else {
        assert out[p..] == Simultaneous(s[1..], rules)[p - 1..];
        NoKeyLeft(s[1..], rules, p - 1, i);
      }
    }
  }

  /** Text without keys is left as it is. */
  lemma {:induction false} PassWithoutKeys(s: string, rules: seq<Rule>)
    requires Keyed(rules)
    requires forall p, i :: 0 <= p <= |s| && 0 <= i < |rules| ==> !StartsWith(s[p..], rules[i].key)
    ensures Simultaneous(s, rules) == s
  {
    if s != [] {
      assert s[0..] == s;
      forall p, i | 0 <= p <= |s[1..]| && 0 <= i < |rules| ensures !StartsWith(s[1..][p..], rules[i].key) {
        assert s[1..][p..] == s[p + 1..];
      }
      PassWithoutKeys(s[1..], rules);
    }
  }

  lemma PassIsIdempotent(s: string, rules: seq<Rule>)
    requires Keyed(rules) && Separated(rules)
    ensures Simultaneous(Simultaneous(s, rules), rules) == Simultaneous(s, rules)
  {
    var out := Simultaneous(s, rules);
    forall p, i | 0 <= p <= |out| && 0 <= i < |rules| ensures !StartsWith(out[p..], rules[i].key) {
      NoKeyLeft(s, rules, p, i);
    }
    PassWithoutKeys(out, rules);
  }

  // ----- Longest match -----

  ghost predicate IsLongestMatch(s: string, rules: seq<Rule>, i: nat) {
    && i < |rules| && StartsWith(s, rules[i].key)
    && forall j :: 0 <= j < |rules| && StartsWith(s, rules[j].key) ==> |rules[j].key| <= |rules[i].key|
  }

  /** `out` is `s` rewritten from left to right: at each position the longest matching key is replaced,
      and a character where no key matches is copied. */
  ghost predicate LongestMatchRewrite(s: string, out: string, rules: seq<Rule>)
    requires Keyed(rules)
    decreases |s|
  {
    if s == [] then out == []
    else
      || (exists i: nat :: IsLongestMatch(s, rules, i) &&
            rules[i].value <= out && LongestMatchRewrite(s[|rules[i].key|..], out[|rules[i].value|..], rules))
      || ((forall i :: 0 <= i < |rules| ==> !StartsWith(s, rules[i].key)) &&
            out != [] && out[0] == s[0] && LongestMatchRewrite(s[1..], out[1..], rules))
  }

  /** Keys are distinct, and no key comes before a longer key that it begins. */
  ghost predicate LongestFirst(rules: seq<Rule>) {
    forall i, j :: 0 <= i < j < |rules| ==> !(rules[i].key <= rules[j].key)
  }

  lemma LongestIsFirst(s: string, rules: seq<Rule>, i: nat)
    requires LongestFirst(rules) && IsLongestMatch(s, rules, i)
    ensures FirstMatch(s, rules) == i
  {
  }

  lemma FirstIsLongest(s: string, rules: seq<Rule>)
    requires LongestFirst(rules) && FirstMatch(s, rules) < |rules|
    ensures IsLongestMatch(s, rules, FirstMatch(s, rules))
  {
  }

  lemma {:induction false} PassIsLongestMatch(s: string, rules: seq<Rule>)
    requires Keyed(rules) && LongestFirst(rules)
    ensures LongestMatchRewrite(s, Simultaneous(s, rules), rules)
    decreases |s|
  {
    if s != [] {
      var i, out := FirstMatch(s, rules), Simultaneous(s, rules);
      if i < |rules| {
        FirstIsLongest(s, rules);
        assert rules[i].value <= out;
        assert out[|rules[i].value|..] == Simultaneous(s[|rules[i].key|..], rules);
        PassIsLongestMatch(s[|rules[i].key|..], rules);
      } else {
        assert out[1..] == Simultaneous(s[1..], rules);
        PassIsLongestMatch(s[1..], rules);
      }
    }
  }

  lemma LongestMatchStep(s: string, out: string, rules: seq<Rule>)
    requires Keyed(rules) && LongestFirst(rules) && s != [] && LongestMatchRewrite(s, out, rules)
    ensures var i := FirstMatch(s, rules);
            if i < |rules| then
              rules[i].value <= out && LongestMatchRewrite(s[|rules[i].key|..], out[|rules[i].value|..], rules)
            else out != [] && out[0] == s[0] && LongestMatchRewrite(s[1..], out[1..], rules)
  {
    hide LongestFirst;
    forall j: nat | IsLongestMatch(s, rules, j) ensures FirstMatch(s, rules) == j {
      LongestIsFirst(s, rules, j);
    }
  }

  lemma {:induction false} LongestMatchIsPass(s: string, out: string, rules: seq<Rule>)
    requires Keyed(rules) && LongestFirst(rules) && LongestMatchRewrite(s, out, rules)
    ensures out == Simultaneous(s, rules)
    decreases |s|
  {
    if s != [] {
      hide LongestMatchRewrite, LongestFirst;
      LongestMatchStep(s, out, rules);
      var i := FirstMatch(s, rules);
      if i < |rules| {
        LongestMatchIsPass(s[|rules[i].key|..], out[|rules[i].value|..], rules);
        assert out == rules[i].value + out[|rules[i].value|..];
      } else {
        LongestMatchIsPass(s[1..], out[1..], rules);
        assert out == [out[0]] + out[1..];
      }
    }
  }

  // ----- The shipped dictionary -----

  predicate IsC(c: char) {
    c == 'c' || c == 'C'
  }

  /** What the entries have in common: c or C at the front only, and a third letter that tells keys
      from values. */
  ghost predicate EntryShape(r: Rule) {
    && |r.key| > 2 && |r.value| > 2
    && IsC(r.key[0]) && IsC(r.value[0])
    && (forall p :: 1 <= p < |r.key| ==> !IsC(r.key[p]))
    && (forall p :: 1 <= p < |r.value| ==> !IsC(r.value[p]))
    && (r.key[2] == 's' || r.key[2] == 'S') && (r.value[2] == 'm' || r.value[2] == 'M')
  }

  lemma ShapesAreIndependent(a: Rule, b: Rule)
    requires EntryShape(a) && EntryShape(b)
    ensures Independent(a, b)
  {
  }

  lemma LowerShape()
    ensures EntryShape(Rule("customers", "companies")) && EntryShape(Rule("customer", "company"))
  {
  }

  lemma CapitalShape()
    ensures EntryShape(Rule("Customers", "Companies")) && EntryShape(Rule("Customer", "Company"))
  {
  }

  lemma UpperShape()
    ensures EntryShape(Rule("CUSTOMERS", "COMPANIES")) && EntryShape(Rule("CUSTOMER", "COMPANY"))
  {
  }

  lemma DictionaryShape(i: nat)
    requires i < |REPLACEMENT_DICT|
    ensures EntryShape(REPLACEMENT_DICT[i])
  {
    LowerShape();
    CapitalShape();
    UpperShape();
  }

  lemma DictionarySeparated()
    ensures Keyed(REPLACEMENT_DICT) && Separated(REPLACEMENT_DICT)
  {
    forall i, j | 0 <= i < |REPLACEMENT_DICT| && 0 <= j < |REPLACEMENT_DICT|
      ensures Independent(REPLACEMENT_DICT[i], REPLACEMENT_DICT[j])
    {
      DictionaryShape(i);
      DictionaryShape(j);
      ShapesAreIndependent(REPLACEMENT_DICT[i], REPLACEMENT_DICT[j]);
    }
  }

  lemma DictionaryLongestFirst()
    ensures LongestFirst(REPLACEMENT_DICT)
  {
    var rules := REPLACEMENT_DICT;
    forall i, j | 0 <= i < j < |rules| ensures !(rules[i].key <= rules[j].key) {
      var a, b := rules[i].key, rules[j].key;
      assert |a| > |b| || a[0] != b[0] || a[1] != b[1];
    }
  }

  lemma KeyAlone(rules: seq<Rule>, i: nat)
    requires Keyed(rules) && LongestFirst(rules) && i < |rules|
    ensures Simultaneous(rules[i].key, rules) == rules[i].value
  {
    var key := rules[i].key;
    assert FirstMatch(key, rules) == i;
    assert key[|key|..] == [];
    assert Simultaneous([], rules) == [];
  }

  /** The six words and what becomes of them. */
  lemma SixWords()
    ensures Keyed(REPLACEMENT_DICT)
    ensures Simultaneous("customers", REPLACEMENT_DICT) == "companies"
    ensures Simultaneous("Customers", REPLACEMENT_DICT) == "Companies"
    ensures Simultaneous("CUSTOMERS", REPLACEMENT_DICT) == "COMPANIES"
    ensures Simultaneous("customer", REPLACEMENT_DICT) == "company"
    ensures Simultaneous("Customer", REPLACEMENT_DICT) == "Company"
    ensures Simultaneous("CUSTOMER", REPLACEMENT_DICT) == "COMPANY"
  {
    hide Simultaneous, LongestFirst, Separated;
    DictionarySeparated();
    DictionaryLongestFirst();
    forall i: nat | i < 6 ensures Simultaneous(REPLACEMENT_DICT[i].key, REPLACEMENT_DICT) == REPLACEMENT_DICT[i].value {
      KeyAlone(REPLACEMENT_DICT, i);
    }
    assert REPLACEMENT_DICT[0].key == "customers" && REPLACEMENT_DICT[1].key == "Customers";
    assert REPLACEMENT_DICT[2].key == "CUSTOMERS" && REPLACEMENT_DICT[3].key == "customer";
    assert REPLACEMENT_DICT[4].key == "Customer" && REPLACEMENT_DICT[5].key == "CUSTOMER";
  }

  /** A singular key that is not the beginning of its plural. */
  predicate SingularAt(s: string) {
    || (StartsWith(s, "customer") && !StartsWith(s, "customers"))
    || (StartsWith(s, "Customer") && !StartsWith(s, "Customers"))
    || (StartsWith(s, "CUSTOMER") && !StartsWith(s, "CUSTOMERS"))
  }

  /** The number of positions of the text at which a singular key stands. */
  function SingularCount(s: string): nat {
    if s == [] then 0 else (if SingularAt(s) then 1 else 0) + SingularCount(s[1..])
  }

  datatype Error = StringWasExpected

  /** A template field: text, or a value of another type. */
  datatype Input = Text(text: string) | NotText

  /** The loop over the rules. */
  method ApplyRules(input: string, rules: seq<Rule>) returns (text: string)
    requires Keyed(rules)
    ensures text == Sequential(input, rules)
  {
    text := input;
    var k := 0;
    while k < |rules|
      invariant 0 <= k <= |rules|
      invariant text == Sequential(input, rules[..k])
    {
      assert rules[..k + 1][..k] == rules[..k];
      text := ReplaceAll(text, rules[k]);
      k := k + 1;
    }
    assert rules[..k] == rules;
  }

  /** For separated rules, longest first, the replacements in turn give the longest-match rewriting of any
      text, and no other text is one. */
  lemma SequentialIsLongestMatch(s: string, rules: seq<Rule>)
    requires Keyed(rules) && Separated(rules) && LongestFirst(rules)
    ensures Sequential(s, rules) == Simultaneous(s, rules)
    ensures forall out :: LongestMatchRewrite(s, out, rules) <==> out == Sequential(s, rules)
  {
    hide *;
    SequentialIsSimultaneous(s, rules);
    PassIsLongestMatch(s, rules);
    forall out | LongestMatchRewrite(s, out, rules) ensures out == Sequential(s, rules) {
      LongestMatchIsPass(s, out, rules);
    }
  }

  /** Six replacements in turn. On every text the outcome is the longest-match rewriting, and the only
      one; anything but text is refused. */
  method ReplaceText(input: Input) returns (r: Result<string, Error>)
    ensures Keyed(REPLACEMENT_DICT)
    ensures input.NotText? ==> r == Err(StringWasExpected)
    ensures input.Text? ==> r.Ok? && r.value == Simultaneous(input.text, REPLACEMENT_DICT)
    ensures input.Text? ==> forall out :: LongestMatchRewrite(input.text, out, REPLACEMENT_DICT) <==> out == r.value
  {
    hide *;
    DictionarySeparated();
    DictionaryLongestFirst();
    if input.NotText? {
      return Err(StringWasExpected);
    }
    var text := ApplyRules(input.text, REPLACEMENT_DICT);
    SequentialIsLongestMatch(input.text, REPLACEMENT_DICT);
    return Ok(text);
  }

  lemma {:induction false} CountSkipsPlain(u: string, t: string)
    requires forall p :: 0 <= p < |u| ==> !IsC(u[p])
    ensures SingularCount(u + t) == SingularCount(t)
  {
    if u == [] {
      assert u + t == t;
    } else {
      assert (u + t)[1..] == u[1..] + t;
      assert (u + t)[0] == u[0];
      CountSkipsPlain(u[1..], t);
    }
  }

  lemma SingularIsShorter(s: string)
    requires s != []
    ensures var i := FirstMatch(s, REPLACEMENT_DICT);
            && (SingularAt(s) <==> 3 <= i < |REPLACEMENT_DICT|)
            && (i < |REPLACEMENT_DICT| ==>
                  |REPLACEMENT_DICT[i].key| == |REPLACEMENT_DICT[i].value| + if SingularAt(s) then 1 else 0)
  {
    var i := FirstMatch(s, REPLACEMENT_DICT);
    assert forall j :: 0 <= j < i ==> !StartsWith(s, REPLACEMENT_DICT[j].key);
    if i < |REPLACEMENT_DICT| {
      assert StartsWith(s, REPLACEMENT_DICT[i].key);
    }
    assert REPLACEMENT_DICT[0].key == "customers" && REPLACEMENT_DICT[3].key == "customer";
    assert REPLACEMENT_DICT[1].key == "Customers" && REPLACEMENT_DICT[4].key == "Customer";
    assert REPLACEMENT_DICT[2].key == "CUSTOMERS" && REPLACEMENT_DICT[5].key == "CUSTOMER";
    assert StartsWith(s, "customer") || StartsWith(s, "customers") ==> s[0] == 'c';
    assert StartsWith(s, "Customer") || StartsWith(s, "Customers") ==> s[0] == 'C' && s[1] == 'u';
    assert StartsWith(s, "CUSTOMER") || StartsWith(s, "CUSTOMERS") ==> s[0] == 'C' && s[1] == 'U';
  }

  /** The rewriting shortens the text by one character for each singular key in it. */
  lemma {:induction false} LengthAfterRewriting(s: string)
    requires Keyed(REPLACEMENT_DICT)
    ensures |Simultaneous(s, REPLACEMENT_DICT)| + SingularCount(s) == |s|
    decreases |s|
  {
    if s != [] {
      var i := FirstMatch(s, REPLACEMENT_DICT);
      SingularIsShorter(s);
      if i < |REPLACEMENT_DICT| {
        var key := REPLACEMENT_DICT[i].key;
        DictionaryShape(i);
        SplitKey(s, key);
        CountSkipsPlain(key[1..], s[|key|..]);
        LengthAfterRewriting(s[|key|..]);
      } else {
        LengthAfterRewriting(s[1..]);
      }
    }
  }

  /** Rewriting a rewritten text changes nothing, because none of the six keys is left in it. */
  lemma RewrittenTextIsClean(s: string)
    ensures Keyed(REPLACEMENT_DICT)
    ensures var out := Simultaneous(s, REPLACEMENT_DICT);
            && (forall p, i :: 0 <= p <= |out| && 0 <= i < |REPLACEMENT_DICT| ==>
                  !StartsWith(out[p..], REPLACEMENT_DICT[i].key))
            && Simultaneous(out, REPLACEMENT_DICT) == out
  {
    DictionarySeparated();
    PassIsIdempotent(s, REPLACEMENT_DICT);
    var out := Simultaneous(s, REPLACEMENT_DICT);
    forall p, i | 0 <= p <= |out| && 0 <= i < |REPLACEMENT_DICT|
      ensures !StartsWith(out[p..], REPLACEMENT_DICT[i].key)
    {
      NoKeyLeft(s, REPLACEMENT_DICT, p, i);
    }
  }
}
