/** When a path whose names are split at their colons, printed piece by piece and trimmed, is still the path. */
module PaddedPaths {
  import opened Paths

  /** A text between the spaces of two separators. */
  function Padded(s: string): string {
    " " + s + " "
  }

  function PadAll(parts: seq<string>): (r: seq<string>)
    ensures |r| == |parts| && forall k :: 0 <= k < |r| ==> r[k] == Padded(parts[k])
  {
    if parts == [] then [] else [Padded(parts[0])] + PadAll(parts[1..])
  }

  lemma PadAppend(parts1: seq<string>, parts2: seq<string>)
    ensures PadAll(parts1 + parts2) == PadAll(parts1) + PadAll(parts2)
  {
  }

  lemma PaddedStep(p: string, rest: string)
    ensures Padded(p + " : " + rest) == Padded(p) + ":" + Padded(rest)
  {
    assert " : " == " " + ":" + " ";
  }

  /** Joining by " : " is joining the padded parts by ":". */
  lemma {:induction false} PaddedJoin(parts: seq<string>)
    requires parts != []
    ensures Padded(Join(parts, " : ")) == Join(PadAll(parts), ":")
  {
    if |parts| > 1 {
      assert PadAll(parts)[1..] == PadAll(parts[1..]);
      PaddedJoin(parts[1..]);
      PaddedStep(parts[0], Join(parts[1..], " : "));
    }
  }

  // ----- Widening the ends of a list -----

  function Widened(parts: seq<string>, a: string, b: string): (r: seq<string>)
    requires |parts| > 1
    ensures |r| == |parts| && r[0] == a + parts[0] && r[|r| - 1] == parts[|r| - 1] + b
    ensures forall k :: 0 < k < |r| - 1 ==> r[k] == parts[k]
  {
    [a + parts[0]] + parts[1..|parts| - 1] + [parts[|parts| - 1] + b]
  }

  lemma JoinWidenedFront(parts: seq<string>, a: string, sep: string)
    requires parts != []
    ensures Join([a + parts[0]] + parts[1..], sep) == a + Join(parts, sep)
  {
    assert ([a + parts[0]] + parts[1..])[1..] == parts[1..];
    if |parts| > 1 {
      assert a + (parts[0] + sep + Join(parts[1..], sep)) == a + parts[0] + sep + Join(parts[1..], sep);
    }
  }

  lemma JoinWidened(parts: seq<string>, a: string, b: string, sep: string)
    requires |parts| > 1
    ensures Join(Widened(parts, a, b), sep) == a + Join(parts, sep) + b
  {
    hide Join;
    var m := |parts| - 1;
    var front, last := parts[..m], parts[m];
    JoinWidenedFront(front, a, sep);
    assert front[1..] == parts[1..m];
    JoinSnoc(front, last, sep);
    JoinSnoc([a + front[0]] + front[1..], last + b, sep);
    assert parts == front + [last];
    assert Widened(parts, a, b) == [a + front[0]] + front[1..] + [last + b];
  }

  // ----- The pieces of one name -----

  lemma {:induction false} JoinSplit(s: string, c: char)
    ensures Join(Split(s, c), [c]) == s
  {
    if s != "" {
      JoinSplit(s[1..], c);
      var rest := Split(s[1..], c);
      assert Split(s, c) == if s[0] == c then [""] + rest else [[s[0]] + rest[0]] + rest[1..];
      hide Split;
      if s[0] == c {
        assert ([""] + rest)[1..] == rest;
        assert Join([""] + rest, [c]) == [c] + s[1..];
      } else {
        JoinWidenedFront(rest, [s[0]], [c]);
      }
    }
  }

  lemma SplitWidened(x: string, s: string, y: string, c: char)
    requires |Split(s, c)| > 1 && c !in x && c !in y
    ensures Split(x + s + y, c) == Widened(Split(s, c), x, y)
  {
    hide Split, Join;
    var pieces := Split(s, c);
    SplitPiecesFree(s, c);
    JoinSplit(s, c);
    JoinWidened(pieces, x, y, [c]);
    SplitUndoesJoin(Widened(pieces, x, y), c);
  }

  /** The ends of a text are those of its first and last piece. */
  lemma SplitEnds(s: string, c: char)
    requires |Split(s, c)| > 1
    ensures var pieces := Split(s, c); var last := pieces[|pieces| - 1];
            && s != "" && (pieces[0] != "" ==> pieces[0][0] == s[0])
            && (last != "" ==> last[|last| - 1] == s[|s| - 1])
  {
    hide Split;
    var pieces := Split(s, c);
    var m := |pieces| - 1;
    JoinSplit(s, c);
    assert s == pieces[0] + [c] + Join(pieces[1..], [c]);
    JoinSnoc(pieces[..m], pieces[m], [c]);
    assert pieces == pieces[..m] + [pieces[m]];
  }

  /** Not empty, and no spaces at its ends. */
  predicate Tidy(s: string) {
    s != "" && !IsSpace(s[0]) && !IsSpace(s[|s| - 1])
  }

  lemma PaddedEnds(s: string)
    ensures var p := Padded(s);
            && |p| == |s| + 2 && p[0] == ' ' && p[|s| + 1] == ' '
            && (s != "" ==> p[1] == s[0] && p[|s|] == s[|s| - 1])
  {
  }

  /** Widened on one side only, the first and the last piece do not change places. */
  lemma EndsStay(first: string, last: string, a: string, b: string)
    requires first != "" ==> !IsSpace(first[0])
    requires last != "" ==> !IsSpace(last[|last| - 1])
    requires a == "" || b == ""
    ensures Padded(last) != " " + a + first || Padded(first) != last + (b + " ")
  {
    PaddedEnds(first);
    PaddedEnds(last);
    var left, right := " " + a + first, last + (b + " ");
    assert first != "" ==> left[1 + |a|] == first[0] && left[|left| - 1] == first[|first| - 1];
    assert last != "" ==> right[0] == last[0] && right[|last| - 1] == last[|last| - 1];
  }

  lemma PaddedWidens(m: string, a: string, b: string)
    ensures Padded(a + m + b) == (" " + a) + m + (b + " ")
  {
  }

  lemma BackwardsDiffers(m: string, a: string, b: string)
    requires Tidy(m) && (a == "" || b == "") && ':' !in a && ':' !in b && |Split(m, ':')| > 1
    ensures PadAll(Reverse(Split(m, ':'))) != Split(Padded(a + m + b), ':')
  {
    hide Split, PadAll, Reverse, Padded;
    var r := Split(m, ':');
    var c := |r| - 1;
    PaddedWidens(m, a, b);
    SplitWidened(" " + a, m, b + " ", ':');
    SplitEnds(m, ':');
    EndsStay(r[0], r[c], a, b);
    assert PadAll(Reverse(r))[0] == Padded(r[c]) && PadAll(Reverse(r))[c] == Padded(r[0]);
  }

  /** Only a name without colons reads backwards, piece by piece and padded, as it reads forwards. */
  lemma BackwardsIsForwards(m: string, a: string, b: string)
    requires Tidy(m) && (a == "" || b == "") && ':' !in a && ':' !in b
    requires PadAll(Reverse(Split(m, ':'))) == Split(Padded(a + m + b), ':')
    ensures ':' !in m
  {
    SplitCount(m, ':');
    if |Split(m, ':')| > 1 { BackwardsDiffers(m, a, b); }
  }

  // ----- The pieces of all names -----

  /** The pieces of each name backwards, name by name. */
  function SplitBack(ms: seq<string>, c: char): seq<string> {
    if ms == [] then [] else Reverse(Split(ms[0], c)) + SplitBack(ms[1..], c)
  }

  lemma {:induction false} SplitBackSnoc(ms: seq<string>, m: string, c: char)
    ensures SplitBack(ms + [m], c) == SplitBack(ms, c) + Reverse(Split(m, c))
  {
    if ms == [] {
      assert ([m])[1..] == [] && ms + [m] == [m];
    } else {
      assert (ms + [m])[1..] == ms[1..] + [m];
      SplitBackSnoc(ms[1..], m, c);
    }
  }

  lemma {:induction false} ReverseAppend(parts1: seq<string>, parts2: seq<string>)
    ensures Reverse(parts1 + parts2) == Reverse(parts2) + Reverse(parts1)
  {
  }

  lemma {:induction false} ReverseSplitAll(names: seq<string>, c: char)
    ensures Reverse(SplitAll(names, c)) == SplitBack(Reverse(names), c)
  {
    if names != [] {
      hide Split;
      ReverseSplitAll(names[1..], c);
      ReverseAppend(Split(names[0], c), SplitAll(names[1..], c));
      SplitBackSnoc(Reverse(names[1..]), names[0], c);
    }
  }

  lemma SameHeads(a: seq<string>, b: seq<string>, c: seq<string>, d: seq<string>)
    requires a + b == c + d && |a| == |c|
    ensures a == c && b == d
  {
    assert (a + b)[..|a|] == a && (c + d)[..|a|] == c;
    assert (a + b)[|a|..] == b && (c + d)[|a|..] == d;
  }

  /** Two lists made up of equally long blocks agree block by block. */
  lemma {:induction false} BlocksAgree(ms: seq<string>, ws: seq<string>, k: nat)
    requires |ms| == |ws| && k < |ms|
    requires forall j :: 0 <= j < |ms| ==> |Split(Padded(ws[j]), ':')| == |Split(ms[j], ':')|
    requires PadAll(SplitBack(ms, ':')) == SplitAll(PadAll(ws), ':')
    ensures PadAll(Reverse(Split(ms[k], ':'))) == Split(Padded(ws[k]), ':')
  {
    hide Split, Reverse, Padded;
    var back, rest := Reverse(Split(ms[0], ':')), SplitBack(ms[1..], ':');
    PadAppend(back, rest);
    assert PadAll(ws)[0] == Padded(ws[0]) && PadAll(ws)[1..] == PadAll(ws[1..]);
    hide PadAll, SplitBack, SplitAll;
    SameHeads(PadAll(back), PadAll(rest), Split(Padded(ws[0]), ':'), SplitAll(PadAll(ws[1..]), ':'));
    if k > 0 { BlocksAgree(ms[1..], ws[1..], k - 1); }
  }

  // ----- Trimming -----

  ghost predicate AllSpace(s: string) {
    forall k :: 0 <= k < |s| ==> IsSpace(s[k])
  }

  lemma {:induction false} TrimStartParts(s: string) returns (a: string)
    ensures AllSpace(a) && s == a + TrimStart(s)
  {
    a := "";
    if s != "" && IsSpace(s[0]) {
      var rest := TrimStartParts(s[1..]);
      a := [s[0]] + rest;
      assert s == [s[0]] + s[1..];
    }
  }

  lemma {:induction false} TrimEndParts(s: string) returns (b: string)
    ensures AllSpace(b) && s == TrimEnd(s) + b
  {
    b := "";
    if s != "" && IsSpace(s[|s| - 1]) {
      var rest := TrimEndParts(s[..|s| - 1]);
      b := rest + [s[|s| - 1]];
      assert s == s[..|s| - 1] + [s[|s| - 1]];
    }
  }

  lemma TrimParts(s: string) returns (a: string, b: string)
    ensures ':' !in a && ':' !in b && s == a + Trim(s) + b
  {
    a := TrimStartParts(s);
    b := TrimEndParts(TrimStart(s));
    assert !IsSpace(':');
  }

  // ----- The condition -----

  ghost predicate AllTidy(names: seq<string>) {
    forall k :: 0 <= k < |names| ==> Tidy(names[k])
  }

  lemma SamePieces(m: string, x: string, y: string)
    requires ':' !in x && ':' !in y
    ensures |Split(Padded(x + m + y), ':')| == |Split(m, ':')|
  {
    hide Split;
    SplitCount(m, ':');
    SplitCount(Padded(x + m + y), ':');
    assert ':' !in multiset(x) && ':' !in multiset(y);
    assert Padded(x + m + y) == [' '] + x + m + y + [' '];
  }

  function EndAt(a: string, here: bool): string {
    if here then a else ""
  }

  lemma WidenedAt(ms: seq<string>, a: string, b: string, k: nat)
    requires |ms| > 1 && k < |ms|
    ensures Widened(ms, a, b)[k] == EndAt(a, k == 0) + ms[k] + EndAt(b, k == |ms| - 1)
  {
  }

  lemma PaddedSame(pieces: seq<string>, ws: seq<string>)
    requires pieces != [] && ws != [] && Free(pieces, ':') && Join(pieces, " : ") == Join(ws, " : ")
    ensures PadAll(pieces) == SplitAll(PadAll(ws), ':')
  {
    hide Join, SplitAll, PadAll, Split;
    PaddedJoin(pieces);
    PaddedJoin(ws);
    SplitUndoesJoin(PadAll(pieces), ':');
    SplitJoined(PadAll(ws), ':');
  }

  /** If the pieces joined by " : " are the names joined so, between two further texts, then there is one
      piece for each name. */
  lemma PiecesAreNames(ms: seq<string>, a: string, b: string)
    requires |ms| > 1 && AllTidy(ms) && ':' !in a && ':' !in b
    requires Join(SplitBack(ms, ':'), " : ") == a + Join(ms, " : ") + b
    requires SplitBack(ms, ':') != [] && Free(SplitBack(ms, ':'), ':')
    ensures Free(ms, ':')
  {
    hide Split, Join, SplitAll, SplitBack, PadAll, Padded, Tidy, Reverse, Widened;
    var pieces, ws := SplitBack(ms, ':'), Widened(ms, a, b);
    JoinWidened(ms, a, b, " : ");
    PaddedSame(pieces, ws);
    forall j | 0 <= j < |ms| ensures |Split(Padded(ws[j]), ':')| == |Split(ms[j], ':')| {
      WidenedAt(ms, a, b, j);
      SamePieces(ms[j], EndAt(a, j == 0), EndAt(b, j == |ms| - 1));
    }
    forall k | 0 <= k < |ms| ensures ':' !in ms[k] {
      BlocksAgree(ms, ws, k);
      WidenedAt(ms, a, b, k);
      BackwardsIsForwards(ms[k], EndAt(a, k == 0), EndAt(b, k == |ms| - 1));
    }
  }

  lemma TidyPath(ms: seq<string>)
    requires ms != [] && AllTidy(ms)
    ensures Tidy(Join(ms, " : "))
  {
    if |ms| > 1 {
      var m := |ms| - 1;
      JoinSnoc(ms[..m], ms[m], " : ");
      assert ms == ms[..m] + [ms[m]];
    }
  }

  lemma ReverseTidy(names: seq<string>)
    ensures AllTidy(names) ==> AllTidy(Reverse(names))
  {
  }

  lemma TidyIsTrimmed(s: string)
    requires Tidy(s)
    ensures Trim(s) == s
  {
    TrimIsIdentity(s);
  }

  /** The trimmed print of the pieces is the path of the names exactly when no name contains a colon. */
  lemma PiecesPrintPathExactly(names: seq<string>)
    requires |names| > 1 && AllTidy(names)
    ensures Trim(Join(Reverse(SplitAll(names, ':')), " : ")) == Join(Reverse(names), " : ") <==> Free(names, ':')
  {
    hide Split, Join, SplitAll, SplitBack, PadAll, Tidy, Reverse, Trim, Free;
    var ms, path := Reverse(names), Join(Reverse(names), " : ");
    var pieces := SplitAll(names, ':');
    ReverseTidy(names);
    ReverseFree(names, ':');
    if Free(names, ':') {
      SplitAllFree(names, ':');
      TidyPath(ms);
      TidyIsTrimmed(path);
    }
    if Trim(Join(Reverse(pieces), " : ")) == path {
      var a, b := TrimParts(Join(Reverse(pieces), " : "));
      ReverseSplitAll(names, ':');
      SplitAllPieces(names, ':');
      ReverseFree(pieces, ':');
      PiecesAreNames(ms, a, b);
    }
  }

  lemma SpacedPieces()
    ensures SplitAll(["x", ": "], ':') == ["x", "", " "] && Reverse(["x", "", " "]) == [" ", "", "x"]
  {
    assert ["x", ": "][1..] == [": "] && [": "][1..] == [] && ": "[1..] == " ";
    SplitOfFree("x", ':');
    SplitOfFree(" ", ':');
    assert Split(": ", ':') == ["", " "];
    assert SplitAll([": "], ':') == ["", " "];
  }

  lemma SpacedPrint()
    ensures Trim("  :  : x") == ":  : x"
  {
    var s := "  :  : x";
    assert s[1..] == " :  : x" && s[1..][1..] == ":  : x";
    assert TrimStart(s) == TrimStart(s[1..]) == TrimStart(":  : x") == ":  : x";
    assert TrimEnd(":  : x") == ":  : x";
  }

  lemma SpacedJoins()
    ensures Join([" ", "", "x"], " : ") == "  :  : x"
    ensures Join(Reverse(["x", ": "]), " : ") == ":  : x"
  {
    assert [" ", "", "x"][1..] == ["", "x"] && ["", "x"][1..] == ["x"];
    assert Join(["", "x"], " : ") == " : x";
    assert Reverse(["x", ": "]) == [": ", "x"] && [": ", "x"][1..] == ["x"];
  }

  /** With an outer space a colon can hide: the two names print as their path. */
  lemma SpacedNameHidesColon()
    ensures !Free(["x", ": "], ':')
    ensures Trim(Join(Reverse(SplitAll(["x", ": "], ':')), " : ")) == Join(Reverse(["x", ": "]), " : ")
  {
    assert ["x", ": "][1][0] == ':';
    hide Trim, Join, SplitAll, Reverse;
    SpacedPieces();
    SpacedJoins();
    SpacedPrint();
  }
}
