/** Joining, splitting and trimming of texts, as the company hierarchies are built from them. */
module Paths {
  // ----- Strings -----

  function Join(parts: seq<string>, sep: string): string {
    if parts == [] then ""
    else if |parts| == 1 then parts[0]
    else parts[0] + sep + Join(parts[1..], sep)
  }

  lemma JoinSnoc(parts: seq<string>, last: string, sep: string)
    requires parts != []
    ensures Join(parts + [last], sep) == Join(parts, sep) + sep + last
  {
    if |parts| == 1 {
      assert (parts + [last])[1..] == [last];
    } else {
      assert (parts + [last])[1..] == parts[1..] + [last];
      JoinSnoc(parts[1..], last, sep);
    }
  }

  lemma JoinNotEmpty(parts: seq<string>, sep: string)
    requires |parts| > 1 && sep != ""
    ensures Join(parts, sep) != ""
  {
  }

  function Split(s: string, c: char): (parts: seq<string>)
    ensures parts != []
  {
    if s == "" then [""]
    else if s[0] == c then [""] + Split(s[1..], c)
    else
      var rest := Split(s[1..], c);
      [[s[0]] + rest[0]] + rest[1..]
  }

  function Reverse(parts: seq<string>): (r: seq<string>)
    ensures |r| == |parts|
    ensures forall k :: 0 <= k < |r| ==> r[k] == parts[|parts| - 1 - k]
  {
    if parts == [] then [] else Reverse(parts[1..]) + [parts[0]]
  }

  /** The characters that String.prototype.trim removes. */
  predicate IsSpace(c: char) {
    || '\U{9}' <= c <= '\U{D}' || c == ' ' || c == '\U{A0}' || c == '\U{1680}'
    || '\U{2000}' <= c <= '\U{200A}' || c == '\U{2028}' || c == '\U{2029}' || c == '\U{202F}'
    || c == '\U{205F}' || c == '\U{3000}' || c == '\U{FEFF}'
  }

  function TrimStart(s: string): string {
    if s != "" && IsSpace(s[0]) then TrimStart(s[1..]) else s
  }

  function TrimEnd(s: string): string {
    if s != "" && IsSpace(s[|s| - 1]) then TrimEnd(s[..|s| - 1]) else s
  }

  function Trim(s: string): string {
    TrimEnd(TrimStart(s))
  }

  lemma {:induction false} TrimStartShorter(s: string)
    ensures |TrimStart(s)| <= |s| && (|TrimStart(s)| == |s| ==> TrimStart(s) == s)
  {
    if s != "" && IsSpace(s[0]) { TrimStartShorter(s[1..]); }
  }

  lemma {:induction false} TrimEndShorter(s: string)
    ensures |TrimEnd(s)| <= |s| && (|TrimEnd(s)| == |s| ==> TrimEnd(s) == s)
  {
    if s != "" && IsSpace(s[|s| - 1]) { TrimEndShorter(s[..|s| - 1]); }
  }

  /** Trimming leaves a text alone exactly when it neither begins nor ends with a space. */
  lemma TrimIsIdentity(s: string)
    ensures Trim(s) == s <==> s == "" || (!IsSpace(s[0]) && !IsSpace(s[|s| - 1]))
  {
    TrimStartShorter(s);
    TrimEndShorter(TrimStart(s));
    if s != "" && IsSpace(s[0]) {
      TrimStartShorter(s[1..]);
    } else if s != "" && IsSpace(s[|s| - 1]) {
      TrimEndShorter(s[..|s| - 1]);
    }
  }

  ghost predicate Free(parts: seq<string>, c: char) {
    forall k :: 0 <= k < |parts| ==> c !in parts[k]
  }

  lemma {:induction false} SplitPiecesFree(s: string, c: char)
    ensures Free(Split(s, c), c)
  {
    if s != "" { SplitPiecesFree(s[1..], c); }
  }

  lemma {:induction false} SplitOfFree(s: string, c: char)
    requires c !in s
    ensures Split(s, c) == [s]
  {
    if s != "" {
      SplitOfFree(s[1..], c);
      assert s == [s[0]] + s[1..];
    }
  }

  lemma SplitStep(s: string, c: char)
    requires s != ""
    ensures Split(s, c) == if s[0] == c then [""] + Split(s[1..], c)
                           else [[s[0]] + Split(s[1..], c)[0]] + Split(s[1..], c)[1..]
  {
  }

  lemma PiecesAppend(x: seq<string>, y: seq<string>)
    requires x != []
    ensures (x + y)[0] == x[0] && (x + y)[1..] == x[1..] + y
    ensures [""] + (x + y) == ([""] + x) + y
    ensures forall p: string :: [p] + (x[1..] + y) == ([p] + x[1..]) + y
  {
  }

  lemma {:induction false} SplitAtSeparator(a: string, b: string, c: char)
    ensures Split(a + [c] + b, c) == Split(a, c) + Split(b, c)
  {
    assert Split("", c) == [""];
    hide Split;
    var s := a + [c] + b;
    SplitStep(s, c);
    if a == "" {
      assert s[1..] == b;
    } else {
      assert s[1..] == a[1..] + [c] + b && s[0] == a[0];
      SplitAtSeparator(a[1..], b, c);
      SplitStep(a, c);
      PiecesAppend(Split(a[1..], c), Split(b, c));
    }
  }

  function SplitAll(parts: seq<string>, c: char): seq<string> {
    if parts == [] then [] else Split(parts[0], c) + SplitAll(parts[1..], c)
  }

  lemma {:induction false} SplitJoined(parts: seq<string>, c: char)
    requires parts != []
    ensures Split(Join(parts, [c]), c) == SplitAll(parts, c)
  {
    if |parts| > 1 {
      SplitAtSeparator(parts[0], Join(parts[1..], [c]), c);
      SplitJoined(parts[1..], c);
    } else {
      assert parts[1..] == [];
    }
  }

  lemma {:induction false} SplitAllFree(parts: seq<string>, c: char)
    requires Free(parts, c)
    ensures SplitAll(parts, c) == parts
  {
    if parts != [] {
      SplitOfFree(parts[0], c);
      SplitAllFree(parts[1..], c);
    }
  }

  /** Splitting a joined list gives the list back exactly when no part contains the separator. */
  lemma SplitUndoesJoin(parts: seq<string>, c: char)
    requires parts != []
    ensures Split(Join(parts, [c]), c) == parts <==> Free(parts, c)
  {
    SplitJoined(parts, c);
    SplitPiecesFree(Join(parts, [c]), c);
    if Free(parts, c) { SplitAllFree(parts, c); }
  }

  lemma ColonFreePath(names: seq<string>)
    requires |names| > 1 && Free(names, ':')
    ensures SplitAll(names, ':') == names && Split(Join(names, ":"), ':') == names
    ensures var path := Join(Reverse(names), " : ");
            && path != ""
            && (Trim(path) == path <==> !IsSpace(path[0]) && !IsSpace(path[|path| - 1]))
  {
    hide Join, Split, SplitAll, Trim, Free, IsSpace;
    SplitAllFree(names, ':');
    SplitUndoesJoin(names, ':');
    JoinNotEmpty(Reverse(names), " : ");
    TrimIsIdentity(Join(Reverse(names), " : "));
  }

  // ----- Counting separators -----

  lemma {:induction false} SplitAllPieces(parts: seq<string>, c: char)
    ensures Free(SplitAll(parts, c), c) && |SplitAll(parts, c)| >= |parts|
  {
    if parts != [] {
      SplitPiecesFree(parts[0], c);
      SplitAllPieces(parts[1..], c);
    }
  }

  lemma {:induction false} TrimStartKeepsCount(s: string, c: char)
    requires !IsSpace(c)
    ensures multiset(TrimStart(s))[c] == multiset(s)[c]
  {
    if s != "" && IsSpace(s[0]) {
      assert s == [s[0]] + s[1..];
      TrimStartKeepsCount(s[1..], c);
    }
  }

  lemma {:induction false} TrimEndKeepsCount(s: string, c: char)
    requires !IsSpace(c)
    ensures multiset(TrimEnd(s))[c] == multiset(s)[c]
  {
    if s != "" && IsSpace(s[|s| - 1]) {
      assert s == s[..|s| - 1] + [s[|s| - 1]];
      TrimEndKeepsCount(s[..|s| - 1], c);
    }
  }

  lemma {:induction false} SplitCount(s: string, c: char)
    ensures |Split(s, c)| == multiset(s)[c] + 1
  {
    if s != "" {
      assert s == [s[0]] + s[1..];
      SplitCount(s[1..], c);
    }
  }

  lemma {:induction false} JoinedCount(parts: seq<string>, sep: string, c: char)
    requires parts != [] && multiset(sep)[c] == 1
    ensures multiset(Join(parts, sep))[c] == |SplitAll(parts, c)| - 1
  {
    hide Split;
    SplitCount(parts[0], c);
    if |parts| > 1 { JoinedCount(parts[1..], sep, c); }
  }

  lemma {:induction false} SplitAllAppend(parts1: seq<string>, parts2: seq<string>, c: char)
    ensures SplitAll(parts1 + parts2, c) == SplitAll(parts1, c) + SplitAll(parts2, c)
  {
    if parts1 == [] {
      assert parts1 + parts2 == parts2;
    } else {
      assert (parts1 + parts2)[1..] == parts1[1..] + parts2;
      SplitAllAppend(parts1[1..], parts2, c);
    }
  }

  lemma {:induction false} ReversedPieces(parts: seq<string>, c: char)
    ensures |SplitAll(Reverse(parts), c)| == |SplitAll(parts, c)|
  {
    if parts != [] {
      hide Split;
      ReversedPieces(parts[1..], c);
      SplitAllAppend(Reverse(parts[1..]), [parts[0]], c);
      assert [parts[0]][1..] == [];
    }
  }

  lemma ReverseFree(parts: seq<string>, c: char)
    ensures Free(Reverse(parts), c) <==> Free(parts, c)
  {
    if Free(Reverse(parts), c) {
      forall k | 0 <= k < |parts| ensures c !in parts[k] { assert parts[k] == Reverse(parts)[|parts| - 1 - k]; }
    }
  }

  lemma OneColon()
    ensures multiset(" : ")[':'] == 1
  {
    assert " : " == " " + ":" + " ";
  }

  lemma PathCount(parts: seq<string>)
    requires parts != []
    ensures multiset(Join(Reverse(parts), " : "))[':'] == |SplitAll(parts, ':')| - 1
  {
    hide Join, Reverse, SplitAll;
    OneColon();
    JoinedCount(Reverse(parts), " : ", ':');
    ReversedPieces(parts, ':');
  }

  /** The trimmed text still shows how many pieces were joined. */
  lemma TrimmedPathCount(parts: seq<string>)
    requires parts != []
    ensures multiset(Trim(Join(Reverse(parts), " : ")))[':'] == |SplitAll(parts, ':')| - 1
  {
    hide Join, Reverse, TrimStart, TrimEnd, SplitAll;
    var path := Join(Reverse(parts), " : ");
    PathCount(parts);
    TrimStartKeepsCount(path, ':');
    TrimEndKeepsCount(TrimStart(path), ':');
  }
}
