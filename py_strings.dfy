/** The parts of Python's str semantics the pipeline relies on: isspace, strip,
    split with and without a separator, splitlines, join, substring search and
    prefix tests on lower-cased text. */
module PyStrings {

  /** str.isspace() for one character (CPython's Py_UNICODE_ISSPACE); the same
      set is used by str.strip(), str.split() and the regular-expression class \s. */
  predicate IsSpace(c: char) {
    var n := c as int;
    (9 <= n <= 13) || (28 <= n <= 32) || n == 0x85 || n == 0xA0 || n == 0x1680
    || (0x2000 <= n <= 0x200A) || n == 0x2028 || n == 0x2029 || n == 0x202F
    || n == 0x205F || n == 0x3000
  }

  /** The line boundaries of str.splitlines() ("\r\n" is handled by SplitLines). */
  predicate IsLineBreak(c: char) {
    var n := c as int;
    (10 <= n <= 13) || (28 <= n <= 30) || n == 0x85 || n == 0x2028 || n == 0x2029
  }

  lemma LineBreakIsSpace(c: char)
    ensures IsLineBreak(c) ==> IsSpace(c)
  {
  }

  predicate NoSpace(s: string) {
    forall i :: 0 <= i < |s| ==> !IsSpace(s[i])
  }

  predicate AllSpace(s: string) {
    forall i :: 0 <= i < |s| ==> IsSpace(s[i])
  }

  /** Neither end of s is whitespace. */
  predicate Trimmed(s: string) {
    s == [] || (!IsSpace(s[0]) && !IsSpace(s[|s| - 1]))
  }

  /** Number of whitespace characters at the start of s. */
  function LeadingSpaces(s: string): (n: nat)
    ensures n <= |s|
    ensures forall i :: 0 <= i < n ==> IsSpace(s[i])
    ensures n < |s| ==> !IsSpace(s[n])
  {
    if s == [] || !IsSpace(s[0]) then 0 else 1 + LeadingSpaces(s[1..])
  }

  /** Number of whitespace characters at the end of s. */
  function TrailingSpaces(s: string): (n: nat)
    ensures n <= |s|
    ensures forall i :: |s| - n <= i < |s| ==> IsSpace(s[i])
    ensures n < |s| ==> !IsSpace(s[|s| - 1 - n])
  {
    if s == [] || !IsSpace(s[|s| - 1]) then 0 else 1 + TrailingSpaces(s[..|s| - 1])
  }

  /** s.lstrip() */
  function LStrip(s: string): (r: string)
    ensures r == [] || !IsSpace(r[0])
    ensures s == r || (s != [] && IsSpace(s[0]))
  {
    s[LeadingSpaces(s)..]
  }

  /** s.rstrip() */
  function RStrip(s: string): (r: string)
    ensures |r| <= |s| && r == s[..|r|]
    ensures r == [] || !IsSpace(r[|r| - 1])
    ensures s == [] || !IsSpace(s[|s| - 1]) ==> r == s
  {
    s[..|s| - TrailingSpaces(s)]
  }

  /** s.strip() */
  function Strip(s: string): (r: string)
    ensures Trimmed(r)
    ensures |r| <= |s|
    ensures r == s <==> Trimmed(s)
    ensures MiddleOf(s, r)
  {
    var n := LeadingSpaces(s);
    var t := LStrip(s);
    var r := RStrip(t);
    assert r != [] ==> r[0] == t[0];
    assert Trimmed(s) ==> t == s;
    StripMiddle(s, n, r);
    r
  }

  /** r is the middle of s, with only whitespace cut off either end. */
  ghost predicate MiddleOf(s: string, r: string) {
    exists i, j :: 0 <= i <= j <= |s| && r == s[i..j] && AllSpace(s[..i]) && AllSpace(s[j..])
  }

  /** Cutting the leading whitespace and then the trailing whitespace of the
      rest leaves a middle slice with whitespace on both sides. */
  lemma StripMiddle(s: string, n: nat, r: string)
    requires n == LeadingSpaces(s) && r == RStrip(s[n..])
    ensures MiddleOf(s, r)
  {
    var t := s[n..];
    var j := n + |r|;
    assert t[..|r|] == r;
    assert s[n..j] == t[..|r|];
    assert s[j..] == t[|r|..];
    RStripRest(t);
    LeadingAllSpace(s);
    assert 0 <= n <= j <= |s| && r == s[n..j] && AllSpace(s[..n]) && AllSpace(s[j..]);
  }

  lemma LeadingAllSpace(s: string)
    ensures AllSpace(s[..LeadingSpaces(s)])
  {
    var n := LeadingSpaces(s);
    assert forall k :: 0 <= k < n ==> s[..n][k] == s[k];
  }

  /** What rstrip() cuts off is whitespace. */
  lemma RStripRest(t: string)
    ensures AllSpace(t[|RStrip(t)|..])
  {
    var m := |t| - TrailingSpaces(t);
    assert |RStrip(t)| == m;
    assert forall k :: 0 <= k < |t| - m ==> t[m..][k] == t[m + k];
  }

  /** strip() only removes characters: one that s lacks, its strip lacks too. */
  lemma StripKeepsOut(s: string, c: char)
    requires c !in s
    ensures c !in Strip(s)
  {
    var n := LeadingSpaces(s);
    var r := Strip(s);
    assert forall i :: 0 <= i < |r| ==> r[i] == s[n + i];
  }

  /** The characters of s that are not whitespace, in order. */
  function RemoveSpaces(s: string): string {
    if s == [] then "" else (if IsSpace(s[0]) then "" else [s[0]]) + RemoveSpaces(s[1..])
  }

  lemma {:induction false} RemoveSpacesAppend(a: string, b: string)
    ensures RemoveSpaces(a + b) == RemoveSpaces(a) + RemoveSpaces(b)
  {
    if a == [] {
      assert a + b == b;
    } else {
      assert (a + b)[1..] == a[1..] + b;
      RemoveSpacesAppend(a[1..], b);
    }
  }

  lemma {:induction false} RemoveSpacesOfNoSpace(s: string)
    requires NoSpace(s)
    ensures RemoveSpaces(s) == s
  {
    if s != [] {
      RemoveSpacesOfNoSpace(s[1..]);
    }
  }

  lemma {:induction false} RemoveSpacesOfSpaces(s: string)
    requires forall i :: 0 <= i < |s| ==> IsSpace(s[i])
    ensures RemoveSpaces(s) == ""
  {
    if s != [] {
      RemoveSpacesOfSpaces(s[1..]);
    }
  }

  lemma LStripKeepsText(s: string)
    ensures RemoveSpaces(LStrip(s)) == RemoveSpaces(s)
  {
    var n := LeadingSpaces(s);
    assert s == s[..n] + s[n..];
    RemoveSpacesAppend(s[..n], s[n..]);
    RemoveSpacesOfSpaces(s[..n]);
  }

  lemma RStripKeepsText(s: string)
    ensures RemoveSpaces(RStrip(s)) == RemoveSpaces(s)
  {
    var m := |s| - TrailingSpaces(s);
    assert s == s[..m] + s[m..];
    RemoveSpacesAppend(s[..m], s[m..]);
    RemoveSpacesOfSpaces(s[m..]);
  }

  /** Stripping loses whitespace only. */
  lemma StripKeepsText(s: string)
    ensures RemoveSpaces(Strip(s)) == RemoveSpaces(s)
  {
    LStripKeepsText(s);
    RStripKeepsText(LStrip(s));
  }

  /** Number of occurrences of c in s. */
  function CountChar(s: string, c: char): nat {
    if s == [] then 0 else (if s[0] == c then 1 else 0) + CountChar(s[1..], c)
  }

  /** sep.join(parts) */
  function Join(parts: seq<string>, sep: string): string {
    if |parts| == 0 then ""
    else if |parts| == 1 then parts[0]
    else parts[0] + sep + Join(parts[1..], sep)
  }

  /** s.split(sep) for a one-character separator: the pieces between
      separators, one more than the number of separators. */
  function SplitOn(s: string, sep: char): (r: seq<string>)
    ensures |r| == CountChar(s, sep) + 1
    ensures forall k :: 0 <= k < |r| ==> sep !in r[k]
    ensures Join(r, [sep]) == s
  {
    if s == [] then [""]
    else if s[0] == sep then
      var rest := SplitOn(s[1..], sep);
      JoinCons("", rest, [sep]);
      [""] + rest
    else
      var rest := SplitOn(s[1..], sep);
      JoinGrowFirst(s[0], rest, [sep]);
      assert s == [s[0]] + s[1..];
      [[s[0]] + rest[0]] + rest[1..]
  }

  lemma JoinCons(a: string, rest: seq<string>, sep: string)
    requires rest != []
    ensures Join([a] + rest, sep) == a + sep + Join(rest, sep)
  {
    assert ([a] + rest)[1..] == rest;
  }

  lemma JoinGrowFirst(c: char, parts: seq<string>, sep: string)
    requires parts != []
    ensures Join([[c] + parts[0]] + parts[1..], sep) == [c] + Join(parts, sep)
  {
    var q := [[c] + parts[0]] + parts[1..];
    assert q[1..] == parts[1..];
  }

  lemma {:induction false} SplitOnNoSep(a: string, sep: char)
    requires sep !in a
    ensures SplitOn(a, sep) == [a]
  {
    if a != [] {
      SplitOnNoSep(a[1..], sep);
      assert a == [a[0]] + a[1..];
    }
  }

  lemma {:induction false} SplitOnAfterPiece(a: string, sep: char, b: string)
    requires sep !in a
    ensures SplitOn(a + [sep] + b, sep) == [a] + SplitOn(b, sep)
  {
    var s := a + [sep] + b;
    if a == [] {
      assert s[1..] == b;
    } else {
      assert s[0] == a[0];
      assert s[1..] == a[1..] + [sep] + b;
      SplitOnAfterPiece(a[1..], sep, b);
      assert [a[0]] + a[1..] == a;
    }
  }

  /** Splitting a join on its separator gives the pieces back, provided no
      piece contains the separator. */
  lemma {:induction false} SplitOnJoin(ls: seq<string>, sep: char)
    requires ls != []
    requires forall k :: 0 <= k < |ls| ==> sep !in ls[k]
    ensures SplitOn(Join(ls, [sep]), sep) == ls
  {
    if |ls| == 1 {
      SplitOnNoSep(ls[0], sep);
    } else {
      SplitOnJoin(ls[1..], sep);
      SplitOnAfterPiece(ls[0], sep, Join(ls[1..], [sep]));
      assert ls == [ls[0]] + ls[1..];
    }
  }

  /** The first piece of a split is the text before the first separator. */
  lemma {:induction false} SplitOnHead(s: string, sep: char)
    ensures var h := SplitOn(s, sep)[0];
      |h| <= |s| && s[..|h|] == h && (|h| == |s| || s[|h|] == sep)
    decreases |s|
  {
    if s != [] && s[0] != sep {
      var rest := SplitOn(s[1..], sep);
      SplitOnHead(s[1..], sep);
      var h := SplitOn(s, sep)[0];
      assert h == [s[0]] + rest[0];
      assert s[1..][..|rest[0]|] == rest[0];
      assert s[..|h|] == [s[0]] + s[1..][..|rest[0]|];
    }
  }

  /** Length of the run of non-whitespace characters at the start of s. */
  function WordLength(s: string): (n: nat)
    ensures n <= |s|
    ensures forall i :: 0 <= i < n ==> !IsSpace(s[i])
    ensures n < |s| ==> IsSpace(s[n])
  {
    if s == [] || IsSpace(s[0]) then 0 else 1 + WordLength(s[1..])
  }

  function Concat(ss: seq<string>): string {
    if ss == [] then "" else ss[0] + Concat(ss[1..])
  }

  /** Every piece is a non-empty run of non-whitespace. */
  predicate AllWords(r: seq<string>) {
    forall k :: 0 <= k < |r| ==> r[k] != [] && NoSpace(r[k])
  }

  /** s.split() with no argument: the maximal runs of non-whitespace. */
  function Words(s: string): (r: seq<string>)
    ensures AllWords(r)
    decreases |s|
  {
    var t := LStrip(s);
    if t == [] then [] else
      var k := WordLength(t);
      var rest := Words(t[k..]);
      WordsCons(t[..k], rest);
      [t[..k]] + rest
  }

  lemma WordsCons(w: string, r: seq<string>)
    requires w != [] && NoSpace(w) && AllWords(r)
    ensures AllWords([w] + r)
  {
    assert forall k :: 1 <= k < |r| + 1 ==> ([w] + r)[k] == r[k - 1];
  }

  /** The words of s, run together, are exactly the non-whitespace text of s. */
  lemma {:induction false} WordsKeepText(s: string)
    ensures Concat(Words(s)) == RemoveSpaces(s)
    decreases |s|
  {
    var t := LStrip(s);
    LStripKeepsText(s);
    if t != [] {
      var k := WordLength(t);
      var word, tail := t[..k], t[k..];
      assert t == word + tail;
      RemoveSpacesAppend(word, tail);
      RemoveSpacesOfNoSpace(word);
      WordsKeepText(tail);
      assert Words(s) == [word] + Words(tail);
      ConcatCons(word, Words(tail));
      calc {
        Concat(Words(s));
        word + Concat(Words(tail));
        word + RemoveSpaces(tail);
        RemoveSpaces(t);
      }
    } else {
      assert Words(s) == [];
    }
  }

  /** A word of s starts at i: a non-whitespace character at the start of s
      or right after whitespace. */
  predicate IsWordStart(s: string, i: int)
    requires 0 <= i < |s|
  {
    !IsSpace(s[i]) && (i == 0 || IsSpace(s[i - 1]))
  }

  /** The positions from lo on where a word of s starts. */
  function StartsFrom(s: string, lo: nat): set<int> {
    set i | lo <= i < |s| && IsWordStart(s, i)
  }

  /** The number of positions from lo on where a word of s starts. */
  function CountStarts(s: string, lo: nat): nat
    decreases |s| - lo
  {
    if lo >= |s| then 0
    else CountStarts(s, lo + 1) + (if IsWordStart(s, lo) then 1 else 0)
  }

  lemma {:induction false} CountStartsSize(s: string, lo: nat)
    ensures CountStarts(s, lo) == |StartsFrom(s, lo)|
    decreases |s| - lo
  {
    if lo >= |s| {
      assert StartsFrom(s, lo) == {};
    } else {
      CountStartsSize(s, lo + 1);
      StartsFromStep(s, lo);
    }
  }

  lemma StartsFromStep(s: string, lo: nat)
    requires lo < |s|
    ensures StartsFrom(s, lo) == StartsFrom(s, lo + 1) + (if IsWordStart(s, lo) then {lo} else {})
    ensures lo !in StartsFrom(s, lo + 1)
  {
  }

  /** Positions lo, ..., hi - 1 where no word starts add nothing to the count. */
  lemma {:induction false} CountSkip(s: string, lo: nat, hi: nat)
    requires lo <= hi <= |s|
    requires forall i :: lo <= i < hi ==> !IsWordStart(s, i)
    ensures CountStarts(s, lo) == CountStarts(s, hi)
    decreases hi - lo
  {
    if lo < hi {
      CountSkip(s, lo + 1, hi);
    }
  }

  /** split() finds one word per word start, from a position m where a word
      cannot continue from before m. */
  lemma {:induction false} WordsFrom(s: string, m: nat)
    requires m <= |s| && (m == 0 || m == |s| || IsSpace(s[m - 1]) || IsSpace(s[m]))
    ensures WordTotal(s[m..]) == CountStarts(s, m)
    decreases |s| - m
  {
    var found, next := WordsNext(s, m);
    if found {
      WordsFrom(s, next);
    }
  }

  /** Either no word is left from m on, or there is a next word, and the next
      position to look from is where it ends. */
  lemma WordsNext(s: string, m: nat) returns (found: bool, next: nat)
    requires m <= |s| && (m == 0 || m == |s| || IsSpace(s[m - 1]) || IsSpace(s[m]))
    ensures !found ==> WordTotal(s[m..]) == 0 && CountStarts(s, m) == 0
    ensures found ==> m < next <= |s| && (next == |s| || IsSpace(s[next]))
    ensures found ==> WordTotal(s[m..]) == 1 + WordTotal(s[next..])
    ensures found ==> CountStarts(s, m) == 1 + CountStarts(s, next)
  {
    var a;
    found, a, next := WordsFront(s, m);
    if found {
      CountFront(s, m, a, next);
    } else {
      CountSkip(s, m, |s|);
    }
  }

  predicate SpacesBetween(s: string, lo: int, hi: int) {
    forall i :: lo <= i < hi && 0 <= i < |s| ==> IsSpace(s[i])
  }

  predicate WordBetween(s: string, lo: int, hi: int) {
    forall i :: lo <= i < hi && 0 <= i < |s| ==> !IsSpace(s[i])
  }

  /** What split() does from m on: skip the whitespace up to a, then take the
      word up to next, if there is one. */
  lemma WordsFront(s: string, m: nat) returns (found: bool, a: nat, next: nat)
    requires m <= |s|
    ensures !found ==> WordTotal(s[m..]) == 0 && SpacesBetween(s, m, |s|)
    ensures found ==> m <= a < next <= |s| && SpacesBetween(s, m, a) && WordBetween(s, a, next)
    ensures found ==> (next == |s| || IsSpace(s[next])) && WordTotal(s[m..]) == 1 + WordTotal(s[next..])
  {
    var u := s[m..];
    a := m + LeadingSpaces(u);
    assert LStrip(u) == s[a..];
    forall i | m <= i < a
      ensures IsSpace(s[i])
    {
      assert s[i] == u[i - m];
    }
    if a < |s| {
      found := true;
      next := WordsStep(s, m, a);
    } else {
      WordsBlank(u);
      found, next := false, a;
    }
  }

  /** A run of whitespace from m to a followed by a word from a to next holds
      exactly one word start, at a. */
  lemma CountFront(s: string, m: nat, a: nat, next: nat)
    requires m <= a < next <= |s| && SpacesBetween(s, m, a) && WordBetween(s, a, next)
    requires m == 0 || m == |s| || IsSpace(s[m - 1]) || IsSpace(s[m])
    ensures CountStarts(s, m) == 1 + CountStarts(s, next)
  {
    CountSkip(s, m, a);
    assert IsWordStart(s, a);
    forall i | a + 1 <= i < next
      ensures !IsWordStart(s, i)
    {
      assert !IsSpace(s[i - 1]);
    }
    CountSkip(s, a + 1, next);
  }

  /** The number of words split() finds in u. */
  function WordTotal(u: string): nat {
    |Words(u)|
  }

  lemma WordsBlank(u: string)
    requires LStrip(u) == []
    ensures WordTotal(u) == 0
  {
  }

  /** split() on s[m..], with its whitespace running up to a, takes the word
      from a up to next and goes on at next. */
  lemma WordsStep(s: string, m: nat, a: nat) returns (next: nat)
    requires m <= a < |s| && LStrip(s[m..]) == s[a..]
    ensures a < next <= |s| && WordBetween(s, a, next) && (next == |s| || IsSpace(s[next]))
    ensures WordTotal(s[m..]) == 1 + WordTotal(s[next..])
  {
    var t := s[a..];
    var k := WordLength(t);
    forall i | a <= i < a + k
      ensures !IsSpace(s[i])
    {
      assert s[i] == t[i - a];
    }
    if a + k < |s| {
      assert s[a + k] == t[k];
    }
    next := a + k;
    assert t[k..] == s[next..];
  }

  /** The number of words split() finds is the number of word starts. */
  lemma WordCount(s: string)
    ensures |Words(s)| == |set i | 0 <= i < |s| && IsWordStart(s, i)|
  {
    WordsFrom(s, 0);
    CountStartsSize(s, 0);
    assert s[0..] == s;
    assert StartsFrom(s, 0) == set i | 0 <= i < |s| && IsWordStart(s, i);
  }

  /** s holds no line boundary. */
  predicate Unbroken(s: string) {
    forall i :: 0 <= i < |s| ==> !IsLineBreak(s[i])
  }

  /** Index of the first line boundary in s, or |s| when there is none. */
  function LineLength(s: string): (n: nat)
    ensures n <= |s|
    ensures forall i :: 0 <= i < n ==> !IsLineBreak(s[i])
    ensures n < |s| ==> IsLineBreak(s[n])
  {
    if s == [] || IsLineBreak(s[0]) then 0 else 1 + LineLength(s[1..])
  }

  /** s.splitlines(): the lines of s without their boundaries; "\r\n" is one
      boundary and a final boundary does not start an empty line. */
  function SplitLines(s: string): (r: seq<string>)
    ensures forall k :: 0 <= k < |r| ==> Unbroken(r[k])
    ensures |r| == 0 <==> |s| == 0
    // the lines, rejoined with "\n", are the text with its boundaries made "\n"
    ensures Join(r, "\n") == Canon(s)
    decreases |s|
  {
    if s == [] then [] else
      var n := LineLength(s);
      CanonAfterLine(s, n);
      if n == |s| then [s] else
        var next := if s[n] == '\r' && n + 1 < |s| && s[n + 1] == '\n' then n + 2 else n + 1;
        var rest := SplitLines(s[next..]);
        CanonAtBoundary(s, n, next, rest);
        [s[..n]] + rest
  }

  /** s with each line boundary written as "\n" ("\r\n" counting as one
      boundary) and a boundary at the very end dropped. */
  function Canon(s: string): string
    decreases |s|
  {
    if s == [] then []
    else if IsLineBreak(s[0]) then
      var next := if s[0] == '\r' && 1 < |s| && s[1] == '\n' then 2 else 1;
      if next == |s| then [] else "\n" + Canon(s[next..])
    else [s[0]] + Canon(s[1..])
  }

  /** "\r" and "\r\n" become one "\n" each, and a final boundary goes. */
  lemma CanonBreaks()
    ensures Canon("a\rb") == "a\nb"
    ensures Canon("a\r\nb") == "a\nb"
    ensures Canon("a b\n") == "a b"
  {
    assert IsLineBreak('\r') && IsLineBreak('\n') && !IsLineBreak('a') && !IsLineBreak('b') && !IsLineBreak(' ');
    assert Canon("b") == "b";
    assert Canon("\n") == "";
    assert Canon("b\n") == "b";
    assert Canon(" b\n") == " b";
  }

  /** The text before the first boundary passes through Canon unchanged. */
  lemma {:induction false} CanonAfterLine(s: string, n: nat)
    requires n == LineLength(s)
    ensures Canon(s) == s[..n] + Canon(s[n..])
    decreases |s|
  {
    if n > 0 {
      var t := s[1..];
      assert LineLength(t) == n - 1;
      CanonAfterLine(t, n - 1);
      assert t[n - 1..] == s[n..];
      assert [s[0]] + t[..n - 1] == s[..n];
    }
  }

  /** At the first boundary n, ending at next, Canon writes one "\n", or
      nothing when the boundary ends the text. */
  lemma CanonAtBoundary(s: string, n: nat, next: nat, rest: seq<string>)
    requires n == LineLength(s) < |s|
    requires next == if s[n] == '\r' && n + 1 < |s| && s[n + 1] == '\n' then n + 2 else n + 1
    requires Canon(s) == s[..n] + Canon(s[n..])
    requires Join(rest, "\n") == Canon(s[next..]) && (|rest| == 0 <==> |s[next..]| == 0)
    ensures Join([s[..n]] + rest, "\n") == Canon(s)
  {
    var u := s[n..];
    var k := next - n;
    BoundaryAt(s, n, next);
    BoundaryJoin(s[..n], u, k, rest);
  }

  /** The boundary at n, seen from the rest of the text. */
  lemma BoundaryAt(s: string, n: nat, next: nat)
    requires n == LineLength(s) < |s|
    requires next == if s[n] == '\r' && n + 1 < |s| && s[n + 1] == '\n' then n + 2 else n + 1
    ensures var u := s[n..]; var k := next - n;
      u != [] && IsLineBreak(u[0])
      && k == (if u[0] == '\r' && 1 < |u| && u[1] == '\n' then 2 else 1)
      && u[k..] == s[next..]
  {
    var u := s[n..];
    assert u[0] == s[n];
    assert 1 < |u| ==> u[1] == s[n + 1];
  }

  /** A line followed by the lines after a boundary u[..k] joins to the line
      followed by Canon(u). */
  lemma BoundaryJoin(line: string, u: string, k: nat, rest: seq<string>)
    requires u != [] && IsLineBreak(u[0])
    requires k == if u[0] == '\r' && 1 < |u| && u[1] == '\n' then 2 else 1
    requires k <= |u| && Join(rest, "\n") == Canon(u[k..]) && (|rest| == 0 <==> k == |u|)
    ensures Join([line] + rest, "\n") == line + Canon(u)
  {
    CanonOfBoundary(u, k);
    if rest == [] {
      assert [line] + rest == [line];
    } else {
      JoinCons(line, rest, "\n");
    }
  }

  /** Canon at a boundary, unfolded once. */
  lemma CanonOfBoundary(u: string, k: nat)
    requires u != [] && IsLineBreak(u[0])
    requires k == if u[0] == '\r' && 1 < |u| && u[1] == '\n' then 2 else 1
    ensures k <= |u| && Canon(u) == if k == |u| then [] else "\n" + Canon(u[k..])
  {
  }

  lemma RemoveSpacesOfGap(s: string, n: nat, next: nat)
    requires n <= next <= |s|
    requires forall i :: n <= i < next ==> IsSpace(s[i])
    ensures RemoveSpaces(s[n..next]) == ""
  {
    var g := s[n..next];
    assert forall i :: 0 <= i < |g| ==> g[i] == s[n + i];
    RemoveSpacesOfSpaces(g);
  }

  lemma SliceThree(s: string, n: nat, next: nat)
    requires n <= next <= |s|
    ensures s == s[..n] + s[n..next] + s[next..]
  {
    assert s[..next] == s[..n] + s[n..next];
    assert s == s[..next] + s[next..];
  }

  lemma AppendAssoc(a: string, b: string, c: string)
    ensures a + b + c == a + (b + c)
  {
  }

  lemma DropPrefix(a: string, b: string)
    ensures (a + b)[|a|..] == b && (a + b)[..|a|] == a
  {
  }

  lemma RemoveSpacesDropMiddle(a: string, g: string, b: string)
    requires RemoveSpaces(g) == ""
    ensures RemoveSpaces(a + g + b) == RemoveSpaces(a) + RemoveSpaces(b)
  {
    RemoveSpacesAppend(a + g, b);
    RemoveSpacesAppend(a, g);
  }

  lemma RemoveSpacesSkipGap(s: string, n: nat, next: nat)
    requires n <= next <= |s|
    requires forall i :: n <= i < next ==> IsSpace(s[i])
    ensures RemoveSpaces(s) == RemoveSpaces(s[..n]) + RemoveSpaces(s[next..])
  {
    RemoveSpacesOfGap(s, n, next);
    SliceThree(s, n, next);
    RemoveSpacesDropMiddle(s[..n], s[n..next], s[next..]);
  }

  lemma ConcatCons(a: string, rest: seq<string>)
    ensures Concat([a] + rest) == a + Concat(rest)
  {
    assert ([a] + rest)[1..] == rest;
  }

  /** Splitting into lines drops whitespace only. */
  lemma {:induction false} SplitLinesKeepText(s: string)
    ensures RemoveSpaces(Concat(SplitLines(s))) == RemoveSpaces(s)
    decreases |s|
  {
    if s != [] {
      var n := LineLength(s);
      if n == |s| {
        ConcatCons(s, []);
        assert s + "" == s;
      } else {
        var next := if s[n] == '\r' && n + 1 < |s| && s[n + 1] == '\n' then n + 2 else n + 1;
        var line, tail := s[..n], s[next..];
        var rest := SplitLines(tail);
        assert SplitLines(s) == [line] + rest;
        ConcatCons(line, rest);
        SplitLinesKeepText(tail);
        RemoveSpacesAppend(line, Concat(rest));
        forall i | n <= i < next
          ensures IsSpace(s[i])
        {
          if i == n {
            LineBreakIsSpace(s[n]);
          } else {
            assert i == n + 1 && next == n + 2;
            assert s[n + 1] == '\n';
          }
        }
        RemoveSpacesSkipGap(s, n, next);
        calc {
          RemoveSpaces(Concat(SplitLines(s)));
          RemoveSpaces(line + Concat(rest));
          RemoveSpaces(line) + RemoveSpaces(Concat(rest));
          RemoveSpaces(line) + RemoveSpaces(tail);
          RemoveSpaces(s);
        }
      }
    }
  }

  /** Every line boundary of s is "\n" and s does not end with one. */
  predicate NewlineText(s: string) {
    (forall i :: 0 <= i < |s| && IsLineBreak(s[i]) ==> s[i] == '\n')
    && (s == [] || s[|s| - 1] != '\n')
  }

  /** Joining the lines of such a text with "\n" gives the text back. */
  lemma {:induction false} SplitLinesJoin(s: string)
    requires NewlineText(s)
    ensures Join(SplitLines(s), "\n") == s
    decreases |s|
  {
    if s != [] {
      var n := LineLength(s);
      if n < |s| {
        var tail := NewlineTail(s, n);
        SplitLinesJoin(tail);
        SplitLinesNonEmpty(tail);
        JoinCons(s[..n], SplitLines(tail), "\n");
      }
    }
  }

  /** At a "\n" boundary n of such a text, the rest after it is again such a
      text, and the lines are the one before it followed by the lines of the rest. */
  lemma NewlineTail(s: string, n: nat) returns (tail: string)
    requires NewlineText(s) && n == LineLength(s) < |s|
    ensures n + 1 < |s| && tail == s[n + 1..] && NewlineText(tail)
    ensures s == s[..n] + "\n" + tail
    ensures SplitLines(s) == [s[..n]] + SplitLines(tail)
  {
    assert s[n] == '\n';
    tail := s[n + 1..];
    NewlineRest(s, n + 1);
    assert s == s[..n] + [s[n]] + tail;
  }

  /** What follows any position of such a text is again such a text. */
  lemma NewlineRest(s: string, m: nat)
    requires NewlineText(s) && m <= |s|
    ensures NewlineText(s[m..])
  {
    var tail := s[m..];
    forall i | 0 <= i < |tail| && IsLineBreak(tail[i])
      ensures tail[i] == '\n'
    {
      assert tail[i] == s[m + i];
    }
  }

  lemma SplitLinesNonEmpty(s: string)
    ensures s != [] ==> SplitLines(s) != []
  {
  }

  /** ASCII letters lower-cased; every other character is left alone. */
  function LowerChar(c: char): char {
    if 'A' <= c <= 'Z' then (c as int + 32) as char else c
  }

  function Lower(s: string): (r: string)
    ensures |r| == |s|
    ensures forall i :: 0 <= i < |s| ==> r[i] == LowerChar(s[i])
  {
    seq(|s|, i requires 0 <= i < |s| => LowerChar(s[i]))
  }

  predicate StartsWith(s: string, prefix: string) {
    |prefix| <= |s| && s[..|prefix|] == prefix
  }

  /** t in s: some window of s equals t (searched left to right). */
  function Contains(s: string, t: string): bool
    decreases |s|
  {
    StartsWith(s, t) || (s != [] && Contains(s[1..], t))
  }

  ghost predicate OccursAt(s: string, t: string, i: int) {
    0 <= i && i + |t| <= |s| && s[i..i + |t|] == t
  }

  /** Contains agrees with the existence of a position where t occurs. */
  lemma {:induction false} ContainsAt(s: string, t: string)
    ensures Contains(s, t) <==> exists i :: OccursAt(s, t, i)
    decreases |s|
  {
    if StartsWith(s, t) {
      assert OccursAt(s, t, 0);
    } else if s == [] {
    } else {
      ContainsAt(s[1..], t);
      if exists i :: OccursAt(s, t, i) {
        var i :| OccursAt(s, t, i);
        assert i != 0;
        assert s[1..][i - 1..i - 1 + |t|] == s[i..i + |t|];
        assert OccursAt(s[1..], t, i - 1);
      }
      if Contains(s[1..], t) {
        var j :| OccursAt(s[1..], t, j);
        assert s[j + 1..j + 1 + |t|] == s[1..][j..j + |t|];
        assert OccursAt(s, t, j + 1);
      }
    }
  }
}
