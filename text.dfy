/** Python string operations the core relies on, over `string` (a sequence of code points):
    `sub in s`, `s.lower()`, `s.strip()`, `s.split()`, `s.split(sep)` and `sep.join(parts)`. */
module Text {
  import opened Wrappers

  /** Python's `str.isspace()` for one character: ASCII 9-13 and 28-32, and the Unicode spaces. */
  predicate IsSpace(c: char)
  {
    var n := c as int;
    || 9 <= n <= 13 || 28 <= n <= 32 || n == 0x85 || n == 0xA0 || n == 0x1680
    || 0x2000 <= n <= 0x200A || n == 0x2028 || n == 0x2029 || n == 0x202F
    || n == 0x205F || n == 0x3000
  }

  /** `str.lower()` restricted to ASCII letters. */
  function LowerChar(c: char): char
  {
    if 'A' <= c <= 'Z' then (c as int + 32) as char else c
  }

  function Lower(s: string): (r: string)
    ensures |r| == |s|
    ensures forall i :: 0 <= i < |s| ==> r[i] == LowerChar(s[i])
  {
    seq(|s|, i requires 0 <= i < |s| => LowerChar(s[i]))
  }

  /** A string already in lower case is its own lowering. */
  lemma LowerOfLower(s: string)
    requires forall c <- s :: !('A' <= c <= 'Z')
    ensures Lower(s) == s
  {
    forall i | 0 <= i < |s| ensures Lower(s)[i] == s[i] {
      assert s[i] in s;
    }
  }

  // ---------------------------------------------------------------------------
  // Substring search: Python's `sub in s` and `s.find(sub)`

  predicate OccursAt(s: string, sub: string, i: nat)
  {
    i + |sub| <= |s| && s[i..i + |sub|] == sub
  }

  lemma OccursShift(s: string, sub: string, j: nat)
    requires |s| > 0 && j > 0
    ensures OccursAt(s, sub, j) == OccursAt(s[1..], sub, j - 1)
  {
    if j + |sub| <= |s| {
      assert s[j..j + |sub|] == s[1..][j - 1..j - 1 + |sub|];
    }
  }

  /** The first position at which `sub` occurs in `s`, as `s.find(sub)` computes it. */
  function IndexOf(s: string, sub: string): (r: Option<nat>)
    ensures r.Some? ==> OccursAt(s, sub, r.value)
    ensures r.Some? ==> forall j :: 0 <= j < r.value ==> !OccursAt(s, sub, j)
    ensures r.None? ==> forall j: nat :: !OccursAt(s, sub, j)
    decreases |s|
  {
    if |sub| > |s| then None
    else if s[..|sub|] == sub then Some(0)
    else
      var rest := IndexOf(s[1..], sub);
      assert forall j: nat :: j > 0 ==> OccursAt(s, sub, j) == OccursAt(s[1..], sub, j - 1) by {
        forall j: nat | j > 0 ensures OccursAt(s, sub, j) == OccursAt(s[1..], sub, j - 1) {
          OccursShift(s, sub, j);
        }
      }
      assert !OccursAt(s, sub, 0);
      match rest
      case None => None
      case Some(k) => Some(k + 1)
  }

  /** Python's `sub in s`. */
  predicate Contains(s: string, sub: string)
  {
    IndexOf(s, sub).Some?
  }

  lemma ContainsIff(s: string, sub: string)
    ensures Contains(s, sub) <==> exists i: nat :: OccursAt(s, sub, i)
  {
  }

  /** An occurrence at `i` is found: the search cannot report "absent". */
  lemma OccurrenceContained(s: string, sub: string, i: nat)
    requires OccursAt(s, sub, i)
    ensures Contains(s, sub)
  {
  }

  /** A string lacking one of the characters of `sub` does not contain `sub`. */
  lemma MissingCharNotContained(s: string, sub: string, c: char)
    requires c in sub && c !in s
    ensures !Contains(s, sub)
  {
  }

  /** A string longer than `s` is not contained in it. */
  lemma LongerNotContained(s: string, sub: string)
    requires |sub| > |s|
    ensures !Contains(s, sub)
  {
  }

  /** The first occurrence of `sub` is at `k` when it occurs there and nowhere before. */
  lemma IndexOfIs(s: string, sub: string, k: nat)
    requires OccursAt(s, sub, k)
    requires forall j :: 0 <= j < k ==> !OccursAt(s, sub, j)
    ensures IndexOf(s, sub) == Some(k)
  {
  }

  // ---------------------------------------------------------------------------
  // strip()

  predicate AllSpace(s: string)
  {
    forall i :: 0 <= i < |s| ==> IsSpace(s[i])
  }

  function TrimStart(s: string): (r: string)
    ensures |r| <= |s| && r == s[|s| - |r|..]
    ensures r == [] || !IsSpace(r[0])
    ensures AllSpace(s[..|s| - |r|])
  {
    if |s| > 0 && IsSpace(s[0]) then
      var r := TrimStart(s[1..]);
      assert s[..|s| - |r|] == [s[0]] + s[1..][..|s| - 1 - |r|];
      r
    else s
  }

  /** `r` is `s` less a whitespace-only prefix of length `a` and a whitespace-only suffix. */
  predicate TrimmedAt(s: string, r: string, a: nat)
  {
    a + |r| <= |s| && r == s[a..a + |r|] && AllSpace(s[..a]) && AllSpace(s[a + |r|..])
  }

  /** Python's `s.strip()`: the string without leading and trailing whitespace (lemma
      StripTrims gives the offset it starts at). */
  function Strip(s: string): (r: string)
    ensures |r| <= |s|
    ensures r == [] || (!IsSpace(r[0]) && !IsSpace(r[|r| - 1]))
    ensures r == [] <==> AllSpace(s)
    decreases |s|
  {
    if s != [] && IsSpace(s[0]) then
      var r := Strip(s[1..]);
      assert AllSpace(s) <==> AllSpace(s[1..]) by {
        assert forall i :: 0 < i < |s| ==> s[i] == s[1..][i - 1];
      }
      r
    else if s != [] && IsSpace(s[|s| - 1]) then
      var r := Strip(s[..|s| - 1]);
      assert AllSpace(s) <==> AllSpace(s[..|s| - 1]) by {
        assert forall i :: 0 <= i < |s| - 1 ==> s[i] == s[..|s| - 1][i];
      }
      r
    else
      s
  }

  /** Whitespace added at the front of a whitespace-only string. */
  lemma AllSpaceCons(c: char, t: string)
    requires IsSpace(c) && AllSpace(t)
    ensures AllSpace([c] + t)
  {
    assert forall i :: 0 < i <= |t| ==> ([c] + t)[i] == t[i - 1];
  }

  /** Whitespace added at the back of a whitespace-only string. */
  lemma AllSpaceSnoc(t: string, c: char)
    requires IsSpace(c) && AllSpace(t)
    ensures AllSpace(t + [c])
  {
    assert forall i :: 0 <= i < |t| ==> (t + [c])[i] == t[i];
  }

  /** Trimming a string that starts with whitespace: the offset moves by one. */
  lemma TrimmedAtTail(s: string, r: string, b: nat)
    requires s != [] && IsSpace(s[0]) && TrimmedAt(s[1..], r, b)
    ensures TrimmedAt(s, r, b + 1)
  {
    var u := s[1..];
    assert u[b..b + |r|] == s[b + 1..b + 1 + |r|];
    assert u[b + |r|..] == s[b + 1 + |r|..];
    assert s[..b + 1] == [s[0]] + u[..b];
    AllSpaceCons(s[0], u[..b]);
  }

  /** Trimming a string that ends with whitespace: the offset stays. */
  lemma TrimmedAtInit(s: string, r: string, b: nat)
    requires s != [] && IsSpace(s[|s| - 1]) && TrimmedAt(s[..|s| - 1], r, b)
    ensures TrimmedAt(s, r, b)
  {
    var t := s[..|s| - 1];
    assert t[b..b + |r|] == s[b..b + |r|];
    assert t[..b] == s[..b];
    assert s[b + |r|..] == t[b + |r|..] + [s[|s| - 1]];
    AllSpaceSnoc(t[b + |r|..], s[|s| - 1]);
  }

  /** The strip of a string is the string less a whitespace-only prefix of length `a` and a
      whitespace-only suffix. */
  lemma {:induction false} StripTrims(s: string) returns (a: nat)
    ensures TrimmedAt(s, Strip(s), a)
    decreases |s|
  {
    if s != [] && IsSpace(s[0]) {
      var b := StripTrims(s[1..]);
      TrimmedAtTail(s, Strip(s), b);
      a := b + 1;
    } else if s != [] && IsSpace(s[|s| - 1]) {
      a := StripTrims(s[..|s| - 1]);
      TrimmedAtInit(s, Strip(s), a);
    } else {
      a := 0;
      assert s[..0] == [] && s[|s|..] == [] && s[0..|s|] == s;
    }
  }

  /** Non-empty, and neither starting nor ending with whitespace. */
  predicate IsStripped(s: string)
  {
    s != [] && !IsSpace(s[0]) && !IsSpace(s[|s| - 1])
  }

  /** A stripped string is its own strip. */
  lemma StrippedIsFixed(s: string)
    requires IsStripped(s)
    ensures Strip(s) == s
  {
  }

  /** What occurs in a piece of a string occurs in the string. */
  lemma ContainedInInfix(s: string, a: nat, b: nat, sub: string)
    requires a <= b <= |s| && Contains(s[a..b], sub)
    ensures Contains(s, sub)
  {
    var piece := s[a..b];
    var j := IndexOf(piece, sub).value;
    assert OccursAt(piece, sub, j);
    assert j + |sub| <= b - a;
    forall i | 0 <= i < |sub| ensures s[a + j + i] == sub[i] {
      assert piece[j..j + |sub|][i] == piece[j + i] == s[a + j + i];
    }
    assert s[a + j..a + j + |sub|] == sub;
    OccurrenceContained(s, sub, a + j);
  }

  /** Stripping cannot create an occurrence. */
  lemma StripKeepsAbsent(s: string, sub: string)
    requires !Contains(s, sub)
    ensures !Contains(Strip(s), sub)
  {
    var a := StripTrims(s);
    if Contains(Strip(s), sub) {
      ContainedInInfix(s, a, a + |Strip(s)|, sub);
    }
  }

  /** `[p.strip() for p in parts if p.strip()]`: the parts stripped, the blank ones dropped,
      order kept. */
  function StripNonBlank(parts: seq<string>): (r: seq<string>)
    ensures |r| <= |parts|
    ensures forall i :: 0 <= i < |r| ==> IsStripped(r[i])
  {
    if parts == [] then []
    else
      var s := Strip(parts[|parts| - 1]);
      var init := StripNonBlank(parts[..|parts| - 1]);
      if s != [] then
        assert IsStripped(s);
        init + [s]
      else init
  }

  /** Every kept part is the strip of some part. */
  lemma {:induction false} StripNonBlankFrom(parts: seq<string>, i: nat)
    requires i < |StripNonBlank(parts)|
    ensures exists j :: 0 <= j < |parts| && StripNonBlank(parts)[i] == Strip(parts[j])
  {
    var n := |parts| - 1;
    var init := parts[..n];
    if i < |StripNonBlank(init)| {
      StripNonBlankFrom(init, i);
      var j :| 0 <= j < |init| && StripNonBlank(init)[i] == Strip(init[j]);
      assert parts[j] == init[j];
    } else {
      assert StripNonBlank(parts)[i] == Strip(parts[n]);
    }
  }

  /** A part that is not blank keeps the result non-empty. */
  lemma {:induction false} StripNonBlankNonEmpty(parts: seq<string>, j: nat)
    requires j < |parts| && Strip(parts[j]) != []
    ensures StripNonBlank(parts) != []
  {
    var n := |parts| - 1;
    if j < n {
      var init := parts[..n];
      assert init[j] == parts[j];
      StripNonBlankNonEmpty(init, j);
    }
  }

  /** With no blank part, the result is the stripped parts, one for one. */
  lemma {:induction false} StripNonBlankWithoutBlanks(parts: seq<string>)
    requires forall i :: 0 <= i < |parts| ==> Strip(parts[i]) != []
    ensures StripNonBlank(parts) == seq(|parts|, i requires 0 <= i < |parts| => Strip(parts[i]))
  {
    if parts != [] {
      var n := |parts| - 1;
      var init := parts[..n];
      assert forall i :: 0 <= i < n ==> init[i] == parts[i];
      StripNonBlankWithoutBlanks(init);
      var want := seq(|parts|, i requires 0 <= i < |parts| => Strip(parts[i]));
      assert StripNonBlank(parts) == StripNonBlank(init) + [Strip(parts[n])];
      assert want[..n] == seq(n, i requires 0 <= i < n => Strip(init[i]));
      assert want == want[..n] + [want[n]];
    }
  }

  /** Parts that are already stripped come back unchanged. */
  lemma {:induction false} StripNonBlankOfStripped(parts: seq<string>)
    requires forall i :: 0 <= i < |parts| ==> IsStripped(parts[i])
    ensures StripNonBlank(parts) == parts
  {
    if parts != [] {
      var n := |parts| - 1;
      var init := parts[..n];
      assert forall i :: 0 <= i < n ==> init[i] == parts[i];
      StripNonBlankOfStripped(init);
      StrippedIsFixed(parts[n]);
      assert parts == init + [parts[n]];
    }
  }

  /** A blank part contributes nothing. */
  lemma BlankPartDropped(parts: seq<string>, blank: string)
    requires AllSpace(blank)
    ensures StripNonBlank(parts + [blank]) == StripNonBlank(parts)
  {
    assert (parts + [blank])[..|parts|] == parts;
  }

  // ---------------------------------------------------------------------------
  // split() without a separator: maximal runs of non-whitespace

  /** Length of the leading run of non-whitespace characters. */
  function WordLength(t: string): (n: nat)
    ensures n <= |t|
    ensures forall i :: 0 <= i < n ==> !IsSpace(t[i])
    ensures n == |t| || IsSpace(t[n])
  {
    if t == [] || IsSpace(t[0]) then 0 else 1 + WordLength(t[1..])
  }

  /** Where the first word of `s` starts: after its leading whitespace (`|s|` when none). */
  function WordStart(s: string): (k: nat)
    ensures k <= |s|
  {
    |s| - |TrimStart(s)|
  }

  /** Where the first word of `s` ends. */
  function WordEnd(s: string): (m: nat)
    requires WordStart(s) < |s|
    ensures WordStart(s) < m <= |s|
  {
    assert s[WordStart(s)..] == TrimStart(s);
    WordStart(s) + WordLength(s[WordStart(s)..])
  }

  /** Python's `s.split()`: the whitespace-separated words of `s`, never empty strings (lemma
      SplitWordsRuns shows they are its maximal runs of non-whitespace). */
  function SplitWords(s: string): (words: seq<string>)
    decreases |s|
  {
    if WordStart(s) == |s| then []
    else [s[WordStart(s)..WordEnd(s)]] + SplitWords(s[WordEnd(s)..])
  }

  /** `s[a..b]` is a maximal run of non-whitespace: non-empty, and bounded by whitespace or by
      the ends of `s`. */
  predicate IsRun(s: string, a: int, b: int)
  {
    && 0 <= a < b <= |s|
    && (forall j :: a <= j < b ==> !IsSpace(s[j]))
    && (a == 0 || IsSpace(s[a - 1]))
    && (b == |s| || IsSpace(s[b]))
  }

  /** A run of a suffix that does not start at the suffix's whitespace head is a run of the
      whole string. */
  lemma ShiftRun(s: string, m: nat, a: int, b: int)
    requires m <= |s| && IsRun(s[m..], a, b) && (m == 0 || IsSpace(s[m - 1]) || a > 0)
    ensures IsRun(s, a + m, b + m)
  {
    assert forall j :: a <= j < b ==> s[m..][j] == s[j + m];
    if a > 0 {
      assert s[m..][a - 1] == s[a + m - 1];
    }
    if b < |s| - m {
      assert s[m..][b] == s[b + m];
    }
  }

  /** Word `i` is the run of `s` that starts at `starts[i]`. */
  predicate WordsAt(s: string, words: seq<string>, starts: seq<nat>)
  {
    |starts| == |words| &&
    forall i :: 0 <= i < |starts| ==>
      IsRun(s, starts[i], starts[i] + |words[i]|) && words[i] == s[starts[i]..starts[i] + |words[i]|]
  }

  /** Each word ends before the next one starts. */
  predicate InOrder(words: seq<string>, starts: seq<nat>)
    requires |starts| == |words|
  {
    forall i :: 0 < i < |starts| ==> starts[i - 1] + |words[i - 1]| < starts[i]
  }

  /** Every non-whitespace character of `s` lies in one of the words. */
  predicate Covers(s: string, words: seq<string>, starts: seq<nat>)
    requires |starts| == |words|
  {
    forall k :: 0 <= k < |s| && !IsSpace(s[k]) ==>
      exists i :: 0 <= i < |starts| && starts[i] <= k < starts[i] + |words[i]|
  }

  /** Positions in `s[m..]` moved to positions in `s`. */
  function Shifted(starts: seq<nat>, m: nat): (r: seq<nat>)
    ensures |r| == |starts| && forall i :: 0 <= i < |r| ==> r[i] == starts[i] + m
  {
    seq(|starts|, i requires 0 <= i < |starts| => starts[i] + m)
  }

  /** The runs of `s[m..]`, when `s[m]` is whitespace, are runs of `s`. */
  lemma ShiftedWordsAt(s: string, m: nat, words: seq<string>, starts: seq<nat>)
    requires m <= |s| && (m == |s| || IsSpace(s[m])) && WordsAt(s[m..], words, starts)
    ensures WordsAt(s, words, Shifted(starts, m))
    ensures forall i :: 0 <= i < |starts| ==> starts[i] > 0
  {
    var r := Shifted(starts, m);
    forall i | 0 <= i < |starts| ensures starts[i] > 0 {
      assert IsRun(s[m..], starts[i], starts[i] + |words[i]|);
    }
    forall i | 0 <= i < |r|
      ensures IsRun(s, r[i], r[i] + |words[i]|) && words[i] == s[r[i]..r[i] + |words[i]|]
    {
      var a := starts[i];
      ShiftRun(s, m, a, a + |words[i]|);
      assert s[m..][a..a + |words[i]|] == s[r[i]..r[i] + |words[i]|];
    }
  }

  /** Covering the suffix after the first word covers the whole string. */
  lemma ShiftedCovers(s: string, k0: nat, m: nat, words: seq<string>, starts: seq<nat>)
    requires k0 < m <= |s| && AllSpace(s[..k0]) && |words| == |starts| + 1 && |words[0]| == m - k0
    requires Covers(s[m..], words[1..], starts)
    ensures Covers(s, words, [k0] + Shifted(starts, m))
  {
    var all := [k0] + Shifted(starts, m);
    forall k | 0 <= k < |s| && !IsSpace(s[k])
      ensures exists i :: 0 <= i < |all| && all[i] <= k < all[i] + |words[i]|
    {
      if k < k0 {
        assert false;
      } else if k < m {
        assert all[0] <= k < all[0] + |words[0]|;
      } else {
        assert s[m..][k - m] == s[k];
        var i :| 0 <= i < |starts| && starts[i] <= k - m < starts[i] + |words[1..][i]|;
        assert all[i + 1] <= k < all[i + 1] + |words[i + 1]|;
      }
    }
  }

  /** The first word of a string that is not all whitespace is a run. */
  lemma FirstWordRun(s: string)
    requires WordStart(s) < |s|
    ensures IsRun(s, WordStart(s), WordEnd(s)) && AllSpace(s[..WordStart(s)])
  {
    var k0 := WordStart(s);
    var t := TrimStart(s);
    assert t == s[k0..];
    var n := WordLength(t);
    var m := WordEnd(s);
    forall j | k0 <= j < m ensures !IsSpace(s[j]) {
      assert s[j] == t[j - k0];
    }
    if k0 > 0 {
      assert s[k0 - 1] == s[..k0][k0 - 1];
    }
    if m < |s| {
      assert s[m] == t[n];
    }
  }

  /** Putting a first run in front of the shifted runs of the rest keeps every word a run. */
  lemma ConsRun(s: string, k0: nat, m: nat, words: seq<string>, starts: seq<nat>)
    requires k0 < m <= |s| && IsRun(s, k0, m) && WordsAt(s, words, starts)
    ensures WordsAt(s, [s[k0..m]] + words, [k0] + starts)
  {
    var all := [k0] + starts;
    var ws := [s[k0..m]] + words;
    forall i | 0 <= i < |all|
      ensures IsRun(s, all[i], all[i] + |ws[i]|) && ws[i] == s[all[i]..all[i] + |ws[i]|]
    {
      if i > 0 {
        assert ws[i] == words[i - 1] && all[i] == starts[i - 1];
      }
    }
  }

  /** ... and keeps them in order, when the rest's runs start after the first one ends. */
  lemma ConsInOrder(k0: nat, m: nat, first: string, words: seq<string>, starts: seq<nat>)
    requires |first| == m - k0 && |starts| == |words| && InOrder(words, starts)
    requires forall i :: 0 <= i < |starts| ==> starts[i] > 0
    ensures InOrder([first] + words, [k0] + Shifted(starts, m))
  {
    var all := [k0] + Shifted(starts, m);
    var ws := [first] + words;
    forall i | 0 < i < |all| ensures all[i - 1] + |ws[i - 1]| < all[i] {
      if i > 1 {
        assert ws[i - 1] == words[i - 2] && all[i - 1] == starts[i - 2] + m && all[i] == starts[i - 1] + m;
      }
    }
  }

  /** The words `split()` gives are the maximal runs of non-whitespace of `s`, in order:
      word `i` is the run starting at `starts[i]`, each ends before the next starts, and every
      non-whitespace character lies in one of them. */
  lemma {:induction false} SplitWordsRuns(s: string) returns (starts: seq<nat>)
    ensures WordsAt(s, SplitWords(s), starts)
    ensures InOrder(SplitWords(s), starts)
    ensures Covers(s, SplitWords(s), starts)
    decreases |s|
  {
    if WordStart(s) == |s| {
      starts := [];
      assert s[..|s|] == s;
    } else {
      var k0, m := WordStart(s), WordEnd(s);
      FirstWordRun(s);
      var rest := s[m..];
      var rs := SplitWordsRuns(rest);
      ShiftedWordsAt(s, m, SplitWords(rest), rs);
      ConsRun(s, k0, m, SplitWords(rest), Shifted(rs, m));
      ConsInOrder(k0, m, s[k0..m], SplitWords(rest), rs);
      starts := [k0] + Shifted(rs, m);
      ShiftedCovers(s, k0, m, SplitWords(s), rs);
    }
  }

  /** A non-empty string without whitespace is one word. */
  lemma SplitWordsSingle(s: string)
    requires s != [] && forall c <- s :: !IsSpace(c)
    ensures SplitWords(s) == [s]
  {
    assert forall i :: 0 <= i < |s| ==> !IsSpace(s[i]) by {
      forall i | 0 <= i < |s| ensures !IsSpace(s[i]) { assert s[i] in s; }
    }
    assert TrimStart(s) == s && s[0..] == s;
    assert WordEnd(s) == |s|;
    assert s[0..|s|] == s && s[|s|..] == [];
  }

  // ---------------------------------------------------------------------------
  // split(sep) and join

  /** Python's `sep.join(parts)`. */
  function Join(sep: string, parts: seq<string>): string
  {
    if parts == [] then []
    else if |parts| == 1 then parts[0]
    else parts[0] + sep + Join(sep, parts[1..])
  }

  /** Python's `s.split(sep)` for a non-empty separator: cut at each leftmost occurrence. */
  function SplitOn(s: string, sep: string): (parts: seq<string>)
    requires sep != []
    ensures |parts| >= 1
    decreases |s|
  {
    match IndexOf(s, sep)
    case None => [s]
    case Some(k) => [s[..k]] + SplitOn(s[k + |sep|..], sep)
  }

  /** Occurrences inside a prefix are occurrences in the whole string. */
  lemma OccursInPrefix(s: string, sub: string, k: nat, j: nat)
    requires k <= |s| && OccursAt(s[..k], sub, j)
    ensures OccursAt(s, sub, j)
  {
    assert s[..k][j..j + |sub|] == s[j..j + |sub|];
  }

  lemma JoinCons(sep: string, p: string, tail: seq<string>)
    requires tail != []
    ensures Join(sep, [p] + tail) == p + sep + Join(sep, tail)
  {
    assert ([p] + tail)[1..] == tail;
  }

  /** One step of `split(sep)`: the text before the first separator, then the rest split. */
  lemma SplitOnStep(s: string, sep: string, k: nat)
    requires sep != [] && IndexOf(s, sep) == Some(k)
    ensures SplitOn(s, sep) == [s[..k]] + SplitOn(s[k + |sep|..], sep)
    ensures s == s[..k] + sep + s[k + |sep|..]
  {
    assert s[k..k + |sep|] == sep;
    assert s == s[..k] + s[k..k + |sep|] + s[k + |sep|..];
  }

  /** Splitting then joining gives back the string. */
  lemma {:induction false} SplitOnJoin(s: string, sep: string)
    requires sep != []
    ensures Join(sep, SplitOn(s, sep)) == s
    decreases |s|
  {
    var found := IndexOf(s, sep);
    if found.Some? {
      var k := found.value;
      var rest := s[k + |sep|..];
      SplitOnStep(s, sep, k);
      SplitOnJoin(rest, sep);
      JoinCons(sep, s[..k], SplitOn(rest, sep));
    }
  }

  /** No part produced by `split(sep)` contains the separator. */
  lemma {:induction false} SplitOnPartsFree(s: string, sep: string)
    requires sep != []
    ensures forall p <- SplitOn(s, sep) :: !Contains(p, sep)
    decreases |s|
  {
    match IndexOf(s, sep)
    case None =>
    case Some(k) =>
      var rest := s[k + |sep|..];
      SplitOnPartsFree(rest, sep);
      assert SplitOn(s, sep) == [s[..k]] + SplitOn(rest, sep);
      if Contains(s[..k], sep) {
        var j := IndexOf(s[..k], sep).value;
        OccursInPrefix(s, sep, k, j);
      }
  }
}
