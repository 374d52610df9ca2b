/** The string primitives the decoder relies on, with Python's semantics:
    `str.find`, `str.rfind`, slicing with negative and out-of-range bounds,
    `str.split` on a non-empty separator, `str.join` and `str.strip(chars)`. */
module Strings {

  /** `sub` occurs in `s` starting at index `i`. */
  predicate OccursAt(s: string, sub: string, i: int) {
    0 <= i && i + |sub| <= |s| && s[i..i + |sub|] == sub
  }

  /** `s.find(sub, start)`: the first index at or after `start` where `sub` occurs, or -1. */
  function FindFrom(s: string, sub: string, start: nat): (r: int)
    ensures r == -1 || (start <= r && OccursAt(s, sub, r))
    ensures r == -1 ==> forall j :: start <= j ==> !OccursAt(s, sub, j)
    ensures r != -1 ==> forall j :: start <= j < r ==> !OccursAt(s, sub, j)
    decreases |s| - start
  {
    if start + |sub| > |s| then -1
    else if s[start..start + |sub|] == sub then start
    else FindFrom(s, sub, start + 1)
  }

  /** `s.find(sub)`. */
  function Find(s: string, sub: string): (r: int)
    ensures r == -1 <==> forall j :: !OccursAt(s, sub, j)
    ensures r != -1 ==> OccursAt(s, sub, r) && forall j :: 0 <= j < r ==> !OccursAt(s, sub, j)
  {
    FindFrom(s, sub, 0)
  }

  /** `s.rfind(c)` for a one-character needle: the last index of `c`, or -1. */
  function RFindChar(s: string, c: char): (r: int)
    ensures r == -1 <==> c !in s
    ensures r != -1 ==> 0 <= r < |s| && s[r] == c && forall j :: r < j < |s| ==> s[j] != c
  {
    if s == [] then -1
    else if s[|s| - 1] == c then |s| - 1
    else RFindChar(s[..|s| - 1], c)
  }

  /** How Python turns a slice bound into an index: negative bounds count from
      the end, and every bound is clamped to `0..n`. */
  function SliceBound(i: int, n: nat): (r: nat)
    ensures r <= n
    ensures 0 <= i <= n ==> r == i
    ensures i < 0 && 0 <= i + n ==> r == n + i
    ensures i + n < 0 ==> r == 0
    ensures n < i ==> r == n
  {
    if i < 0 then (if i + n < 0 then 0 else i + n)
    else if i > n then n
    else i
  }

  /** `s[start:stop]` with Python's rules: it never fails, and an empty string
      results whenever the resolved start is not before the resolved stop. */
  function Slice(s: string, start: int, stop: int): (r: string)
    ensures 0 <= start <= stop <= |s| ==> r == s[start..stop]
    ensures 0 <= stop <= start ==> r == []
    ensures start == 0 && stop == -1 && |s| > 0 ==> r == s[..|s| - 1]
  {
    var a := SliceBound(start, |s|);
    var b := SliceBound(stop, |s|);
    if a < b then s[a..b] else []
  }

  /** `s.split(sep)` for a non-empty separator: the pieces between the
      non-overlapping occurrences of `sep`, found from left to right. */
  function Split(s: string, sep: string): (r: seq<string>)
    requires sep != []
    ensures |r| >= 1
    decreases |s|
  {
    var k := Find(s, sep);
    if k == -1 then [s] else [s[..k]] + Split(s[k + |sep|..], sep)
  }

  /** No piece of a split holds the separator. */
  lemma {:induction false} SplitPiecesLackSeparator(s: string, sep: string)
    requires sep != []
    ensures forall i :: 0 <= i < |Split(s, sep)| ==> Find(Split(s, sep)[i], sep) == -1
    decreases |s|
  {
    var k := Find(s, sep);
    if k != -1 {
      var rest := s[k + |sep|..];
      SplitPiecesLackSeparator(rest, sep);
      SplitHead(s, sep, k);
      assert Find(s[..k], sep) == -1 by {
        PrefixHasNoOccurrence(s, sep, k);
      }
      PiecesCons(s[..k], Split(rest, sep), sep);
    }
  }

  /** One step of a split: the first piece ends at the first occurrence. */
  lemma SplitHead(s: string, sep: string, k: int)
    requires sep != [] && k == Find(s, sep) && k != -1
    ensures Split(s, sep) == [s[..k]] + Split(s[k + |sep|..], sep)
  {
  }

  /** Adding a piece without the separator in front of pieces without it. */
  lemma PiecesCons(p: string, parts: seq<string>, sep: string)
    requires Find(p, sep) == -1
    requires forall i :: 0 <= i < |parts| ==> Find(parts[i], sep) == -1
    ensures forall i :: 0 <= i < |[p] + parts| ==> Find(([p] + parts)[i], sep) == -1
  {
    forall i | 1 <= i < |[p] + parts| ensures Find(([p] + parts)[i], sep) == -1 {
      assert ([p] + parts)[i] == parts[i - 1];
    }
  }

  /** No occurrence of `sub` starts before `k` in `s`, so none occurs in `s[..k]`. */
  lemma PrefixHasNoOccurrence(s: string, sub: string, k: nat)
    requires sub != [] && k <= |s|
    requires forall j :: 0 <= j < k ==> !OccursAt(s, sub, j)
    ensures Find(s[..k], sub) == -1
  {
    forall j | OccursAt(s[..k], sub, j)
      ensures false
    {
      assert s[..k][j..j + |sub|] == s[j..j + |sub|];
      assert OccursAt(s, sub, j);
    }
  }

  /** `sep.join(parts)`. */
  function Join(parts: seq<string>, sep: string): (r: string)
    ensures |parts| == 1 ==> r == parts[0]
    ensures |parts| >= 1 ==> |r| >= |parts[0]| && r[..|parts[0]|] == parts[0]
  {
    if |parts| == 0 then ""
    else if |parts| == 1 then parts[0]
    else parts[0] + sep + Join(parts[1..], sep)
  }

  /** A join ends with its last part. */
  lemma {:induction false} JoinEndsWithLast(parts: seq<string>, sep: string)
    requires |parts| >= 1
    ensures var r := Join(parts, sep); var last := parts[|parts| - 1];
      |r| >= |last| && r[|r| - |last|..] == last
  {
    if |parts| > 1 {
      JoinEndsWithLast(parts[1..], sep);
      var rest := Join(parts[1..], sep);
      var r := parts[0] + sep + rest;
      assert r[|r| - |rest|..] == rest;
    }
  }

  /** Joining the pieces of a split with the same separator gives back the
      original string. */
  lemma {:induction false} JoinSplit(s: string, sep: string)
    requires sep != []
    ensures Join(Split(s, sep), sep) == s
    decreases |s|
  {
    var k := Find(s, sep);
    if k != -1 {
      var rest := s[k + |sep|..];
      SplitHead(s, sep, k);
      JoinCons(s[..k], Split(rest, sep), sep);
      JoinSplit(rest, sep);
      SliceAround(s, k, sep);
    }
  }

  /** Joining a part in front of at least one other part. */
  lemma JoinCons(p: string, parts: seq<string>, sep: string)
    requires |parts| >= 1
    ensures Join([p] + parts, sep) == p + sep + Join(parts, sep)
  {
    assert ([p] + parts)[1..] == parts;
  }

  /** A string is what comes before an occurrence of `sub`, then `sub`, then
      what comes after it. */
  lemma SliceAround(s: string, k: nat, sub: string)
    requires OccursAt(s, sub, k)
    ensures s == s[..k] + sub + s[k + |sub|..]
  {
    var head := s[..k + |sub|];
    assert head[..k] == s[..k] && head[k..] == sub;
    assert head == s[..k] + sub;
    assert s == head + s[k + |sub|..];
  }

  /** Splitting a join gives back the parts, provided no part contains the
      first character of the separator (so no occurrence of the separator can
      start inside a part). */
  lemma {:induction false} SplitJoin(parts: seq<string>, sep: string)
    requires sep != [] && |parts| >= 1
    requires forall i :: 0 <= i < |parts| ==> sep[0] !in parts[i]
    ensures Split(Join(parts, sep), sep) == parts
    decreases |parts|
  {
    var p := parts[0];
    NoOccurrenceWithoutFirstChar(p, sep);
    if |parts| > 1 {
      var rest := Join(parts[1..], sep);
      var s := p + sep + rest;
      assert OccursAt(s, sep, |p|) by {
        assert s[|p|..|p| + |sep|] == sep;
      }
      forall j | 0 <= j < |p| ensures !OccursAt(s, sep, j) {
        if j + |sep| <= |s| {
          assert s[j..j + |sep|][0] == s[j] == p[j];
          assert p[j] in p;
        }
      }
      assert Find(s, sep) == |p|;
      assert s[|p| + |sep|..] == rest;
      SplitJoin(parts[1..], sep);
    }
  }

  /** A string without the separator's first character holds no occurrence of it. */
  lemma NoOccurrenceWithoutFirstChar(p: string, sep: string)
    requires sep != [] && sep[0] !in p
    ensures forall j :: !OccursAt(p, sep, j)
  {
    forall j | 0 <= j && j + |sep| <= |p|
      ensures !OccursAt(p, sep, j)
    {
      assert p[j..j + |sep|][0] == p[j];
      assert p[j] in p;
    }
  }

  /** The first index at or after `i` whose character is not in `cs`, or `|s|`. */
  function SkipForward(s: string, cs: set<char>, i: nat): (k: nat)
    requires i <= |s|
    ensures i <= k <= |s|
    ensures forall j :: i <= j < k ==> s[j] in cs
    ensures k < |s| ==> s[k] !in cs
    decreases |s| - i
  {
    if i < |s| && s[i] in cs then SkipForward(s, cs, i + 1) else i
  }

  /** The index just past the last character before `j` that is not in `cs`,
      or 0. */
  function SkipBackward(s: string, cs: set<char>, j: nat): (k: nat)
    requires j <= |s|
    ensures k <= j
    ensures forall i :: k <= i < j ==> s[i] in cs
    ensures 0 < k ==> s[k - 1] !in cs
  {
    if 0 < j && s[j - 1] in cs then SkipBackward(s, cs, j - 1) else j
  }

  /** `s.lstrip(chars)`: drop the leading characters that belong to `cs`. */
  function LStrip(s: string, cs: set<char>): (r: string)
    ensures |r| <= |s| && r == s[|s| - |r|..]
    ensures forall i :: 0 <= i < |s| - |r| ==> s[i] in cs
    ensures r == [] || r[0] !in cs
  {
    s[SkipForward(s, cs, 0)..]
  }

  /** `s.rstrip(chars)`: drop the trailing characters that belong to `cs`. */
  function RStrip(s: string, cs: set<char>): (r: string)
    ensures |r| <= |s| && r == s[..|r|]
    ensures forall i :: |r| <= i < |s| ==> s[i] in cs
    ensures r == [] || r[|r| - 1] !in cs
  {
    s[..SkipBackward(s, cs, |s|)]
  }

  /** `s.strip(chars)`: `chars` is a SET of characters removed from both ends,
      not a prefix or suffix string. The result is the largest middle slice of
      `s` that neither starts nor ends with a character of `cs`. */
  function Strip(s: string, cs: set<char>): (r: string)
    ensures var a := |s| - |LStrip(s, cs)|;
      && a + |r| <= |s| && r == s[a..a + |r|]
      && (forall i :: 0 <= i < a ==> s[i] in cs)
      && (forall i :: a + |r| <= i < |s| ==> s[i] in cs)
    ensures r == [] || (r[0] !in cs && r[|r| - 1] !in cs)
  {
    var l := LStrip(s, cs);
    var a := |s| - |l|;
    var r := RStrip(l, cs);
    assert r == s[a..a + |r|] by {
      assert l == s[a..];
    }
    assert forall i :: a + |r| <= i < |s| ==> s[i] in cs by {
      forall i | a + |r| <= i < |s| ensures s[i] in cs {
        assert s[i] == l[i - a];
      }
    }
    r
  }

  /** Stripping leading characters of `cs` from `pre + s` leaves `s` when `s`
      does not start with one. */
  lemma LStripPrefix(pre: string, s: string, cs: set<char>)
    requires forall c :: c in pre ==> c in cs
    requires s != [] && s[0] !in cs
    ensures LStrip(pre + s, cs) == s
  {
    var w := pre + s;
    var k := SkipForward(w, cs, 0);
    assert forall j :: 0 <= j < |pre| ==> w[j] == pre[j];
    assert w[|pre|] == s[0];
    assert k == |pre|;
    assert w[|pre|..] == s;
  }

  /** Stripping trailing characters of `cs` from `s + post` leaves `s` when `s`
      does not end with one. */
  lemma RStripSuffix(s: string, post: string, cs: set<char>)
    requires forall c :: c in post ==> c in cs
    requires s != [] && s[|s| - 1] !in cs
    ensures RStrip(s + post, cs) == s
  {
    var w := s + post;
    var k := SkipBackward(w, cs, |w|);
    assert forall j :: |s| <= j < |w| ==> w[j] == post[j - |s|];
    assert w[|s| - 1] == s[|s| - 1];
    assert k == |s|;
    assert w[..|s|] == s;
  }

  /** Wrapping a string that neither starts nor ends with a character of `cs`
      in characters of `cs` and stripping `cs` gives the string back. */
  lemma StripWrapped(pre: string, s: string, post: string, cs: set<char>)
    requires forall c :: c in pre ==> c in cs
    requires forall c :: c in post ==> c in cs
    requires s != [] && s[0] !in cs && s[|s| - 1] !in cs
    ensures Strip(pre + s + post, cs) == s
  {
    assert pre + s + post == pre + (s + post);
    assert (s + post)[0] == s[0];
    LStripPrefix(pre, s + post, cs);
    RStripSuffix(s, post, cs);
  }
}
