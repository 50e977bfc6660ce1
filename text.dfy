/** String primitives of the Python runtime that the ingestion pipeline
    relies on: `str.isspace`, `str.split()`, `" ".join`, `str.strip()`,
    ASCII lower-casing, the `in` substring test and slicing `s[:n]`. */
module TextUtil {

  /** Python's `str.isspace()` for one character: the separators that
      `str.split()` and `str.strip()` (both without arguments) act on. */
  predicate IsSpace(c: char) {
    var n := c as int;
    n == 0x20 || 0x09 <= n <= 0x0D || 0x1C <= n <= 0x1F || n == 0x85 || n == 0xA0
    || n == 0x1680 || 0x2000 <= n <= 0x200A || n == 0x2028 || n == 0x2029
    || n == 0x202F || n == 0x205F || n == 0x3000
  }

  predicate NoSpace(s: string) {
    forall i :: 0 <= i < |s| ==> !IsSpace(s[i])
  }

  predicate AllSpace(s: string) {
    forall i :: 0 <= i < |s| ==> IsSpace(s[i])
  }

  /** A string that `" ".join(x.split())` would leave as it is: no leading or
      trailing whitespace, no whitespace other than the plain space, and never
      two whitespace characters in a row. */
  predicate Tidy(s: string) {
    && (s == [] || (!IsSpace(s[0]) && !IsSpace(s[|s| - 1])))
    && (forall i :: 0 <= i < |s| && IsSpace(s[i]) ==> s[i] == ' ')
    && (forall i :: 0 <= i < |s| - 1 ==> !IsSpace(s[i]) || !IsSpace(s[i + 1]))
  }

  // ---------------------------------------------------------------------------
  // str.split() and " ".join(...)
  // ---------------------------------------------------------------------------

  /** Length of the run of non-whitespace characters that starts `s`. */
  function WordLength(s: string): (n: nat)
    ensures n <= |s|
    ensures NoSpace(s[..n])
    ensures n < |s| ==> IsSpace(s[n])
  {
    if s == [] || IsSpace(s[0]) then 0 else 1 + WordLength(s[1..])
  }

  /** Python's `s.split()`: the maximal runs of non-whitespace characters. */
  function Words(s: string): (ws: seq<string>)
    ensures forall k :: 0 <= k < |ws| ==> ws[k] != [] && NoSpace(ws[k])
    decreases |s|
  {
    if s == [] then []
    else if IsSpace(s[0]) then Words(s[1..])
    else
      var n := WordLength(s);
      [s[..n]] + Words(s[n..])
  }

  /** Python's `sep.join(ws)`. */
  function Join(sep: string, ws: seq<string>): string {
    if ws == [] then []
    else if |ws| == 1 then ws[0]
    else ws[0] + sep + Join(sep, ws[1..])
  }

  /** Python's `" ".join(s.split())`: every whitespace run becomes one space,
      and leading and trailing whitespace disappears. */
  function Collapse(s: string): string {
    Join(" ", Words(s))
  }

  predicate GoodWords(ws: seq<string>) {
    forall k :: 0 <= k < |ws| ==> ws[k] != [] && NoSpace(ws[k])
  }

  lemma {:induction false} WordLengthOfWord(w: string, t: string)
    requires w != [] && NoSpace(w)
    requires t == [] || IsSpace(t[0])
    ensures WordLength(w + t) == |w|
    decreases |w|
  {
    if |w| > 1 {
      assert (w + t)[1..] == w[1..] + t;
      WordLengthOfWord(w[1..], t);
    } else {
      assert (w + t)[1..] == t;
    }
  }

  /** Splitting a space-joined list of words gives the words back. */
  lemma {:induction false} WordsOfJoin(ws: seq<string>)
    requires GoodWords(ws)
    ensures Words(Join(" ", ws)) == ws
    decreases |ws|
  {
    if ws == [] {
    } else if |ws| == 1 {
      var w := ws[0];
      WordLengthOfWord(w, []);
      assert w + [] == w;
      assert w[..|w|] == w && w[|w|..] == [];
    } else {
      var w, rest := ws[0], Join(" ", ws[1..]);
      var s := w + " " + rest;
      assert s == w + (" " + rest);
      WordLengthOfWord(w, " " + rest);
      assert s[..|w|] == w;
      assert s[|w|..] == " " + rest;
      assert (" " + rest)[1..] == rest;
      WordsOfJoin(ws[1..]);
      assert ws == [w] + ws[1..];
    }
  }

  lemma {:induction false} JoinFirstLast(ws: seq<string>)
    requires GoodWords(ws) && ws != []
    ensures Join(" ", ws) != []
    ensures Join(" ", ws)[0] == ws[0][0]
    ensures Join(" ", ws)[|Join(" ", ws)| - 1] == ws[|ws| - 1][|ws[|ws| - 1]| - 1]
    decreases |ws|
  {
    if |ws| == 1 {
      assert Join(" ", ws) == ws[0];
    } else {
      var j := Join(" ", ws[1..]);
      assert GoodWords(ws[1..]) by {
        forall k | 0 <= k < |ws[1..]| ensures ws[1..][k] != [] && NoSpace(ws[1..][k]) {
          assert ws[1..][k] == ws[k + 1];
        }
      }
      JoinFirstLast(ws[1..]);
      assert ws[1..][|ws[1..]| - 1] == ws[|ws| - 1];
      assert Join(" ", ws) == ws[0] + " " + j;
    }
  }

  /** `sep.join(ws)` starts with the first item and ends with the last. */
  lemma {:induction false} JoinEnds(sep: string, ws: seq<string>)
    requires ws != []
    ensures |ws[0]| <= |Join(sep, ws)| && Join(sep, ws)[..|ws[0]|] == ws[0]
    ensures |ws[|ws| - 1]| <= |Join(sep, ws)| && Join(sep, ws)[|Join(sep, ws)| - |ws[|ws| - 1]|..] == ws[|ws| - 1]
    decreases |ws|
  {
    if |ws| > 1 {
      var j := Join(sep, ws[1..]);
      var last := ws[|ws| - 1];
      JoinEnds(sep, ws[1..]);
      assert ws[1..][|ws[1..]| - 1] == last;
      var s := ws[0] + sep + j;
      assert Join(sep, ws) == s;
      assert s[..|ws[0]|] == ws[0];
      assert s[|s| - |last|..] == j[|j| - |last|..];
    }
  }

  /** Joining good words with single spaces gives a tidy string. */
  lemma {:induction false} JoinIsTidy(ws: seq<string>)
    requires GoodWords(ws)
    ensures Tidy(Join(" ", ws))
    decreases |ws|
  {
    if ws == [] {
    } else if |ws| == 1 {
      assert Join(" ", ws) == ws[0];
    } else {
      var w, rest := ws[0], Join(" ", ws[1..]);
      JoinIsTidy(ws[1..]);
      JoinFirstLast(ws[1..]);
      var s := w + " " + rest;
      assert Join(" ", ws) == s;
      forall i | 0 <= i < |s| && IsSpace(s[i])
        ensures s[i] == ' '
      {
        if i > |w| { assert s[i] == rest[i - |w| - 1]; }
      }
      forall i | 0 <= i < |s| - 1
        ensures !IsSpace(s[i]) || !IsSpace(s[i + 1])
      {
        if i < |w| - 1 {
          assert s[i] == w[i];
        } else if i == |w| - 1 {
          assert s[i] == w[i];
        } else if i == |w| {
          assert s[i + 1] == rest[0];
        } else {
          assert s[i] == rest[i - |w| - 1] && s[i + 1] == rest[i - |w|];
        }
      }
      assert s[0] == w[0];
      assert s[|s| - 1] == rest[|rest| - 1];
    }
  }

  /** `" ".join(s.split())` yields a tidy string made of exactly the words of `s`. */
  lemma CollapseIsTidy(s: string)
    ensures Tidy(Collapse(s))
    ensures Words(Collapse(s)) == Words(s)
  {
    JoinIsTidy(Words(s));
    WordsOfJoin(Words(s));
  }

  /** The words laid end to end. */
  function Flatten(ws: seq<string>): string {
    if ws == [] then [] else ws[0] + Flatten(ws[1..])
  }

  /** `s` with its whitespace characters removed. */
  function Unspaced(s: string): string {
    if s == [] then [] else (if IsSpace(s[0]) then [] else [s[0]]) + Unspaced(s[1..])
  }

  lemma {:induction false} UnspacedAppend(a: string, b: string)
    ensures Unspaced(a + b) == Unspaced(a) + Unspaced(b)
    decreases |a|
  {
    if a != [] {
      assert (a + b)[0] == a[0] && (a + b)[1..] == a[1..] + b;
      UnspacedAppend(a[1..], b);
    } else {
      assert a + b == b;
    }
  }

  lemma {:induction false} UnspacedOfWord(w: string)
    requires NoSpace(w)
    ensures Unspaced(w) == w
    decreases |w|
  {
    if w != [] {
      UnspacedOfWord(w[1..]);
      assert w == [w[0]] + w[1..];
    }
  }

  /** `str.split()` loses only whitespace: its words laid end to end are the
      non-whitespace characters of `s`, in order. */
  lemma {:induction false} WordsKeepText(s: string)
    ensures Flatten(Words(s)) == Unspaced(s)
    decreases |s|
  {
    if s != [] {
      if IsSpace(s[0]) {
        WordsKeepText(s[1..]);
      } else {
        var n := WordLength(s);
        WordsKeepText(s[n..]);
        assert ([s[..n]] + Words(s[n..]))[1..] == Words(s[n..]);
        assert s == s[..n] + s[n..];
        UnspacedAppend(s[..n], s[n..]);
        UnspacedOfWord(s[..n]);
      }
    }
  }

  /** `w` stands at index `p` of `s` as a maximal run: whitespace or an end
      of `s` on each side. */
  predicate RunAt(s: string, w: string, p: nat) {
    && p + |w| <= |s| && s[p..p + |w|] == w
    && (p == 0 || IsSpace(s[p - 1]))
    && (p + |w| == |s| || IsSpace(s[p + |w|]))
  }

  function ShiftAll(ps: seq<nat>, d: nat): (r: seq<nat>)
    ensures |r| == |ps| && forall i :: 0 <= i < |ps| ==> r[i] == ps[i] + d
  {
    seq(|ps|, i requires 0 <= i < |ps| => ps[i] + d)
  }

  /** Where each word of `Words(s)` starts in `s`. */
  function WordStarts(s: string): (ps: seq<nat>)
    decreases |s|
  {
    if s == [] then []
    else if IsSpace(s[0]) then ShiftAll(WordStarts(s[1..]), 1)
    else
      var n := WordLength(s);
      [0] + ShiftAll(WordStarts(s[n..]), n)
  }

  lemma RunAtShift(s: string, d: nat, w: string, p: nat, q: nat)
    requires d <= |s| && RunAt(s[d..], w, p) && (p == 0 ==> d == 0 || IsSpace(s[d - 1])) && q == p + d
    ensures RunAt(s, w, q)
  {
    assert s[d..][p..p + |w|] == s[p + d..p + d + |w|];
    if p > 0 {
      assert s[d..][p - 1] == s[p + d - 1];
    }
    if p + |w| < |s| - d {
      assert s[d..][p + |w|] == s[p + d + |w|];
    }
  }

  lemma RunAfterSpace(t: string, w: string, p: nat)
    requires RunAt(t, w, p) && w != [] && NoSpace(w) && t != [] && IsSpace(t[0])
    ensures p > 0
  {
    assert t[p] == w[0];
  }

  lemma {:induction false} WordStartsCount(s: string)
    ensures |WordStarts(s)| == |Words(s)|
    decreases |s|
  {
    if s != [] {
      if IsSpace(s[0]) {
        WordStartsCount(s[1..]);
      } else {
        WordStartsCount(s[WordLength(s)..]);
      }
    }
  }

  /** Each word of `Words(s)` stands where `WordStarts(s)` says, as a maximal run. */
  predicate WordsStandAsRuns(s: string) {
    |WordStarts(s)| == |Words(s)| && forall k :: 0 <= k < |Words(s)| ==> RunAt(s, Words(s)[k], WordStarts(s)[k])
  }

  lemma RunPastSpaceAt(s: string, k: nat)
    requires s != [] && IsSpace(s[0]) && |WordStarts(s[1..])| == |Words(s[1..])| && k < |Words(s[1..])|
    requires RunAt(s[1..], Words(s[1..])[k], WordStarts(s[1..])[k])
    ensures |WordStarts(s)| == |Words(s)| && k < |Words(s)| && RunAt(s, Words(s)[k], WordStarts(s)[k])
  {
    assert Words(s) == Words(s[1..]);
    assert WordStarts(s)[k] == WordStarts(s[1..])[k] + 1;
    RunAtShift(s, 1, Words(s)[k], WordStarts(s[1..])[k], WordStarts(s)[k]);
  }

  lemma RunsPastSpace(s: string)
    requires s != [] && IsSpace(s[0]) && WordsStandAsRuns(s[1..])
    ensures WordsStandAsRuns(s)
  {
    forall k | 0 <= k < |Words(s)| ensures RunAt(s, Words(s)[k], WordStarts(s)[k]) {
      RunPastSpaceAt(s, k);
    }
  }

  /** Past a leading word, the words and their starts are those of the rest,
      shifted by the word's length. */
  lemma WordsPastWord(s: string)
    requires s != [] && !IsSpace(s[0])
    ensures Words(s) == [s[..WordLength(s)]] + Words(s[WordLength(s)..])
    ensures WordStarts(s) == [0] + ShiftAll(WordStarts(s[WordLength(s)..]), WordLength(s))
    ensures var t := s[WordLength(s)..]; forall i :: 0 <= i < |WordStarts(t)| ==> WordStarts(t)[i] > 0
  {
    var t := s[WordLength(s)..];
    if t != [] {
      assert IsSpace(t[0]);
    }
  }

  lemma RunPastWordAt(s: string, k: nat)
    requires s != [] && !IsSpace(s[0]) && 1 <= k
    requires var t := s[WordLength(s)..]; |WordStarts(t)| == |Words(t)| && k - 1 < |Words(t)|
    requires var t := s[WordLength(s)..]; RunAt(t, Words(t)[k - 1], WordStarts(t)[k - 1])
    ensures |WordStarts(s)| == |Words(s)| && k < |Words(s)| && RunAt(s, Words(s)[k], WordStarts(s)[k])
  {
    var n := WordLength(s);
    var t := s[n..];
    WordsPastWord(s);
    RunAtShift(s, n, Words(t)[k - 1], WordStarts(t)[k - 1], WordStarts(s)[k]);
  }

  lemma RunsPastWord(s: string)
    requires s != [] && !IsSpace(s[0]) && WordsStandAsRuns(s[WordLength(s)..])
    ensures WordsStandAsRuns(s)
  {
    var n := WordLength(s);
    WordsPastWord(s);
    assert RunAt(s, Words(s)[0], WordStarts(s)[0]);
    forall k | 1 <= k < |Words(s)| ensures RunAt(s, Words(s)[k], WordStarts(s)[k]) {
      RunPastWordAt(s, k);
    }
  }

  lemma {:induction false} WordsAtRuns(s: string)
    ensures WordsStandAsRuns(s)
    decreases |s|
  {
    WordStartsCount(s);
    if s != [] {
      if IsSpace(s[0]) {
        WordsAtRuns(s[1..]);
        RunsPastSpace(s);
      } else {
        WordsAtRuns(s[WordLength(s)..]);
        RunsPastWord(s);
      }
    }
  }

  lemma {:induction false} WordsInOrder(s: string)
    ensures |WordStarts(s)| == |Words(s)|
    ensures forall k :: 0 <= k < |Words(s)| - 1 ==> WordStarts(s)[k] + |Words(s)[k]| < WordStarts(s)[k + 1]
    decreases |s|
  {
    WordStartsCount(s);
    if s != [] {
      var ws, ps := Words(s), WordStarts(s);
      if IsSpace(s[0]) {
        WordsInOrder(s[1..]);
      } else {
        var n := WordLength(s);
        var t := s[n..];
        WordsInOrder(t);
        WordsAtRuns(t);
        assert WordsStandAsRuns(t);
        var ws', ps' := Words(t), WordStarts(t);
        var shifted := ShiftAll(ps', n);
        assert ws == [s[..n]] + ws';
        assert ps == [0] + shifted;
        if ws' != [] {
          RunAfterSpace(t, ws'[0], ps'[0]);
          assert ps[1] == shifted[0];
        }
        forall k | 1 <= k < |ws| - 1 ensures ps[k] + |ws[k]| < ps[k + 1] {
          assert ws[k] == ws'[k - 1];
          assert ps[k] == shifted[k - 1] && ps[k + 1] == shifted[k];
        }
      }
    }
  }

  /** `str.split()` returns the maximal runs of non-whitespace characters of
      `s`, in order: word `k` stands at `WordStarts(s)[k]` with whitespace or
      an end of `s` on each side, and each word ends before the next starts. */
  lemma WordsAreRuns(s: string)
    ensures |WordStarts(s)| == |Words(s)|
    ensures forall k :: 0 <= k < |Words(s)| ==> RunAt(s, Words(s)[k], WordStarts(s)[k])
    ensures forall k :: 0 <= k < |Words(s)| - 1 ==> WordStarts(s)[k] + |Words(s)[k]| < WordStarts(s)[k + 1]
  {
    WordsAtRuns(s);
    WordsInOrder(s);
  }

  // ---------------------------------------------------------------------------
  // str.strip()
  // ---------------------------------------------------------------------------

  function StripLeft(s: string): (r: string)
    ensures |r| <= |s| && r == s[|s| - |r|..]
    ensures AllSpace(s[..|s| - |r|])
    ensures r == [] || !IsSpace(r[0])
  {
    if s != [] && IsSpace(s[0]) then
      var r := StripLeft(s[1..]);
      var n := |s| - |r|;
      assert s[1..][n - 1..] == s[n..];
      assert forall i :: 1 <= i < n ==> s[..n][i] == s[1..][..n - 1][i - 1];
      r
    else s
  }

  function StripRight(s: string): (r: string)
    ensures |r| <= |s| && r == s[..|r|]
    ensures AllSpace(s[|r|..])
    ensures r == [] || !IsSpace(r[|r| - 1])
  {
    if s != [] && IsSpace(s[|s| - 1]) then
      var r := StripRight(s[..|s| - 1]);
      assert s[..|s| - 1][..|r|] == s[..|r|];
      assert forall i :: 0 <= i < |s| - 1 - |r| ==> s[|r|..][i] == s[..|s| - 1][|r|..][i];
      r
    else s
  }

  /** Python's `s.strip()`: `s` with its leading and trailing whitespace removed. */
  function Strip(s: string): (r: string)
    ensures r == [] || (!IsSpace(r[0]) && !IsSpace(r[|r| - 1]))
    ensures r == [] <==> AllSpace(s)
  {
    var l := StripLeft(s);
    var r := StripRight(l);
    assert r == [] ==> AllSpace(s) by {
      if r == [] {
        assert l == [];
        assert s[..|s|] == s;
      }
    }
    r
  }

  /** `s` is `r` with only whitespace before and after it, `lo` characters
      of it in front. */
  predicate MiddleAt(s: string, r: string, lo: int) {
    0 <= lo <= |s| - |r| && s[lo..lo + |r|] == r && AllSpace(s[..lo]) && AllSpace(s[lo + |r|..])
  }

  /** What `s.strip()` keeps is the middle of `s`: all that it drops on either
      side is whitespace. */
  lemma StripKeepsMiddle(s: string)
    ensures exists lo :: MiddleAt(s, Strip(s), lo)
  {
    var l := StripLeft(s);
    var r := StripRight(l);
    MiddleOfParts(s, l, r, |s| - |l|);
    assert r == Strip(s);
    assert MiddleAt(s, Strip(s), |s| - |l|);
  }

  /** A prefix `r` of a suffix `l` of `s`, with only whitespace around it. */
  lemma MiddleOfParts(s: string, l: string, r: string, lo: nat)
    requires lo <= |s| && l == s[lo..] && AllSpace(s[..lo])
    requires |r| <= |l| && r == l[..|r|] && AllSpace(l[|r|..])
    ensures MiddleAt(s, r, lo)
  {
    assert s[lo..lo + |r|] == l[..|r|];
    assert s[lo + |r|..] == l[|r|..];
  }

  // ---------------------------------------------------------------------------
  // Case folding, substring search, slicing
  // ---------------------------------------------------------------------------

  /** ASCII lower-casing of one character. */
  function LowerChar(c: char): char {
    if 'A' <= c <= 'Z' then (c as int + 32) as char else c
  }

  function Lower(s: string): (r: string)
    ensures |r| == |s|
    ensures forall i :: 0 <= i < |s| ==> r[i] == LowerChar(s[i])
  {
    seq(|s|, i requires 0 <= i < |s| => LowerChar(s[i]))
  }

  /** Lower-casing twice is lower-casing once. */
  lemma LowerIdempotent(s: string)
    ensures Lower(Lower(s)) == Lower(s)
  {
    assert forall i :: 0 <= i < |s| ==> LowerChar(LowerChar(s[i])) == LowerChar(s[i]);
  }

  /** Python's `needle in hay` for strings. */
  predicate Contains(hay: string, needle: string) {
    exists i :: 0 <= i <= |hay| - |needle| && OccursAt(hay, needle, i)
  }

  predicate OccursAt(hay: string, needle: string, i: int)
    requires 0 <= i <= |hay| - |needle|
  {
    hay[i..i + |needle|] == needle
  }

  /** Python's `s[:n]` for a non-negative `n`. */
  function Truncate(s: string, n: nat): (r: string)
    ensures |r| <= n && |r| <= |s| && r == s[..|r|]
    ensures |r| == if |s| <= n then |s| else n
  {
    if |s| <= n then s else s[..n]
  }

  function CharIndex(s: string, c: char): (i: nat)
    ensures i <= |s|
    ensures i < |s| ==> s[i] == c
    ensures forall k :: 0 <= k < i ==> s[k] != c
  {
    if s == [] || s[0] == c then 0 else 1 + CharIndex(s[1..], c)
  }

  /** Python's `s.partition(c)` when `c` occurs in `s`: the text before the
      first `c` and the text after it. */
  function Partition(s: string, c: char): (r: (string, string))
    requires c in s
    ensures s == r.0 + [c] + r.1
    ensures c !in r.0
  {
    var i := CharIndex(s, c);
    assert s == s[..i] + [c] + s[i + 1..];
    (s[..i], s[i + 1..])
  }

  lemma CharIndexOfFirst(k: string, c: char, v: string)
    requires c !in k
    ensures CharIndex(k + [c] + v, c) == |k|
  {
    var s := k + [c] + v;
    assert s[|k|] == c;
    var i := CharIndex(s, c);
    assert forall j :: 0 <= j < |k| ==> s[j] == k[j];
  }

  /** Stripping a string with nothing to strip leaves it as it is. */
  lemma StripOfTrimmed(s: string)
    requires s != [] && !IsSpace(s[0]) && !IsSpace(s[|s| - 1])
    ensures Strip(s) == s
  {
    assert StripLeft(s) == s;
    assert StripRight(s) == s;
  }

  /** `s.partition(c)` splits at the first `c`. */
  lemma PartitionAtFirst(k: string, c: char, v: string)
    requires c !in k
    ensures c in k + [c] + v
    ensures Partition(k + [c] + v, c) == (k, v)
  {
    var s := k + [c] + v;
    assert s[|k|] == c;
    CharIndexOfFirst(k, c, v);
    assert s[..|k|] == k && s[|k| + 1..] == v;
  }
}
