/** Character classes, ASCII case mapping and the string operations that the
    quiz generator performs with regular expressions and String methods.
    Every regular expression of the generator is written out here as an
    explicit recursive function. */
module Text {

  type String = seq<char>

  /** `[A-Za-z0-9]` */
  predicate IsAlnum(c: char) {
    'A' <= c <= 'Z' || 'a' <= c <= 'z' || '0' <= c <= '9'
  }

  predicate IsNonAlnum(c: char) {
    !IsAlnum(c)
  }

  /** JavaScript's `\s`, which is also the set that `String.prototype.trim` removes. */
  predicate IsSpace(c: char) {
    c == ' ' || c == '\t' || c == '\n' || c == '\r' || c == '\U{B}' || c == '\U{C}'
    || c == '\U{A0}' || c == '\U{1680}' || ('\U{2000}' <= c <= '\U{200A}')
    || c == '\U{2028}' || c == '\U{2029}' || c == '\U{202F}' || c == '\U{205F}'
    || c == '\U{3000}' || c == '\U{FEFF}'
  }

  predicate IsUpper(c: char) {
    'A' <= c <= 'Z'
  }

  function LowerChar(c: char): (d: char)
    ensures IsAlnum(d) <==> IsAlnum(c)
    ensures IsSpace(d) <==> IsSpace(c)
    ensures !IsUpper(d)
  {
    if IsUpper(c) then (c as int + 32) as char else c
  }

  function UpperChar(c: char): (d: char)
    ensures LowerChar(d) == LowerChar(c)
  {
    if 'a' <= c <= 'z' then (c as int - 32) as char else c
  }

  /** `toLowerCase`, ASCII letters only. */
  function Lower(s: String): (r: String)
    ensures |r| == |s|
    ensures forall i :: 0 <= i < |s| ==> r[i] == LowerChar(s[i])
  {
    seq(|s|, i requires 0 <= i < |s| => LowerChar(s[i]))
  }

  predicate NoUpper(s: String) {
    forall i :: 0 <= i < |s| ==> !IsUpper(s[i])
  }

  lemma LowerAppend(a: String, b: String)
    ensures Lower(a + b) == Lower(a) + Lower(b)
  {
    assert forall i :: 0 <= i < |a + b| ==> Lower(a + b)[i] == (Lower(a) + Lower(b))[i];
  }

  /** Every character of `s` satisfies `p`. */
  predicate AllOf(s: String, p: char -> bool) {
    forall i :: 0 <= i < |s| ==> p(s[i])
  }

  /** The length of the longest prefix whose characters all satisfy `drop`. */
  function LeadLen(s: String, drop: char -> bool): (n: nat)
    ensures n <= |s|
    ensures n == |s| || !drop(s[n])
  {
    if s == [] || !drop(s[0]) then 0 else 1 + LeadLen(s[1..], drop)
  }

  /** Every character of the prefix `LeadLen` measures satisfies `drop`. */
  lemma {:induction false} LeadDropped(s: String, drop: char -> bool)
    ensures AllOf(s[..LeadLen(s, drop)], drop)
  {
    if s != [] && drop(s[0]) {
      LeadDropped(s[1..], drop);
      var n := LeadLen(s, drop);
      assert forall i :: 1 <= i < n ==> s[..n][i] == s[1..][..n - 1][i - 1];
    }
  }

  /** The length of the longest suffix whose characters all satisfy `drop`. */
  function TrailLen(s: String, drop: char -> bool): (n: nat)
    ensures n <= |s|
    ensures n == |s| || !drop(s[|s| - n - 1])
  {
    if s == [] || !drop(s[|s| - 1]) then 0 else 1 + TrailLen(s[..|s| - 1], drop)
  }

  /** Every character of the suffix `TrailLen` measures satisfies `drop`. */
  lemma {:induction false} TrailDropped(s: String, drop: char -> bool)
    ensures AllOf(s[|s| - TrailLen(s, drop)..], drop)
  {
    if s != [] && drop(s[|s| - 1]) {
      TrailDropped(s[..|s| - 1], drop);
      var n := TrailLen(s, drop);
      var whole, init := s[|s| - n..], s[..|s| - 1][|s| - n..];
      assert forall i :: 0 <= i < n - 1 ==> whole[i] == init[i];
    }
  }

  function TrimStartBy(s: String, drop: char -> bool): String {
    s[LeadLen(s, drop)..]
  }

  /** Both ends stripped of characters satisfying `drop`. */
  function TrimBoth(s: String, drop: char -> bool): (r: String)
    ensures |r| <= |s|
    ensures r == [] || (!drop(r[0]) && !drop(r[|r| - 1]))
  {
    var n := LeadLen(s, drop);
    s[n..|s| - TrailLen(s[n..], drop)]
  }

  /** What `TrimBoth` removes satisfies `drop`, and only at the two ends. */
  lemma TrimBothParts(s: String, drop: char -> bool) returns (lead: String, trail: String)
    ensures s == lead + TrimBoth(s, drop) + trail
    ensures forall i :: 0 <= i < |lead| ==> drop(lead[i])
    ensures forall i :: 0 <= i < |trail| ==> drop(trail[i])
  {
    var n := LeadLen(s, drop);
    var k := |s| - TrailLen(s[n..], drop);
    LeadDropped(s, drop);
    TrailDropped(s[n..], drop);
    lead := s[..n];
    trail := s[k..];
    assert s == lead + TrimBoth(s, drop) + trail by {
      assert s == lead + s[n..k] + trail;
    }
    assert forall i :: 0 <= i < |trail| ==> drop(trail[i]) by {
      assert trail == s[n..][k - n..];
    }
  }

  /** Trimming introduces no character that its input did not have. */
  lemma TrimBothNoneOf(s: String, drop: char -> bool, bad: char -> bool)
    requires NoneOf(s, bad)
    ensures NoneOf(TrimBoth(s, drop), bad)
  {
  }

  /** `String.prototype.trim` */
  function Trim(s: String): (r: String)
    ensures |r| <= |s|
    ensures r == [] || (!IsSpace(r[0]) && !IsSpace(r[|r| - 1]))
  {
    TrimBoth(s, IsSpace)
  }

  /** `replace(/^[^A-Za-z0-9]+|[^A-Za-z0-9]+$/g, '')` */
  function StripOuter(s: String): (r: String)
    ensures |r| <= |s|
    ensures r == [] || (IsAlnum(r[0]) && IsAlnum(r[|r| - 1]))
  {
    TrimBoth(s, IsNonAlnum)
  }

  /** `split(/[D]+/)`: the pieces between maximal runs of delimiter characters.
      A leading or trailing run yields an empty first or last piece. */
  function SplitRuns(s: String, delim: char -> bool): (r: seq<String>)
    ensures |r| >= 1
    ensures forall k :: 0 <= k < |r| ==> NoneOf(r[k], delim)
  {
    if s == [] then [[]]
    else if delim(s[0]) then [[]] + SplitRuns(TrimStartBy(s, delim), delim)
    else
      var rest := SplitRuns(s[1..], delim);
      [[s[0]] + rest[0]] + rest[1..]
  }

  /** `split(c)` with a single-character separator: consecutive separators
      yield empty pieces. */
  function SplitOn(s: String, c: char): (r: seq<String>)
    ensures |r| >= 1
  {
    if s == [] then [[]]
    else if s[0] == c then [[]] + SplitOn(s[1..], c)
    else
      var rest := SplitOn(s[1..], c);
      [[s[0]] + rest[0]] + rest[1..]
  }

  /** `Array.prototype.join(sep)` */
  function Join(xs: seq<String>, sep: String): String {
    if xs == [] then []
    else if |xs| == 1 then xs[0]
    else xs[0] + sep + Join(xs[1..], sep)
  }

  function Flatten(xs: seq<String>): String {
    if xs == [] then [] else xs[0] + Flatten(xs[1..])
  }

  /** The characters of `s` that are not delimiters, in order. */
  function Remove(s: String, delim: char -> bool): String {
    if s == [] then []
    else if delim(s[0]) then Remove(s[1..], delim)
    else [s[0]] + Remove(s[1..], delim)
  }

  /** Every maximal run of characters satisfying `drop` replaced by one `c`;
      `inRun` says that the character before `s` already belonged to a run. */
  function Collapse(s: String, drop: char -> bool, c: char, inRun: bool): (r: String)
    ensures |r| <= |s|
  {
    if s == [] then []
    else if !drop(s[0]) then [s[0]] + Collapse(s[1..], drop, c, false)
    else if inRun then Collapse(s[1..], drop, c, true)
    else [c] + Collapse(s[1..], drop, c, true)
  }

  function CollapseRuns(s: String, drop: char -> bool, c: char): (r: String)
    ensures |r| <= |s|
  {
    Collapse(s, drop, c, false)
  }

  /** `replace(/\s+/g, ' ')` */
  function CollapseSpaces(s: String): (r: String)
    ensures |r| <= |s|
  {
    CollapseRuns(s, IsSpace, ' ')
  }

  predicate StartsWith(s: String, w: String) {
    |w| <= |s| && s[..|w|] == w
  }

  /** `String.prototype.includes` */
  predicate Contains(s: String, w: String) {
    StartsWith(s, w) || (s != [] && Contains(s[1..], w))
  }

  lemma {:induction false} ContainsMiddle(a: String, w: String, b: String)
    ensures Contains(a + w + b, w)
  {
    if a == [] {
      assert (a + w + b)[..|w|] == w;
    } else {
      ContainsMiddle(a[1..], w, b);
      assert (a + w + b)[1..] == a[1..] + w + b;
    }
  }

  /** Splitting at maximal delimiter runs loses exactly the delimiters: the
      pieces, concatenated in order, are the non-delimiter characters of `s`. */
  lemma {:induction false} SplitRunsFlatten(s: String, delim: char -> bool)
    ensures Flatten(SplitRuns(s, delim)) == Remove(s, delim)
    decreases |s|
  {
    if s == [] {
    } else if delim(s[0]) {
      var t := TrimStartBy(s, delim);
      SplitRunsFlatten(t, delim);
      LeadDropped(s, delim);
      RemoveDroppedPrefix(s, |s| - |t|, delim);
      assert s[|s| - |t|..] == t;
    } else {
      var rest := SplitRuns(s[1..], delim);
      SplitRunsFlatten(s[1..], delim);
      assert Flatten(rest) == rest[0] + Flatten(rest[1..]);
      var r := [[s[0]] + rest[0]] + rest[1..];
      assert r[1..] == rest[1..];
      assert Flatten(r) == [s[0]] + rest[0] + Flatten(rest[1..]);
    }
  }

  lemma {:induction false} RemoveDroppedPrefix(s: String, n: nat, delim: char -> bool)
    requires n <= |s|
    requires forall i :: 0 <= i < n ==> delim(s[i])
    ensures Remove(s, delim) == Remove(s[n..], delim)
  {
    if n > 0 {
      RemoveDroppedPrefix(s[1..], n - 1, delim);
      assert s[1..][n - 1..] == s[n..];
    }
  }

  /** The non-empty strings of `xs`, in order. */
  function NonEmpty(xs: seq<String>): (r: seq<String>)
    ensures forall k :: 0 <= k < |r| ==> r[k] != []
    ensures forall x :: x in r ==> x in xs
  {
    if xs == [] then []
    else if xs[0] == [] then NonEmpty(xs[1..])
    else [xs[0]] + NonEmpty(xs[1..])
  }

  /** Leaving out empty strings does not change the concatenation. */
  lemma {:induction false} NonEmptyFlatten(xs: seq<String>)
    ensures Flatten(NonEmpty(xs)) == Flatten(xs)
  {
    if xs != [] {
      NonEmptyFlatten(xs[1..]);
      assert Flatten(xs) == xs[0] + Flatten(xs[1..]);
      if xs[0] == [] {
        assert NonEmpty(xs) == NonEmpty(xs[1..]);
      } else {
        var r := [xs[0]] + NonEmpty(xs[1..]);
        assert r[1..] == NonEmpty(xs[1..]);
        assert Flatten(r) == xs[0] + Flatten(r[1..]);
      }
    }
  }

  /** The maximal delimiter runs of `s`, in order: what `split(/[D]+/)` cuts out. */
  function DelimRuns(s: String, delim: char -> bool): (r: seq<String>)
    ensures forall k :: 0 <= k < |r| ==> r[k] != [] && AllOf(r[k], delim)
    decreases |s|
  {
    if s == [] then []
    else if delim(s[0]) then
      LeadDropped(s, delim);
      [s[..LeadLen(s, delim)]] + DelimRuns(TrimStartBy(s, delim), delim)
    else DelimRuns(s[1..], delim)
  }

  /** The pieces with the runs put back between them. */
  function Interleave(pieces: seq<String>, runs: seq<String>): String
    requires |pieces| == |runs| + 1
  {
    if runs == [] then pieces[0] else pieces[0] + runs[0] + Interleave(pieces[1..], runs[1..])
  }

  /** `split(/[D]+/)` cuts exactly at the maximal delimiter runs: putting the
      runs back between the pieces gives `s`. */
  lemma {:induction false} SplitRunsCuts(s: String, delim: char -> bool)
    ensures |SplitRuns(s, delim)| == |DelimRuns(s, delim)| + 1
    ensures Interleave(SplitRuns(s, delim), DelimRuns(s, delim)) == s
    decreases |s|
  {
    if s == [] {
    } else if delim(s[0]) {
      var n := LeadLen(s, delim);
      var t := TrimStartBy(s, delim);
      SplitRunsCuts(t, delim);
      var pieces, runs := SplitRuns(t, delim), DelimRuns(t, delim);
      assert ([[]] + pieces)[1..] == pieces && ([s[..n]] + runs)[1..] == runs;
      assert s == s[..n] + t;
    } else {
      SplitRunsCuts(s[1..], delim);
      var rest, runs := SplitRuns(s[1..], delim), DelimRuns(s[1..], delim);
      var pieces := [[s[0]] + rest[0]] + rest[1..];
      assert pieces[1..] == rest[1..];
      if runs != [] {
        assert Interleave(rest, runs) == rest[0] + runs[0] + Interleave(rest[1..], runs[1..]);
      }
      assert s == [s[0]] + s[1..];
    }
  }

  /** The runs are maximal: only the first and the last piece can be empty. */
  lemma {:induction false} SplitRunsInnerPieces(s: String, delim: char -> bool)
    ensures forall k :: 0 < k < |SplitRuns(s, delim)| - 1 ==> SplitRuns(s, delim)[k] != []
    decreases |s|
  {
    if s == [] {
    } else if delim(s[0]) {
      var t := TrimStartBy(s, delim);
      SplitRunsInnerPieces(t, delim);
      if t != [] {
        assert SplitRuns(t, delim)[0] == [t[0]] + SplitRuns(t[1..], delim)[0];
      }
    } else {
      SplitRunsInnerPieces(s[1..], delim);
      var rest := SplitRuns(s[1..], delim);
      assert SplitRuns(s, delim)[1..] == rest[1..];
    }
  }

  /** Inside a run, further run characters add nothing. */
  lemma {:induction false} CollapseSkipsRun(s: String, n: nat, drop: char -> bool, c: char)
    requires n <= |s| && forall i :: 0 <= i < n ==> drop(s[i])
    ensures Collapse(s, drop, c, true) == Collapse(s[n..], drop, c, true)
  {
    if n > 0 {
      CollapseSkipsRun(s[1..], n - 1, drop, c);
      assert s[1..][n - 1..] == s[n..];
    }
  }

  /** A leading run becomes one `c`. */
  lemma CollapseLeadingRun(s: String, drop: char -> bool, c: char)
    requires s != [] && drop(s[0])
    ensures CollapseRuns(s, drop, c) == [c] + CollapseRuns(TrimStartBy(s, drop), drop, c)
  {
    var n := LeadLen(s, drop);
    var t := TrimStartBy(s, drop);
    LeadDropped(s, drop);
    assert forall i :: 0 <= i < n ==> s[..n][i] == s[i];
    CollapseSkipsRun(s[1..], n - 1, drop, c);
    assert s[1..][n - 1..] == t;
    assert Collapse(t, drop, c, true) == Collapse(t, drop, c, false);
  }

  /** `replace(/[D]+/g, c)` puts `c` between the pieces of `split(/[D]+/)`. */
  lemma {:induction false} CollapseJoinsPieces(s: String, drop: char -> bool, c: char)
    ensures CollapseRuns(s, drop, c) == Join(SplitRuns(s, drop), [c])
    decreases |s|
  {
    if s == [] {
    } else if drop(s[0]) {
      var t := TrimStartBy(s, drop);
      CollapseLeadingRun(s, drop, c);
      CollapseJoinsPieces(t, drop, c);
      var pieces := SplitRuns(t, drop);
      assert ([[]] + pieces)[1..] == pieces;
      assert Join([[]] + pieces, [c]) == [c] + Join(pieces, [c]);
    } else {
      CollapseJoinsPieces(s[1..], drop, c);
      var rest := SplitRuns(s[1..], drop);
      var r := [[s[0]] + rest[0]] + rest[1..];
      if |rest| > 1 {
        assert r[1..] == rest[1..];
        assert Join(rest, [c]) == rest[0] + [c] + Join(rest[1..], [c]);
      }
    }
  }

  /** Joining non-empty pieces free of `drop` characters begins and ends with kept characters. */
  lemma {:induction false} JoinEnds(xs: seq<String>, c: char, drop: char -> bool)
    requires forall k :: 0 <= k < |xs| ==> xs[k] != [] && NoneOf(xs[k], drop)
    ensures xs != [] ==> Join(xs, [c]) != []
    ensures Join(xs, [c]) == [] || (!drop(Join(xs, [c])[0]) && !drop(Join(xs, [c])[|Join(xs, [c])| - 1]))
  {
    if |xs| > 1 {
      JoinEnds(xs[1..], c, drop);
      var j, rest := Join(xs, [c]), Join(xs[1..], [c]);
      assert j == xs[0] + [c] + rest;
      assert j[0] == xs[0][0];
      assert j[|j| - 1] == rest[|rest| - 1];
    }
  }

  /** Joining pieces of which only the last may be empty: leaving the empty
      pieces out loses at most the final separator. */
  lemma {:induction false} JoinEmptyLast(xs: seq<String>, c: char) returns (trail: String)
    requires |xs| >= 1 && forall k :: 0 <= k < |xs| - 1 ==> xs[k] != []
    ensures Join(xs, [c]) == Join(NonEmpty(xs), [c]) + trail
    ensures trail == [] || trail == [c]
  {
    if |xs| == 1 {
      trail := [];
      assert xs[1..] == [];
    } else if xs[1] == [] {
      assert xs[1..] == [[]] && xs[2..] == [];
      assert NonEmpty(xs[1..]) == NonEmpty(xs[2..]) == [];
      assert NonEmpty(xs) == [xs[0]];
      trail := [c];
    } else {
      trail := JoinEmptyLast(xs[1..], c);
      var ne := NonEmpty(xs[1..]);
      assert ne == [xs[1]] + NonEmpty(xs[2..]) by {
        assert xs[1..][1..] == xs[2..];
      }
      assert NonEmpty(xs) == [xs[0]] + ne;
      assert ([xs[0]] + ne)[1..] == ne;
    }
  }

  /** Joining the pieces of a split at maximal runs: leaving the empty pieces
      out loses at most one separator at each end. */
  lemma {:induction false} JoinEmptyEnds(xs: seq<String>, c: char) returns (lead: String, trail: String)
    requires |xs| >= 1 && forall k :: 0 < k < |xs| - 1 ==> xs[k] != []
    ensures Join(xs, [c]) == lead + Join(NonEmpty(xs), [c]) + trail
    ensures (lead == [] || lead == [c]) && (trail == [] || trail == [c])
  {
    if xs[0] == [] && |xs| > 1 {
      trail := JoinEmptyLast(xs[1..], c);
      assert NonEmpty(xs) == NonEmpty(xs[1..]);
      assert Join(xs, [c]) == [c] + Join(xs[1..], [c]);
      lead := [c];
    } else {
      trail := JoinEmptyLast(xs, c);
      lead := [];
    }
  }

  /** `TrimBoth` removes exactly dropped ends around a part that begins and
      ends with kept characters. */
  lemma {:induction false} TrimExact(s: String, lead: String, w: String, trail: String, drop: char -> bool)
    requires s == lead + w + trail
    requires AllOf(lead, drop) && AllOf(trail, drop)
    requires w == [] || (!drop(w[0]) && !drop(w[|w| - 1]))
    ensures TrimBoth(s, drop) == w
  {
    if w == [] {
      assert forall i :: 0 <= i < |s| ==> drop(s[i]) by {
        assert forall i :: |lead| <= i < |s| ==> s[i] == trail[i - |lead|];
      }
      LeadLenUnique(s, drop, |s|);
    } else {
      assert s[|lead|] == w[0];
      LeadLenUnique(s, drop, |lead|);
      var u := s[|lead|..];
      assert u == w + trail;
      assert u[|u| - |trail| - 1] == w[|w| - 1];
      assert forall i :: |u| - |trail| <= i < |u| ==> u[i] == trail[i - (|u| - |trail|)];
      TrailLenUnique(u, drop, |trail|);
      assert s[|lead|..|s| - |trail|] == w;
    }
  }

  /** Joining the non-empty pieces free of `drop` characters begins and ends
      with kept characters. */
  lemma {:induction false} JoinedNonEmptyEnds(xs: seq<String>, c: char, drop: char -> bool)
    requires forall k :: 0 <= k < |xs| ==> NoneOf(xs[k], drop)
    ensures var w := Join(NonEmpty(xs), [c]); w == [] || (!drop(w[0]) && !drop(w[|w| - 1]))
  {
    var ne := NonEmpty(xs);
    forall k | 0 <= k < |ne| ensures NoneOf(ne[k], drop) {
      assert ne[k] in xs;
    }
    JoinEnds(ne, c, drop);
  }

  /** Trimming the joined pieces of a split at maximal runs leaves the
      non-empty pieces, joined. */
  lemma {:induction false} TrimJoinedPieces(xs: seq<String>, c: char, drop: char -> bool)
    requires drop(c) && |xs| >= 1
    requires forall k :: 0 <= k < |xs| ==> NoneOf(xs[k], drop)
    requires forall k :: 0 < k < |xs| - 1 ==> xs[k] != []
    ensures TrimBoth(Join(xs, [c]), drop) == Join(NonEmpty(xs), [c])
  {
    JoinedNonEmptyEnds(xs, c, drop);
    var lead, trail := JoinEmptyEnds(xs, c);
    TrimExact(Join(xs, [c]), lead, Join(NonEmpty(xs), [c]), trail, drop);
  }

  /** `Array.prototype.join(' ')` undoes `split(' ')`. */
  lemma {:induction false} JoinSplitOn(s: String, c: char)
    ensures Join(SplitOn(s, c), [c]) == s
  {
    if s == [] {
    } else if s[0] == c {
      JoinSplitOn(s[1..], c);
      var rest := SplitOn(s[1..], c);
      assert ([[]] + rest)[1..] == rest;
    } else {
      JoinSplitOn(s[1..], c);
      var rest := SplitOn(s[1..], c);
      var r := [[s[0]] + rest[0]] + rest[1..];
      if |rest| == 1 {
      } else {
        assert r[1..] == rest[1..];
        assert Join(rest, [c]) == rest[0] + [c] + Join(rest[1..], [c]);
      }
    }
  }

  /** `LeadLen` is the first index whose character is not dropped. */
  lemma {:induction false} LeadLenUnique(s: String, drop: char -> bool, n: nat)
    requires n <= |s|
    requires forall i :: 0 <= i < n ==> drop(s[i])
    requires n == |s| || !drop(s[n])
    ensures LeadLen(s, drop) == n
  {
    if n > 0 {
      LeadLenUnique(s[1..], drop, n - 1);
    }
  }

  /** `TrailLen` is the length of the suffix of dropped characters that follows a kept one. */
  lemma {:induction false} TrailLenUnique(s: String, drop: char -> bool, n: nat)
    requires n <= |s|
    requires forall i :: |s| - n <= i < |s| ==> drop(s[i])
    requires n == |s| || !drop(s[|s| - n - 1])
    ensures TrailLen(s, drop) == n
  {
    if n > 0 {
      TrailLenUnique(s[..|s| - 1], drop, n - 1);
    }
  }

  /** No character of `s` satisfies `drop`. */
  predicate NoneOf(s: String, drop: char -> bool) {
    forall i :: 0 <= i < |s| ==> !drop(s[i])
  }

  /** Collapsing runs works piecewise across a boundary that is not inside a run. */
  lemma {:induction false} CollapseSplit(a: String, w: String, drop: char -> bool, c: char, inRun: bool)
    requires w != [] && !drop(w[0])
    ensures Collapse(a + w, drop, c, inRun) == Collapse(a, drop, c, inRun) + CollapseRuns(w, drop, c)
  {
    if a == [] {
      assert a + w == w;
    } else {
      assert (a + w)[0] == a[0] && (a + w)[1..] == a[1..] + w;
      CollapseSplit(a[1..], w, drop, c, drop(a[0]));
    }
  }

  /** A part without run characters passes through `Collapse` unchanged. */
  lemma {:induction false} CollapseNoneOfPrefix(u: String, rest: String, drop: char -> bool, c: char)
    requires u != [] && NoneOf(u, drop)
    ensures CollapseRuns(u + rest, drop, c) == u + CollapseRuns(rest, drop, c)
  {
    assert (u + rest)[0] == u[0] && (u + rest)[1..] == u[1..] + rest;
    if |u| == 1 {
      assert u == [u[0]];
      assert u[1..] + rest == rest;
    } else {
      CollapseNoneOfPrefix(u[1..], rest, drop, c);
      assert u == [u[0]] + u[1..];
    }
  }

  /** `TrimBoth` cannot reach into a part without `drop` characters. */
  lemma TrimKeeps(x: String, w: String, z: String, drop: char -> bool)
    requires w != [] && NoneOf(w, drop)
    ensures Contains(TrimBoth(x + w + z, drop), w)
  {
    var lead, trail := TrimStopsAt(x, w, z, drop);
    MiddleOfSplit(lead, TrimBoth(x + w + z, drop), trail, x, w, z);
    ContainsMiddle(x[|lead|..], w, z[..|z| - |trail|]);
  }

  lemma MiddleOfSplit<T>(lead: seq<T>, t: seq<T>, trail: seq<T>, x: seq<T>, w: seq<T>, z: seq<T>)
    requires lead + t + trail == x + w + z
    requires |lead| <= |x| && |trail| <= |z|
    ensures t == x[|lead|..] + w + z[..|z| - |trail|]
  {
    var s := x + w + z;
    assert t == s[|lead|..|s| - |trail|];
    assert forall i :: 0 <= i < |t| ==> t[i] == s[|lead| + i];
  }

  /** What `TrimBoth` removes from `x + w + z` comes from `x` and `z` alone. */
  lemma TrimStopsAt(x: String, w: String, z: String, drop: char -> bool) returns (lead: String, trail: String)
    requires w != [] && NoneOf(w, drop)
    ensures x + w + z == lead + TrimBoth(x + w + z, drop) + trail
    ensures |lead| <= |x| && |trail| <= |z|
  {
    var s := x + w + z;
    lead, trail := TrimBothParts(s, drop);
    assert !drop(s[|x|]) && !drop(s[|x| + |w| - 1]);
    assert forall i :: 0 <= i < |lead| ==> s[i] == lead[i];
    assert forall i :: |s| - |trail| <= i < |s| ==> s[i] == trail[i - (|s| - |trail|)];
  }

  /** Dropping characters distributes over concatenation. */
  lemma {:induction false} RemoveAppend(a: String, b: String, drop: char -> bool)
    ensures Remove(a + b, drop) == Remove(a, drop) + Remove(b, drop)
  {
    if a == [] {
      assert a + b == b;
    } else {
      assert (a + b)[0] == a[0] && (a + b)[1..] == a[1..] + b;
      RemoveAppend(a[1..], b, drop);
    }
  }

  /** A string made only of dropped characters leaves nothing. */
  lemma {:induction false} RemoveAllDropped(s: String, drop: char -> bool)
    requires forall i :: 0 <= i < |s| ==> drop(s[i])
    ensures Remove(s, drop) == []
  {
    if s != [] {
      RemoveAllDropped(s[1..], drop);
    }
  }

  /** Trimming only removes characters that `drop` selects. */
  lemma RemoveTrimBoth(s: String, drop: char -> bool)
    ensures Remove(TrimBoth(s, drop), drop) == Remove(s, drop)
  {
    var lead, trail := TrimBothParts(s, drop);
    RemoveAppend(lead + TrimBoth(s, drop), trail, drop);
    RemoveAppend(lead, TrimBoth(s, drop), drop);
    RemoveAllDropped(lead, drop);
    RemoveAllDropped(trail, drop);
  }

  /** Collapsing runs into a run character only changes run characters. */
  lemma {:induction false} RemoveCollapse(s: String, drop: char -> bool, c: char, inRun: bool)
    requires drop(c)
    ensures Remove(Collapse(s, drop, c, inRun), drop) == Remove(s, drop)
  {
    if s != [] {
      RemoveCollapse(s[1..], drop, c, drop(s[0]));
      var rest := Collapse(s[1..], drop, c, drop(s[0]));
      if !drop(s[0]) {
        assert ([s[0]] + rest)[1..] == rest;
      } else if !inRun {
        assert ([c] + rest)[1..] == rest;
      }
    }
  }

  /** No character satisfying `first` is directly followed by one satisfying `second`. */
  predicate NoPair(s: String, first: char -> bool, second: char -> bool) {
    forall i, j :: 0 <= i < |s| && j == i + 1 && j < |s| ==> !(first(s[i]) && second(s[j]))
  }

  /** After collapsing, every run character is `c` and no two run characters
      are adjacent; inside a run the result does not begin with a run character. */
  lemma {:induction false} CollapseShape(s: String, drop: char -> bool, c: char, inRun: bool)
    requires drop(c)
    ensures inRun && Collapse(s, drop, c, inRun) != [] ==> !drop(Collapse(s, drop, c, inRun)[0])
    ensures forall i :: 0 <= i < |Collapse(s, drop, c, inRun)| && drop(Collapse(s, drop, c, inRun)[i])
                        ==> Collapse(s, drop, c, inRun)[i] == c
    ensures NoPair(Collapse(s, drop, c, inRun), drop, drop)
  {
    if s != [] {
      CollapseShape(s[1..], drop, c, drop(s[0]));
      var rest := Collapse(s[1..], drop, c, drop(s[0]));
      if !drop(s[0]) || !inRun {
        var r := Collapse(s, drop, c, inRun);
        assert forall i :: 1 <= i < |r| ==> r[i] == rest[i - 1];
      }
    }
  }
}
