/** The text of a fill-in-the-blank question: the phrase's tokens replaced by
    one blank, whitespace before punctuation removed, whitespace runs
    collapsed, the ends trimmed and a lead-in prepended. */
module Stem {
  import opened Text
  import opened Tokens

  /** `[.,!?;:]` */
  predicate IsPunct(c: char) {
    c == '.' || c == ',' || c == '!' || c == '?' || c == ';' || c == ':'
  }

  const BLANK: String := "____"
  const LEAD_IN: String := "Fill in the blank: "

  /** `token.match(/[.,!?;:]+$/)`: the longest suffix of punctuation, empty
      when the token does not end in punctuation. */
  function TrailingPunct(token: String): (r: String)
    ensures |r| <= |token| && token == token[..|token| - |r|] + r
    ensures forall i :: 0 <= i < |r| ==> IsPunct(r[i])
    ensures |r| == |token| || !IsPunct(token[|token| - |r| - 1])
  {
    TrailDropped(token, IsPunct);
    token[|token| - TrailLen(token, IsPunct)..]
  }

  /** The blank that stands for a phrase whose last token is `last`: four
      underscores, then the punctuation that ended the phrase, if any. */
  function Placeholder(last: String): (p: String)
    ensures p == BLANK + TrailingPunct(last)
  {
    var punct := TrailingPunct(last);
    if punct != [] then BLANK + punct else BLANK
  }

  /** The tokens with `tokens[start..end]` replaced by one placeholder. */
  function Blanked(tokens: seq<String>, start: nat, end: nat): seq<String>
    requires start < end <= |tokens|
  {
    tokens[..start] + [Placeholder(tokens[end - 1])] + tokens[end..]
  }

  /** What the `forEach` below has produced after visiting `tokens[..n]`. */
  function BlankedUpTo(tokens: seq<String>, start: nat, end: nat, n: nat): seq<String>
    requires start < end <= |tokens| && n <= |tokens|
  {
    if n <= start then tokens[..n]
    else if n <= end then tokens[..start] + [Placeholder(tokens[end - 1])]
    else tokens[..start] + [Placeholder(tokens[end - 1])] + tokens[end..n]
  }

  /** Visiting `start` adds the placeholder. */
  lemma BlankedAtStart(tokens: seq<String>, start: nat, end: nat)
    requires start < end <= |tokens|
    ensures BlankedUpTo(tokens, start, end, start + 1) == BlankedUpTo(tokens, start, end, start) + [Placeholder(tokens[end - 1])]
  {
  }

  /** Visiting the phrase's other tokens adds nothing. */
  lemma BlankedInside(tokens: seq<String>, start: nat, end: nat, n: nat)
    requires start < n < end <= |tokens|
    ensures BlankedUpTo(tokens, start, end, n + 1) == BlankedUpTo(tokens, start, end, n)
  {
  }

  /** Visiting a token outside the phrase adds the token. */
  lemma BlankedOutside(tokens: seq<String>, start: nat, end: nat, n: nat)
    requires start < end <= |tokens| && n < |tokens| && (n < start || end <= n)
    ensures BlankedUpTo(tokens, start, end, n + 1) == BlankedUpTo(tokens, start, end, n) + [tokens[n]]
  {
    if n < start {
      assert tokens[..n + 1] == tokens[..n] + [tokens[n]];
    } else {
      assert tokens[end..n + 1] == tokens[end..n] + [tokens[n]];
    }
  }

  /** The `tokens.forEach` of `buildQuestionFromCandidate`: the token at
      `start` becomes the placeholder, the phrase's other tokens are skipped,
      every other token is kept. */
  method BlankOut(tokens: seq<String>, start: nat, end: nat) returns (blankTokens: seq<String>)
    requires start < end <= |tokens|
    ensures blankTokens == Blanked(tokens, start, end)
  {
    blankTokens := [];
    var idx := 0;
    while idx < |tokens|
      invariant 0 <= idx <= |tokens|
      invariant blankTokens == BlankedUpTo(tokens, start, end, idx)
    {
      if idx == start {
        BlankedAtStart(tokens, start, end);
        // the blank carries the punctuation that ended the phrase's last token
        blankTokens := blankTokens + [Placeholder(tokens[end - 1])];
      } else if idx > start && idx < end {
        // the phrase's other tokens are dropped
        BlankedInside(tokens, start, end, idx);
      } else {
        BlankedOutside(tokens, start, end, idx);
        blankTokens := blankTokens + [tokens[idx]];
      }
      idx := idx + 1;
    }
    BlankedUpToAll(tokens, start, end);
  }

  lemma BlankedUpToAll(tokens: seq<String>, start: nat, end: nat)
    requires start < end <= |tokens|
    ensures BlankedUpTo(tokens, start, end, |tokens|) == Blanked(tokens, start, end)
  {
    assert tokens[end..|tokens|] == tokens[end..];
  }

  lemma SpaceIsNotPunct(c: char)
    requires IsSpace(c)
    ensures !IsPunct(c)
  {
  }

  lemma PunctIsNotSpace(c: char)
    requires IsPunct(c)
    ensures !IsSpace(c)
  {
  }

  /** No whitespace character is directly followed by punctuation. */
  predicate NoSpaceBeforePunct(s: String) {
    NoPair(s, IsSpace, IsPunct)
  }

  /** `replace(/\s+([.,!?;:])/g, '$1')` read left to right: `pending` is the
      whitespace read since the last other character; it is dropped when
      punctuation comes next and kept otherwise. */
  function FixPunct(s: String, pending: String): (r: String)
    requires forall i :: 0 <= i < |pending| ==> IsSpace(pending[i])
    ensures NoSpaceBeforePunct(r)
  {
    assert forall i :: 0 <= i < |pending| ==> !IsPunct(pending[i]) by {
      forall i | 0 <= i < |pending| ensures !IsPunct(pending[i]) {
        SpaceIsNotPunct(pending[i]);
      }
    }
    if s == [] then pending
    else if IsSpace(s[0]) then FixPunct(s[1..], pending + [s[0]])
    else if IsPunct(s[0]) then
      var rest := FixPunct(s[1..], []);
      assert forall i :: 1 <= i < |rest| + 1 ==> ([s[0]] + rest)[i] == rest[i - 1];
      [s[0]] + rest
    else
      var rest := FixPunct(s[1..], []);
      var r := pending + [s[0]] + rest;
      assert forall i :: |pending| < i < |r| ==> r[i] == rest[i - |pending| - 1];
      r
  }

  /** Only whitespace is ever removed. */
  lemma {:induction false} FixPunctKeepsText(s: String, pending: String)
    requires forall i :: 0 <= i < |pending| ==> IsSpace(pending[i])
    ensures Remove(FixPunct(s, pending), IsSpace) == Remove(s, IsSpace)
  {
    if s == [] {
      RemoveAllDropped(pending, IsSpace);
    } else if IsSpace(s[0]) {
      FixPunctKeepsText(s[1..], pending + [s[0]]);
    } else {
      FixPunctKeepsText(s[1..], []);
      FixPunctKeepsChar(s, pending);
    }
  }

  /** The step of `FixPunctKeepsText` at a character that is not whitespace. */
  lemma FixPunctKeepsChar(s: String, pending: String)
    requires forall i :: 0 <= i < |pending| ==> IsSpace(pending[i])
    requires s != [] && !IsSpace(s[0])
    requires Remove(FixPunct(s[1..], []), IsSpace) == Remove(s[1..], IsSpace)
    ensures Remove(FixPunct(s, pending), IsSpace) == Remove(s, IsSpace)
  {
    var kept := [s[0]] + FixPunct(s[1..], []);
    KeptHead(s[0], FixPunct(s[1..], []), IsSpace);
    if IsPunct(s[0]) {
      FixPunctAtPunct(s, pending);
    } else {
      FixPunctAtWord(s, pending);
      RemoveAfterDropped(pending, kept, IsSpace);
    }
  }

  /** Punctuation drops the whitespace before it. */
  lemma FixPunctAtPunct(s: String, pending: String)
    requires forall i :: 0 <= i < |pending| ==> IsSpace(pending[i])
    requires s != [] && IsPunct(s[0])
    ensures FixPunct(s, pending) == [s[0]] + FixPunct(s[1..], [])
  {
    PunctIsNotSpace(s[0]);
  }

  /** Any other character keeps the whitespace before it. */
  lemma FixPunctAtWord(s: String, pending: String)
    requires forall i :: 0 <= i < |pending| ==> IsSpace(pending[i])
    requires s != [] && !IsSpace(s[0]) && !IsPunct(s[0])
    ensures FixPunct(s, pending) == pending + ([s[0]] + FixPunct(s[1..], []))
  {
  }

  /** A kept first character stays in front. */
  lemma KeptHead(c: char, rest: String, drop: char -> bool)
    requires !drop(c)
    ensures Remove([c] + rest, drop) == [c] + Remove(rest, drop)
  {
    assert ([c] + rest)[1..] == rest;
  }

  lemma RemoveAfterDropped(a: String, b: String, drop: char -> bool)
    requires forall i :: 0 <= i < |a| ==> drop(a[i])
    ensures Remove(a + b, drop) == Remove(b, drop)
  {
    RemoveAppend(a, b, drop);
    RemoveAllDropped(a, drop);
  }

  /** Removes the whitespace in front of each punctuation mark of the stem. */
  function FixPunctSpacing(s: String): (r: String)
    ensures NoSpaceBeforePunct(r)
    ensures Remove(r, IsSpace) == Remove(s, IsSpace)
  {
    FixPunctKeepsText(s, []);
    FixPunct(s, [])
  }

  /** The fix works piecewise across a boundary before a character that is
      neither whitespace nor punctuation. */
  lemma {:induction false} FixPunctAppend(a: String, s: String, pending: String)
    requires forall i :: 0 <= i < |pending| ==> IsSpace(pending[i])
    requires s != [] && !IsSpace(s[0]) && !IsPunct(s[0])
    ensures FixPunct(a + s, pending) == FixPunct(a, pending) + FixPunct(s, [])
  {
    if a == [] {
      assert a + s == s;
    } else {
      assert (a + s)[0] == a[0] && (a + s)[1..] == a[1..] + s;
      if IsSpace(a[0]) {
        FixPunctAppend(a[1..], s, pending + [a[0]]);
      } else {
        FixPunctAppend(a[1..], s, []);
      }
    }
  }

  /** A part without whitespace passes through the fix unchanged. */
  lemma {:induction false} FixPunctKeepsWord(w: String, b: String)
    requires NoneOf(w, IsSpace)
    ensures FixPunct(w + b, []) == w + FixPunct(b, [])
  {
    if w == [] {
      assert w + b == b;
    } else {
      assert (w + b)[0] == w[0] && (w + b)[1..] == w[1..] + b;
      FixPunctKeepsWord(w[1..], b);
      assert w == [w[0]] + w[1..];
    }
  }

  /** Whitespace is single plain spaces between other characters. */
  predicate SingleSpaced(s: String) {
    && (forall i :: 0 <= i < |s| && IsSpace(s[i]) ==> s[i] == ' ' && 0 < i < |s| - 1)
    && NoPair(s, IsSpace, IsSpace)
  }

  /** `stem.replace(/\s+/g, ' ').trim()` */
  function Normalize(stem: String): (r: String)
    ensures SingleSpaced(r)
    ensures Remove(r, IsSpace) == Remove(stem, IsSpace)
  {
    var collapsed := CollapseSpaces(stem);
    CollapseShape(stem, IsSpace, ' ', false);
    RemoveCollapse(stem, IsSpace, ' ', false);
    RemoveTrimBoth(collapsed, IsSpace);
    TrimSingleSpaced(collapsed);
    Trim(collapsed)
  }

  /** Normalising a stem is joining its whitespace-separated words with single spaces. */
  lemma {:induction false} NormalizeJoinsWords(stem: String)
    ensures Normalize(stem) == Join(SplitSentenceTokens(stem), " ")
  {
    CollapseJoinsPieces(stem, IsSpace, ' ');
    SplitRunsInnerPieces(stem, IsSpace);
    TrimJoinedPieces(SplitRuns(stem, IsSpace), ' ', IsSpace);
  }

  /** Trimming a text whose spaces are lone `' '` characters leaves them inside. */
  lemma TrimSingleSpaced(s: String)
    requires forall i :: 0 <= i < |s| && IsSpace(s[i]) ==> s[i] == ' '
    requires NoPair(s, IsSpace, IsSpace)
    ensures SingleSpaced(Trim(s))
  {
    var r := Trim(s);
    var lead := LeadLen(s, IsSpace);
    assert forall i :: 0 <= i < |r| ==> r[i] == s[lead + i];
    forall i, j | 0 <= i < |r| && j == i + 1 && j < |r| ensures !(IsSpace(r[i]) && IsSpace(r[j])) {
      assert r[i] == s[lead + i] && r[j] == s[lead + i + 1];
    }
  }

  /** `improveStem`: the normalised stem, after the lead-in when it holds a blank. */
  function ImproveStem(stem: String): (r: String)
    ensures SingleSpaced(r)
    ensures Contains(Normalize(stem), BLANK) ==> StartsWith(r, LEAD_IN)
    ensures Remove(r, IsSpace)
         == (if Contains(Normalize(stem), BLANK) then Remove(LEAD_IN, IsSpace) else []) + Remove(stem, IsSpace)
  {
    var cleaned := Normalize(stem);
    if Contains(cleaned, BLANK) then
      LeadInSingleSpaced(cleaned);
      RemoveAppend(LEAD_IN, cleaned, IsSpace);
      LEAD_IN + cleaned
    else
      cleaned
  }

  lemma LeadInSingleSpaced(t: String)
    requires SingleSpaced(t) && t != []
    ensures SingleSpaced(LEAD_IN + t)
  {
    var s := LEAD_IN + t;
    forall i | 0 <= i < |s| && IsSpace(s[i])
      ensures s[i] == ' ' && 0 < i < |s| - 1
    {
      if i >= |LEAD_IN| {
        assert s[i] == t[i - |LEAD_IN|];
      }
    }
    forall i, j | 0 <= i < |s| && j == i + 1 && j < |s|
      ensures !(IsSpace(s[i]) && IsSpace(s[j]))
    {
      if i >= |LEAD_IN| {
        assert s[i] == t[i - |LEAD_IN|] && s[j] == t[j - |LEAD_IN|];
      } else if j == |LEAD_IN| {
        assert s[j] == t[0];
      }
    }
  }

  /** The question text of a sentence whose tokens `start` to `end - 1` form the answer. */
  function StemText(tokens: seq<String>, start: nat, end: nat): String
    requires start < end <= |tokens|
  {
    ImproveStem(FixPunctSpacing(Join(Blanked(tokens, start, end), " ")))
  }

  /** Joining around one element. */
  lemma {:induction false} JoinAround(pre: seq<String>, m: String, post: seq<String>, sep: String)
    returns (x: String, y: String)
    ensures Join(pre + [m] + post, sep) == x + m + y
  {
    if pre == [] {
      assert pre + [m] + post == [m] + post;
      if post == [] {
        x, y := [], [];
      } else {
        assert ([m] + post)[1..] == post;
        x, y := [], sep + Join(post, sep);
      }
    } else {
      var x', y' := JoinAround(pre[1..], m, post, sep);
      assert (pre + [m] + post)[1..] == pre[1..] + [m] + post;
      x, y := pre[0] + sep + x', y';
    }
  }

  /** The blank survives every later step, so every question built from a
      sentence begins with the lead-in. */
  lemma StemStartsWithLeadIn(tokens: seq<String>, start: nat, end: nat)
    requires start < end <= |tokens|
    ensures StartsWith(StemText(tokens, start, end), LEAD_IN)
  {
    var p, q := BlankSurvivesFix(tokens, start, end);
    NormalizeKeepsBlank(p, q);
  }

  /** The punctuation fix leaves the placeholder's four underscores in place. */
  lemma BlankSurvivesFix(tokens: seq<String>, start: nat, end: nat) returns (p: String, q: String)
    requires start < end <= |tokens|
    ensures FixPunctSpacing(Join(Blanked(tokens, start, end), " ")) == p + BLANK + q
  {
    var punct := TrailingPunct(tokens[end - 1]);
    var x, y := JoinAround(tokens[..start], Placeholder(tokens[end - 1]), tokens[end..], " ");
    var z := punct + y;
    var joined := Join(Blanked(tokens, start, end), " ");
    assert joined == x + (BLANK + z);
    assert NoneOf(BLANK, IsSpace);
    FixPunctAppend(x, BLANK + z, []);
    FixPunctKeepsWord(BLANK, z);
    p, q := FixPunct(x, []), FixPunct(z, []);
  }

  /** Collapsing and trimming whitespace keep a text without whitespace. */
  lemma NormalizeKeepsBlank(p: String, q: String)
    ensures Contains(Normalize(p + BLANK + q), BLANK)
  {
    assert NoneOf(BLANK, IsSpace);
    assert p + BLANK + q == p + (BLANK + q);
    CollapseSplit(p, BLANK + q, IsSpace, ' ', false);
    CollapseNoneOfPrefix(BLANK, q, IsSpace, ' ');
    var p', q' := Collapse(p, IsSpace, ' ', false), CollapseRuns(q, IsSpace, ' ');
    assert CollapseSpaces(p + BLANK + q) == p' + BLANK + q';
    TrimKeeps(p', BLANK, q', IsSpace);
  }
}
