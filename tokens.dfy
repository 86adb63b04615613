/** Word-level helpers of the quiz generator: word cleaning, option
    rendering, sentence segmentation, tokenisation, term frequencies and the
    frequency-ranked keyword list. */
module Tokens {
  import opened Text
  import opened Sorting

  /** Words that never count as content. */
  const STOPWORDS: set<String> := {"a", "an", "the", "and", "or", "if", "then", "else", "when", "of", "in", "on", "for", "to", "from", "by", "with", "as", "at", "is", "are", "was", "were", "be", "been", "being", "that", "this", "these", "those", "it", "its", "into", "over", "under", "after", "before", "about", "via", "can", "could", "should", "would", "may", "might", "will", "shall", "do", "does", "did", "done", "doing", "not", "no", "nor", "so", "such", "than", "too", "very", "also", "any", "each", "other", "more", "most", "some", "less", "least", "own", "same", "per", "within", "between", "across", "up", "down", "out", "off", "above", "below", "again", "further", "once"}

  /** `STOPWORDS.has(w)` */
  predicate IsStopword(w: String) {
    w in STOPWORDS
  }

  const MIN_SENTENCE_LENGTH: nat := 35

  /** `sanitizeWord`: outer non-alphanumerics stripped, then lower-cased. */
  function SanitizeWord(word: String): (r: String)
    ensures |r| <= |word|
    ensures r == [] || (IsAlnum(r[0]) && IsAlnum(r[|r| - 1]))
    ensures NoUpper(r)
    ensures LeadLen(word, IsNonAlnum) + |r| <= |word|
    ensures forall i :: 0 <= i < |r| ==> r[i] == LowerChar(word[LeadLen(word, IsNonAlnum) + i])
  {
    Lower(StripOuter(word))
  }

  /** `stripToken`: outer non-alphanumerics stripped, case kept. */
  function StripToken(word: String): (r: String)
    ensures Lower(r) == SanitizeWord(word)
    ensures r == [] || (IsAlnum(r[0]) && IsAlnum(r[|r| - 1]))
  {
    StripOuter(word)
  }

  function CapitalizeFirst(part: String): (r: String)
    ensures |r| == |part| && Lower(r) == Lower(part)
  {
    if part == [] then []
    else
      var r := [UpperChar(part[0])] + part[1..];
      assert forall i :: 0 <= i < |r| ==> LowerChar(r[i]) == LowerChar(part[i]);
      r
  }

  /** `titleCase`: the first character of every space-separated part is
      upper-cased; nothing else changes. */
  function TitleCase(value: String): (r: String)
    ensures |r| == |value|
    ensures Lower(r) == Lower(value)
    ensures value != [] ==> r[0] == UpperChar(value[0])
  {
    if value == [] then []
    else
      var parts := SplitOn(value, ' ');
      var caps := seq(|parts|, k requires 0 <= k < |parts| => CapitalizeFirst(parts[k]));
      JoinSplitOn(value, ' ');
      JoinKeepsLower(caps, parts, " ");
      JoinFirst(caps, parts, " ");
      Join(caps, " ")
  }

  lemma {:induction false} JoinKeepsLower(xs: seq<String>, ys: seq<String>, sep: String)
    requires |xs| == |ys|
    requires forall k :: 0 <= k < |xs| ==> |xs[k]| == |ys[k]| && Lower(xs[k]) == Lower(ys[k])
    ensures |Join(xs, sep)| == |Join(ys, sep)|
    ensures Lower(Join(xs, sep)) == Lower(Join(ys, sep))
  {
    if |xs| > 1 {
      JoinKeepsLower(xs[1..], ys[1..], sep);
      LowerAppend(xs[0], sep);
      LowerAppend(ys[0], sep);
      LowerAppend(xs[0] + sep, Join(xs[1..], sep));
      LowerAppend(ys[0] + sep, Join(ys[1..], sep));
    }
  }

  /** The first character of the joined title-cased parts. */
  lemma JoinFirst(caps: seq<String>, parts: seq<String>, sep: String)
    requires |caps| == |parts| >= 1 && sep == " "
    requires forall k :: 0 <= k < |parts| ==> caps[k] == CapitalizeFirst(parts[k])
    requires Join(parts, sep) != [] && |Join(caps, sep)| == |Join(parts, sep)|
    ensures Join(caps, sep)[0] == UpperChar(Join(parts, sep)[0])
  {
    if parts[0] == [] {
      assert |parts| > 1;
    }
  }

  /** `prettifyOption`: whitespace runs collapsed, trimmed, title-cased. */
  function PrettifyOption(value: String): (r: String)
    ensures |r| <= |value|
    ensures r == [] || (!IsSpace(r[0]) && !IsSpace(r[|r| - 1]))
    ensures Lower(r) == Lower(Trim(CollapseSpaces(value)))
  {
    var t := Trim(CollapseSpaces(value));
    var r := TitleCase(t);
    assert r != [] ==> LowerChar(r[0]) == LowerChar(t[0]) && LowerChar(r[|r| - 1]) == LowerChar(t[|t| - 1]);
    r
  }

  predicate IsSentenceBreak(c: char) {
    c == '.' || c == '!' || c == '?' || c == '\n'
  }

  predicate IsNewline(c: char) {
    c == '\n'
  }

  /** `replace(/\r/g, ' ')` */
  function ReplaceCarriageReturns(s: String): (r: String)
    ensures |r| == |s|
  {
    seq(|s|, i requires 0 <= i < |s| => if s[i] == '\r' then ' ' else s[i])
  }

  /** `replace(/\n{2,}/g, '\n')`: every run of newlines becomes one newline
      (a lone newline is already such a run). */
  function CollapseNewlines(s: String): (r: String)
    ensures |r| <= |s|
  {
    CollapseRuns(s, IsNewline, '\n')
  }

  /** What `sentenceSplit` keeps: a trimmed piece of at least
      MIN_SENTENCE_LENGTH characters containing no sentence break. */
  predicate IsSentence(s: String) {
    && |s| >= MIN_SENTENCE_LENGTH
    && !IsSpace(s[0]) && !IsSpace(s[|s| - 1])
    && NoneOf(s, IsSentenceBreak)
  }

  /** Trims every piece and keeps those of at least MIN_SENTENCE_LENGTH characters. */
  function KeepSentences(pieces: seq<String>): (r: seq<String>)
    requires forall k :: 0 <= k < |pieces| ==> NoneOf(pieces[k], IsSentenceBreak)
    ensures |r| <= |pieces|
    ensures forall k :: 0 <= k < |r| ==> IsSentence(r[k])
  {
    if pieces == [] then []
    else
      var t := Trim(pieces[0]);
      var rest := KeepSentences(pieces[1..]);
      if |t| < MIN_SENTENCE_LENGTH then rest
      else
        KeptPiece(pieces[0], rest);
        [t] + rest
  }

  /** A long enough trimmed piece is a sentence, in front of other sentences. */
  lemma KeptPiece(piece: String, rest: seq<String>)
    requires NoneOf(piece, IsSentenceBreak) && |Trim(piece)| >= MIN_SENTENCE_LENGTH
    requires forall k :: 0 <= k < |rest| ==> IsSentence(rest[k])
    ensures forall k :: 0 <= k < |rest| + 1 ==> IsSentence(([Trim(piece)] + rest)[k])
  {
    TrimBothNoneOf(piece, IsSpace, IsSentenceBreak);
    var r := [Trim(piece)] + rest;
    assert forall k :: 1 <= k < |r| ==> r[k] == rest[k - 1];
  }

  /** Pieces that are all too short yield no sentence. */
  lemma {:induction false} ShortPiecesAreDropped(pieces: seq<String>)
    requires forall k :: 0 <= k < |pieces| ==> NoneOf(pieces[k], IsSentenceBreak)
    requires forall k :: 0 <= k < |pieces| ==> |pieces[k]| < MIN_SENTENCE_LENGTH
    ensures KeepSentences(pieces) == []
  {
    if pieces != [] {
      assert |pieces[0]| < MIN_SENTENCE_LENGTH;
      ShortPiecesAreDropped(pieces[1..]);
    }
  }

  /** Every piece whose trimmed form is long enough is kept, as that trimmed form. */
  lemma {:induction false} LongPieceIsKept(pieces: seq<String>, k: nat)
    requires forall j :: 0 <= j < |pieces| ==> NoneOf(pieces[j], IsSentenceBreak)
    requires k < |pieces| && |Trim(pieces[k])| >= MIN_SENTENCE_LENGTH
    ensures Trim(pieces[k]) in KeepSentences(pieces)
  {
    if k > 0 {
      LongPieceIsKept(pieces[1..], k - 1);
      assert pieces[1..][k - 1] == pieces[k];
    }
  }

  /** Every kept sentence is the trimmed form of a long enough piece. */
  lemma {:induction false} KeptSentenceIsLongPiece(pieces: seq<String>, x: String)
    requires forall j :: 0 <= j < |pieces| ==> NoneOf(pieces[j], IsSentenceBreak)
    requires x in KeepSentences(pieces)
    ensures exists k :: 0 <= k < |pieces| && Trim(pieces[k]) == x && |x| >= MIN_SENTENCE_LENGTH
  {
    var t := Trim(pieces[0]);
    if |t| >= MIN_SENTENCE_LENGTH && x == t {
    } else {
      KeptSentenceIsLongPiece(pieces[1..], x);
      var k :| 0 <= k < |pieces[1..]| && Trim(pieces[1..][k]) == x && |x| >= MIN_SENTENCE_LENGTH;
      assert pieces[k + 1] == pieces[1..][k];
    }
  }

  /** The pieces `sentenceSplit` trims and filters. */
  function SentencePieces(text: String): seq<String> {
    SplitRuns(CollapseNewlines(ReplaceCarriageReturns(text)), IsSentenceBreak)
  }

  /** `sentenceSplit` */
  function SentenceSplit(text: String): (r: seq<String>)
    ensures forall k :: 0 <= k < |r| ==> IsSentence(r[k])
  {
    KeepSentences(SentencePieces(text))
  }

  /** The pieces that the sentences are cut from carry the text's characters
      in their original order, minus the sentence breaks. */
  lemma SentencePiecesInOrder(text: String)
    ensures Flatten(SentencePieces(text))
         == Remove(CollapseNewlines(ReplaceCarriageReturns(text)), IsSentenceBreak)
  {
    SplitRunsFlatten(CollapseNewlines(ReplaceCarriageReturns(text)), IsSentenceBreak);
  }

  /** A text shorter than one sentence yields no sentences. */
  lemma ShortTextHasNoSentences(text: String)
    requires |text| < MIN_SENTENCE_LENGTH
    ensures SentenceSplit(text) == []
  {
    var s := CollapseNewlines(ReplaceCarriageReturns(text));
    SplitRunsPieceLength(s, IsSentenceBreak);
    ShortPiecesAreDropped(SplitRuns(s, IsSentenceBreak));
  }

  /** `sentenceSplit` keeps exactly the trimmed pieces of at least
      MIN_SENTENCE_LENGTH characters. */
  lemma {:induction false} SentenceSplitExactly(text: String, x: String)
    ensures x in SentenceSplit(text)
        <==> exists k :: 0 <= k < |SentencePieces(text)| && Trim(SentencePieces(text)[k]) == x && |x| >= MIN_SENTENCE_LENGTH
  {
    var pieces := SentencePieces(text);
    if x in SentenceSplit(text) {
      KeptSentenceIsLongPiece(pieces, x);
    }
    if exists k :: 0 <= k < |pieces| && Trim(pieces[k]) == x && |x| >= MIN_SENTENCE_LENGTH {
      var k :| 0 <= k < |pieces| && Trim(pieces[k]) == x && |x| >= MIN_SENTENCE_LENGTH;
      LongPieceIsKept(pieces, k);
    }
  }

  lemma {:induction false} SplitRunsPieceLength(s: String, delim: char -> bool)
    ensures forall k :: 0 <= k < |SplitRuns(s, delim)| ==> |SplitRuns(s, delim)[k]| <= |s|
    decreases |s|
  {
    if s == [] {
    } else if delim(s[0]) {
      SplitRunsPieceLength(TrimStartBy(s, delim), delim);
    } else {
      SplitRunsPieceLength(s[1..], delim);
    }
  }

  predicate IsWordChar(c: char) {
    IsAlnum(c) || IsSpace(c) || c == '-'
  }

  /** `replace(/[^A-Za-z0-9\s\-]/g, ' ')` */
  function ReplaceNonWordChars(s: String): (r: String)
    ensures |r| == |s|
    ensures forall i :: 0 <= i < |r| ==> IsWordChar(r[i])
  {
    seq(|s|, i requires 0 <= i < |s| => if IsWordChar(s[i]) then s[i] else ' ')
  }

  /** What survives `tokenize`'s replacement and split: letters, digits, hyphens. */
  predicate IsTermChar(c: char) {
    IsAlnum(c) || c == '-'
  }

  predicate TermChars(t: String) {
    forall i :: 0 <= i < |t| ==> IsTermChar(t[i])
  }

  /** A token that takes part in scoring. */
  predicate IsTerm(t: String) {
    && |t| > 3
    && !IsStopword(t)
    && NoUpper(t)
    && IsAlnum(t[0]) && IsAlnum(t[|t| - 1])
    && TermChars(t)
  }

  /** Sanitizes every piece and keeps the non-empty, non-stopword ones longer than 3. */
  function KeepTerms(pieces: seq<String>): (r: seq<String>)
    requires forall k :: 0 <= k < |pieces| ==> TermChars(pieces[k])
    ensures |r| <= |pieces|
    ensures forall k :: 0 <= k < |r| ==> IsTerm(r[k])
  {
    if pieces == [] then []
    else
      var t := SanitizeWord(pieces[0]);
      var rest := KeepTerms(pieces[1..]);
      if t != [] && !IsStopword(t) && |t| > 3 then
        SanitizedTermChars(pieces[0]);
        KeptTerm(t, rest);
        [t] + rest
      else
        rest
  }

  /** A term in front of other terms. */
  lemma KeptTerm(t: String, rest: seq<String>)
    requires IsTerm(t)
    requires forall k :: 0 <= k < |rest| ==> IsTerm(rest[k])
    ensures forall k :: 0 <= k < |rest| + 1 ==> IsTerm(([t] + rest)[k])
  {
    var r := [t] + rest;
    assert forall k :: 1 <= k < |r| ==> r[k] == rest[k - 1];
  }

  /** A piece whose sanitised form is long enough and no stopword is kept, as that form. */
  lemma {:induction false} TermPieceIsKept(pieces: seq<String>, k: nat)
    requires forall j :: 0 <= j < |pieces| ==> TermChars(pieces[j])
    requires k < |pieces|
    requires SanitizeWord(pieces[k]) != [] && !IsStopword(SanitizeWord(pieces[k])) && |SanitizeWord(pieces[k])| > 3
    ensures SanitizeWord(pieces[k]) in KeepTerms(pieces)
  {
    if k > 0 {
      TermPieceIsKept(pieces[1..], k - 1);
      assert pieces[1..][k - 1] == pieces[k];
    }
  }

  /** Every kept term is the sanitised form of a piece that passes the filter. */
  lemma {:induction false} KeptTermIsPiece(pieces: seq<String>, x: String)
    requires forall j :: 0 <= j < |pieces| ==> TermChars(pieces[j])
    requires x in KeepTerms(pieces)
    ensures exists k :: 0 <= k < |pieces| && SanitizeWord(pieces[k]) == x && !IsStopword(x) && |x| > 3
  {
    var t := SanitizeWord(pieces[0]);
    if t != [] && !IsStopword(t) && |t| > 3 && x == t {
    } else {
      KeptTermIsPiece(pieces[1..], x);
      var k :| 0 <= k < |pieces[1..]| && SanitizeWord(pieces[1..][k]) == x && !IsStopword(x) && |x| > 3;
      assert pieces[k + 1] == pieces[1..][k];
    }
  }

  /** Sanitising keeps a piece made of term characters made of them. */
  lemma SanitizedTermChars(piece: String)
    requires TermChars(piece)
    ensures TermChars(SanitizeWord(piece))
  {
    var r := SanitizeWord(piece);
    forall i | 0 <= i < |r| ensures IsTermChar(r[i]) {
      var c := piece[LeadLen(piece, IsNonAlnum) + i];
      assert r[i] == LowerChar(c) && IsTermChar(c);
    }
  }

  /** The whitespace-separated pieces `tokenize` sanitises and filters. */
  function TokenPieces(text: String): seq<String> {
    SplitRuns(ReplaceNonWordChars(text), IsSpace)
  }

  /** After the replacement and the split, pieces hold only term characters. */
  lemma TokenPiecesAreTermChars(text: String)
    ensures forall k :: 0 <= k < |TokenPieces(text)| ==> TermChars(TokenPieces(text)[k])
  {
    var pieces := TokenPieces(text);
    SplitRunsChars(ReplaceNonWordChars(text), IsSpace);
    forall k | 0 <= k < |pieces| ensures TermChars(pieces[k]) {
      forall i | 0 <= i < |pieces[k]| ensures IsTermChar(pieces[k][i]) {
        assert pieces[k][i] in ReplaceNonWordChars(text);
        assert NoneOf(pieces[k], IsSpace);
      }
    }
  }

  /** `tokenize` */
  function Tokenize(text: String): (r: seq<String>)
    ensures forall k :: 0 <= k < |r| ==> IsTerm(r[k])
  {
    TokenPiecesAreTermChars(text);
    KeepTerms(TokenPieces(text))
  }

  /** `tokenize` keeps exactly the sanitised pieces that are neither empty,
      nor a stopword, nor 3 characters or shorter. */
  lemma {:induction false} TokenizeExactly(text: String, x: String)
    ensures x in Tokenize(text)
        <==> exists k :: 0 <= k < |TokenPieces(text)| && SanitizeWord(TokenPieces(text)[k]) == x && !IsStopword(x) && |x| > 3
  {
    var pieces := TokenPieces(text);
    TokenPiecesAreTermChars(text);
    if x in Tokenize(text) {
      KeptTermIsPiece(pieces, x);
    }
    if exists k :: 0 <= k < |pieces| && SanitizeWord(pieces[k]) == x && !IsStopword(x) && |x| > 3 {
      var k :| 0 <= k < |pieces| && SanitizeWord(pieces[k]) == x && !IsStopword(x) && |x| > 3;
      TermPieceIsKept(pieces, k);
    }
  }

  lemma {:induction false} SplitRunsChars(s: String, delim: char -> bool)
    ensures forall k, i :: 0 <= k < |SplitRuns(s, delim)| && 0 <= i < |SplitRuns(s, delim)[k]| ==> SplitRuns(s, delim)[k][i] in s
    decreases |s|
  {
    if s == [] {
    } else if delim(s[0]) {
      SplitRunsChars(TrimStartBy(s, delim), delim);
    } else {
      SplitRunsChars(s[1..], delim);
      var rest := SplitRuns(s[1..], delim);
      assert SplitRuns(s, delim) == [[s[0]] + rest[0]] + rest[1..];
    }
  }

  /** `splitSentenceTokens`: the whitespace-separated words of a sentence. */
  function SplitSentenceTokens(sentence: String): (r: seq<String>)
    ensures forall k :: 0 <= k < |r| ==> r[k] != []
    ensures forall k, i :: 0 <= k < |r| && 0 <= i < |r[k]| ==> !IsSpace(r[k][i])
  {
    var pieces := SplitRuns(sentence, IsSpace);
    var r := NonEmpty(pieces);
    assert forall k :: 0 <= k < |r| ==> r[k] in pieces;
    r
  }

  /** The words of a sentence, concatenated, are its non-space characters. */
  lemma SentenceTokensInOrder(sentence: String)
    ensures Flatten(SplitSentenceTokens(sentence)) == Remove(sentence, IsSpace)
  {
    SplitRunsFlatten(sentence, IsSpace);
    NonEmptyFlatten(SplitRuns(sentence, IsSpace));
  }

  // ---------------------------------------------------------------------
  // Term frequencies

  /** A JavaScript `Map` from term to count: the keys in insertion order and
      the counts. */
  datatype Frequency = Frequency(order: seq<String>, count: map<String, nat>)

  predicate Distinct(xs: seq<String>) {
    forall i, j :: 0 <= i < j < |xs| ==> xs[i] != xs[j]
  }

  function Occurrences(xs: seq<String>, t: String): nat {
    if xs == [] then 0
    else Occurrences(xs[..|xs| - 1], t) + (if xs[|xs| - 1] == t then 1 else 0)
  }

  /** The distinct elements of `xs` in order of first occurrence. */
  function FirstSeen(xs: seq<String>): (r: seq<String>)
    ensures Distinct(r)
    ensures forall t :: t in r <==> t in xs
  {
    if xs == [] then []
    else
      var p := FirstSeen(xs[..|xs| - 1]);
      assert xs == xs[..|xs| - 1] + [xs[|xs| - 1]];
      if xs[|xs| - 1] in p then p else p + [xs[|xs| - 1]]
  }

  function SumCounts(keys: seq<String>, count: map<String, nat>): nat {
    if keys == [] then 0
    else SumCounts(keys[..|keys| - 1], count) + (if keys[|keys| - 1] in count then count[keys[|keys| - 1]] else 0)
  }

  function CountOf(f: Frequency, t: String): nat {
    if t in f.count then f.count[t] else 0
  }

  function CountKey(f: Frequency): String -> int {
    t => CountOf(f, t)
  }

  lemma {:induction false} SumCountsOther(keys: seq<String>, count: map<String, nat>, t: String, v: nat)
    requires t !in keys
    ensures SumCounts(keys, count[t := v]) == SumCounts(keys, count)
  {
    if keys != [] {
      SumCountsOther(keys[..|keys| - 1], count, t, v);
    }
  }

  lemma {:induction false} SumCountsBump(keys: seq<String>, count: map<String, nat>, t: String)
    requires Distinct(keys) && t in keys && t in count
    ensures SumCounts(keys, count[t := count[t] + 1]) == SumCounts(keys, count) + 1
  {
    var init := keys[..|keys| - 1];
    assert Distinct(init);
    if keys[|keys| - 1] == t {
      assert t !in init;
      SumCountsOther(init, count, t, count[t] + 1);
    } else {
      assert t in init;
      SumCountsBump(init, count, t);
    }
  }

  lemma OccurrencesSnoc(xs: seq<String>, x: String, t: String)
    ensures Occurrences(xs + [x], t) == Occurrences(xs, t) + (if x == t then 1 else 0)
  {
    assert (xs + [x])[..|xs|] == xs;
  }

  lemma {:induction false} OccurrencesAbsent(xs: seq<String>, t: String)
    requires t !in xs
    ensures Occurrences(xs, t) == 0
  {
    if xs != [] {
      OccurrencesAbsent(xs[..|xs| - 1], t);
    }
  }

  /** `order` and `count` are the frequency table of `seen`. */
  ghost predicate Tallied(order: seq<String>, count: map<String, nat>, seen: seq<String>) {
    && order == FirstSeen(seen)
    && (forall t :: t in count <==> t in seen)
    && (forall t :: t in count ==> count[t] == Occurrences(seen, t) >= 1)
    && SumCounts(order, count) == |seen|
  }

  /** One `freq.set(token, (freq.get(token) || 0) + 1)`; a new key goes to the
      end of the insertion order, an existing key keeps its place. */
  lemma TallyStep(order: seq<String>, count: map<String, nat>, tokens: seq<String>, i: nat,
                  order': seq<String>, count': map<String, nat>)
    requires i < |tokens| && Tallied(order, count, tokens[..i])
    requires tokens[i] in count ==> order' == order && count' == count[tokens[i] := count[tokens[i]] + 1]
    requires tokens[i] !in count ==> order' == order + [tokens[i]] && count' == count[tokens[i] := 1]
    ensures Tallied(order', count', tokens[..i + 1])
  {
    TallySnoc(order, count, tokens[..i], tokens[i], order', count');
    assert tokens[..i + 1] == tokens[..i] + [tokens[i]];
  }

  lemma TallySnoc(order: seq<String>, count: map<String, nat>, seen: seq<String>, token: String,
                  order': seq<String>, count': map<String, nat>)
    requires Tallied(order, count, seen)
    requires token in count ==> order' == order && count' == count[token := count[token] + 1]
    requires token !in count ==> order' == order + [token] && count' == count[token := 1]
    ensures Tallied(order', count', seen + [token])
  {
    var next := seen + [token];
    assert next[..|next| - 1] == seen;
    if token in count {
      SumCountsBump(order, count, token);
    } else {
      SumCountsOther(order, count, token, 1);
      assert (order + [token])[..|order|] == order;
    }
    TallyCounts(count, seen, token, count');
  }

  lemma TalliedAll(order: seq<String>, count: map<String, nat>, tokens: seq<String>)
    requires Tallied(order, count, tokens[..|tokens|])
    ensures Tallied(order, count, tokens)
  {
    assert tokens[..|tokens|] == tokens;
  }

  /** The counts after one step are the occurrences in the longer prefix. */
  lemma TallyCounts(count: map<String, nat>, seen: seq<String>, token: String, count': map<String, nat>)
    requires forall t :: t in count <==> t in seen
    requires forall t :: t in count ==> count[t] == Occurrences(seen, t) >= 1
    requires token in count ==> count' == count[token := count[token] + 1]
    requires token !in count ==> count' == count[token := 1]
    ensures forall t :: t in count' ==> count'[t] == Occurrences(seen + [token], t) >= 1
  {
    forall t | t in count' ensures count'[t] == Occurrences(seen + [token], t) >= 1 {
      OccurrencesSnoc(seen, token, t);
      if t == token && token !in count {
        OccurrencesAbsent(seen, t);
      }
    }
  }

  /** The frequency table of `tokens`: the terms in first-seen order, each
      with its number of occurrences. */
  function Frequencies(tokens: seq<String>): Frequency {
    Frequency(FirstSeen(tokens), map t | t in tokens :: Occurrences(tokens, t))
  }

  /** `buildFrequency`: one pass over the tokens, counting each. */
  method BuildFrequency(tokens: seq<String>) returns (f: Frequency)
    ensures f.order == FirstSeen(tokens)
    ensures forall t :: t in f.count <==> t in tokens
    ensures forall t :: t in f.count ==> f.count[t] == Occurrences(tokens, t) >= 1
    ensures SumCounts(f.order, f.count) == |tokens|
    ensures f == Frequencies(tokens)
  {
    var order: seq<String> := [];
    var count: map<String, nat> := map[];
    var i := 0;
    assert tokens[..0] == [];
    while i < |tokens|
      invariant 0 <= i <= |tokens|
      invariant Tallied(order, count, tokens[..i])
    {
      var token := tokens[i];
      ghost var order0, count0 := order, count;
      if token in count {
        count := count[token := count[token] + 1];
      } else {
        order := order + [token];
        count := count[token := 1];
      }
      TallyStep(order0, count0, tokens, i, order, count);
      i := i + 1;
    }
    TalliedAll(order, count, tokens);
    f := Frequency(order, count);
    assert count == Frequencies(tokens).count;
  }

  /** The keyword list: the terms ordered by non-increasing count. */
  function KeywordList(f: Frequency): (r: seq<String>)
    ensures multiset(r) == multiset(f.order)
    ensures Descending(r, CountKey(f))
  {
    SortDesc(f.order, CountKey(f))
  }

  /** Terms with equal counts keep their first-seen order. */
  lemma KeywordTiesKeepFirstSeenOrder(f: Frequency, k: int)
    ensures WithKey(KeywordList(f), CountKey(f), k) == WithKey(f.order, CountKey(f), k)
  {
    SortDescStable(f.order, CountKey(f), k);
  }
}
