/** Phrase extraction: runs of one to three content tokens, scored by term
    frequency, one entry per normalised phrase, best score first. */
module Phrases {
  import opened Text
  import opened Sorting
  import opened Tokens
  import opened Options

  /** A scored phrase: `length` tokens of sentence `sentenceIndex` from token `start`. */
  datatype Candidate = Candidate(
    sentenceIndex: nat,
    start: nat,
    length: nat,
    phrase: String,
    normalized: String,
    score: int)

  function NormalizedOf(c: Candidate): String {
    c.normalized
  }

  function ScoreOf(c: Candidate): int {
    c.score
  }

  /** A cleaned token that may take part in a phrase. */
  predicate IsContent(w: String) {
    w != [] && |w| >= 4 && !IsStopword(w)
  }

  /** A token of a sentence as the phrase collector sees it: after
      `stripToken` (for display) and after `sanitizeWord` (for matching). */
  datatype Word = Word(stripped: String, cleaned: String)

  function Words(tokens: seq<String>): seq<Word> {
    seq(|tokens|, k requires 0 <= k < |tokens| => Word(StripToken(tokens[k]), SanitizeWord(tokens[k])))
  }

  /** Every sentence split into tokens (`splitSentenceTokens`) and analysed. */
  function Analyse(sentences: seq<String>): seq<seq<Word>> {
    seq(|sentences|, k requires 0 <= k < |sentences| => Words(SplitSentenceTokens(sentences[k])))
  }

  function StrippedParts(ws: seq<Word>): seq<String> {
    seq(|ws|, k requires 0 <= k < |ws| => ws[k].stripped)
  }

  /** `tokens.map((tok) => sanitizeWord(tok))` */
  function CleanedParts(ws: seq<Word>): seq<String> {
    seq(|ws|, k requires 0 <= k < |ws| => ws[k].cleaned)
  }

  /** `freq.get(t) || 1`: a term's weight, at least 1. */
  function Weight(f: Frequency, t: String): (w: nat)
    ensures w >= 1
    ensures CountOf(f, t) >= 1 ==> w == CountOf(f, t)
  {
    if t in f.count && f.count[t] != 0 then f.count[t] else 1
  }

  function SpanScore(parts: seq<String>, f: Frequency): int {
    if parts == [] then 0
    else SpanScore(parts[..|parts| - 1], f) + Weight(f, parts[|parts| - 1])
  }

  /** Each token adds at least 1 to a phrase's score. */
  lemma {:induction false} SpanScoreAtLeastLength(parts: seq<String>, f: Frequency)
    ensures SpanScore(parts, f) >= |parts|
  {
    if parts != [] {
      SpanScoreAtLeastLength(parts[..|parts| - 1], f);
    }
  }

  /** The greedy extension from `len` tokens: grows while shorter than 3 and
      the next cleaned token is content. */
  function RunLength(cleaned: seq<String>, i: nat, len: nat): (n: nat)
    requires 1 <= len <= 3 && i + len <= |cleaned|
    ensures len <= n <= 3 && i + n <= |cleaned|
    ensures forall k :: i + len <= k < i + n ==> IsContent(cleaned[k])
    ensures n == 3 || i + n == |cleaned| || !IsContent(cleaned[i + n])
    decreases 3 - len
  {
    if len < 3 && i + len < |cleaned| && IsContent(cleaned[i + len]) then RunLength(cleaned, i, len + 1)
    else len
  }

  /** The phrase that starts at token `i` of sentence `si`, whose analysed
      words are `ws`: the greedy run of content tokens, the stripped tokens
      joined and trimmed, the cleaned tokens joined, the summed weights. */
  function Span(ws: seq<Word>, si: nat, i: nat, f: Frequency): Candidate
    requires i < |ws|
  {
    var cleaned := CleanedParts(ws);
    var n := RunLength(cleaned, i, 1);
    Candidate(si, i, n, Trim(Join(StrippedParts(ws)[i..i + n], " ")),
              Join(cleaned[i..i + n], " "), SpanScore(cleaned[i..i + n], f))
  }

  /** The phrase token `i` contributes, if any: none unless the token is
      content and the phrase has at least 4 characters. */
  function PhraseAt(ws: seq<Word>, si: nat, i: nat, f: Frequency): Option<Candidate>
    requires i < |ws|
  {
    if !IsContent(ws[i].cleaned) then None
    else
      var c := Span(ws, si, i, f);
      if |c.phrase| < 4 then None else Some(c)
  }

  /** For every token of one sentence, the phrase it contributes. */
  function Row(ws: seq<Word>, si: nat, f: Frequency): seq<Option<Candidate>> {
    seq(|ws|, i requires 0 <= i < |ws| => PhraseAt(ws, si, i, f))
  }

  /** For every token of every sentence, the phrase it contributes. */
  function PhraseTable(doc: seq<seq<Word>>, f: Frequency): seq<seq<Option<Candidate>>> {
    seq(|doc|, si requires 0 <= si < |doc| => Row(doc[si], si, f))
  }

  /** `c` is the phrase that its own token contributes. */
  predicate InTable(t: seq<seq<Option<Candidate>>>, c: Candidate) {
    c.sentenceIndex < |t| && c.start < |t[c.sentenceIndex]| && t[c.sentenceIndex][c.start] == Some(c)
  }

  /** The shape every candidate has: a maximal run of 1 to 3 content tokens
      inside its sentence, scored at least one per token, of at least 4 characters. */
  lemma CandidateShape(doc: seq<seq<Word>>, f: Frequency, c: Candidate)
    requires InTable(PhraseTable(doc, f), c)
    ensures c.sentenceIndex < |doc|
    ensures 1 <= c.length <= 3
    ensures c.start + c.length <= |doc[c.sentenceIndex]|
    ensures forall k :: c.start <= k < c.start + c.length ==> IsContent(doc[c.sentenceIndex][k].cleaned)
    ensures c.length == 3 || c.start + c.length == |doc[c.sentenceIndex]|
         || !IsContent(doc[c.sentenceIndex][c.start + c.length].cleaned)
    ensures c.score >= c.length
    ensures |c.phrase| >= 4
  {
    var ws := doc[c.sentenceIndex];
    assert PhraseTable(doc, f)[c.sentenceIndex] == Row(ws, c.sentenceIndex, f);
    assert Row(ws, c.sentenceIndex, f)[c.start] == PhraseAt(ws, c.sentenceIndex, c.start, f);
    var n := RunShape(ws, c.start, f);
    assert c == Span(ws, c.sentenceIndex, c.start, f);
  }

  /** The run starting at a content token holds 1 to 3 content tokens, is
      maximal, and scores at least one per token. */
  lemma RunShape(ws: seq<Word>, i: nat, f: Frequency) returns (n: nat)
    requires i < |ws| && IsContent(ws[i].cleaned)
    ensures n == RunLength(CleanedParts(ws), i, 1)
    ensures 1 <= n <= 3 && i + n <= |ws|
    ensures forall k :: i <= k < i + n ==> IsContent(ws[k].cleaned)
    ensures n == 3 || i + n == |ws| || !IsContent(ws[i + n].cleaned)
    ensures SpanScore(CleanedParts(ws)[i..i + n], f) >= n
  {
    var cleaned := CleanedParts(ws);
    n := RunLength(cleaned, i, 1);
    assert forall k :: i <= k <= i + n && k < |ws| ==> cleaned[k] == ws[k].cleaned;
    SpanScoreAtLeastLength(cleaned[i..i + n], f);
  }

  lemma SliceSnoc<T>(s: seq<T>, a: nat, b: nat)
    requires a <= b < |s|
    ensures s[a..b + 1] == s[a..b] + [s[b]]
    ensures s[a..b + 1][..b - a] == s[a..b]
  {
  }

  /** Grows a phrase from token `i` while the next cleaned token
      is content; `stripped` and `cleaned` are the sentence's tokens after
      `stripToken` and `sanitizeWord`. */
  method ExtendPhrase(stripped: seq<String>, cleaned: seq<String>, i: nat, f: Frequency)
    returns (length: nat, score: int, phraseParts: seq<String>, normalizedParts: seq<String>)
    requires |stripped| == |cleaned| && i < |cleaned|
    ensures length == RunLength(cleaned, i, 1)
    ensures phraseParts == stripped[i..i + length]
    ensures normalizedParts == cleaned[i..i + length]
    ensures score == SpanScore(cleaned[i..i + length], f)
  {
    length := 1;
    score := Weight(f, cleaned[i]);
    phraseParts := [stripped[i]];
    normalizedParts := [cleaned[i]];
    assert cleaned[i..i + 1][..0] == [];
    while length < 3 && i + length < |cleaned|
      invariant 1 <= length <= 3 && i + length <= |cleaned|
      invariant RunLength(cleaned, i, length) == RunLength(cleaned, i, 1)
      invariant phraseParts == stripped[i..i + length]
      invariant normalizedParts == cleaned[i..i + length]
      invariant score == SpanScore(cleaned[i..i + length], f)
    {
      var next := cleaned[i + length];
      if !IsContent(next) {
        break;
      }
      SliceSnoc(cleaned, i, i + length);
      SliceSnoc(stripped, i, i + length);
      phraseParts := phraseParts + [stripped[i + length]];
      normalizedParts := normalizedParts + [next];
      score := score + Weight(f, next);
      length := length + 1;
    }
  }

  /** The phrases a row contributes, in token order. */
  function RowOffered(row: seq<Option<Candidate>>): seq<Candidate> {
    if row == [] then []
    else RowOffered(row[..|row| - 1]) + (if row[|row| - 1].Some? then [row[|row| - 1].value] else [])
  }

  /** All phrases of the table in the order `collectPhrases` meets them:
      sentence by sentence, token by token. */
  function Offered(t: seq<seq<Option<Candidate>>>): seq<Candidate> {
    if t == [] then [] else Offered(t[..|t| - 1]) + RowOffered(t[|t| - 1])
  }

  /** `phraseMap`: the normalised phrases in insertion order and the entry of each. */
  datatype PhraseMap = PhraseMap(order: seq<String>, best: map<String, Candidate>)

  /** The reference update of the phrase map: a new key is appended, an existing key is replaced only
      by a strictly higher score. */
  function Record(m: PhraseMap, c: Candidate): PhraseMap {
    if c.normalized !in m.best then PhraseMap(m.order + [c.normalized], m.best[c.normalized := c])
    else if c.score > m.best[c.normalized].score then PhraseMap(m.order, m.best[c.normalized := c])
    else m
  }

  /** `phraseMap` after the candidates `cs` were offered in turn. */
  function Fold(cs: seq<Candidate>): (m: PhraseMap)
    ensures forall k :: k in m.best <==> k in m.order
  {
    if cs == [] then PhraseMap([], map[]) else Record(Fold(cs[..|cs| - 1]), cs[|cs| - 1])
  }

  /** `Array.from(phraseMap.values())` */
  function Values(m: PhraseMap): seq<Candidate>
    requires forall k :: k in m.order ==> k in m.best
  {
    seq(|m.order|, k requires 0 <= k < |m.order| => m.best[m.order[k]])
  }

  function Keys(cs: seq<Candidate>): seq<String> {
    seq(|cs|, k requires 0 <= k < |cs| => cs[k].normalized)
  }

  /** What `collectPhrases` returns for `sentences` and the frequencies `f`. */
  function CollectedPhrases(sentences: seq<String>, f: Frequency): seq<Candidate> {
    SortDesc(Values(Fold(Offered(PhraseTable(Analyse(sentences), f)))), ScoreOf)
  }

  lemma FoldSnoc(cs: seq<Candidate>, c: Candidate)
    ensures Fold(cs + [c]) == Record(Fold(cs), c)
    ensures Keys(cs + [c]) == Keys(cs) + [c.normalized]
  {
    assert (cs + [c])[..|cs|] == cs;
  }

  /** The keys are inserted in the order their first phrase is met. */
  lemma {:induction false} FoldOrder(cs: seq<Candidate>)
    ensures Fold(cs).order == FirstSeen(Keys(cs))
  {
    if cs != [] {
      var init := cs[..|cs| - 1];
      var c := cs[|cs| - 1];
      assert cs == init + [c];
      FoldOrder(init);
      FoldSnoc(init, c);
      assert Keys(cs)[..|cs| - 1] == Keys(init);
    }
  }

  /** Each entry is one of the offered phrases, filed under its own key. */
  lemma {:induction false} FoldEntries(cs: seq<Candidate>)
    ensures forall k :: k in Fold(cs).best ==> Fold(cs).best[k].normalized == k && Fold(cs).best[k] in cs
  {
    if cs != [] {
      var init := cs[..|cs| - 1];
      assert cs == init + [cs[|cs| - 1]];
      FoldEntries(init);
      FoldSnoc(init, cs[|cs| - 1]);
    }
  }

  /** Every offered phrase has an entry under its key scoring at least as high. */
  lemma {:induction false} FoldMaximal(cs: seq<Candidate>)
    ensures forall c :: c in cs ==> c.normalized in Fold(cs).best && Fold(cs).best[c.normalized].score >= c.score
  {
    if cs != [] {
      var init := cs[..|cs| - 1];
      assert cs == init + [cs[|cs| - 1]];
      FoldMaximal(init);
      FoldSnoc(init, cs[|cs| - 1]);
    }
  }

  /** Ties keep the first: the entry of `key` is the first offered phrase of
      that key whose score no other phrase of the key exceeds. */
  lemma {:induction false} FoldFirstMaximal(cs: seq<Candidate>, key: String) returns (j: nat)
    requires key in Fold(cs).best
    ensures j < |cs| && cs[j] == Fold(cs).best[key]
    ensures forall i :: 0 <= i < j && cs[i].normalized == key ==> cs[i].score < cs[j].score
  {
    var init := cs[..|cs| - 1];
    var c := cs[|cs| - 1];
    assert cs == init + [c];
    FoldSnoc(init, c);
    var m := Fold(init);
    if c.normalized == key && (key !in m.best || c.score > m.best[key].score) {
      j := |cs| - 1;
      FoldMaximal(init);
      forall i | 0 <= i < j && cs[i].normalized == key ensures cs[i].score < cs[j].score {
        assert cs[i] == init[i] && init[i] in init;
      }
    } else {
      j := FoldFirstMaximal(init, key);
      assert cs[j] == init[j];
      forall i | 0 <= i < j && cs[i].normalized == key ensures cs[i].score < cs[j].score {
        assert cs[i] == init[i];
      }
    }
  }

  /** `t` files each phrase at its own sentence and token. */
  predicate Positioned(t: seq<seq<Option<Candidate>>>) {
    forall si, i :: 0 <= si < |t| && 0 <= i < |t[si]| && t[si][i].Some?
                    ==> t[si][i].value.sentenceIndex == si && t[si][i].value.start == i
  }

  lemma TableIsPositioned(doc: seq<seq<Word>>, f: Frequency)
    ensures Positioned(PhraseTable(doc, f))
  {
    var t: seq<seq<Option<Candidate>>> := PhraseTable(doc, f);
    forall si: int, i: int | 0 <= si < |t| && 0 <= i < |t[si]| && t[si][i].Some?
      ensures t[si][i].value.sentenceIndex == si && t[si][i].value.start == i
    {
      assert t[si] == Row(doc[si], si, f);
      assert t[si][i] == PhraseAt(doc[si], si, i, f);
    }
  }

  /** A row contributes exactly the phrases it holds. */
  lemma {:induction false} RowOfferedMembers(row: seq<Option<Candidate>>)
    ensures forall i :: 0 <= i < |row| && row[i].Some? ==> row[i].value in RowOffered(row)
    ensures forall c :: c in RowOffered(row) ==> exists i :: 0 <= i < |row| && row[i] == Some(c)
  {
    if row != [] {
      var init := row[..|row| - 1];
      RowOfferedMembers(init);
      forall c | c in RowOffered(row) ensures exists i :: 0 <= i < |row| && row[i] == Some(c) {
        if c in RowOffered(init) {
          var i :| 0 <= i < |init| && init[i] == Some(c);
          assert row[i] == init[i];
        } else {
          assert row[|row| - 1] == Some(c);
        }
      }
      forall i | 0 <= i < |row| && row[i].Some? ensures row[i].value in RowOffered(row) {
        if i < |row| - 1 {
          assert row[i] == init[i];
        }
      }
    }
  }

  /** The phrases offered are exactly the phrases of the table. */
  lemma {:induction false} OfferedMembers(t: seq<seq<Option<Candidate>>>)
    requires Positioned(t)
    ensures forall c :: c in Offered(t) <==> InTable(t, c)
  {
    if t != [] {
      var init := t[..|t| - 1];
      var last := t[|t| - 1];
      assert Positioned(init) by {
        assert forall si :: 0 <= si < |init| ==> init[si] == t[si];
      }
      OfferedMembers(init);
      RowOfferedMembers(last);
      forall c ensures c in Offered(t) <==> InTable(t, c) {
        if c in RowOffered(last) {
          var i :| 0 <= i < |last| && last[i] == Some(c);
          assert t[|t| - 1][i] == Some(c);
        }
        if InTable(t, c) && c.sentenceIndex < |t| - 1 {
          assert init[c.sentenceIndex] == t[c.sentenceIndex];
          assert InTable(init, c);
        }
        if InTable(t, c) && c.sentenceIndex == |t| - 1 {
          assert last[c.start] == Some(c);
        }
        if c in Offered(init) {
          assert InTable(init, c);
          assert init[c.sentenceIndex] == t[c.sentenceIndex];
        }
      }
    }
  }

  /** The values, in insertion order, carry the keys in first-seen order. */
  lemma ValuesKeys(cs: seq<Candidate>)
    ensures Keys(Values(Fold(cs))) == FirstSeen(Keys(cs))
    ensures DistinctBy(Values(Fold(cs)), NormalizedOf)
  {
    var m := Fold(cs);
    FoldOrder(cs);
    FoldEntries(cs);
    var vs := Values(m);
    assert Keys(vs) == m.order by {
      assert forall k :: 0 <= k < |vs| ==> vs[k] == m.best[m.order[k]];
    }
    forall a, b | 0 <= a < b < |vs| ensures NormalizedOf(vs[a]) != NormalizedOf(vs[b]) {
      assert vs[a].normalized == m.order[a] && vs[b].normalized == m.order[b];
    }
  }

  /** The values of the map are offered phrases. */
  lemma ValuesIn(cs: seq<Candidate>)
    ensures forall c :: c in Values(Fold(cs)) ==> c in cs
  {
    FoldEntries(cs);
    var m := Fold(cs);
    var vs := Values(m);
    forall c | c in vs ensures c in cs {
      var k :| 0 <= k < |vs| && vs[k] == c;
      assert vs[k] == m.best[m.order[k]];
    }
  }

  /** The sorted values are offered phrases. */
  lemma SortedValuesIn(cs: seq<Candidate>, r: seq<Candidate>)
    requires r == SortDesc(Values(Fold(cs)), ScoreOf)
    ensures forall c :: c in r ==> c in cs
  {
    ValuesIn(cs);
    var vs := Values(Fold(cs));
    forall c | c in r ensures c in cs {
      assert c in multiset(r);
      assert c in vs;
    }
  }

  /** The sorted values carry pairwise distinct normalised forms. */
  lemma SortedValuesDistinct(cs: seq<Candidate>, r: seq<Candidate>)
    requires r == SortDesc(Values(Fold(cs)), ScoreOf)
    ensures DistinctBy(r, NormalizedOf)
  {
    ValuesKeys(cs);
    PermutationKeepsDistinctBy(Values(Fold(cs)), r, NormalizedOf);
  }

  /** An entry of the map is one of its values, in whatever order. */
  lemma EntryInValues(m: PhraseMap, key: String, r: seq<Candidate>)
    requires forall k :: k in m.best <==> k in m.order
    requires key in m.best
    requires multiset(r) == multiset(Values(m))
    ensures m.best[key] in r
  {
    var vs := Values(m);
    var k :| 0 <= k < |m.order| && m.order[k] == key;
    assert vs[k] == m.best[key];
    assert vs[k] in multiset(vs);
  }

  /** Every offered phrase is matched by a sorted value of its normalised
      form scoring at least as high. */
  lemma SortedValuesCover(cs: seq<Candidate>, r: seq<Candidate>)
    requires r == SortDesc(Values(Fold(cs)), ScoreOf)
    ensures forall c :: c in cs ==> Recorded(r, c)
  {
    var m := Fold(cs);
    FoldMaximal(cs);
    FoldEntries(cs);
    forall c | c in cs ensures Recorded(r, c) {
      var d := m.best[c.normalized];
      EntryInValues(m, c.normalized, r);
      assert d in r && d.normalized == c.normalized && d.score >= c.score;
    }
  }

  /** The returned phrases are phrases of the table, one per normalised form,
      best score first, and every phrase of the table is matched by an entry
      of the same normalised form scoring at least as high. */
  lemma CollectedPhrasesShape(sentences: seq<String>, f: Frequency)
    ensures forall c :: c in CollectedPhrases(sentences, f) ==> InTable(PhraseTable(Analyse(sentences), f), c)
    ensures DistinctBy(CollectedPhrases(sentences, f), NormalizedOf)
    ensures Descending(CollectedPhrases(sentences, f), ScoreOf)
    ensures forall c :: InTable(PhraseTable(Analyse(sentences), f), c) ==> Recorded(CollectedPhrases(sentences, f), c)
  {
    var t := PhraseTable(Analyse(sentences), f);
    var cs := Offered(t);
    var r := CollectedPhrases(sentences, f);
    TableIsPositioned(Analyse(sentences), f);
    OfferedMembers(t);
    SortedValuesIn(cs, r);
    SortedValuesDistinct(cs, r);
    SortedValuesCover(cs, r);
  }

  /** `c` has an entry in `r` under its normalised form scoring at least as high. */
  predicate Recorded(r: seq<Candidate>, c: Candidate) {
    exists d :: d in r && d.normalized == c.normalized && d.score >= c.score
  }

  /** Ties: every returned phrase is the first phrase of its normalised form,
      in sentence and token order, that scores highest; and phrases of equal
      score come out in the order their normalised forms were first met. */
  lemma CollectedPhrasesTies(sentences: seq<String>, f: Frequency, d: Candidate, s: int) returns (j: nat)
    requires d in CollectedPhrases(sentences, f)
    ensures j < |Offered(PhraseTable(Analyse(sentences), f))| && Offered(PhraseTable(Analyse(sentences), f))[j] == d
    ensures forall i :: 0 <= i < |Offered(PhraseTable(Analyse(sentences), f))|
                        && Offered(PhraseTable(Analyse(sentences), f))[i].normalized == d.normalized
                        ==> Offered(PhraseTable(Analyse(sentences), f))[i].score <= d.score
                            && (i < j ==> Offered(PhraseTable(Analyse(sentences), f))[i].score < d.score)
    ensures WithKey(CollectedPhrases(sentences, f), ScoreOf, s)
         == WithKey(Values(Fold(Offered(PhraseTable(Analyse(sentences), f)))), ScoreOf, s)
    ensures Keys(Values(Fold(Offered(PhraseTable(Analyse(sentences), f)))))
         == FirstSeen(Keys(Offered(PhraseTable(Analyse(sentences), f))))
  {
    var cs := Offered(PhraseTable(Analyse(sentences), f));
    var m := Fold(cs);
    var vs := Values(m);
    assert d in multiset(vs);
    var k :| 0 <= k < |vs| && vs[k] == d;
    FoldEntries(cs);
    assert m.best[m.order[k]] == d && d.normalized == m.order[k];
    j := FoldFirstMaximal(cs, d.normalized);
    FoldMaximal(cs);
    forall i | 0 <= i < |cs| && cs[i].normalized == d.normalized ensures cs[i].score <= d.score {
      assert cs[i] in cs;
    }
    SortDescStable(vs, ScoreOf, s);
    ValuesKeys(cs);
  }

  /** One token of the phrase-collecting loop: the map moves from the phrases
      offered before token `i` to those offered up to and including it. */
  lemma OfferStep(seen: seq<Candidate>, row: seq<Option<Candidate>>, i: nat, m: PhraseMap, m': PhraseMap)
    requires i < |row| && m == Fold(seen + RowOffered(row[..i]))
    requires row[i].Some? ==> m' == Record(m, row[i].value)
    requires row[i].None? ==> m' == m
    ensures m' == Fold(seen + RowOffered(row[..i + 1]))
  {
    assert row[..i + 1][..i] == row[..i];
    if row[i].Some? {
      assert seen + RowOffered(row[..i + 1]) == (seen + RowOffered(row[..i])) + [row[i].value];
      FoldSnoc(seen + RowOffered(row[..i]), row[i].value);
    } else {
      assert seen + RowOffered(row[..i + 1]) == seen + RowOffered(row[..i]);
    }
  }

  lemma OfferedSnoc(t: seq<seq<Option<Candidate>>>, si: nat)
    requires si < |t|
    ensures Offered(t[..si + 1]) == Offered(t[..si]) + RowOffered(t[si])
  {
    assert t[..si + 1][..si] == t[..si];
  }

  /** The phrase that token `i` contributes to the map; `None` where the loop
      moves on to the next token. */
  method TokenPhrase(words: seq<Word>, cleaned: seq<String>, si: nat, i: nat, f: Frequency)
    returns (p: Option<Candidate>)
    requires cleaned == CleanedParts(words) && i < |words|
    ensures p == PhraseAt(words, si, i, f)
  {
    var base := cleaned[i];
    if !IsContent(base) {
      return None;
    }
    var c := SpanCandidate(words, cleaned, si, i, f);
    if c.phrase == [] || |c.phrase| < 4 {
      return None;
    }
    p := Some(c);
  }

  /** Builds the candidate grown from token `i`, which is the reference span. */
  method SpanCandidate(words: seq<Word>, cleaned: seq<String>, si: nat, i: nat, f: Frequency)
    returns (c: Candidate)
    requires cleaned == CleanedParts(words) && i < |words|
    ensures c == Span(words, si, i, f)
  {
    var length, score, phraseParts, normalizedParts := ExtendPhrase(StrippedParts(words), cleaned, i, f);
    var normalized := Join(normalizedParts, " ");
    var phrase := Trim(Join(phraseParts, " "));
    c := Candidate(si, i, length, phrase, normalized, score);
  }

  /** Offers one candidate to `phraseMap`, keeping the higher-scoring entry per key. */
  method RecordPhrase(order: seq<String>, best: map<String, Candidate>, candidate: Candidate)
    returns (order': seq<String>, best': map<String, Candidate>)
    ensures PhraseMap(order', best') == Record(PhraseMap(order, best), candidate)
  {
    order', best' := order, best;
    var normalized := candidate.normalized;
    if normalized !in best' || candidate.score > best'[normalized].score {
      if normalized !in best' {
        order' := order' + [normalized];
      }
      best' := best'[normalized := candidate];
    }
  }

  /** Offers the phrases of one sentence's tokens, in order, to `phraseMap`. */
  method CollectSentence(words: seq<Word>, si: nat, f: Frequency, ghost seen: seq<Candidate>,
                         order: seq<String>, best: map<String, Candidate>)
    returns (order': seq<String>, best': map<String, Candidate>)
    requires PhraseMap(order, best) == Fold(seen)
    ensures PhraseMap(order', best') == Fold(seen + RowOffered(Row(words, si, f)))
  {
    ghost var row := Row(words, si, f);
    order', best' := order, best;
    var cleaned := CleanedParts(words);
    var i := 0;
    assert seen + RowOffered(row[..0]) == seen;
    while i < |words|
      invariant 0 <= i <= |words|
      invariant PhraseMap(order', best') == Fold(seen + RowOffered(row[..i]))
    {
      var p := TokenPhrase(words, cleaned, si, i, f);
      assert row[i] == p;
      ghost var m := PhraseMap(order', best');
      if p.Some? {
        order', best' := RecordPhrase(order', best', p.value);
      }
      OfferStep(seen, row, i, m, PhraseMap(order', best'));
      i := i + 1;
    }
    assert row[..|words|] == row;
  }

  /** `collectPhrases`: every phrase that a content token contributes, one per
      normalised form (the best-scoring one), ordered by descending score. */
  method CollectPhrases(sentences: seq<String>, f: Frequency) returns (r: seq<Candidate>)
    ensures r == CollectedPhrases(sentences, f)
    ensures forall c :: c in r ==> InTable(PhraseTable(Analyse(sentences), f), c)
    ensures DistinctBy(r, NormalizedOf)
    ensures Descending(r, ScoreOf)
    ensures forall c :: InTable(PhraseTable(Analyse(sentences), f), c) ==> Recorded(r, c)
  {
    ghost var t := PhraseTable(Analyse(sentences), f);
    var order: seq<String> := [];
    var best: map<String, Candidate> := map[];
    var si := 0;
    while si < |sentences|
      invariant 0 <= si <= |sentences|
      invariant PhraseMap(order, best) == Fold(Offered(t[..si]))
    {
      var words := Words(SplitSentenceTokens(sentences[si]));
      assert t[si] == Row(words, si, f);
      OfferedSnoc(t, si);
      order, best := CollectSentence(words, si, f, Offered(t[..si]), order, best);
      si := si + 1;
    }
    assert t[..|sentences|] == t;
    var values := seq(|order|, k requires 0 <= k < |order| => best[order[k]]);
    assert values == Values(Fold(Offered(t)));
    r := SortDesc(values, ScoreOf);
    CollectedPhrasesShape(sentences, f);
  }
}
