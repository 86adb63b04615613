/** Assembling a quiz from a text in three passes (one question per
    sentence, then one per phrase, then keyword fallbacks) and grading a
    submission. */
module Quiz {
  import opened Options
  import opened Text
  import opened Sorting
  import opened Tokens
  import opened Phrases
  import opened Stem
  import opened Questions

  const TITLE: String := "Auto-generated Quiz"

  datatype Quiz = Quiz(title: String, questions: seq<Question>)

  function SentenceOf(c: Candidate): nat {
    c.sentenceIndex
  }

  /** `questions.length >= desiredCount` stops every pass; a count below one
      asks for no question at all. */
  function Cap(desired: int): nat {
    if desired < 0 then 0 else desired
  }

  /** Every phrase points into the sentences and spans at least one token. */
  predicate Usable(phrases: seq<Candidate>, sentences: seq<String>) {
    forall k :: 0 <= k < |phrases| ==> phrases[k].sentenceIndex < |sentences| && phrases[k].length >= 1
  }

  /** `c` is the phrase that question `q` was built from: the question is
      its blanked sentence and asks for its prettified phrase among that
      answer's distractors. */
  predicate Sourced(q: Question, c: Candidate, sentences: seq<String>, phrases: seq<Candidate>, keywords: seq<String>) {
    && c.sentenceIndex < |sentences|
    && c.length >= 1
    && c.start < |SplitSentenceTokens(sentences[c.sentenceIndex])|
    && q.question == QuestionText(sentences[c.sentenceIndex], c)
    && Answers(q, c, phrases, keywords)
  }

  /** `sources[k]` is the phrase that `questions[k]` was built from. */
  predicate BuiltFrom(questions: seq<Question>, sources: seq<Candidate>, sentences: seq<String>,
                      phrases: seq<Candidate>, keywords: seq<String>) {
    && |sources| <= |questions|
    && forall k {:trigger Sourced(questions[k], sources[k], sentences, phrases, keywords)} ::
         0 <= k < |sources| ==> Sourced(questions[k], sources[k], sentences, phrases, keywords)
  }

  predicate AllWellFormed(questions: seq<Question>) {
    forall k :: 0 <= k < |questions| ==> WellFormed(questions[k])
  }

  /** What every pass keeps of the questions gathered so far: no more than
      were asked for, all well formed, each of the first `|sources|` built
      from its phrase, and no normalised phrase used twice. */
  predicate Sound(questions: seq<Question>, sources: seq<Candidate>, sentences: seq<String>,
                  phrases: seq<Candidate>, keywords: seq<String>, desired: int) {
    && |questions| <= Cap(desired)
    && AllWellFormed(questions)
    && BuiltFrom(questions, sources, sentences, phrases, keywords)
    && DistinctBy(sources, NormalizedOf)
  }

  /** The normalised phrases of `sources`, as `usedPhrases` holds them. */
  function NormalizedSet(sources: seq<Candidate>): set<String> {
    set k | 0 <= k < |sources| :: sources[k].normalized
  }

  /** The sentence indexes of `sources`, as `usedSentences` holds them. */
  function SentenceSet(sources: seq<Candidate>): set<nat> {
    set k | 0 <= k < |sources| :: sources[k].sentenceIndex
  }

  lemma NormalizedSetSnoc(sources: seq<Candidate>, c: Candidate)
    ensures NormalizedSet(sources + [c]) == NormalizedSet(sources) + {c.normalized}
  {
    var s := sources + [c];
    assert forall k :: 0 <= k < |sources| ==> s[k] == sources[k];
    assert s[|sources|] == c;
  }

  lemma SentenceSetSnoc(sources: seq<Candidate>, c: Candidate)
    ensures SentenceSet(sources + [c]) == SentenceSet(sources) + {c.sentenceIndex}
  {
    var s := sources + [c];
    assert forall k :: 0 <= k < |sources| ==> s[k] == sources[k];
    assert s[|sources|] == c;
  }

  lemma BuiltFromSnoc(questions: seq<Question>, sources: seq<Candidate>, sentences: seq<String>,
                      phrases: seq<Candidate>, keywords: seq<String>, q: Question, c: Candidate)
    requires BuiltFrom(questions, sources, sentences, phrases, keywords) && |sources| == |questions|
    requires Sourced(q, c, sentences, phrases, keywords)
    ensures BuiltFrom(questions + [q], sources + [c], sentences, phrases, keywords)
  {
    var s := sources + [c];
    var qs := questions + [q];
    assert forall k :: 0 <= k < |sources| ==> s[k] == sources[k] && qs[k] == questions[k];
    assert s[|sources|] == c && qs[|sources|] == q;
  }

  /** Appending a question built from a phrase not used yet keeps `Sound`. */
  lemma Appended(questions: seq<Question>, sources: seq<Candidate>, sentences: seq<String>,
                 phrases: seq<Candidate>, keywords: seq<String>, desired: int, q: Question, c: Candidate)
    requires Sound(questions, sources, sentences, phrases, keywords, desired)
    requires |sources| == |questions| && |questions| < desired
    requires WellFormed(q) && Sourced(q, c, sentences, phrases, keywords)
    requires c.normalized !in NormalizedSet(sources)
    ensures Sound(questions + [q], sources + [c], sentences, phrases, keywords, desired)
    ensures NormalizedSet(sources + [c]) == NormalizedSet(sources) + {c.normalized}
  {
    var qs := questions + [q];
    assert forall k :: 0 <= k < |questions| ==> qs[k] == questions[k];
    forall k | 0 <= k < |sources| ensures NormalizedOf(sources[k]) != NormalizedOf(c) {
      assert sources[k].normalized in NormalizedSet(sources);
    }
    SnocDistinct(sources, c, NormalizedOf);
    NormalizedSetSnoc(sources, c);
    BuiltFromSnoc(questions, sources, sentences, phrases, keywords, q, c);
  }

  /** Appending a question that no phrase stands behind keeps `Sound`. */
  lemma AppendedUnsourced(questions: seq<Question>, sources: seq<Candidate>, sentences: seq<String>,
                          phrases: seq<Candidate>, keywords: seq<String>, desired: int, q: Question)
    requires Sound(questions, sources, sentences, phrases, keywords, desired) && |questions| < desired
    requires WellFormed(q)
    ensures Sound(questions + [q], sources, sentences, phrases, keywords, desired)
  {
    var qs := questions + [q];
    assert forall k :: 0 <= k < |questions| ==> qs[k] == questions[k];
  }

  /** A phrase from a sentence not used yet keeps the sentences distinct. */
  lemma FreshSentence(sources: seq<Candidate>, c: Candidate)
    requires DistinctBy(sources, SentenceOf) && c.sentenceIndex !in SentenceSet(sources)
    ensures DistinctBy(sources + [c], SentenceOf)
    ensures SentenceSet(sources + [c]) == SentenceSet(sources) + {c.sentenceIndex}
  {
    forall k | 0 <= k < |sources| ensures SentenceOf(sources[k]) != SentenceOf(c) {
      assert sources[k].sentenceIndex in SentenceSet(sources);
    }
    SnocDistinct(sources, c, SentenceOf);
    SentenceSetSnoc(sources, c);
  }

  /** `sources[k]` is `phrases[picked[k]]`, and every pick lies before `i`. */
  predicate PickedBefore(phrases: seq<Candidate>, picked: seq<nat>, sources: seq<Candidate>, i: nat) {
    && |picked| == |sources|
    && forall k :: 0 <= k < |picked| ==> picked[k] < i && picked[k] < |phrases| && sources[k] == phrases[picked[k]]
  }

  lemma PickedSnoc(phrases: seq<Candidate>, picked: seq<nat>, sources: seq<Candidate>, i: nat)
    requires PickedBefore(phrases, picked, sources, i) && i < |phrases|
    ensures PickedBefore(phrases, picked + [i], sources + [phrases[i]], i + 1)
  {
    var p := picked + [i];
    var s := sources + [phrases[i]];
    assert forall k :: 0 <= k < |picked| ==> p[k] == picked[k] && s[k] == sources[k];
  }

  /** `sources[base + k]` is `phrases[picked[k]]`, and every pick lies before `i`. */
  predicate PickedFrom(phrases: seq<Candidate>, picked: seq<nat>, sources: seq<Candidate>, base: nat, i: nat) {
    && |sources| == base + |picked|
    && forall k :: 0 <= k < |picked| ==> picked[k] < i && picked[k] < |phrases| && sources[base + k] == phrases[picked[k]]
  }

  lemma PickedFromSnoc(phrases: seq<Candidate>, picked: seq<nat>, sources: seq<Candidate>, base: nat, i: nat)
    requires PickedFrom(phrases, picked, sources, base, i) && i < |phrases|
    ensures PickedFrom(phrases, picked + [i], sources + [phrases[i]], base, i + 1)
  {
    var p := picked + [i];
    var s := sources + [phrases[i]];
    assert forall k :: 0 <= k < |picked| ==> p[k] == picked[k] && s[base + k] == sources[base + k];
  }

  lemma PickedFromRead(phrases: seq<Candidate>, picked: seq<nat>, sources: seq<Candidate>, base: nat, i: nat)
    requires PickedFrom(phrases, picked, sources, base, i)
    ensures PickedBefore(phrases, picked, sources[base..], i)
  {
  }

  /** Picks in increasing order name a subsequence of the phrases. */
  lemma {:induction false} PickedSubsequence(phrases: seq<Candidate>, picked: seq<nat>, xs: seq<Candidate>, i: nat)
    requires i <= |phrases| && PickedBefore(phrases, picked, xs, i) && Increasing(picked)
    ensures Subsequence(xs, phrases[..i])
    decreases |xs|
  {
    if xs != [] {
      var n := |xs| - 1;
      var p := picked[n];
      assert PickedBefore(phrases, picked[..n], xs[..n], p);
      PickedSubsequence(phrases, picked[..n], xs[..n], p);
      SubsequenceExtend(xs[..n], phrases[..p], phrases[p]);
      assert phrases[..p] + [phrases[p]] == phrases[..p + 1];
      assert xs[..n] + [xs[n]] == xs;
      assert phrases[..i][..p + 1] == phrases[..p + 1];
      SubsequenceOfPrefix(xs, phrases[..i], p + 1);
    }
  }

  /** The first pass meets each phrase once, and phrases are distinct. */
  lemma FreshPhrase(phrases: seq<Candidate>, picked: seq<nat>, sources: seq<Candidate>, i: nat)
    requires DistinctBy(phrases, NormalizedOf) && i < |phrases|
    requires PickedBefore(phrases, picked, sources, i)
    ensures phrases[i].normalized !in NormalizedSet(sources)
  {
    forall k | 0 <= k < |sources| ensures sources[k].normalized != phrases[i].normalized {
      assert sources[k] == phrases[picked[k]] && picked[k] < i;
    }
  }

  /** `c` yields a question: it points into the sentences and
      `buildQuestionFromCandidate` accepts it on its sentence. */
  predicate Builds(sentences: seq<String>, c: Candidate, phrases: seq<Candidate>, keywords: seq<String>) {
    c.sentenceIndex < |sentences| && CanBuild(sentences[c.sentenceIndex], c, phrases, keywords)
  }

  /** Phrase number `j`, if there is one, yields a question. */
  function BuildsAt(sentences: seq<String>, phrases: seq<Candidate>, keywords: seq<String>): nat -> bool {
    (j: nat) => j < |phrases| && Builds(sentences, phrases[j], phrases, keywords)
  }

  /** The sentence of each phrase, which the first pass keeps apart. */
  function SentenceKeys(phrases: seq<Candidate>): seq<nat> {
    seq(|phrases|, k requires 0 <= k < |phrases| => phrases[k].sentenceIndex)
  }

  /** The normalised form of each phrase, which the second pass keeps apart. */
  function NormalizedKeys(phrases: seq<Candidate>): seq<String> {
    seq(|phrases|, k requires 0 <= k < |phrases| => phrases[k].normalized)
  }

  /** The keys of the items at indexes `picked`. */
  function KeysOf<K(==)>(keys: seq<K>, picked: seq<nat>): set<K> {
    set k | 0 <= k < |picked| && picked[k] < |keys| :: keys[picked[k]]
  }

  lemma KeysOfSnoc<K>(keys: seq<K>, picked: seq<nat>, i: nat)
    requires i < |keys|
    ensures KeysOf(keys, picked + [i]) == KeysOf(keys, picked) + {keys[i]}
  {
    var p := picked + [i];
    assert forall k :: 0 <= k < |picked| ==> p[k] == picked[k];
    assert p[|picked|] == i;
  }

  /** The indexes below `i` that the first two passes pick when no count
      stops them: index `j` is picked when `ok(j)` holds and its key is
      neither in `used` nor the key of an earlier pick. */
  function KeyScan<K(==)>(keys: seq<K>, ok: nat -> bool, used: set<K>, i: nat): seq<nat>
    requires i <= |keys|
  {
    if i == 0 then []
    else
      var before := KeyScan(keys, ok, used, i - 1);
      if ok(i - 1) && keys[i - 1] !in used + KeysOf(keys, before) then before + [i - 1] else before
  }

  /** Some pick before index `j` has the key of `j`. */
  predicate EarlierKey<K(==)>(keys: seq<K>, picked: seq<nat>, j: nat)
    requires j < |keys|
  {
    exists k :: 0 <= k < |picked| && picked[k] < j && keys[picked[k]] == keys[j]
  }

  /** A pick at or after `j` does not bear on the picks before `j`. */
  lemma EarlierKeySnoc<K>(keys: seq<K>, picked: seq<nat>, x: nat, j: nat)
    requires j < |keys| && j <= x
    ensures EarlierKey(keys, picked + [x], j) <==> EarlierKey(keys, picked, j)
  {
    var p := picked + [x];
    assert forall k :: 0 <= k < |picked| ==> p[k] == picked[k];
    if EarlierKey(keys, p, j) {
      var k :| 0 <= k < |p| && p[k] < j && keys[p[k]] == keys[j];
      assert k < |picked|;
    }
  }

  /** The scan's picks, in increasing order, are exactly the indexes that
      are acceptable and whose key is neither used beforehand nor the key of
      an earlier pick. */
  lemma {:induction false} KeyScanExactly<K>(keys: seq<K>, ok: nat -> bool, used: set<K>, i: nat)
    requires i <= |keys|
    ensures Increasing(KeyScan(keys, ok, used, i))
    ensures forall k :: 0 <= k < |KeyScan(keys, ok, used, i)| ==> KeyScan(keys, ok, used, i)[k] < i
    ensures forall j :: 0 <= j < i ==> (j in KeyScan(keys, ok, used, i)
                                       <==> ok(j) && keys[j] !in used && !EarlierKey(keys, KeyScan(keys, ok, used, i), j))
  {
    if i > 0 {
      var before := KeyScan(keys, ok, used, i - 1);
      KeyScanExactly(keys, ok, used, i - 1);
      assert keys[i - 1] in KeysOf(keys, before) <==> EarlierKey(keys, before, i - 1) by {
        if keys[i - 1] in KeysOf(keys, before) {
          var k :| 0 <= k < |before| && before[k] < |keys| && keys[before[k]] == keys[i - 1];
          assert before[k] < i - 1;
        }
      }
      if ok(i - 1) && keys[i - 1] !in used + KeysOf(keys, before) {
        KeyScanTakes(keys, ok, used, i - 1, before);
      } else {
        assert KeyScan(keys, ok, used, i) == before;
        assert i - 1 !in before;
      }
    }
  }

  /** The scan step that picks index `i`. */
  lemma KeyScanTakes<K>(keys: seq<K>, ok: nat -> bool, used: set<K>, i: nat, before: seq<nat>)
    requires i < |keys|
    requires Increasing(before) && forall k :: 0 <= k < |before| ==> before[k] < i
    requires forall j :: 0 <= j < i ==> (j in before <==> ok(j) && keys[j] !in used && !EarlierKey(keys, before, j))
    requires ok(i) && keys[i] !in used && !EarlierKey(keys, before, i)
    ensures Increasing(before + [i])
    ensures forall k :: 0 <= k < |before + [i]| ==> (before + [i])[k] < i + 1
    ensures forall j :: 0 <= j < i + 1 ==> (j in before + [i]
                                           <==> ok(j) && keys[j] !in used && !EarlierKey(keys, before + [i], j))
  {
    IncreasingSnoc(before, i);
    forall j | 0 <= j < i + 1 ensures EarlierKey(keys, before + [i], j) <==> EarlierKey(keys, before, j) {
      EarlierKeySnoc(keys, before, i, j);
    }
    assert i !in before;
  }

  /** The phrases before `i` the first pass turns into questions when no
      count stops it: those that yield a question on a sentence no earlier
      pick used. */
  function FirstPicks(sentences: seq<String>, phrases: seq<Candidate>, keywords: seq<String>, i: nat): seq<nat>
    requires i <= |phrases|
  {
    KeyScan(SentenceKeys(phrases), BuildsAt(sentences, phrases, keywords), {}, i)
  }

  /** Taking or skipping `phrases[i]` keeps the taken phrases, in order, a
      subsequence of the phrases met so far. */
  lemma Met(taken: seq<Candidate>, phrases: seq<Candidate>, i: nat)
    requires i < |phrases| && Subsequence(taken, phrases[..i])
    ensures Subsequence(taken, phrases[..i + 1])
    ensures Subsequence(taken + [phrases[i]], phrases[..i + 1])
  {
    SubsequenceExtend(taken, phrases[..i], phrases[i]);
    assert phrases[..i] + [phrases[i]] == phrases[..i + 1];
  }

  /** `buildQuestionFromCandidate`, reduced to what the passes rely on. */
  method TryPhrase(sentences: seq<String>, c: Candidate, phrases: seq<Candidate>, keywords: seq<String>)
    returns (q: Option<Question>)
    requires c.sentenceIndex < |sentences| && c.length >= 1
    ensures q.Some? <==> Builds(sentences, c, phrases, keywords)
    ensures q.Some? ==> WellFormed(q.value) && Sourced(q.value, c, sentences, phrases, keywords)
  {
    q := BuildQuestion(sentences[c.sentenceIndex], c, phrases, keywords);
  }

  /** `createKeywordFallback`, reduced to what the third pass relies on. */
  method TryKeyword(keyword: String, sentences: seq<String>, phrases: seq<Candidate>, keywords: seq<String>)
    returns (q: Option<Question>)
    ensures q.None? <==> NoFallback(keyword, sentences, phrases, keywords)
    ensures q.Some? ==> WellFormed(q.value) && FallbackFor(q.value, keyword, sentences, phrases, keywords)
  {
    q := KeywordFallback(keyword, sentences, phrases, keywords);
  }

  /** Some phrase picked before phrase `j` comes from the sentence of `j`. */
  predicate SentenceTakenBefore(phrases: seq<Candidate>, picked: seq<nat>, j: nat)
    requires j < |phrases|
  {
    exists k :: 0 <= k < |picked| && picked[k] < j && phrases[picked[k]].sentenceIndex == phrases[j].sentenceIndex
  }

  /** Some phrase picked before phrase `j` has the normalised form of `j`. */
  predicate FormTakenBefore(phrases: seq<Candidate>, picked: seq<nat>, j: nat)
    requires j < |phrases|
  {
    exists k :: 0 <= k < |picked| && picked[k] < j && phrases[picked[k]].normalized == phrases[j].normalized
  }

  /** The first pass, uncut, picks phrases in order, and picks phrase `j`
      exactly when it yields a question and no earlier pick used its sentence. */
  lemma {:induction false} FirstPicksExactly(sentences: seq<String>, phrases: seq<Candidate>, keywords: seq<String>, i: nat)
    requires i <= |phrases|
    ensures Increasing(FirstPicks(sentences, phrases, keywords, i))
    ensures forall k :: 0 <= k < |FirstPicks(sentences, phrases, keywords, i)|
                        ==> FirstPicks(sentences, phrases, keywords, i)[k] < i
    ensures forall j :: 0 <= j < i ==>
              (j in FirstPicks(sentences, phrases, keywords, i)
               <==> Builds(sentences, phrases[j], phrases, keywords)
                    && !SentenceTakenBefore(phrases, FirstPicks(sentences, phrases, keywords, i), j))
  {
    var r := FirstPicks(sentences, phrases, keywords, i);
    KeyScanExactly(SentenceKeys(phrases), BuildsAt(sentences, phrases, keywords), {}, i);
    forall j | 0 <= j < i
      ensures j in r <==> Builds(sentences, phrases[j], phrases, keywords) && !SentenceTakenBefore(phrases, r, j)
    {
      SentenceScanAt(sentences, phrases, keywords, r, j);
    }
  }

  /** The second pass, uncut, picks phrases in order, and picks phrase `j`
      exactly when it yields a question and its normalised form is neither
      in `used` nor that of an earlier pick. */
  lemma {:induction false} SecondPicksExactly(sentences: seq<String>, phrases: seq<Candidate>, keywords: seq<String>, used: set<String>,
                           i: nat)
    requires i <= |phrases|
    ensures Increasing(SecondPicks(sentences, phrases, keywords, used, i))
    ensures forall k :: 0 <= k < |SecondPicks(sentences, phrases, keywords, used, i)|
                        ==> SecondPicks(sentences, phrases, keywords, used, i)[k] < i
    ensures forall j :: 0 <= j < i ==>
              (j in SecondPicks(sentences, phrases, keywords, used, i)
               <==> Builds(sentences, phrases[j], phrases, keywords) && phrases[j].normalized !in used
                    && !FormTakenBefore(phrases, SecondPicks(sentences, phrases, keywords, used, i), j))
  {
    var r := SecondPicks(sentences, phrases, keywords, used, i);
    KeyScanExactly(NormalizedKeys(phrases), BuildsAt(sentences, phrases, keywords), used, i);
    forall j | 0 <= j < i
      ensures j in r <==> Builds(sentences, phrases[j], phrases, keywords) && phrases[j].normalized !in used && !FormTakenBefore(phrases, r, j)
    {
      FormScanAt(sentences, phrases, keywords, used, r, j);
    }
  }

  lemma SentenceScanAt(sentences: seq<String>, phrases: seq<Candidate>, keywords: seq<String>, r: seq<nat>, j: nat)
    requires j < |phrases|
    requires j in r <==> BuildsAt(sentences, phrases, keywords)(j) && SentenceKeys(phrases)[j] !in {}
                         && !EarlierKey(SentenceKeys(phrases), r, j)
    ensures j in r <==> Builds(sentences, phrases[j], phrases, keywords) && !SentenceTakenBefore(phrases, r, j)
  {
    var keys := SentenceKeys(phrases);
    assert keys[j] == phrases[j].sentenceIndex;
    assert EarlierKey(keys, r, j) <==> SentenceTakenBefore(phrases, r, j) by {
      if EarlierKey(keys, r, j) {
        var k :| 0 <= k < |r| && r[k] < j && keys[r[k]] == keys[j];
      }
      if SentenceTakenBefore(phrases, r, j) {
        var k :| 0 <= k < |r| && r[k] < j && phrases[r[k]].sentenceIndex == phrases[j].sentenceIndex;
        assert keys[r[k]] == keys[j];
      }
    }
  }

  lemma FormScanAt(sentences: seq<String>, phrases: seq<Candidate>, keywords: seq<String>, used: set<String>, r: seq<nat>, j: nat)
    requires j < |phrases|
    requires j in r <==> BuildsAt(sentences, phrases, keywords)(j) && NormalizedKeys(phrases)[j] !in used
                         && !EarlierKey(NormalizedKeys(phrases), r, j)
    ensures j in r <==> Builds(sentences, phrases[j], phrases, keywords) && phrases[j].normalized !in used && !FormTakenBefore(phrases, r, j)
  {
    var keys := NormalizedKeys(phrases);
    assert keys[j] == phrases[j].normalized;
    assert EarlierKey(keys, r, j) <==> FormTakenBefore(phrases, r, j) by {
      if EarlierKey(keys, r, j) {
        var k :| 0 <= k < |r| && r[k] < j && keys[r[k]] == keys[j];
      }
      if FormTakenBefore(phrases, r, j) {
        var k :| 0 <= k < |r| && r[k] < j && phrases[r[k]].normalized == phrases[j].normalized;
        assert keys[r[k]] == keys[j];
      }
    }
  }

  /** One more phrase met by the first pass's reference scan. */
  lemma FirstPicksNext(sentences: seq<String>, phrases: seq<Candidate>, keywords: seq<String>, i: nat)
    requires i < |phrases|
    ensures FirstPicks(sentences, phrases, keywords, i + 1)
            == if Builds(sentences, phrases[i], phrases, keywords)
                  && phrases[i].sentenceIndex !in KeysOf(SentenceKeys(phrases), FirstPicks(sentences, phrases, keywords, i))
               then FirstPicks(sentences, phrases, keywords, i) + [i]
               else FirstPicks(sentences, phrases, keywords, i)
  {
    assert SentenceKeys(phrases)[i] == phrases[i].sentenceIndex;
  }

  /** One iteration of the first pass: the question of `phrases[i]`
      appended when no question used its sentence yet and it yields one. */
  method SentenceStep(sentences: seq<String>, phrases: seq<Candidate>, keywords: seq<String>, desired: int, i: nat,
                      questions: seq<Question>, ghost sources: seq<Candidate>, ghost picked: seq<nat>,
                      usedSentences: set<nat>, usedPhrases: set<String>)
    returns (questions': seq<Question>, ghost sources': seq<Candidate>, ghost picked': seq<nat>,
             usedSentences': set<nat>, usedPhrases': set<String>)
    requires Usable(phrases, sentences) && DistinctBy(phrases, NormalizedOf)
    requires i < |phrases| && |questions| < desired
    requires Sound(questions, sources, sentences, phrases, keywords, desired) && |sources| == |questions|
    requires picked == FirstPicks(sentences, phrases, keywords, i)
    requires PickedBefore(phrases, picked, sources, i)
    requires DistinctBy(sources, SentenceOf)
    requires usedSentences == SentenceSet(sources) && usedSentences == KeysOf(SentenceKeys(phrases), picked)
    requires usedPhrases == NormalizedSet(sources)
    ensures Sound(questions', sources', sentences, phrases, keywords, desired) && |sources'| == |questions'|
    ensures picked' == FirstPicks(sentences, phrases, keywords, i + 1)
    ensures PickedBefore(phrases, picked', sources', i + 1)
    ensures DistinctBy(sources', SentenceOf)
    ensures usedSentences' == SentenceSet(sources') && usedSentences' == KeysOf(SentenceKeys(phrases), picked')
    ensures usedPhrases' == NormalizedSet(sources')
    ensures sources' == sources || sources' == sources + [phrases[i]]
    ensures questions <= questions'
  {
    var candidate := phrases[i];
    questions', sources', picked', usedSentences', usedPhrases' := questions, sources, picked, usedSentences, usedPhrases;
    FirstPicksNext(sentences, phrases, keywords, i);
    if candidate.sentenceIndex in usedSentences {
      return;
    }
    var question := TryPhrase(sentences, candidate, phrases, keywords);
    if question.Some? {
      FreshPhrase(phrases, picked, sources, i);
      PickedSnoc(phrases, picked, sources, i);
      Appended(questions, sources, sentences, phrases, keywords, desired, question.value, candidate);
      FreshSentence(sources, candidate);
      KeysOfSnoc(SentenceKeys(phrases), picked, i);
      questions' := questions + [question.value];
      sources' := sources + [candidate];
      picked' := picked + [i];
      usedSentences' := usedSentences + {candidate.sentenceIndex};
      usedPhrases' := usedPhrases + {candidate.normalized};
    }
  }

  /** The first pass: phrases in score order, at most one question per
      sentence. It picks, in order, the phrases `FirstPicks` names, and stops
      early only once `desired` questions are reached. */
  method FirstPass(sentences: seq<String>, phrases: seq<Candidate>, keywords: seq<String>, desired: int)
    returns (questions: seq<Question>, ghost sources: seq<Candidate>, usedPhrases: set<String>,
             ghost picked: seq<nat>, ghost stop: nat)
    requires Usable(phrases, sentences) && DistinctBy(phrases, NormalizedOf)
    ensures Sound(questions, sources, sentences, phrases, keywords, desired) && |sources| == |questions|
    ensures stop <= |phrases| && picked == FirstPicks(sentences, phrases, keywords, stop)
    ensures PickedBefore(phrases, picked, sources, stop)
    ensures stop < |phrases| ==> |questions| >= desired
    ensures Subsequence(sources, phrases)
    ensures DistinctBy(sources, SentenceOf)
    ensures usedPhrases == NormalizedSet(sources)
    ensures phrases == [] ==> questions == []
  {
    questions, sources, usedPhrases := [], [], {};
    var usedSentences: set<nat> := {};
    picked := [];
    var i: nat := 0;
    while i < |phrases|
      invariant i <= |phrases|
      invariant Sound(questions, sources, sentences, phrases, keywords, desired) && |sources| == |questions|
      invariant picked == FirstPicks(sentences, phrases, keywords, i)
      invariant PickedBefore(phrases, picked, sources, i)
      invariant Subsequence(sources, phrases[..i])
      invariant DistinctBy(sources, SentenceOf)
      invariant usedPhrases == NormalizedSet(sources)
      invariant usedSentences == SentenceSet(sources) && usedSentences == KeysOf(SentenceKeys(phrases), picked)
      invariant phrases == [] ==> questions == []
    {
      if |questions| >= desired {
        break;
      }
      Met(sources, phrases, i);
      questions, sources, picked, usedSentences, usedPhrases :=
        SentenceStep(sentences, phrases, keywords, desired, i, questions, sources, picked, usedSentences, usedPhrases);
      i := i + 1;
    }
    stop := i;
    SubsequenceOfPrefix(sources, phrases, i);
  }

  /** One iteration of the second pass: the question of `phrases[i]`
      appended when its normalised phrase is unused and it yields one. */
  method PhraseStep(sentences: seq<String>, phrases: seq<Candidate>, keywords: seq<String>, desired: int, i: nat,
                    questions: seq<Question>, ghost sources: seq<Candidate>, usedPhrases: set<String>)
    returns (questions': seq<Question>, ghost sources': seq<Candidate>, usedPhrases': set<String>)
    requires Usable(phrases, sentences) && i < |phrases| && |questions| < desired
    requires Sound(questions, sources, sentences, phrases, keywords, desired) && |sources| == |questions|
    requires usedPhrases == NormalizedSet(sources)
    ensures Sound(questions', sources', sentences, phrases, keywords, desired) && |sources'| == |questions'|
    ensures usedPhrases' == NormalizedSet(sources')
    ensures questions <= questions'
    ensures sources' == if phrases[i].normalized !in usedPhrases && Builds(sentences, phrases[i], phrases, keywords)
                        then sources + [phrases[i]] else sources
    ensures usedPhrases' == if sources' == sources then usedPhrases else usedPhrases + {phrases[i].normalized}
  {
    var candidate := phrases[i];
    questions', sources', usedPhrases' := questions, sources, usedPhrases;
    if candidate.normalized in usedPhrases {
      return;
    }
    var question := TryPhrase(sentences, candidate, phrases, keywords);
    if question.Some? {
      Appended(questions, sources, sentences, phrases, keywords, desired, question.value, candidate);
      questions' := questions + [question.value];
      sources' := sources + [candidate];
      usedPhrases' := usedPhrases + {candidate.normalized};
    }
  }

  /** The second pass's reference scan follows one iteration: `picked`
      names the phrases of `sources` from `base` on, and `used` holds the
      normalised forms used before the pass. */
  lemma SecondScanStep(sentences: seq<String>, phrases: seq<Candidate>, keywords: seq<String>, used: set<String>,
                       i: nat, picked: seq<nat>, sources: seq<Candidate>, sources': seq<Candidate>, base: nat,
                       usedPhrases: set<String>)
    returns (picked': seq<nat>)
    requires i < |phrases|
    requires picked == SecondPicks(sentences, phrases, keywords, used, i)
    requires PickedFrom(phrases, picked, sources, base, i)
    requires usedPhrases == used + KeysOf(NormalizedKeys(phrases), picked)
    requires sources' == if phrases[i].normalized !in usedPhrases && Builds(sentences, phrases[i], phrases, keywords)
                         then sources + [phrases[i]] else sources
    ensures picked' == SecondPicks(sentences, phrases, keywords, used, i + 1)
    ensures PickedFrom(phrases, picked', sources', base, i + 1)
    ensures used + KeysOf(NormalizedKeys(phrases), picked')
            == if sources' == sources then usedPhrases else usedPhrases + {phrases[i].normalized}
  {
    SecondPicksNext(sentences, phrases, keywords, used, i);
    if sources' == sources {
      picked' := picked;
    } else {
      PickedFromSnoc(phrases, picked, sources, base, i);
      KeysOfSnoc(NormalizedKeys(phrases), picked, i);
      assert NormalizedKeys(phrases)[i] == phrases[i].normalized;
      picked' := picked + [i];
    }
  }

  /** The phrases before `i` the second pass turns into questions when no
      count stops it: those that yield a question and whose normalised form
      is neither in `used` nor that of an earlier pick. */
  function SecondPicks(sentences: seq<String>, phrases: seq<Candidate>, keywords: seq<String>, used: set<String>, i: nat)
    : seq<nat>
    requires i <= |phrases|
  {
    KeyScan(NormalizedKeys(phrases), BuildsAt(sentences, phrases, keywords), used, i)
  }

  /** One more phrase met by the second pass's reference scan. */
  lemma SecondPicksNext(sentences: seq<String>, phrases: seq<Candidate>, keywords: seq<String>, used: set<String>, i: nat)
    requires i < |phrases|
    ensures SecondPicks(sentences, phrases, keywords, used, i + 1)
            == if Builds(sentences, phrases[i], phrases, keywords)
                  && phrases[i].normalized !in used + KeysOf(NormalizedKeys(phrases), SecondPicks(sentences, phrases, keywords, used, i))
               then SecondPicks(sentences, phrases, keywords, used, i) + [i]
               else SecondPicks(sentences, phrases, keywords, used, i)
  {
    assert NormalizedKeys(phrases)[i] == phrases[i].normalized;
  }

  /** The second pass: phrases in score order whose normalised form no
      question used yet. It picks, in order, the phrases `SecondPicks` names
      given the forms the first pass used, and stops early only once
      `desired` questions are reached. */
  method SecondPass(sentences: seq<String>, phrases: seq<Candidate>, keywords: seq<String>, desired: int,
                    questions0: seq<Question>, ghost sources0: seq<Candidate>, usedPhrases0: set<String>)
    returns (questions: seq<Question>, ghost sources: seq<Candidate>, ghost picked: seq<nat>, ghost stop: nat)
    requires Usable(phrases, sentences)
    requires Sound(questions0, sources0, sentences, phrases, keywords, desired) && |sources0| == |questions0|
    requires usedPhrases0 == NormalizedSet(sources0)
    ensures Sound(questions, sources, sentences, phrases, keywords, desired) && |sources| == |questions|
    ensures questions0 <= questions && sources0 <= sources
    ensures stop <= |phrases| && picked == SecondPicks(sentences, phrases, keywords, usedPhrases0, stop)
    ensures PickedBefore(phrases, picked, sources[|sources0|..], stop)
    ensures stop < |phrases| ==> |questions| >= desired
    ensures Subsequence(sources[|sources0|..], phrases)
    ensures phrases == [] ==> questions == questions0
  {
    questions, sources := questions0, sources0;
    var usedPhrases := usedPhrases0;
    picked := [];
    var i := 0;
    if |questions| < desired {
      while i < |phrases|
        invariant 0 <= i <= |phrases|
        invariant Sound(questions, sources, sentences, phrases, keywords, desired) && |sources| == |questions|
        invariant questions0 <= questions && sources0 <= sources
        invariant picked == SecondPicks(sentences, phrases, keywords, usedPhrases0, i)
        invariant PickedFrom(phrases, picked, sources, |sources0|, i)
        invariant usedPhrases == NormalizedSet(sources)
        invariant usedPhrases == usedPhrases0 + KeysOf(NormalizedKeys(phrases), picked)
      {
        if |questions| >= desired {
          break;
        }
        ghost var sources1, used1 := sources, usedPhrases;
        questions, sources, usedPhrases := PhraseStep(sentences, phrases, keywords, desired, i, questions, sources, usedPhrases);
        picked := SecondScanStep(sentences, phrases, keywords, usedPhrases0, i, picked, sources1, sources, |sources0|, used1);
        i := i + 1;
      }
    }
    stop := i;
    SecondPassRead(sentences, phrases, keywords, usedPhrases0, picked, sources, |sources0|, i);
  }

  /** The phrases the second pass added, read off its scan. */
  lemma SecondPassRead(sentences: seq<String>, phrases: seq<Candidate>, keywords: seq<String>, used0: set<String>,
                       picked: seq<nat>, sources: seq<Candidate>, base: nat, i: nat)
    requires i <= |phrases| && picked == SecondPicks(sentences, phrases, keywords, used0, i)
    requires PickedFrom(phrases, picked, sources, base, i)
    ensures PickedBefore(phrases, picked, sources[base..], i)
    ensures Subsequence(sources[base..], phrases)
  {
    PickedFromRead(phrases, picked, sources, base, i);
    KeyScanExactly(NormalizedKeys(phrases), BuildsAt(sentences, phrases, keywords), used0, i);
    PickedSubsequence(phrases, picked, sources[base..], i);
    SubsequenceOfPrefix(sources[base..], phrases, i);
  }

  /** `q` is the fallback question of keyword number `u`. */
  function IsFallback(sentences: seq<String>, phrases: seq<Candidate>, keywords: seq<String>): (Question, nat) -> bool {
    (q: Question, u: nat) => u < |keywords| && FallbackFor(q, keywords[u], sentences, phrases, keywords)
  }

  /** The questions `added` by the third pass: `used` holds, in increasing
      order, the indexes of the keywords whose fallback questions they are. */
  predicate Fallbacks(added: seq<Question>, used: seq<nat>,
                      sentences: seq<String>, phrases: seq<Candidate>, keywords: seq<String>) {
    Increasing(used) && Pairwise(added, used, IsFallback(sentences, phrases, keywords))
  }

  /** Every keyword before `i` that is not in `used` yields no fallback. */
  predicate PassedOver(used: seq<nat>, i: nat, sentences: seq<String>, phrases: seq<Candidate>, keywords: seq<String>) {
    forall j :: 0 <= j < i && j < |keywords| && j !in used ==> NoFallback(keywords[j], sentences, phrases, keywords)
  }

  /** Keyword number `j`, if there is one, yields no fallback question. */
  function NoFallbackAt(sentences: seq<String>, phrases: seq<Candidate>, keywords: seq<String>): nat -> bool {
    (j: nat) => j < |keywords| ==> NoFallback(keywords[j], sentences, phrases, keywords)
  }

  /** The state of the third pass before keyword `i`. */
  predicate ThirdPassState(added: seq<Question>, used: seq<nat>, i: nat,
                           sentences: seq<String>, phrases: seq<Candidate>, keywords: seq<String>) {
    Scanned(added, used, i, IsFallback(sentences, phrases, keywords), NoFallbackAt(sentences, phrases, keywords))
  }

  /** The third pass's state, read as the fallbacks taken and the keywords passed over. */
  lemma ThirdPassRead(added: seq<Question>, used: seq<nat>, i: nat,
                      sentences: seq<String>, phrases: seq<Candidate>, keywords: seq<String>)
    requires ThirdPassState(added, used, i, sentences, phrases, keywords)
    ensures Fallbacks(added, used, sentences, phrases, keywords)
    ensures PassedOver(used, i, sentences, phrases, keywords)
  {
    forall j | 0 <= j < i && j < |keywords| && j !in used
      ensures NoFallback(keywords[j], sentences, phrases, keywords)
    {
      assert NoFallbackAt(sentences, phrases, keywords)(j);
    }
  }

  /** One iteration of the third pass: the fallback question of keyword
      `i`, if any, appended to the questions. */
  method KeywordStep(sentences: seq<String>, phrases: seq<Candidate>, keywords: seq<String>, desired: int, i: nat,
                     ghost questions0: seq<Question>, questions: seq<Question>, ghost sources: seq<Candidate>,
                     ghost added: seq<Question>, ghost used: seq<nat>)
    returns (questions': seq<Question>, ghost added': seq<Question>, ghost used': seq<nat>)
    requires i < |keywords| && |questions| < desired
    requires Sound(questions, sources, sentences, phrases, keywords, desired)
    requires ThirdPassState(added, used, i, sentences, phrases, keywords)
    requires questions == questions0 + added
    ensures Sound(questions', sources, sentences, phrases, keywords, desired)
    ensures ThirdPassState(added', used', i + 1, sentences, phrases, keywords)
    ensures questions' == questions0 + added'
    ensures added <= added' && questions' == questions + added'[|added|..]
    ensures sentences == [] ==> questions' == questions
  {
    var question := TryKeyword(keywords[i], sentences, phrases, keywords);
    if question.Some? {
      ScanTake(added, used, i, IsFallback(sentences, phrases, keywords), NoFallbackAt(sentences, phrases, keywords),
               question.value);
      AppendedUnsourced(questions, sources, sentences, phrases, keywords, desired, question.value);
      questions', added', used' := questions + [question.value], added + [question.value], used + [i];
      assert added'[|added|..] == [question.value];
      SnocAfter(questions0, added, question.value);
    } else {
      ScanSkip(added, used, i, IsFallback(sentences, phrases, keywords), NoFallbackAt(sentences, phrases, keywords));
      questions', added', used' := questions, added, used;
      assert added'[|added|..] == [];
    }
  }

  /** The third pass: a keyword fallback question per keyword, in keyword
      order. Every keyword before the one it stops at either gave its
      fallback question or has none, and it stops early only once `desired`
      questions are reached. */
  method ThirdPass(sentences: seq<String>, phrases: seq<Candidate>, keywords: seq<String>, desired: int,
                   questions0: seq<Question>, ghost sources: seq<Candidate>)
    returns (questions: seq<Question>, ghost used: seq<nat>, ghost stop: nat)
    requires Sound(questions0, sources, sentences, phrases, keywords, desired)
    ensures Sound(questions, sources, sentences, phrases, keywords, desired)
    ensures questions0 <= questions
    ensures stop <= |keywords| && ThirdPassState(questions[|questions0|..], used, stop, sentences, phrases, keywords)
    ensures Fallbacks(questions[|questions0|..], used, sentences, phrases, keywords)
    ensures PassedOver(used, stop, sentences, phrases, keywords)
    ensures stop < |keywords| ==> |questions| >= desired
    ensures |questions| < desired ==> PassedOver(used, |keywords|, sentences, phrases, keywords)
    ensures sentences == [] ==> questions == questions0
  {
    questions, used := questions0, [];
    ghost var added: seq<Question> := [];
    var i := 0;
    if |questions| < desired {
      while i < |keywords|
        invariant 0 <= i <= |keywords|
        invariant Sound(questions, sources, sentences, phrases, keywords, desired)
        invariant questions == questions0 + added
        invariant ThirdPassState(added, used, i, sentences, phrases, keywords)
        invariant sentences == [] ==> questions == questions0
      {
        if |questions| >= desired {
          break;
        }
        questions, added, used := KeywordStep(sentences, phrases, keywords, desired, i, questions0, questions, sources, added, used);
        i := i + 1;
      }
    }
    stop := i;
    ThirdPassClose(questions0, added, questions, used, i, sentences, phrases, keywords);
  }

  /** The questions the third pass added, read off its scan. */
  lemma ThirdPassClose(questions0: seq<Question>, added: seq<Question>, questions: seq<Question>, used: seq<nat>, i: nat,
                       sentences: seq<String>, phrases: seq<Candidate>, keywords: seq<String>)
    requires questions == questions0 + added
    requires ThirdPassState(added, used, i, sentences, phrases, keywords)
    ensures ThirdPassState(questions[|questions0|..], used, i, sentences, phrases, keywords)
    ensures Fallbacks(questions[|questions0|..], used, sentences, phrases, keywords)
    ensures PassedOver(used, i, sentences, phrases, keywords)
  {
    assert questions[|questions0|..] == added;
    ThirdPassRead(added, used, i, sentences, phrases, keywords);
  }

  lemma SnocAfter<T>(a: seq<T>, b: seq<T>, x: T)
    ensures a + (b + [x]) == (a + b) + [x]
  {
  }

  lemma PrefixSlice<T>(a: seq<T>, b: seq<T>)
    requires a <= b
    ensures b[..|a|] == a
  {
  }

  /** The candidates `collectPhrases` returns can all be turned into a question attempt. */
  lemma PhrasesUsable(sentences: seq<String>, f: Frequency, phrases: seq<Candidate>)
    requires forall c :: c in phrases ==> InTable(PhraseTable(Analyse(sentences), f), c)
    ensures Usable(phrases, sentences)
    ensures sentences == [] ==> phrases == []
  {
    forall k | 0 <= k < |phrases|
      ensures phrases[k].sentenceIndex < |sentences| && phrases[k].length >= 1
    {
      CandidateShape(Analyse(sentences), f, phrases[k]);
    }
    if phrases != [] {
      assert phrases[0].sentenceIndex < |sentences|;
    }
  }

  /** The phrases `generateQuizFromText` draws from for `text`. */
  function TextPhrases(text: String): seq<Candidate> {
    CollectedPhrases(SentenceSplit(text), Frequencies(Tokenize(text)))
  }

  /** The keyword list `generateQuizFromText` builds for `text`. */
  function TextKeywords(text: String): seq<String> {
    KeywordList(Frequencies(Tokenize(text)))
  }

  /** How `generateQuizFromText` arrived at its questions: the indexes of
      the phrases the first and second passes picked and of the keywords
      whose fallbacks the third pass took, and the index each pass stopped at. */
  datatype Trace = Trace(firstPicked: seq<nat>, firstStop: nat, secondPicked: seq<nat>, secondStop: nat,
                         fallbacks: seq<nat>, thirdStop: nat)

  /** `generateQuizFromText`. Besides the quiz, `sources` names the phrase
      behind each of the first `|sources|` questions, of which the first
      `firstPass` come from the pass that uses every sentence at most once,
      and `trace` says which phrases and keywords each pass took. Each pass
      takes exactly what its reference scan names up to where it stops, and
      stops early only once `desiredCount` questions are reached. */
  method GenerateQuizFromText(text: String, desiredCount: int)
    returns (quiz: Quiz, ghost sources: seq<Candidate>, ghost firstPass: nat, ghost trace: Trace)
    ensures quiz.title == TITLE
    ensures |quiz.questions| <= Cap(desiredCount)
    ensures AllWellFormed(quiz.questions)
    ensures SentenceSplit(text) == [] ==> quiz.questions == []
    ensures firstPass <= |sources| <= |quiz.questions|
    ensures BuiltFrom(quiz.questions, sources, SentenceSplit(text), TextPhrases(text), TextKeywords(text))
    ensures Subsequence(sources[..firstPass], TextPhrases(text))
    ensures Subsequence(sources[firstPass..], TextPhrases(text))
    ensures DistinctBy(sources[..firstPass], SentenceOf)
    ensures DistinctBy(sources, NormalizedOf)
    ensures trace.firstStop <= |TextPhrases(text)|
    ensures trace.firstPicked == FirstPicks(SentenceSplit(text), TextPhrases(text), TextKeywords(text), trace.firstStop)
    ensures PickedBefore(TextPhrases(text), trace.firstPicked, sources[..firstPass], trace.firstStop)
    ensures trace.firstStop < |TextPhrases(text)| ==> firstPass >= desiredCount
    ensures trace.secondStop <= |TextPhrases(text)|
    ensures trace.secondPicked == SecondPicks(SentenceSplit(text), TextPhrases(text), TextKeywords(text),
                                              NormalizedSet(sources[..firstPass]), trace.secondStop)
    ensures PickedBefore(TextPhrases(text), trace.secondPicked, sources[firstPass..], trace.secondStop)
    ensures trace.secondStop < |TextPhrases(text)| ==> |sources| >= desiredCount
    ensures trace.thirdStop <= |TextKeywords(text)|
    ensures ThirdPassState(quiz.questions[|sources|..], trace.fallbacks, trace.thirdStop,
                           SentenceSplit(text), TextPhrases(text), TextKeywords(text))
    ensures Fallbacks(quiz.questions[|sources|..], trace.fallbacks,
                      SentenceSplit(text), TextPhrases(text), TextKeywords(text))
    ensures PassedOver(trace.fallbacks, trace.thirdStop, SentenceSplit(text), TextPhrases(text), TextKeywords(text))
    ensures trace.thirdStop < |TextKeywords(text)| ==> |quiz.questions| >= desiredCount
    ensures |quiz.questions| < desiredCount
            ==> PassedOver(trace.fallbacks, |TextKeywords(text)|, SentenceSplit(text), TextPhrases(text), TextKeywords(text))
  {
    var sentences := SentenceSplit(text);
    var tokens := Tokenize(text);
    var freq := BuildFrequency(tokens);
    var keywordList := KeywordList(freq);
    var phrases := CollectPhrases(sentences, freq);
    PhrasesUsable(sentences, freq, phrases);
    var questions, usedPhrases;
    ghost var picked1, stop1, picked2, stop2, fallbacks, stop3;
    questions, sources, usedPhrases, picked1, stop1 := FirstPass(sentences, phrases, keywordList, desiredCount);
    firstPass := |sources|;
    ghost var first := sources;
    questions, sources, picked2, stop2 :=
      SecondPass(sentences, phrases, keywordList, desiredCount, questions, sources, usedPhrases);
    PrefixSlice(first, sources);
    questions, fallbacks, stop3 := ThirdPass(sentences, phrases, keywordList, desiredCount, questions, sources);
    quiz := Quiz(TITLE, questions);
    trace := Trace(picked1, stop1, picked2, stop2, fallbacks, stop3);
  }

  // ---------------------------------------------------------------------
  // Grading

  /** One entry of `details`; `correctAnswer` is `None` where JavaScript
      would read `undefined`. */
  datatype Detail = Detail(question: String, options: seq<String>, correctIndex: int,
                           correctAnswer: Option<String>, userIndex: int)

  datatype Grade = Grade(total: nat, correct: nat, incorrect: int, details: seq<Detail>)

  /** `answersMap[idx]`, or -1 when the question was not answered. */
  function UserIndex(answers: map<int, int>, idx: int): int {
    if idx in answers then answers[idx] else -1
  }

  function DetailOf(q: Question, userIndex: int): Detail {
    Detail(q.question, q.options, q.answerIndex,
           if 0 <= q.answerIndex < |q.options| then Some(q.options[q.answerIndex]) else None,
           userIndex)
  }

  /** The number of questions whose answer is the stored answer index. */
  function Score(qs: seq<Question>, answers: map<int, int>): (n: nat)
    ensures n <= |qs|
  {
    if qs == [] then 0
    else Score(qs[..|qs| - 1], answers) + (if UserIndex(answers, |qs| - 1) == qs[|qs| - 1].answerIndex then 1 else 0)
  }

  /** `gradeSubmission` */
  method GradeSubmission(quiz: Quiz, answers: map<int, int>) returns (g: Grade)
    ensures g.total == |quiz.questions|
    ensures g.correct == Score(quiz.questions, answers)
    ensures g.correct + g.incorrect == g.total && g.incorrect >= 0
    ensures |g.details| == |quiz.questions|
    ensures forall k :: 0 <= k < |g.details| ==> g.details[k] == DetailOf(quiz.questions[k], UserIndex(answers, k))
  {
    var qs := quiz.questions;
    var results: seq<Detail> := [];
    var score := 0;
    var idx := 0;
    while idx < |qs|
      invariant 0 <= idx <= |qs|
      invariant score == Score(qs[..idx], answers)
      invariant |results| == idx
      invariant forall k :: 0 <= k < idx ==> results[k] == DetailOf(qs[k], UserIndex(answers, k))
    {
      var q := qs[idx];
      var userIndex := if idx in answers then answers[idx] else -1;
      var correct := userIndex == q.answerIndex;
      assert qs[..idx + 1][..idx] == qs[..idx];
      if correct {
        score := score + 1;
      }
      results := results + [DetailOf(q, userIndex)];
      idx := idx + 1;
    }
    assert qs[..idx] == qs;
    g := Grade(|qs|, score, |qs| - score, results);
  }

  /** Answering every question with its stored index scores full marks. */
  lemma {:induction false} AllCorrectScoresTotal(qs: seq<Question>, answers: map<int, int>)
    requires forall k :: 0 <= k < |qs| ==> UserIndex(answers, k) == qs[k].answerIndex
    ensures Score(qs, answers) == |qs|
  {
    if qs != [] {
      AllCorrectScoresTotal(qs[..|qs| - 1], answers);
    }
  }

  /** A missing answer is -1, which no answer index in range equals: with no
      answers at all, nothing counts as correct. */
  lemma {:induction false} NoAnswersScoreZero(qs: seq<Question>)
    requires forall k :: 0 <= k < |qs| ==> qs[k].answerIndex >= 0
    ensures Score(qs, map[]) == 0
  {
    if qs != [] {
      NoAnswersScoreZero(qs[..|qs| - 1]);
    }
  }

  /** Only questions whose answer is their stored index count: changing the
      answer of a question that was wrong never lowers the score. */
  lemma {:induction false} ScoreCountsOnlyMatches(qs: seq<Question>, answers: map<int, int>, answers': map<int, int>)
    requires forall k :: 0 <= k < |qs| && UserIndex(answers, k) == qs[k].answerIndex
                         ==> UserIndex(answers', k) == qs[k].answerIndex
    ensures Score(qs, answers) <= Score(qs, answers')
  {
    if qs != [] {
      ScoreCountsOnlyMatches(qs[..|qs| - 1], answers, answers');
    }
  }
}
