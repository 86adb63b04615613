/** One fill-in-the-blank question from a candidate phrase: the blanked
    sentence, the prettified answer, three distractors that differ from it
    and from each other ignoring case, the shuffle and the answer's position;
    and the fallback that builds a question around a single keyword. */
module Questions {
  import opened Options
  import opened Text
  import opened Sorting
  import opened Tokens
  import opened Phrases
  import opened Stem

  datatype Question = Question(question: String, options: seq<String>, answerIndex: int)

  /** `shuffleArray`: Fisher-Yates on a copy of `list`; each `Math.random()`
      draw is an arbitrary index `j` in `[0, i]`. */
  method Shuffle<T>(list: seq<T>) returns (r: seq<T>)
    ensures |r| == |list|
    ensures multiset(r) == multiset(list)
  {
    var arr := new T[|list|](k requires 0 <= k < |list| => list[k]);
    assert arr[..] == list;
    var i := arr.Length - 1;
    while i > 0
      invariant i < arr.Length
      invariant multiset(arr[..]) == multiset(list)
    {
      var j :| 0 <= j <= i;
      arr[i], arr[j] := arr[j], arr[i];
      i := i - 1;
    }
    r := arr[..];
  }

  /** `Array.prototype.findIndex`: the first index whose element satisfies
      `p`, or -1. */
  function FindIndex<T>(xs: seq<T>, p: T -> bool): (r: int)
    ensures -1 <= r < |xs|
    ensures r >= 0 ==> p(xs[r]) && forall k :: 0 <= k < r ==> !p(xs[k])
    ensures r == -1 <==> forall k :: 0 <= k < |xs| ==> !p(xs[k])
  {
    if xs == [] then -1
    else if p(xs[0]) then 0
    else
      var r := FindIndex(xs[1..], p);
      assert forall k :: 1 <= k < |xs| ==> xs[k] == xs[1..][k - 1];
      if r == -1 then -1 else r + 1
  }

  /** `a.toLowerCase() === b.toLowerCase()` */
  predicate SameIgnoringCase(a: String, b: String) {
    Lower(a) == Lower(b)
  }

  /** `distractors.some((d) => d.toLowerCase() === option.toLowerCase())` */
  predicate Taken(acc: seq<String>, o: String) {
    exists k :: 0 <= k < |acc| && Lower(acc[k]) == Lower(o)
  }

  /** Distractors that may stand together: non-empty, unlike the correct
      answer and unlike each other, ignoring case. */
  predicate Admissible(ds: seq<String>, correct: String) {
    && (forall k :: 0 <= k < |ds| ==> ds[k] != [] && Lower(ds[k]) != Lower(correct))
    && DistinctBy(ds, Lower)
  }

  /** One distractor loop: the options `opts` offered in turn to `acc`,
      skipping empty ones, ones equal to the correct answer and ones already
      taken (all ignoring case), until `acc` holds three. */
  function Offer(acc: seq<String>, opts: seq<String>, correct: String): (r: seq<String>)
    ensures |acc| <= |r| && r[..|acc|] == acc
    ensures |acc| <= 3 ==> |r| <= 3
    ensures Admissible(acc, correct) ==> Admissible(r, correct)
    ensures |r| < 3 ==> forall k :: 0 <= k < |opts| && opts[k] != [] && !SameIgnoringCase(opts[k], correct)
                                    ==> Taken(r, opts[k])
    decreases |opts|
  {
    if opts == [] || |acc| >= 3 then acc
    else
      var o := opts[0];
      assert forall k :: 1 <= k < |opts| ==> opts[k] == opts[1..][k - 1];
      if o == [] || SameIgnoringCase(o, correct) || Taken(acc, o) then
        var r := Offer(acc, opts[1..], correct);
        assert Taken(acc, o) ==> Taken(r, o);
        r
      else
        var r := Offer(acc + [o], opts[1..], correct);
        assert r[|acc|] == o;
        r
  }

  /** What `Offer` adds to `acc` are options of `opts`, taken in order. */
  lemma {:induction false} OfferDrawsInOrder(acc: seq<String>, opts: seq<String>, correct: String)
    ensures Subsequence(Offer(acc, opts, correct)[|acc|..], opts)
    decreases |opts|
  {
    var r := Offer(acc, opts, correct);
    if opts != [] && |acc| < 3 {
      var o := opts[0];
      if o == [] || SameIgnoringCase(o, correct) || Taken(acc, o) {
        OfferDrawsInOrder(acc, opts[1..], correct);
      } else {
        OfferDrawsInOrder(acc + [o], opts[1..], correct);
        assert r[|acc|..][1..] == r[|acc| + 1..];
      }
    }
  }

  /** Offering `xs` and then `ys` is offering `xs + ys`: the loop does not
      care where its options come from. */
  lemma {:induction false} OfferAppend(acc: seq<String>, xs: seq<String>, ys: seq<String>, correct: String)
    ensures Offer(acc, xs + ys, correct) == Offer(Offer(acc, xs, correct), ys, correct)
    decreases |xs|
  {
    if xs == [] {
      assert xs + ys == ys;
    } else if |acc| < 3 {
      var o := xs[0];
      assert (xs + ys)[0] == o && (xs + ys)[1..] == xs[1..] + ys;
      if o == [] || SameIgnoringCase(o, correct) || Taken(acc, o) {
        OfferAppend(acc, xs[1..], ys, correct);
      } else {
        OfferAppend(acc + [o], xs[1..], ys, correct);
      }
    }
  }

  /** What `Offer` holds after the options before `k` is where its result starts. */
  lemma OfferPrefixes(acc: seq<String>, opts: seq<String>, correct: String)
    ensures forall k :: 0 <= k <= |opts| ==> Offer(acc, opts[..k], correct) <= Offer(acc, opts, correct)
  {
    forall k | 0 <= k <= |opts| ensures Offer(acc, opts[..k], correct) <= Offer(acc, opts, correct) {
      OfferAppend(acc, opts[..k], opts[k..], correct);
      assert opts[..k] + opts[k..] == opts;
    }
  }

  /** `Offer` takes the first usable options: every option that is
      non-empty and unlike the correct answer, met while fewer than three
      are held, ends up taken. */
  lemma OfferTakesFirstUsable(acc: seq<String>, opts: seq<String>, correct: String)
    ensures forall k :: 0 <= k < |opts| && opts[k] != [] && !SameIgnoringCase(opts[k], correct)
                        && |Offer(acc, opts[..k], correct)| < 3
                        ==> Taken(Offer(acc, opts, correct), opts[k])
  {
    var r := Offer(acc, opts, correct);
    OfferPrefixes(acc, opts, correct);
    forall k | 0 <= k < |opts| && opts[k] != [] && !SameIgnoringCase(opts[k], correct)
               && |Offer(acc, opts[..k], correct)| < 3
      ensures Taken(r, opts[k])
    {
      OfferNext(acc, opts, correct, k, r);
    }
  }

  lemma OfferNext(acc: seq<String>, opts: seq<String>, correct: String, k: nat, r: seq<String>)
    requires k < |opts| && opts[k] != [] && !SameIgnoringCase(opts[k], correct)
    requires |Offer(acc, opts[..k], correct)| < 3
    requires Offer(acc, opts[..k], correct) <= r && Offer(acc, opts[..k + 1], correct) <= r
    ensures Taken(r, opts[k])
  {
    var before := Offer(acc, opts[..k], correct);
    OfferAppend(acc, opts[..k], [opts[k]], correct);
    assert opts[..k] + [opts[k]] == opts[..k + 1];
    if Taken(before, opts[k]) {
      var m :| 0 <= m < |before| && Lower(before[m]) == Lower(opts[k]);
      assert r[m] == before[m];
    } else {
      assert r[|before|] == opts[k];
    }
  }

  /** The options the other phrases offer, in order: `prettifyOption` of
      every phrase whose normalised form is not `normalized`. */
  function PhraseOptions(all: seq<Candidate>, normalized: String): (r: seq<String>)
    ensures |r| <= |all|
  {
    if all == [] then []
    else if all[0].normalized == normalized then PhraseOptions(all[1..], normalized)
    else [PrettifyOption(all[0].phrase)] + PhraseOptions(all[1..], normalized)
  }

  lemma {:induction false} PhraseOptionsMembers(all: seq<Candidate>, normalized: String)
    ensures forall o :: o in PhraseOptions(all, normalized)
                        ==> exists d :: d in all && d.normalized != normalized && o == PrettifyOption(d.phrase)
  {
    if all != [] {
      PhraseOptionsMembers(all[1..], normalized);
      forall o | o in PhraseOptions(all, normalized)
        ensures exists d :: d in all && d.normalized != normalized && o == PrettifyOption(d.phrase)
      {
        if o in PhraseOptions(all[1..], normalized) {
          var d :| d in all[1..] && d.normalized != normalized && o == PrettifyOption(d.phrase);
          assert d in all;
        } else {
          assert all[0] in all;
        }
      }
    }
  }

  /** The options the keywords offer: each one title-cased. */
  function KeywordOptions(keywords: seq<String>): seq<String> {
    seq(|keywords|, k requires 0 <= k < |keywords| => TitleCase(keywords[k]))
  }

  /** The distractors for `c` with correct answer `correct`: first from the
      other phrases, then, while fewer than three, from the keywords. */
  function Distractors(all: seq<Candidate>, c: Candidate, keywords: seq<String>, correct: String): (r: seq<String>)
    ensures |r| <= 3
    ensures Admissible(r, correct)
  {
    Offer(Offer([], PhraseOptions(all, c.normalized), correct), KeywordOptions(keywords), correct)
  }

  /** The distractors are options of the other phrases, in order, followed
      by title-cased keywords, in order; keywords are drawn only when the
      phrases offered fewer than three usable options. */
  lemma DistractorsDrawn(all: seq<Candidate>, c: Candidate, keywords: seq<String>, correct: String)
    returns (fromPhrases: seq<String>, fromKeywords: seq<String>)
    ensures Distractors(all, c, keywords, correct) == fromPhrases + fromKeywords
    ensures Subsequence(fromPhrases, PhraseOptions(all, c.normalized))
    ensures Subsequence(fromKeywords, KeywordOptions(keywords))
    ensures fromKeywords != [] ==> |fromPhrases| < 3
    ensures forall o :: o in fromPhrases ==> exists d :: d in all && d.normalized != c.normalized && o == PrettifyOption(d.phrase)
    ensures forall o :: o in fromKeywords ==> exists w :: w in keywords && o == TitleCase(w)
  {
    fromPhrases := Offer([], PhraseOptions(all, c.normalized), correct);
    var r := Distractors(all, c, keywords, correct);
    fromKeywords := r[|fromPhrases|..];
    OfferDrawsInOrder([], PhraseOptions(all, c.normalized), correct);
    OfferDrawsInOrder(fromPhrases, KeywordOptions(keywords), correct);
    assert fromPhrases[0..] == fromPhrases;
    assert r == fromPhrases + fromKeywords;
    SubsequenceMembers(fromPhrases, PhraseOptions(all, c.normalized));
    PhraseOptionsMembers(all, c.normalized);
    KeywordOptionsMembers(keywords, fromKeywords);
  }

  lemma KeywordOptionsMembers(keywords: seq<String>, xs: seq<String>)
    requires Subsequence(xs, KeywordOptions(keywords))
    ensures forall o :: o in xs ==> exists w :: w in keywords && o == TitleCase(w)
  {
    SubsequenceMembers(xs, KeywordOptions(keywords));
    forall o | o in xs ensures exists w :: w in keywords && o == TitleCase(w) {
      var k :| 0 <= k < |KeywordOptions(keywords)| && KeywordOptions(keywords)[k] == o;
      assert keywords[k] in keywords;
    }
  }

  /** The distractors are the first usable options of the other phrases
      followed by the keywords: every option in that list that is non-empty
      and unlike the answer, met while fewer than three are held, is among
      them, ignoring case. */
  lemma DistractorsTakeFirstUsable(all: seq<Candidate>, c: Candidate, keywords: seq<String>, correct: String)
    ensures var opts := PhraseOptions(all, c.normalized) + KeywordOptions(keywords);
            forall k :: 0 <= k < |opts| && opts[k] != [] && !SameIgnoringCase(opts[k], correct)
                        && |Offer([], opts[..k], correct)| < 3
                        ==> Taken(Distractors(all, c, keywords, correct), opts[k])
  {
    DistractorsOfferAll(all, c, keywords, correct);
    OfferTakesFirstUsable([], PhraseOptions(all, c.normalized) + KeywordOptions(keywords), correct);
  }

  /** The two distractor loops together offer the phrase options followed
      by the keyword options. */
  lemma DistractorsOfferAll(all: seq<Candidate>, c: Candidate, keywords: seq<String>, correct: String)
    ensures Distractors(all, c, keywords, correct)
            == Offer([], PhraseOptions(all, c.normalized) + KeywordOptions(keywords), correct)
  {
    OfferAppend([], PhraseOptions(all, c.normalized), KeywordOptions(keywords), correct);
  }

  /** Fewer than three distractors only when every option on offer, phrase
      or keyword, is empty, equal to the answer or a repeat, ignoring case. */
  lemma FewDistractorsExhaustOptions(all: seq<Candidate>, c: Candidate, keywords: seq<String>, correct: String)
    requires |Distractors(all, c, keywords, correct)| < 3
    ensures forall o :: o in PhraseOptions(all, c.normalized) + KeywordOptions(keywords)
                        && o != [] && !SameIgnoringCase(o, correct)
                        ==> Taken(Distractors(all, c, keywords, correct), o)
  {
    var first := Offer([], PhraseOptions(all, c.normalized), correct);
    var r := Distractors(all, c, keywords, correct);
    forall o | o in PhraseOptions(all, c.normalized) + KeywordOptions(keywords)
               && o != [] && !SameIgnoringCase(o, correct)
      ensures Taken(r, o)
    {
      if o in PhraseOptions(all, c.normalized) {
        var k :| 0 <= k < |PhraseOptions(all, c.normalized)| && PhraseOptions(all, c.normalized)[k] == o;
        assert Taken(first, o);
        var m :| 0 <= m < |first| && Lower(first[m]) == Lower(o);
        assert r[m] == first[m];
      } else {
        var k :| 0 <= k < |KeywordOptions(keywords)| && KeywordOptions(keywords)[k] == o;
      }
    }
  }

  /** The first distractor loop: the other phrases' options offered to an
      empty list, stopping at three. */
  method OfferPhrases(all: seq<Candidate>, normalized: String, correct: String) returns (distractors: seq<String>)
    ensures distractors == Offer([], PhraseOptions(all, normalized), correct)
  {
    distractors := [];
    var k := 0;
    while k < |all|
      invariant 0 <= k <= |all| && |distractors| < 3
      invariant Offer(distractors, PhraseOptions(all[k..], normalized), correct)
             == Offer([], PhraseOptions(all, normalized), correct)
    {
      var phrase := all[k];
      assert all[k..][1..] == all[k + 1..];
      k := k + 1;
      if phrase.normalized == normalized {
        continue;
      }
      var option := PrettifyOption(phrase.phrase);
      if option == [] || Lower(option) == Lower(correct) {
        continue;
      }
      if Taken(distractors, option) {
        continue;
      }
      distractors := distractors + [option];
      if |distractors| >= 3 {
        break;
      }
    }
  }

  /** The second distractor loop: the title-cased keywords offered to the
      distractors found so far, stopping at three. */
  method OfferKeywords(found: seq<String>, keywords: seq<String>, correct: String) returns (distractors: seq<String>)
    requires |found| < 3
    ensures distractors == Offer(found, KeywordOptions(keywords), correct)
  {
    distractors := found;
    var m := 0;
    while m < |keywords|
      invariant 0 <= m <= |keywords| && |distractors| < 3
      invariant Offer(distractors, KeywordOptions(keywords)[m..], correct)
             == Offer(found, KeywordOptions(keywords), correct)
    {
      var option := TitleCase(keywords[m]);
      assert KeywordOptions(keywords)[m..][1..] == KeywordOptions(keywords)[m + 1..];
      m := m + 1;
      if option == [] || Lower(option) == Lower(correct) {
        continue;
      }
      if Taken(distractors, option) {
        continue;
      }
      distractors := distractors + [option];
      if |distractors| >= 3 {
        break;
      }
    }
  }

  /** Both distractor loops of `buildQuestionFromCandidate`; the keywords are
      consulted only while fewer than three were found. */
  method CollectDistractors(all: seq<Candidate>, c: Candidate, keywords: seq<String>, correct: String)
    returns (distractors: seq<String>)
    ensures distractors == Distractors(all, c, keywords, correct)
  {
    distractors := OfferPhrases(all, c.normalized, correct);
    if |distractors| < 3 {
      distractors := OfferKeywords(distractors, keywords, correct);
    }
  }

  /** `shuffleArray([correct, ...distractors.slice(0, 3)])` and the `findIndex`
      of the correct answer, with the fallback to 0. */
  method ArrangeOptions(correct: String, distractors: seq<String>) returns (options: seq<String>, answerIndex: int)
    requires correct != [] && |distractors| == 3 && Admissible(distractors, correct)
    ensures |options| == 4
    ensures multiset(options) == multiset([correct] + distractors)
    ensures DistinctBy(options, Lower)
    ensures forall k :: 0 <= k < 4 ==> options[k] != []
    ensures 0 <= answerIndex < 4 && SameIgnoringCase(options[answerIndex], correct)
  {
    var choices := [correct] + distractors[..3];
    assert distractors[..3] == distractors;
    assert forall z :: z in choices[1..] ==> Lower(z) != Lower(choices[0]);
    ConsDistinct(choices, Lower);
    options := Shuffle(choices);
    PermutationKeepsDistinctBy(choices, options, Lower);
    forall k | 0 <= k < 4 ensures options[k] != [] {
      assert options[k] in multiset(choices);
    }
    assert correct in multiset(options);
    var found := FindIndex(options, (opt: String) => Lower(opt) == Lower(correct));
    // the correct answer is among the options, so the fallback is never taken
    assert found >= 0;
    answerIndex := if found >= 0 then found else 0;
  }

  /** The tokens a sentence is cut into and the end of a candidate's span. */
  function SpanEnd(c: Candidate, tokens: seq<String>): nat {
    if c.start + c.length < |tokens| then c.start + c.length else |tokens|
  }

  /** The question text for candidate `c` of `sentence`. */
  function QuestionText(sentence: String, c: Candidate): String
    requires c.length >= 1 && c.start < |SplitSentenceTokens(sentence)|
  {
    var tokens := SplitSentenceTokens(sentence);
    StemText(tokens, c.start, SpanEnd(c, tokens))
  }

  /** The three conditions under which `buildQuestionFromCandidate` returns a question. */
  predicate CanBuild(sentence: String, c: Candidate, all: seq<Candidate>, keywords: seq<String>) {
    var correct := PrettifyOption(c.phrase);
    && c.start < |SplitSentenceTokens(sentence)|
    && |correct| >= 2
    && |Distractors(all, c, keywords, correct)| >= 3
  }

  /** What every produced question satisfies: four non-empty options,
      pairwise distinct ignoring case, an answer index among them, and a
      single-spaced text that begins with the lead-in. */
  predicate WellFormed(q: Question) {
    && |q.options| == 4
    && DistinctBy(q.options, Lower)
    && (forall k :: 0 <= k < 4 ==> q.options[k] != [])
    && 0 <= q.answerIndex < 4
    && StartsWith(q.question, LEAD_IN)
    && SingleSpaced(q.question)
  }

  /** Question `q` asks for the phrase of `c`: the option at the answer index
      is its prettified phrase, ignoring case, and the options are that
      answer and its distractors, in some order. */
  predicate Answers(q: Question, c: Candidate, all: seq<Candidate>, keywords: seq<String>) {
    var correct := PrettifyOption(c.phrase);
    && 0 <= q.answerIndex < |q.options|
    && SameIgnoringCase(q.options[q.answerIndex], correct)
    && multiset(q.options) == multiset([correct] + Distractors(all, c, keywords, correct))
  }

  /** `buildQuestionFromCandidate` */
  method BuildQuestion(sentence: String, c: Candidate, all: seq<Candidate>, keywords: seq<String>)
    returns (q: Option<Question>)
    requires c.length >= 1
    ensures q.Some? <==> CanBuild(sentence, c, all, keywords)
    ensures q.Some? ==> WellFormed(q.value)
    ensures q.Some? ==> q.value.question == QuestionText(sentence, c)
    ensures q.Some? ==> Answers(q.value, c, all, keywords)
  {
    var tokens := SplitSentenceTokens(sentence);
    if c.start >= |tokens| {
      return None;
    }
    var end := if c.start + c.length < |tokens| then c.start + c.length else |tokens|;
    var blankTokens := BlankOut(tokens, c.start, end);
    var stem := FixPunctSpacing(Join(blankTokens, " "));
    var correct := PrettifyOption(c.phrase);
    if correct == [] || |correct| < 2 {
      return None;
    }
    var distractors := CollectDistractors(all, c, keywords, correct);
    if |distractors| < 3 {
      return None;
    }
    var options, answerIndex := ArrangeOptions(correct, distractors);
    StemStartsWithLeadIn(tokens, c.start, end);
    var question := ImproveStem(stem);
    assert question == QuestionText(sentence, c) by {
      assert end == SpanEnd(c, tokens);
      assert question == StemText(tokens, c.start, end);
    }
    q := Some(Question(question, options, answerIndex));
  }

  /** The candidate `createKeywordFallback` tries in sentence `si`: the first
      token whose cleaned form is the lower-cased keyword, provided the
      lower-cased sentence mentions it. */
  function FallbackCandidate(keyword: String, sentence: String, si: nat): (r: Option<Candidate>)
    ensures r.Some? ==> r.value.length == 1 && r.value.start < |SplitSentenceTokens(sentence)|
    ensures r.Some? ==> SanitizeWord(SplitSentenceTokens(sentence)[r.value.start]) == Lower(keyword)
  {
    var lower := Lower(keyword);
    if !Contains(Lower(sentence), lower) then None
    else
      var tokens := SplitSentenceTokens(sentence);
      var cleaned := seq(|tokens|, k requires 0 <= k < |tokens| => SanitizeWord(tokens[k]));
      var index := FindIndex(cleaned, (tok: String) => tok == lower);
      if index == -1 then None
      else Some(Candidate(si, index, 1, StripToken(tokens[index]), lower, 1))
  }

  /** Sentence `si` yields a fallback question for the keyword. */
  predicate FallbackBuilds(keyword: String, sentence: String, si: nat, all: seq<Candidate>, keywords: seq<String>) {
    var c := FallbackCandidate(keyword, sentence, si);
    c.Some? && CanBuild(sentence, c.value, all, keywords)
  }

  /** One iteration of `createKeywordFallback`'s loop: sentence `si`. */
  method FallbackAt(keyword: String, sentence: String, si: nat, all: seq<Candidate>, keywords: seq<String>)
    returns (q: Option<Question>)
    ensures q.Some? <==> FallbackBuilds(keyword, sentence, si, all, keywords)
    ensures q.Some? ==> WellFormed(q.value)
    ensures q.Some? ==> q.value.question == QuestionText(sentence, FallbackCandidate(keyword, sentence, si).value)
    ensures q.Some? ==> Answers(q.value, FallbackCandidate(keyword, sentence, si).value, all, keywords)
  {
    var lower := Lower(keyword);
    if !Contains(Lower(sentence), lower) {
      return None;
    }
    var tokens := SplitSentenceTokens(sentence);
    var cleaned := seq(|tokens|, k requires 0 <= k < |tokens| => SanitizeWord(tokens[k]));
    var index := FindIndex(cleaned, (tok: String) => tok == lower);
    if index == -1 {
      return None;
    }
    var candidate := Candidate(si, index, 1, StripToken(tokens[index]), lower, 1);
    assert FallbackCandidate(keyword, sentence, si) == Some(candidate);
    q := BuildQuestion(sentence, candidate, all, keywords);
  }

  /** `q` is the question built around `keyword` in sentence `si`. */
  predicate FallbackQuestion(q: Question, keyword: String, sentences: seq<String>, si: nat,
                             all: seq<Candidate>, keywords: seq<String>) {
    && si < |sentences|
    && FallbackBuilds(keyword, sentences[si], si, all, keywords)
    && q.question == QuestionText(sentences[si], FallbackCandidate(keyword, sentences[si], si).value)
    && Answers(q, FallbackCandidate(keyword, sentences[si], si).value, all, keywords)
  }

  /** No sentence yields a fallback question for `keyword`. */
  predicate NoFallback(keyword: String, sentences: seq<String>, all: seq<Candidate>, keywords: seq<String>) {
    forall si :: 0 <= si < |sentences| ==> !FallbackBuilds(keyword, sentences[si], si, all, keywords)
  }

  /** No sentence before `si` yields a fallback question for `keyword`. */
  predicate NoneBefore(keyword: String, sentences: seq<String>, si: nat, all: seq<Candidate>, keywords: seq<String>)
    requires si <= |sentences|
  {
    forall s :: 0 <= s < si ==> !FallbackBuilds(keyword, sentences[s], s, all, keywords)
  }

  /** `q` is the fallback question for `keyword`: the one built in the first
      sentence that yields one. */
  predicate FallbackFor(q: Question, keyword: String, sentences: seq<String>, all: seq<Candidate>, keywords: seq<String>) {
    exists si: nat :: si < |sentences| && FallbackQuestion(q, keyword, sentences, si, all, keywords)
                      && NoneBefore(keyword, sentences, si, all, keywords)
  }

  lemma NoFallbackYet(keyword: String, sentences: seq<String>, all: seq<Candidate>, keywords: seq<String>, n: nat)
    requires n < |sentences|
    requires forall s :: 0 <= s < n ==> !FallbackBuilds(keyword, sentences[s], s, all, keywords)
    requires !FallbackBuilds(keyword, sentences[n], n, all, keywords)
    ensures forall s :: 0 <= s < n + 1 ==> !FallbackBuilds(keyword, sentences[s], s, all, keywords)
  {
  }

  /** `createKeywordFallback`: the question of the first sentence that yields one. */
  method KeywordFallback(keyword: String, sentences: seq<String>, all: seq<Candidate>, keywords: seq<String>)
    returns (q: Option<Question>)
    ensures q.None? <==> NoFallback(keyword, sentences, all, keywords)
    ensures q.Some? ==> WellFormed(q.value) && FallbackFor(q.value, keyword, sentences, all, keywords)
  {
    var sentenceIndex := 0;
    while sentenceIndex < |sentences|
      invariant 0 <= sentenceIndex <= |sentences|
      invariant forall s :: 0 <= s < sentenceIndex ==> !FallbackBuilds(keyword, sentences[s], s, all, keywords)
    {
      var question := FallbackAt(keyword, sentences[sentenceIndex], sentenceIndex, all, keywords);
      if question.Some? {
        assert FallbackQuestion(question.value, keyword, sentences, sentenceIndex, all, keywords);
        return question;
      }
      NoFallbackYet(keyword, sentences, all, keywords, sentenceIndex);
      sentenceIndex := sentenceIndex + 1;
    }
    return None;
  }
}
