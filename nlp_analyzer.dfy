/** Script analysis: sentences, and per sentence the content-word lemmas and noun phrases that
    serve as search keywords. The language model is a parameter: `nlp` maps a text to its
    parse (sentence texts, tagged tokens and noun chunks), as the model would. */
module NlpAnalyzer {
  import opened Seqs
  import opened Text
  import opened Config

  /** A tagged token: its coarse part-of-speech tag, whether it is a stop word, its lemma. */
  datatype Token = Token(text: string, pos: string, isStop: bool, lemmaText: string)

  /** What the language model produces for a text. */
  datatype Doc = Doc(sentences: seq<string>, tokens: seq<Token>, nounChunks: seq<string>)

  /** One analysed sentence. */
  datatype SentenceAnalysis = SentenceAnalysis(sentence: string, keywords: seq<string>)

  const ContentTags: seq<string> := ["NOUN", "VERB", "ADJ"]

  /** A noun, verb or adjective that is not a stop word. */
  predicate IsContentToken(t: Token)
  {
    t.pos in ContentTags && !t.isStop
  }

  /** No ASCII capital letter. */
  predicate IsLowercase(s: string)
  {
    forall c <- s :: !('A' <= c <= 'Z')
  }

  lemma LowerIsLowercase(s: string)
    ensures IsLowercase(Lower(s))
  {
    forall c | c in Lower(s) ensures !('A' <= c <= 'Z') {
      var i :| 0 <= i < |s| && Lower(s)[i] == c;
    }
  }

  /** The lowered lemmas of the content tokens, in token order. */
  function ContentLemmas(tokens: seq<Token>): (r: seq<string>)
    ensures |r| <= |tokens|
  {
    if tokens == [] then []
    else
      var t := tokens[|tokens| - 1];
      ContentLemmas(tokens[..|tokens| - 1]) + (if IsContentToken(t) then [Lower(t.lemmaText)] else [])
  }

  /** A string is a content lemma exactly when some content token lowers to it. */
  lemma {:induction false} ContentLemmasIff(tokens: seq<Token>, k: string)
    ensures k in ContentLemmas(tokens) <==> exists t <- tokens :: IsContentToken(t) && k == Lower(t.lemmaText)
  {
    if tokens != [] {
      var init := tokens[..|tokens| - 1];
      var last := tokens[|tokens| - 1];
      ContentLemmasIff(init, k);
      assert tokens == init + [last];
      if k in ContentLemmas(tokens) && k !in ContentLemmas(init) {
        assert IsContentToken(last) && k == Lower(last.lemmaText);
      }
    }
  }

  /** The noun chunks, lowered. */
  function NounPhrases(doc: Doc): (r: seq<string>)
    ensures |r| == |doc.nounChunks| && forall i :: 0 <= i < |r| ==> r[i] == Lower(doc.nounChunks[i])
  {
    seq(|doc.nounChunks|, i requires 0 <= i < |doc.nounChunks| => Lower(doc.nounChunks[i]))
  }

  /** Everything a sentence offers as a keyword, before de-duplication. */
  function Candidates(doc: Doc): seq<string>
  {
    ContentLemmas(doc.tokens) + NounPhrases(doc)
  }

  /** Every candidate keyword is in lower case. */
  lemma CandidatesLowercase(doc: Doc)
    ensures forall k <- Candidates(doc) :: IsLowercase(k)
  {
    forall k | k in Candidates(doc) ensures IsLowercase(k) {
      if k in ContentLemmas(doc.tokens) {
        ContentLemmasIff(doc.tokens, k);
        var t :| t in doc.tokens && IsContentToken(t) && k == Lower(t.lemmaText);
        LowerIsLowercase(t.lemmaText);
      } else {
        var i :| 0 <= i < |doc.nounChunks| && NounPhrases(doc)[i] == k;
        LowerIsLowercase(doc.nounChunks[i]);
      }
    }
  }

  /** `kw` is what `list(set(candidates))[:5]` may give: at most five distinct candidates,
      and all of them when there are at most five. */
  predicate IsKeywordListOf(kw: seq<string>, candidates: seq<string>)
  {
    && |kw| <= MAX_KEYWORDS_PER_SENTENCE
    && Distinct(kw)
    && (forall k <- kw :: k in candidates)
    && (|kw| == MAX_KEYWORDS_PER_SENTENCE || forall c <- candidates :: c in kw)
  }

  /** Truncating a duplicate-free listing gives a keyword list. */
  lemma DedupTruncated(all: seq<string>, candidates: seq<string>)
    requires IsDedupOf(all, candidates)
    ensures IsKeywordListOf(SliceTo(all, MAX_KEYWORDS_PER_SENTENCE), candidates)
  {
    var kw := SliceTo(all, MAX_KEYWORDS_PER_SENTENCE);
    forall k | k in kw ensures k in candidates {
      var i :| 0 <= i < |kw| && kw[i] == k;
      assert all[i] == k;
    }
    if |all| <= MAX_KEYWORDS_PER_SENTENCE {
      assert kw == all;
    }
  }

  /** A sentence and its keywords, as the model parses the sentence. */
  predicate IsSentenceAnalysis(a: SentenceAnalysis, nlp: string -> Doc, sentence: string)
  {
    a.sentence == sentence && IsKeywordListOf(a.keywords, Candidates(nlp(sentence)))
  }

  /** `analysis` has one entry per non-blank sentence of `script`, in order. */
  predicate IsAnalysisOf(analysis: seq<SentenceAnalysis>, nlp: string -> Doc, script: string)
  {
    var sentences := StripNonBlank(nlp(script).sentences);
    |analysis| == |sentences| && forall i :: 0 <= i < |analysis| ==> IsSentenceAnalysis(analysis[i], nlp, sentences[i])
  }

  /** The content lemmas of the tokens, collected in order. */
  method CollectLemmas(tokens: seq<Token>) returns (keywords: seq<string>)
    ensures keywords == ContentLemmas(tokens)
  {
    keywords := [];
    var i := 0;
    while i < |tokens|
      invariant 0 <= i <= |tokens|
      invariant keywords == ContentLemmas(tokens[..i])
    {
      assert tokens[..i + 1][..i] == tokens[..i];
      var t := tokens[i];
      if t.pos in ContentTags && !t.isStop {
        keywords := keywords + [Lower(t.lemmaText)];
      }
      i := i + 1;
    }
    assert tokens[..i] == tokens;
  }

  /** One sentence's keywords: lemmas and noun phrases, de-duplicated in some order, at most
      five. */
  method SentenceKeywords(nlp: string -> Doc, sentence: string) returns (kw: seq<string>)
    ensures IsKeywordListOf(kw, Candidates(nlp(sentence)))
  {
    var doc := nlp(sentence);
    var keywords := CollectLemmas(doc.tokens);
    var nounPhrases := NounPhrases(doc);
    var candidates := keywords + nounPhrases;
    assert IsDedupOf(Dedup(candidates), candidates);
    var all: seq<string> :| IsDedupOf(all, candidates);
    kw := SliceTo(all, MAX_KEYWORDS_PER_SENTENCE);
    DedupTruncated(all, candidates);
  }

  /** Analyses every non-blank sentence of the script. */
  method AnalyzeScript(nlp: string -> Doc, script: string) returns (analysis: seq<SentenceAnalysis>)
    ensures IsAnalysisOf(analysis, nlp, script)
  {
    var sentences := StripNonBlank(nlp(script).sentences);
    analysis := [];
    var i := 0;
    while i < |sentences|
      invariant 0 <= i <= |sentences|
      invariant |analysis| == i
      invariant forall j :: 0 <= j < i ==> IsSentenceAnalysis(analysis[j], nlp, sentences[j])
    {
      var kw := SentenceKeywords(nlp, sentences[i]);
      analysis := analysis + [SentenceAnalysis(sentences[i], kw)];
      i := i + 1;
    }
  }

  /** The distinct content lemmas of a text, in some order, without a cap. */
  method ExtractKeywords(nlp: string -> Doc, text: string) returns (kw: seq<string>)
    ensures IsDedupOf(kw, ContentLemmas(nlp(text).tokens))
  {
    var keywords := CollectLemmas(nlp(text).tokens);
    assert IsDedupOf(Dedup(keywords), keywords);
    kw :| IsDedupOf(kw, keywords);
  }
}
