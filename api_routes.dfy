/** The two API endpoints built on the core: `generate-video`, which splits the script into
    scenes at " and ", analyses each scene and hands the scenes and their keywords to the
    generator; and `search-videos`, which runs the local clip search. Request bodies are the
    JSON members the handlers read (`None` when absent). */
module ApiRoutes {
  import opened Wrappers
  import opened Seqs
  import opened Text
  import opened Config
  import opened Media
  import opened NlpAnalyzer
  import opened LocalVideo

  const SceneSeparator: string := " and "

  /** A handler's answer: status 400 or 500 with a message, or the successful payload. */
  datatype Reply<+T> = BadRequest(message: string) | ServerError(message: string) | Ok(value: T)

  /** The error `generate_multi_scene_video` reports: its first statement imports
      `add_caption_to_video` as a module-level name of services.video_processor, but that module
      defines it only inside class `VideoProcessor`, so the import raises ImportError. */
  const CaptionImportError: string := "cannot import name 'add_caption_to_video' from 'services.video_processor'"

  /** What `generate-video` hands to the generator: the scenes, one keyword list per scene, and
      the text the generator is to narrate, the scenes joined by " and ". */
  datatype ScenePlan = ScenePlan(scenes: seq<string>, sceneKeywords: seq<seq<string>>, narration: string)

  // ---------------------------------------------------------------------------
  // Scenes

  /** The scenes of a script: its " and "-separated parts, stripped, blank ones dropped. */
  function Scenes(script: string): (r: seq<string>)
    ensures forall i :: 0 <= i < |r| ==> IsStripped(r[i])
  {
    StripNonBlank(SplitOn(script, SceneSeparator))
  }

  /** No scene contains the separator. */
  lemma ScenesFreeOfSeparator(script: string)
    ensures forall i :: 0 <= i < |Scenes(script)| ==> !Contains(Scenes(script)[i], SceneSeparator)
  {
    var parts := SplitOn(script, SceneSeparator);
    var scenes := Scenes(script);
    SplitOnPartsFree(script, SceneSeparator);
    forall i | 0 <= i < |scenes| ensures !Contains(scenes[i], SceneSeparator) {
      StripNonBlankFrom(parts, i);
      var j :| 0 <= j < |parts| && scenes[i] == Strip(parts[j]);
      assert parts[j] in parts;
      StripKeepsAbsent(parts[j], SceneSeparator);
    }
  }

  /** A script that is not blank once stripped has at least one scene. */
  lemma StrippedScriptHasScene(text: string)
    requires IsStripped(text)
    ensures Scenes(text) != []
  {
    var parts := SplitOn(text, SceneSeparator);
    assert text[0] != SceneSeparator[0];
    assert !OccursAt(text, SceneSeparator, 0);
    var first := parts[0];
    assert first != [] && first[0] == text[0];
    assert !AllSpace(first);
    StripNonBlankNonEmpty(parts, 0);
  }

  predicate EndsWithAnd(s: string)
  {
    |s| >= 4 && s[|s| - 4..] == " and"
  }

  /** In `p + " and " + rest`, the first separator is the one after `p`, provided `p` does not
      contain the separator, does not end with a space and does not end with " and". */
  lemma FirstSeparatorAfter(p: string, rest: string)
    requires p != [] && !IsSpace(p[|p| - 1]) && !Contains(p, SceneSeparator) && !EndsWithAnd(p)
    ensures IndexOf(p + SceneSeparator + rest, SceneSeparator) == Some(|p|)
  {
    var sep := SceneSeparator;
    var s := p + sep + rest;
    assert s[|p|..|p| + 5] == sep;
    assert s[|p|] == ' ';
    forall j | 0 <= j < |p| ensures !OccursAt(s, sep, j) {
      if j + 5 <= |p| {
        assert s[j..j + 5] == p[j..j + 5];
        assert !OccursAt(p, sep, j);
      } else {
        assert s[j..j + 5][|p| - j] == s[|p|];
        assert sep[1] == 'a' && sep[2] == 'n' && sep[3] == 'd' && sep[..4] == " and";
        if j == |p| - 4 {
          assert s[j..j + 4] == p[|p| - 4..];
          assert s[j..j + 4] == s[j..j + 5][..4];
        }
      }
    }
    IndexOfIs(s, sep, |p|);
  }

  /** Parts that are stripped and free of the separator, none but the last ending in " and",
      split back out of their join. */
  lemma {:induction false} SplitJoinedParts(parts: seq<string>)
    requires parts != []
    requires forall i :: 0 <= i < |parts| ==> IsStripped(parts[i]) && !Contains(parts[i], SceneSeparator)
    requires forall i :: 0 <= i < |parts| - 1 ==> !EndsWithAnd(parts[i])
    ensures SplitOn(Join(SceneSeparator, parts), SceneSeparator) == parts
  {
    var sep := SceneSeparator;
    if |parts| == 1 {
      assert Join(sep, parts) == parts[0];
    } else {
      var p := parts[0];
      var rest := parts[1..];
      assert [p] + rest == parts;
      JoinCons(sep, p, rest);
      var tail := Join(sep, rest);
      var s := p + sep + tail;
      FirstSeparatorAfter(p, tail);
      SplitOnStep(s, sep, |p|);
      assert s[..|p|] == p;
      assert s[|p| + |sep|..] == tail;
      SplitJoinedParts(rest);
    }
  }

  /** Under the same conditions, the scenes of the joined text are the parts themselves. */
  lemma ScenesOfJoin(parts: seq<string>)
    requires parts != []
    requires forall i :: 0 <= i < |parts| ==> IsStripped(parts[i]) && !Contains(parts[i], SceneSeparator)
    requires forall i :: 0 <= i < |parts| - 1 ==> !EndsWithAnd(parts[i])
    ensures Scenes(Join(SceneSeparator, parts)) == parts
  {
    SplitJoinedParts(parts);
    StripNonBlankOfStripped(parts);
  }

  /** The narration splits back into the scenes it was joined from, unless a scene other than
      the last ends in " and". */
  lemma NarrationRoundTrip(script: string)
    requires forall i :: 0 <= i < |Scenes(script)| - 1 ==> !EndsWithAnd(Scenes(script)[i])
    ensures Scenes(Join(SceneSeparator, Scenes(script))) == Scenes(script)
  {
    var scenes := Scenes(script);
    if scenes == [] {
      assert SplitOn([], SceneSeparator) == [[]];
    } else {
      ScenesFreeOfSeparator(script);
      ScenesOfJoin(scenes);
    }
  }

  /** A text without "and" does not end in " and". */
  lemma WithoutAndNotEndingInAnd(s: string)
    requires !Contains(s, "and")
    ensures !EndsWithAnd(s)
  {
    if EndsWithAnd(s) {
      var k := |s| - 3;
      assert s[k..k + 3] == s[|s| - 4..][1..];
      OccurrenceContained(s, "and", k);
    }
  }

  /** In particular, when no scene contains the word fragment "and", splitting the narration
      at " and " gives back the scenes. */
  lemma NarrationSplitsIntoScenes(script: string)
    requires forall i :: 0 <= i < |Scenes(script)| ==> !Contains(Scenes(script)[i], "and")
    ensures Scenes(script) != [] ==> SplitOn(Join(SceneSeparator, Scenes(script)), SceneSeparator) == Scenes(script)
  {
    var scenes := Scenes(script);
    if scenes != [] {
      ScenesFreeOfSeparator(script);
      forall i | 0 <= i < |scenes| ensures !EndsWithAnd(scenes[i]) {
        WithoutAndNotEndingInAnd(scenes[i]);
      }
      assert forall i :: 0 <= i < |scenes| ==> IsStripped(scenes[i]) && !Contains(scenes[i], SceneSeparator);
      SplitJoinedParts(scenes);
    }
  }

  // ---------------------------------------------------------------------------
  // Scene keywords

  /** The keywords of all analysed sentences, concatenated in order. */
  function Flatten(analysis: seq<SentenceAnalysis>): seq<string>
  {
    if analysis == [] then [] else Flatten(analysis[..|analysis| - 1]) + analysis[|analysis| - 1].keywords
  }

  /** A keyword is in the flattened list exactly when some sentence has it. */
  lemma {:induction false} FlattenIff(analysis: seq<SentenceAnalysis>, k: string)
    ensures k in Flatten(analysis) <==> exists i :: 0 <= i < |analysis| && k in analysis[i].keywords
  {
    if analysis != [] {
      var n := |analysis| - 1;
      var init := analysis[..n];
      FlattenIff(init, k);
      assert forall i :: 0 <= i < n ==> init[i] == analysis[i];
    }
  }

  /** Gathers the keywords of every sentence of a scene. */
  method FlattenKeywords(analysis: seq<SentenceAnalysis>) returns (keywords: seq<string>)
    ensures keywords == Flatten(analysis)
  {
    keywords := [];
    var i := 0;
    while i < |analysis|
      invariant 0 <= i <= |analysis|
      invariant keywords == Flatten(analysis[..i])
    {
      assert analysis[..i + 1][..i] == analysis[..i];
      keywords := keywords + analysis[i].keywords;
      i := i + 1;
    }
    assert analysis[..i] == analysis;
  }

  /** The `script` member, or the empty text when absent. */
  function ScriptText(script: Option<string>): string
  {
    if script.Some? then script.value else []
  }

  /** `generate-video` up to the hand-off to the generator, as intended: rejects a blank
      script, otherwise analyses each scene (`analyses` records the analysis of each) and lists
      its keywords without duplicates, in some order, ready for the generator. */
  method GenerateVideo(nlp: string -> Doc, script: Option<string>)
    returns (r: Reply<ScenePlan>, ghost analyses: seq<seq<SentenceAnalysis>>)
    ensures r.BadRequest? <==> Strip(ScriptText(script)) == []
    ensures r.Ok? <==> Strip(ScriptText(script)) != []
    ensures r.BadRequest? ==> r.message == "Script is required"
    ensures r.Ok? ==>
      && r.value.scenes == Scenes(Strip(ScriptText(script)))
      && r.value.scenes != []
      && |r.value.sceneKeywords| == |r.value.scenes| == |analyses|
      && (forall i :: 0 <= i < |analyses| ==>
            IsAnalysisOf(analyses[i], nlp, r.value.scenes[i])
            && IsDedupOf(r.value.sceneKeywords[i], Flatten(analyses[i])))
      && r.value.narration == Join(SceneSeparator, r.value.scenes)
  {
    analyses := [];
    var text := Strip(ScriptText(script));
    if text == [] {
      return BadRequest("Script is required"), analyses;
    }
    var scenes := Scenes(text);
    StrippedScriptHasScene(text);
    var sceneKeywords: seq<seq<string>> := [];
    var i := 0;
    while i < |scenes|
      invariant 0 <= i <= |scenes|
      invariant |sceneKeywords| == i == |analyses|
      invariant forall j :: 0 <= j < i ==>
        IsAnalysisOf(analyses[j], nlp, scenes[j]) && IsDedupOf(sceneKeywords[j], Flatten(analyses[j]))
    {
      var analysis := AnalyzeScript(nlp, scenes[i]);
      var keywords := FlattenKeywords(analysis);
      assert IsDedupOf(Dedup(keywords), keywords);
      var unique: seq<string> :| IsDedupOf(unique, keywords);
      sceneKeywords := sceneKeywords + [unique];
      analyses := analyses + [analysis];
      i := i + 1;
    }
    r := Ok(ScenePlan(scenes, sceneKeywords, Join(SceneSeparator, scenes)));
  }

  /** `generate-video` as written: the generator's import of `add_caption_to_video` fails
      before any scene is searched, the generator reports that failure, and the route answers
      500 with its message. No script ever yields a video. */
  method GenerateVideoAsWritten(nlp: string -> Doc, script: Option<string>) returns (r: Reply<ScenePlan>)
    ensures !r.Ok?
    ensures r.BadRequest? <==> Strip(ScriptText(script)) == []
    ensures r.BadRequest? ==> r.message == "Script is required"
    ensures r.ServerError? ==> r.message == CaptionImportError
  {
    var plan;
    ghost var analyses;
    plan, analyses := GenerateVideo(nlp, script);
    if plan.Ok? {
      r := ServerError(CaptionImportError);
    } else {
      r := plan;
    }
  }

  // ---------------------------------------------------------------------------
  // Search

  /** `search-videos`: rejects an absent or empty keyword list, otherwise runs the local search
      with its default size. For a list of string keywords the search cannot fail with that size; `picked` records the
      sample's indices when no file scores. */
  method SearchVideos(service: LocalVideoService, keywords: Option<seq<string>>)
    returns (r: Reply<seq<VideoInfo>>, ghost picked: seq<nat>)
    ensures r.BadRequest? <==> keywords.None? || keywords.value == []
    ensures r.BadRequest? ==> r.message == "Keywords are required"
    ensures !r.ServerError?
    ensures r.Ok? ==> |r.value| <= LOCAL_MAX_RESULTS
    ensures r.Ok? && service.availableVideos == [] ==> r.value == []
    ensures r.Ok? && ScoredEntries(keywords.value, service.availableVideos) != [] ==>
      r.value == FormatAll(Items(TopScored(keywords.value, service.availableVideos, LOCAL_MAX_RESULTS)))
    ensures r.Ok? && service.availableVideos != [] && ScoredEntries(keywords.value, service.availableVideos) == [] ==>
      && IsSample(picked, |service.availableVideos|, Min(LOCAL_MAX_RESULTS, |service.availableVideos|))
      && r.value == FormatAll(Pick(service.availableVideos, picked))
  {
    picked := [];
    if keywords.None? || keywords.value == [] {
      return BadRequest("Keywords are required"), picked;
    }
    var kw := keywords.value;
    var found;
    found, picked := service.SearchStockVideos(kw, None);
    assert EffectiveMax(None) == LOCAL_MAX_RESULTS;
    if service.availableVideos == [] {
      assert ScoredEntries(kw, service.availableVideos) == [];
    } else if ScoredEntries(kw, service.availableVideos) != [] {
      TopScoredShape(kw, service.availableVideos, LOCAL_MAX_RESULTS);
    } else {
      assert Min(LOCAL_MAX_RESULTS, |service.availableVideos|) >= 0;
    }
    r := Ok(found.value);
  }
}
