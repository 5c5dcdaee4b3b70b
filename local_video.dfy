/** The local clip library: the catalogue scanned from the videos directory, and the keyword
    search that scores file names, ranks them and falls back to a random pick. */
module LocalVideo {
  import opened Wrappers
  import opened Seqs
  import opened Text
  import opened Config
  import opened Media
  import opened LocalVideoScoring

  // ---------------------------------------------------------------------------
  // The catalogue

  /** One entry of the videos directory listing: its name, whether it is a regular file, and
      its size in bytes. */
  datatype DirEntry = DirEntry(name: string, isFile: bool, size: nat)

  /** A catalogued clip. */
  datatype CatalogEntry = CatalogEntry(path: string, filename: string, size: nat, source: string)

  /** The accepted extensions, compared after lowering the file's suffix. */
  const VideoSuffixes: seq<string> := [".mp4", ".avi", ".mov", ".mkv"]

  /** Position of the last '.' of `s`. */
  function LastDot(s: string): (r: Option<nat>)
    ensures r.Some? ==> r.value < |s| && s[r.value] == '.'
    ensures r.Some? ==> forall j :: r.value < j < |s| ==> s[j] != '.'
    ensures r.None? ==> forall j :: 0 <= j < |s| ==> s[j] != '.'
  {
    if s == [] then None
    else if s[|s| - 1] == '.' then Some(|s| - 1)
    else LastDot(s[..|s| - 1])
  }

  /** The last dot is at `i` when there is one there and none after it. */
  lemma {:induction false} LastDotIs(s: string, i: nat)
    requires i < |s| && s[i] == '.' && forall j :: i < j < |s| ==> s[j] != '.'
    ensures LastDot(s) == Some(i)
  {
    if s[|s| - 1] != '.' {
      LastDotIs(s[..|s| - 1], i);
    }
  }

  /** pathlib's `suffix`: the name from its last dot on, or empty when there is no dot or the
      last dot is the name's first or last character. */
  function Suffix(name: string): (r: string)
    ensures r == [] || (|r| >= 2 && |r| < |name| && r == name[|name| - |r|..])
    ensures r != [] ==> r[0] == '.' && forall j :: 0 < j < |r| ==> r[j] != '.'
    ensures LastDot(name).Some? && 0 < LastDot(name).value < |name| - 1 ==> r == name[LastDot(name).value..]
    ensures !(LastDot(name).Some? && 0 < LastDot(name).value < |name| - 1) ==> r == []
  {
    match LastDot(name)
    case None => []
    case Some(i) => if 0 < i < |name| - 1 then name[i..] else []
  }

  /** A regular file whose suffix is one of the video extensions, in any case. */
  predicate IsVideoFile(e: DirEntry)
  {
    e.isFile && Lower(Suffix(e.name)) in VideoSuffixes
  }

  /** The record kept for a video file found in directory `dir`. */
  function EntryFor(dir: string, e: DirEntry): CatalogEntry
  {
    CatalogEntry(dir + "/" + e.name, e.name, e.size, "local")
  }

  /** The catalogue of a listing: its video files, in listing order. */
  function Catalogue(dir: string, listing: seq<DirEntry>): (c: seq<CatalogEntry>)
    ensures |c| <= |listing|
  {
    if listing == [] then []
    else
      var e := listing[|listing| - 1];
      Catalogue(dir, listing[..|listing| - 1]) + (if IsVideoFile(e) then [EntryFor(dir, e)] else [])
  }

  /** Unfolds the catalogue of a non-empty listing once. */
  lemma CatalogueLast(dir: string, listing: seq<DirEntry>)
    requires listing != []
    ensures var last := listing[|listing| - 1];
      Catalogue(dir, listing) == Catalogue(dir, listing[..|listing| - 1]) + (if IsVideoFile(last) then [EntryFor(dir, last)] else [])
  {
  }

  /** Every catalogued record comes from a listed video file. */
  lemma {:induction false} CatalogueSound(dir: string, listing: seq<DirEntry>, c: CatalogEntry) returns (k: nat)
    requires c in Catalogue(dir, listing)
    ensures k < |listing| && IsVideoFile(listing[k]) && c == EntryFor(dir, listing[k])
  {
    var init := listing[..|listing| - 1];
    CatalogueLast(dir, listing);
    if c in Catalogue(dir, init) {
      k := CatalogueSound(dir, init, c);
      assert init[k] == listing[k];
    } else {
      k := |listing| - 1;
    }
  }

  /** Every listed video file has its record in the catalogue. */
  lemma {:induction false} CatalogueComplete(dir: string, listing: seq<DirEntry>, k: int)
    requires 0 <= k < |listing| && IsVideoFile(listing[k])
    ensures EntryFor(dir, listing[k]) in Catalogue(dir, listing)
  {
    var init := listing[..|listing| - 1];
    CatalogueLast(dir, listing);
    if k < |listing| - 1 {
      assert init[k] == listing[k];
      CatalogueComplete(dir, init, k);
    }
  }

  /** A record is catalogued exactly when some listed video file produced it. */
  lemma CatalogueIff(dir: string, listing: seq<DirEntry>, c: CatalogEntry)
    ensures c in Catalogue(dir, listing) <==> exists e <- listing :: IsVideoFile(e) && c == EntryFor(dir, e)
  {
    if c in Catalogue(dir, listing) {
      var k := CatalogueSound(dir, listing, c);
      assert listing[k] in listing;
    }
    if exists e <- listing :: IsVideoFile(e) && c == EntryFor(dir, e) {
      var e :| e in listing && IsVideoFile(e) && c == EntryFor(dir, e);
      var k :| 0 <= k < |listing| && listing[k] == e;
      CatalogueComplete(dir, listing, k);
    }
  }

  /** Every catalogued record is a local one with a video extension. */
  lemma {:induction false} CatalogueIsLocalVideos(dir: string, listing: seq<DirEntry>)
    ensures forall c <- Catalogue(dir, listing) :: c.source == "local" && Lower(Suffix(c.filename)) in VideoSuffixes
  {
    if listing != [] {
      CatalogueIsLocalVideos(dir, listing[..|listing| - 1]);
    }
  }

  /** Extensions are matched whatever their case; a directory is never catalogued. */
  lemma ExtensionCaseIgnored()
    ensures IsVideoFile(DirEntry("Clip.MP4", true, 0))
    ensures !IsVideoFile(DirEntry("Clip.MP4", false, 0))
  {
    LastDotIs("Clip.MP4", 4);
    assert Suffix("Clip.MP4") == ".MP4";
    assert Lower(".MP4") == ".mp4";
  }

  /** Only the last suffix counts. */
  lemma OnlyLastSuffixCounts()
    ensures IsVideoFile(DirEntry("a.b.mkv", true, 0))
    ensures !IsVideoFile(DirEntry("clip.mp4.txt", true, 0))
  {
    LastDotIs("a.b.mkv", 3);
    assert Suffix("a.b.mkv") == ".mkv";
    LowerOfLower(".mkv");
    LastDotIs("clip.mp4.txt", 8);
    assert Suffix("clip.mp4.txt") == ".txt";
    LowerOfLower(".txt");
  }

  /** A dot that starts the name does not begin a suffix. */
  lemma LeadingDotIsNoSuffix()
    ensures !IsVideoFile(DirEntry(".mp4", true, 0))
  {
    LastDotIs(".mp4", 0);
  }

  // ---------------------------------------------------------------------------
  // The search's reference functions

  /** `if not max_results`: both a missing count and zero mean the configured default. */
  function EffectiveMax(maxResults: Option<int>): (m: int)
    ensures m != 0
    ensures maxResults.Some? && maxResults.value != 0 ==> m == maxResults.value
    ensures maxResults.None? || maxResults.value == 0 ==> m == LOCAL_MAX_RESULTS
  {
    if maxResults.None? || maxResults.value == 0 then LOCAL_MAX_RESULTS else maxResults.value
  }

  /** The score of a catalogued file: its name is lowered before matching. */
  function FileScore(keywords: seq<string>, v: CatalogEntry): nat
  {
    Score(keywords, Lower(v.filename))
  }

  /** The files with a positive score, with that score, in catalogue order. */
  function ScoredEntries(keywords: seq<string>, videos: seq<CatalogEntry>): (r: seq<Scored<CatalogEntry>>)
    ensures forall e <- r :: e.score > 0 && e.score == FileScore(keywords, e.item)
  {
    if videos == [] then []
    else
      var v := videos[|videos| - 1];
      var s := FileScore(keywords, v);
      ScoredEntries(keywords, videos[..|videos| - 1]) + (if s > 0 then [Scored(v, s)] else [])
  }

  /** A file is among the scored entries exactly when it is catalogued and scores above zero. */
  lemma {:induction false} ScoredEntriesIff(keywords: seq<string>, videos: seq<CatalogEntry>, v: CatalogEntry)
    ensures (exists e <- ScoredEntries(keywords, videos) :: e.item == v) <==> v in videos && FileScore(keywords, v) > 0
  {
    if videos != [] {
      var init := videos[..|videos| - 1];
      var last := videos[|videos| - 1];
      ScoredEntriesIff(keywords, init, v);
      assert videos == init + [last];
      var s := FileScore(keywords, last);
      if v == last && s > 0 {
        assert Scored(last, s) in ScoredEntries(keywords, videos);
      }
      if v in init && FileScore(keywords, v) > 0 {
        var e :| e in ScoredEntries(keywords, init) && e.item == v;
        assert e in ScoredEntries(keywords, videos);
      }
    }
  }

  /** The scored entries do not depend on the order of the keywords. */
  lemma {:induction false} ScoredEntriesPermutation(a: seq<string>, b: seq<string>, videos: seq<CatalogEntry>)
    requires multiset(a) == multiset(b)
    ensures ScoredEntries(a, videos) == ScoredEntries(b, videos)
  {
    if videos != [] {
      ScoredEntriesPermutation(a, b, videos[..|videos| - 1]);
      ScorePermutation(a, b, Lower(videos[|videos| - 1].filename));
    }
  }

  function Items(s: seq<Scored<CatalogEntry>>): (r: seq<CatalogEntry>)
    ensures |r| == |s| && forall i :: 0 <= i < |s| ==> r[i] == s[i].item
  {
    seq(|s|, i requires 0 <= i < |s| => s[i].item)
  }

  /** The record the search returns for a local file: a file URL, the standard frame size,
      a nominal 10 seconds and no preview. */
  function Format(v: CatalogEntry): (r: VideoInfo)
    ensures r.url == "file://" + v.path && r.path == Some(v.path) && r.filename == Some(v.filename)
    ensures r.width == Some(VIDEO_WIDTH) && r.height == Some(VIDEO_HEIGHT)
    ensures r.duration == Some(10) && r.preview.None? && r.source == "local"
  {
    VideoInfo("file://" + v.path, Some(v.path), Some(v.filename), Some(VIDEO_WIDTH), Some(VIDEO_HEIGHT),
      Some(10), None, "local")
  }

  function FormatAll(vs: seq<CatalogEntry>): (r: seq<VideoInfo>)
    ensures |r| == |vs| && forall i :: 0 <= i < |vs| ==> r[i] == Format(vs[i])
  {
    seq(|vs|, i requires 0 <= i < |vs| => Format(vs[i]))
  }

  /** `picked` is what `random.sample(range(n), k)` may return: k distinct indices below n. */
  predicate IsSample(picked: seq<nat>, n: nat, k: nat)
  {
    |picked| == k && Distinct(picked) && forall j :: 0 <= j < k ==> picked[j] < n
  }

  /** The first k indices form a sample whenever k <= n. */
  lemma FirstIndicesSample(n: nat, k: nat)
    requires k <= n
    ensures IsSample(seq(k, i => i), n, k)
  {
  }

  function Pick(videos: seq<CatalogEntry>, picked: seq<nat>): (r: seq<CatalogEntry>)
    requires forall j :: 0 <= j < |picked| ==> picked[j] < |videos|
    ensures |r| == |picked| && forall j :: 0 <= j < |picked| ==> r[j] == videos[picked[j]]
  {
    seq(|picked|, j requires 0 <= j < |picked| => videos[picked[j]])
  }

  /** `random.sample` refuses a negative sample size. */
  datatype SearchError = NegativeSampleSize

  // ---------------------------------------------------------------------------
  // Properties of the ranked answer

  /** The ranked answer: the best `m` scored files (Python's slice `[:m]`). */
  function TopScored(keywords: seq<string>, videos: seq<CatalogEntry>, m: int): seq<Scored<CatalogEntry>>
  {
    SliceTo(Rank(ScoredEntries(keywords, videos)), m)
  }

  /** Every file of the ranked answer scores above zero, and no file left out of it scores
      higher than one inside it. */
  lemma TopScoredAreBest(keywords: seq<string>, videos: seq<CatalogEntry>, m: int, v: CatalogEntry, i: nat)
    requires v in videos && i < |TopScored(keywords, videos, m)|
    requires FileScore(keywords, v) > TopScored(keywords, videos, m)[i].score
    ensures Scored(v, FileScore(keywords, v)) in TopScored(keywords, videos, m)
  {
    var scored := ScoredEntries(keywords, videos);
    var ranked := Rank(scored);
    var top := TopScored(keywords, videos, m);
    assert top[i] == ranked[i];
    assert top[i] in multiset(ranked);
    assert top[i].score > 0;
    ScoredEntriesIff(keywords, videos, v);
    var e :| e in scored && e.item == v;
    assert e == Scored(v, FileScore(keywords, v));
    assert e in multiset(ranked);
    var p :| 0 <= p < |ranked| && ranked[p] == e;
    assert p < |top|;
    assert top[p] == e;
  }

  /** The ranked answer holds only scored files, in descending score order, and as many as
      asked for or as there are. */
  lemma TopScoredShape(keywords: seq<string>, videos: seq<CatalogEntry>, m: int)
    requires m >= 0
    ensures |TopScored(keywords, videos, m)| == Min(m, |ScoredEntries(keywords, videos)|)
    ensures NonIncreasing(TopScored(keywords, videos, m))
    ensures forall e <- TopScored(keywords, videos, m) :: e.item in videos && e.score == FileScore(keywords, e.item) > 0
  {
    var scored := ScoredEntries(keywords, videos);
    var ranked := Rank(scored);
    var top := TopScored(keywords, videos, m);
    forall e | e in top ensures e.item in videos && e.score == FileScore(keywords, e.item) > 0 {
      assert e in ranked;
      assert e in multiset(scored);
      ScoredEntriesIff(keywords, videos, e.item);
    }
  }

  /** Reordering the keywords leaves the ranked answer unchanged. */
  lemma TopScoredIndependentOfKeywordOrder(a: seq<string>, b: seq<string>, videos: seq<CatalogEntry>, m: int)
    requires multiset(a) == multiset(b)
    ensures TopScored(a, videos, m) == TopScored(b, videos, m)
  {
    ScoredEntriesPermutation(a, b, videos);
  }

  /** For the keyword list ["cat", "playing"], a catalogue of a kitten clip and a car clip
      yields the kitten clip alone. */
  lemma KittenClipChosen(kitten: CatalogEntry, car: CatalogEntry, m: int)
    requires Contains(Lower(kitten.filename), "kitten")
    requires var fl := Lower(car.filename);
      fl != [] && (forall ch <- fl :: !IsSpace(ch)) && |fl| > 7
      && 'c' !in fl && 'k' !in fl && 'f' !in fl && 't' !in fl && 'y' !in fl
    requires m >= 1
    ensures Items(TopScored(["cat", "playing"], [kitten, car], m)) == [kitten]
  {
    var keywords := ["cat", "playing"];
    KittenBeatsCar(Lower(kitten.filename), Lower(car.filename));
    var s := FileScore(keywords, kitten);
    assert [kitten, car][..1] == [kitten] && [kitten][..0] == [];
    assert ScoredEntries(keywords, [kitten]) == [Scored(kitten, s)];
    assert ScoredEntries(keywords, [kitten, car]) == [Scored(kitten, s)];
    assert Rank([Scored(kitten, s)]) == [Scored(kitten, s)] by {
      assert [Scored(kitten, s)][..0] == [];
    }
  }

  // ---------------------------------------------------------------------------
  // The scoring loops

  /** Scans `related` in order and stops at the first token found in the file name. */
  method FindRelated(related: seq<string>, fl: string) returns (hit: bool)
    ensures hit <==> AnyRelatedIn(related, fl)
  {
    hit := false;
    var j := 0;
    while j < |related|
      invariant 0 <= j <= |related|
      invariant forall t :: 0 <= t < j ==> !Contains(fl, related[t])
    {
      if Contains(fl, related[j]) {
        hit := true;
        return;
      }
      j := j + 1;
    }
  }

  /** Scans the file name's words and stops at the first that overlaps the keyword. */
  method FindPartial(kl: string, fileWords: seq<string>) returns (hit: bool)
    ensures hit <==> PartialHit(kl, fileWords)
  {
    hit := false;
    var j := 0;
    while j < |fileWords|
      invariant 0 <= j <= |fileWords|
      invariant forall t :: 0 <= t < j ==> !(Contains(fileWords[t], kl) || Contains(kl, fileWords[t]))
    {
      if Contains(fileWords[j], kl) || Contains(kl, fileWords[j]) {
        hit := true;
        return;
      }
      j := j + 1;
    }
  }

  /** +8 for each keyword word found in the file name. */
  method CountWordHits(words: seq<string>, fl: string) returns (n: nat)
    ensures n == WordHits(words, fl)
  {
    n := 0;
    var i := 0;
    while i < |words|
      invariant 0 <= i <= |words|
      invariant n == WordHits(words[..i], fl)
    {
      assert words[..i + 1][..i] == words[..i];
      if Contains(fl, words[i]) {
        n := n + 1;
      }
      i := i + 1;
    }
    assert words[..i] == words;
  }

  /** Counts the keyword words that are table keys with a related token in the file name. */
  method CountMappedWordHits(words: seq<string>, fl: string) returns (n: nat)
    ensures n == MappedWordHits(words, fl)
  {
    n := 0;
    var i := 0;
    while i < |words|
      invariant 0 <= i <= |words|
      invariant n == MappedWordHits(words[..i], fl)
    {
      assert words[..i + 1][..i] == words[..i];
      if words[i] in KeywordMapping {
        var hit := FindRelated(KeywordMapping[words[i]], fl);
        if hit {
          n := n + 1;
        }
      }
      i := i + 1;
    }
    assert words[..i] == words;
  }

  /** The points one keyword earns against the lowered file name `fl`, rule by rule. */
  method ScoreKeyword(keyword: string, fl: string) returns (score: nat)
    ensures score == KeywordScore(keyword, fl)
  {
    var kl := Lower(keyword);
    var words := SplitWords(kl);
    var direct := DirectPoints(kl, fl);
    var wordHits := CountWordHits(words, fl);
    var kitten := KittenPoints(words, fl);
    var mapped := MappingPoints(kl, fl);
    var mappedHits := CountMappedWordHits(words, fl);
    var partial := PartialPoints(kl, fl);
    score := direct + 8 * wordHits + kitten + mapped + 5 * mappedHits + partial;
  }

  /** +10 when the whole lowered keyword occurs in the file name. A separate step so
      that ScoreKeyword's proof stays within the resource limit. */
  method DirectPoints(kl: string, fl: string) returns (points: nat)
    ensures points == DirectBonus(kl, fl)
  {
    points := 0;
    if Contains(fl, kl) {
      points := 10;
    }
  }

  /** +2 when some word of the file name overlaps the keyword. */
  method PartialPoints(kl: string, fl: string) returns (points: nat)
    ensures points == PartialBonus(kl, fl)
  {
    var hit := FindPartial(kl, SplitWords(fl));
    points := if hit then 2 else 0;
  }

  /** +15 when "cat" is a keyword word and the file name holds "kitten". A separate
      step so that ScoreKeyword's proof stays within the resource limit. */
  method KittenPoints(words: seq<string>, fl: string) returns (points: nat)
    ensures points == KittenBonus(words, fl)
  {
    points := 0;
    if "cat" in words && Contains(fl, "kitten") {
      points := 15;
    }
  }

  /** +5 when the keyword is a table key with a related token in the file name. */
  method MappingPoints(kl: string, fl: string) returns (points: nat)
    ensures points == MappingBonus(kl, fl)
  {
    points := 0;
    if kl in KeywordMapping {
      var hit := FindRelated(KeywordMapping[kl], fl);
      if hit {
        points := 5;
      }
    }
  }

  /** A file's score: the points of every keyword, added in list order. */
  method ScoreFile(keywords: seq<string>, fl: string) returns (score: nat)
    ensures score == Score(keywords, fl)
  {
    score := 0;
    var i := 0;
    while i < |keywords|
      invariant 0 <= i <= |keywords|
      invariant score == Score(keywords[..i], fl)
    {
      assert keywords[..i + 1][..i] == keywords[..i];
      var s := ScoreKeyword(keywords[i], fl);
      score := score + s;
      i := i + 1;
    }
    assert keywords[..i] == keywords;
  }

  /** `random.sample(range(n), k)`: any k distinct indices below n. */
  method SampleIndices(n: nat, k: nat) returns (picked: seq<nat>)
    requires k <= n
    ensures IsSample(picked, n, k)
  {
    FirstIndicesSample(n, k);
    picked :| IsSample(picked, n, k);
  }

  /** The records of the selected files, in selection order. */
  method FormatVideos(selected: seq<CatalogEntry>) returns (formatted: seq<VideoInfo>)
    ensures formatted == FormatAll(selected)
  {
    formatted := [];
    var j := 0;
    while j < |selected|
      invariant 0 <= j <= |selected|
      invariant formatted == FormatAll(selected[..j])
    {
      formatted := formatted + [Format(selected[j])];
      j := j + 1;
    }
    assert selected[..j] == selected;
  }

  // ---------------------------------------------------------------------------
  // The service

  class LocalVideoService {
    const videosDir: string
    var availableVideos: seq<CatalogEntry>

    /** Builds the catalogue; `dirExists` and `listing` stand for the file system's answer
        about the videos directory. */
    constructor (videosDir: string, dirExists: bool, listing: seq<DirEntry>)
      ensures this.videosDir == videosDir
      ensures availableVideos == (if dirExists then Catalogue(videosDir, listing) else [])
    {
      this.videosDir := videosDir;
      new;
      availableVideos := ScanVideos(dirExists, listing);
    }

    /** The video files of the directory, in listing order; none when it does not exist. */
    method ScanVideos(dirExists: bool, listing: seq<DirEntry>) returns (videos: seq<CatalogEntry>)
      ensures videos == (if dirExists then Catalogue(videosDir, listing) else [])
    {
      videos := [];
      if dirExists {
        var i := 0;
        while i < |listing|
          invariant 0 <= i <= |listing|
          invariant videos == Catalogue(videosDir, listing[..i])
        {
          assert listing[..i + 1][..i] == listing[..i];
          var e := listing[i];
          if e.isFile && Lower(Suffix(e.name)) in VideoSuffixes {
            videos := videos + [CatalogEntry(videosDir + "/" + e.name, e.name, e.size, "local")];
          }
          i := i + 1;
        }
        assert listing[..i] == listing;
      }
    }

    /** Scores every catalogued file and keeps those above zero, in catalogue order. */
    method ScoreCatalogue(keywords: seq<string>) returns (scored: seq<Scored<CatalogEntry>>)
      ensures scored == ScoredEntries(keywords, availableVideos)
    {
      scored := [];
      var i := 0;
      while i < |availableVideos|
        invariant 0 <= i <= |availableVideos|
        invariant scored == ScoredEntries(keywords, availableVideos[..i])
      {
        assert availableVideos[..i + 1][..i] == availableVideos[..i];
        var v := availableVideos[i];
        var score := ScoreFile(keywords, Lower(v.filename));
        if score > 0 {
          scored := scored + [Scored(v, score)];
        }
        i := i + 1;
      }
      assert availableVideos[..i] == availableVideos;
    }

    /** The keyword search: the best-scoring files, or a random sample when no file scores;
        `picked` records the sample's indices. */
    method SearchStockVideos(keywords: seq<string>, maxResults: Option<int>)
      returns (r: Result<seq<VideoInfo>, SearchError>, ghost picked: seq<nat>)
      ensures availableVideos == [] ==> r == Success([])
      ensures availableVideos != [] && ScoredEntries(keywords, availableVideos) != [] ==>
        r == Success(FormatAll(Items(TopScored(keywords, availableVideos, EffectiveMax(maxResults)))))
      ensures availableVideos != [] && ScoredEntries(keywords, availableVideos) == [] ==>
        var k := Min(EffectiveMax(maxResults), |availableVideos|);
        if k < 0 then r == Failure(NegativeSampleSize)
        else IsSample(picked, |availableVideos|, k) && r == Success(FormatAll(Pick(availableVideos, picked)))
    {
      picked := [];
      var m := EffectiveMax(maxResults);
      if availableVideos == [] {
        return Success([]), picked;
      }
      var scored := ScoreCatalogue(keywords);
      var selected: seq<CatalogEntry>;
      if scored == [] {
        var n := |availableVideos|;
        var k := Min(m, n);
        if k < 0 {
          return Failure(NegativeSampleSize), picked;
        }
        var sample := SampleIndices(n, k);
        picked := sample;
        selected := Pick(availableVideos, sample);
      } else {
        selected := Items(SliceTo(Rank(scored), m));
      }
      var formatted := FormatVideos(selected);
      r := Success(formatted);
    }

    /** One catalogued file chosen at random, or none when the catalogue is empty. */
    method GetRandomVideo() returns (r: Option<VideoInfo>, ghost index: nat)
      ensures r.None? <==> availableVideos == []
      ensures r.Some? ==> index < |availableVideos| && r.value == Format(availableVideos[index])
    {
      index := 0;
      if availableVideos == [] {
        return None, index;
      }
      var i: nat :| i < |availableVideos|;
      index := i;
      r := Some(Format(availableVideos[i]));
    }

    /** The file at `index`, or none when the index is outside the catalogue. */
    method GetVideoByIndex(index: int) returns (r: Option<VideoInfo>)
      ensures r.Some? <==> 0 <= index < |availableVideos|
      ensures r.Some? ==> r.value == Format(availableVideos[index])
    {
      if 0 <= index < |availableVideos| {
        r := Some(Format(availableVideos[index]));
      } else {
        r := None;
      }
    }

    method GetVideoCount() returns (n: nat)
      ensures n == |availableVideos|
    {
      n := |availableVideos|;
    }
  }
}
