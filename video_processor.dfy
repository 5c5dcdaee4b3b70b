/** Video composition: each analysed sentence becomes one clip (downloaded footage brought to a
    standard length, or a 3-second placeholder), the clips get fade transitions, and the result
    is joined and laid under the voiceover. Clips are records of where they come from, how long
    they last and which fades they carry; the frames themselves are not modelled. */
module VideoProcessor {
  import opened Wrappers
  import opened Config
  import opened Media
  import opened NlpAnalyzer

  /** A clip length in seconds; footage that loads has a positive duration. */
  type Seconds = r: real | r > 0.0 witness 1.0

  function RMin(a: real, b: real): real { if a <= b then a else b }

  /** The length short footage is stretched to: 4 seconds, unless the clip cap is lower. */
  const ShortClipTarget: real := RMin(MAX_CLIP_DURATION, 4.0)

  /** Length of the text placeholder used when no footage is available. */
  const PlaceholderSeconds: real := 3.0

  /** Fade length `create_video` asks for. */
  const TransitionSeconds: real := 0.3

  // ---------------------------------------------------------------------------
  // Duration normalisation

  /** How footage of natural length d is brought to a usable length: cut at `end`, repeated
      `count` times and cut at `cut`, or replayed at `factor` times normal speed. */
  datatype Edit = Cut(end: real) | Loop(count: int, cut: real) | Speed(factor: real)

  /** The three-way rule on the natural duration. */
  function Normalize(d: Seconds): Edit
  {
    if d < 3.0 then
      if d < 1.0 then Speed(d / ShortClipTarget)
      else Loop((ShortClipTarget / d).Floor + 1, ShortClipTarget)
    else Cut(RMin(MAX_CLIP_DURATION, d))
  }

  /** Length after an edit: a cut lasts up to its end, a loop up to its cut, and playing at
      speed f divides the length by f. */
  function EditedDuration(d: Seconds, e: Edit): real
    requires e.Speed? ==> e.factor > 0.0
  {
    match e
    case Cut(end) => end
    case Loop(_, cut) => cut
    case Speed(f) => d / f
  }

  /** Footage of at least 3 seconds is cut at the clip cap or at its own end, whichever comes
      first; the cut lies within the footage. */
  lemma NormalizeLong(d: Seconds)
    requires d >= 3.0
    ensures Normalize(d).Cut?
    ensures Normalize(d).end <= d && Normalize(d).end <= MAX_CLIP_DURATION
    ensures Normalize(d).end == d || Normalize(d).end == MAX_CLIP_DURATION
  {
  }

  /** Footage of 1 to 3 seconds is repeated floor(target/d) + 1 times, which is strictly longer
      than the target, and then cut at the target. */
  lemma NormalizeLoop(d: Seconds)
    requires 1.0 <= d < 3.0
    ensures Normalize(d).Loop?
    ensures Normalize(d).count == (ShortClipTarget / d).Floor + 1 >= 2
    ensures Normalize(d).count as real * d > ShortClipTarget
    ensures Normalize(d).cut == ShortClipTarget == 4.0
  {
    var x := ShortClipTarget / d;
    var n := x.Floor + 1;
    assert x * d == ShortClipTarget;
    assert n as real > x;
    assert n as real * d > x * d by {
      assert (n as real - x) * d > 0.0;
    }
  }

  /** Footage under a second is slowed by factor d/target, which makes it last exactly the
      target. */
  lemma NormalizeSpeed(d: Seconds)
    requires d < 1.0
    ensures Normalize(d) == Speed(d / ShortClipTarget)
    ensures 0.0 < Normalize(d).factor < 1.0
    ensures EditedDuration(d, Normalize(d)) == ShortClipTarget
  {
    var f := d / ShortClipTarget;
    assert f * ShortClipTarget == d;
    assert d / f == ShortClipTarget;
  }

  /** Every normalised clip lasts between 3 and 5 seconds. */
  lemma NormalizedInRange(d: Seconds)
    ensures Normalize(d).Speed? ==> Normalize(d).factor > 0.0
    ensures 3.0 <= EditedDuration(d, Normalize(d)) <= MAX_CLIP_DURATION
  {
    if d < 1.0 {
      NormalizeSpeed(d);
    }
  }

  // ---------------------------------------------------------------------------
  // Clips and transitions

  datatype Fade = FadeIn(seconds: real) | FadeOut(seconds: real)

  /** Where a clip's frames come from. */
  datatype Source = Footage(video: VideoInfo, natural: Seconds, edit: Edit) | Placeholder(text: string)

  datatype Clip = Clip(source: Source, duration: real, fades: seq<Fade>)

  /** Downloaded footage of natural length d, normalised. */
  function FootageClip(v: VideoInfo, d: Seconds): (c: Clip)
    ensures 3.0 <= c.duration <= MAX_CLIP_DURATION && c.fades == []
  {
    NormalizedInRange(d);
    var e := Normalize(d);
    Clip(Footage(v, d, e), EditedDuration(d, e), [])
  }

  /** The black card showing the sentence, used when there is no footage. */
  function PlaceholderClip(text: string): (c: Clip)
    ensures c.duration == PlaceholderSeconds && c.fades == []
  {
    Clip(Placeholder(text), PlaceholderSeconds, [])
  }

  /** The fades clip i of n receives: the first fades in, the last fades out, the others both. */
  function TransitionFades(i: nat, n: nat, t: real): seq<Fade>
  {
    if i == 0 then [FadeIn(t)] else if i == n - 1 then [FadeOut(t)] else [FadeIn(t), FadeOut(t)]
  }

  /** With two or more clips, a clip fades in exactly when it is not the last, and fades out
      exactly when it is not the first, always for the same length. */
  lemma TransitionFadesIff(i: nat, n: nat, t: real)
    requires 2 <= n && i < n
    ensures FadeIn(t) in TransitionFades(i, n, t) <==> i < n - 1
    ensures FadeOut(t) in TransitionFades(i, n, t) <==> i > 0
    ensures forall f <- TransitionFades(i, n, t) :: f.seconds == t
  {
  }

  /** The clip list after transitions: unchanged when there are fewer than two clips. */
  function Transitioned(clips: seq<Clip>, t: real): (r: seq<Clip>)
    ensures |r| == |clips|
    ensures forall i :: 0 <= i < |clips| ==> r[i].source == clips[i].source && r[i].duration == clips[i].duration
  {
    if |clips| <= 1 then clips
    else
      seq(|clips|, i requires 0 <= i < |clips| =>
        clips[i].(fades := clips[i].fades + TransitionFades(i, |clips|, t)))
  }

  /** Sum of the clip lengths: the length of their concatenation. */
  function TotalDuration(clips: seq<Clip>): real
  {
    if clips == [] then 0.0 else TotalDuration(clips[..|clips| - 1]) + clips[|clips| - 1].duration
  }

  /** Clip lists whose lengths agree one for one have the same total. */
  lemma {:induction false} TotalDurationSameLengths(a: seq<Clip>, b: seq<Clip>)
    requires |a| == |b| && forall i :: 0 <= i < |a| ==> a[i].duration == b[i].duration
    ensures TotalDuration(a) == TotalDuration(b)
  {
    if a != [] {
      TotalDurationSameLengths(a[..|a| - 1], b[..|b| - 1]);
    }
  }

  /** Fades do not change the length of the joined video. */
  lemma TransitionsKeepTotal(clips: seq<Clip>, t: real)
    ensures TotalDuration(Transitioned(clips, t)) == TotalDuration(clips)
  {
    TotalDurationSameLengths(Transitioned(clips, t), clips);
  }

  /** Adds the fades clip by clip. */
  method AddTransitions(clips: seq<Clip>, t: real) returns (out: seq<Clip>)
    ensures out == Transitioned(clips, t)
  {
    if |clips| <= 1 {
      return clips;
    }
    out := [];
    var i := 0;
    while i < |clips|
      invariant 0 <= i <= |clips|
      invariant |out| == i
      invariant forall j :: 0 <= j < i ==> out[j] == clips[j].(fades := clips[j].fades + TransitionFades(j, |clips|, t))
    {
      var clip := clips[i];
      if i == 0 {
        clip := clip.(fades := clip.fades + [FadeIn(t)]);
      } else if i == |clips| - 1 {
        clip := clip.(fades := clip.fades + [FadeOut(t)]);
      } else {
        clip := clip.(fades := clip.fades + [FadeIn(t)]);
        clip := clip.(fades := clip.fades + [FadeOut(t)]);
        assert clip.fades == clips[i].fades + [FadeIn(t), FadeOut(t)];
      }
      out := out + [clip];
      i := i + 1;
    }
  }

  // ---------------------------------------------------------------------------
  // Composition

  /** What fetching a search hit yields: nothing (the download failed), a file the video
      reader rejects, or footage of a given length. */
  datatype Fetch = NotDownloaded | Unreadable | Loaded(duration: Seconds)

  /** Sentence i's footage, if any, can be read: the search finds nothing, or the first hit's
      file either fails to download or loads. */
  predicate SceneLoads(i: nat, a: SentenceAnalysis, search: (nat, seq<string>) -> seq<VideoInfo>,
                       download: (nat, VideoInfo) -> Fetch)
  {
    var videos := search(i, a.keywords);
    videos == [] || !download(i, videos[0]).Unreadable?
  }

  predicate AllScenesLoad(analyses: seq<SentenceAnalysis>, search: (nat, seq<string>) -> seq<VideoInfo>,
                          download: (nat, VideoInfo) -> Fetch)
  {
    forall i :: 0 <= i < |analyses| ==> SceneLoads(i, analyses[i], search, download)
  }

  /** The clip for sentence i: footage from the first search hit when it downloads, the
      placeholder when the search finds nothing or the download fails. `search` stands for the
      clip library's search as run for sentence i (its random fallback may answer differently
      for each sentence), and `download` for fetching the i-th clip file and reading it. */
  function SceneClip(i: nat, a: SentenceAnalysis, search: (nat, seq<string>) -> seq<VideoInfo>,
                     download: (nat, VideoInfo) -> Fetch): Clip
    requires SceneLoads(i, a, search, download)
  {
    var videos := search(i, a.keywords);
    if videos == [] then PlaceholderClip(a.sentence)
    else match download(i, videos[0])
      case NotDownloaded => PlaceholderClip(a.sentence)
      case Loaded(d) => FootageClip(videos[0], d)
  }

  function SceneClips(analyses: seq<SentenceAnalysis>, search: (nat, seq<string>) -> seq<VideoInfo>,
                      download: (nat, VideoInfo) -> Fetch): (r: seq<Clip>)
    requires AllScenesLoad(analyses, search, download)
    ensures |r| == |analyses|
  {
    seq(|analyses|, i requires 0 <= i < |analyses| => SceneClip(i, analyses[i], search, download))
  }

  /** A scene gets the placeholder exactly when its search is empty or its download fails;
      otherwise it shows the first hit. Either way it lasts 3 to 5 seconds. */
  lemma SceneClipCases(i: nat, a: SentenceAnalysis, search: (nat, seq<string>) -> seq<VideoInfo>,
                       download: (nat, VideoInfo) -> Fetch)
    requires SceneLoads(i, a, search, download)
    ensures var c := SceneClip(i, a, search, download);
      && (c.source.Placeholder? <==> search(i, a.keywords) == [] || download(i, search(i, a.keywords)[0]).NotDownloaded?)
      && (c.source.Placeholder? ==> c.source.text == a.sentence)
      && (c.source.Footage? ==> c.source.video == search(i, a.keywords)[0])
      && 3.0 <= c.duration <= MAX_CLIP_DURATION
  {
  }

  /** The soundtrack: the voiceover when it loads, silence as long as the video otherwise. */
  datatype Audio = Voiceover(path: string) | Silence(seconds: real)

  /** What is written out: the clips in order, with their soundtrack. */
  datatype Render = Render(clips: seq<Clip>, audio: Audio)

  /** Builds the clip for every analysed sentence, adds transitions, chooses the soundtrack and
      writes the file. `voiceoverLoads` says whether the voiceover file exists and loads, and
      `writeOk` whether encoding succeeds; none is the failure result, which also comes when
      there is no sentence or some footage cannot be read. */
  method CreateVideo(analyses: seq<SentenceAnalysis>, voiceoverPath: string, voiceoverLoads: bool,
                     search: (nat, seq<string>) -> seq<VideoInfo>, download: (nat, VideoInfo) -> Fetch,
                     writeOk: bool)
    returns (r: Option<Render>)
    ensures r.Some? <==> analyses != [] && AllScenesLoad(analyses, search, download) && writeOk
    ensures r.Some? ==> r.value.clips == Transitioned(SceneClips(analyses, search, download), TransitionSeconds)
    ensures r.Some? ==> r.value.audio == (if voiceoverLoads then Voiceover(voiceoverPath)
                                         else Silence(TotalDuration(SceneClips(analyses, search, download))))
  {
    var clips: seq<Clip> := [];
    var i := 0;
    while i < |analyses|
      invariant 0 <= i <= |analyses|
      invariant |clips| == i
      invariant forall j :: 0 <= j < i ==> SceneLoads(j, analyses[j], search, download)
      invariant forall j :: 0 <= j < i ==> clips[j] == SceneClip(j, analyses[j], search, download)
    {
      var analysis := analyses[i];
      var videos := search(i, analysis.keywords);
      var clip: Clip;
      if videos != [] {
        var fetched := download(i, videos[0]);
        match fetched {
          case NotDownloaded =>
            clip := PlaceholderClip(analysis.sentence);
          case Unreadable =>
            assert !SceneLoads(i, analyses[i], search, download);
            return None;
          case Loaded(d) =>
            clip := FootageClip(videos[0], d);
        }
      } else {
        clip := PlaceholderClip(analysis.sentence);
      }
      clips := clips + [clip];
      i := i + 1;
    }
    assert clips == SceneClips(analyses, search, download);
    if clips == [] {
      return None;
    }
    var withTransitions := AddTransitions(clips, TransitionSeconds);
    TransitionsKeepTotal(clips, TransitionSeconds);
    var audio := if voiceoverLoads then Voiceover(voiceoverPath) else Silence(TotalDuration(withTransitions));
    if !writeOk {
      return None;
    }
    r := Some(Render(withTransitions, audio));
  }

  /** Every clip of a rendered video lasts 3 to 5 seconds, and there is one per sentence. */
  lemma RenderedClipsInRange(analyses: seq<SentenceAnalysis>, search: (nat, seq<string>) -> seq<VideoInfo>,
                             download: (nat, VideoInfo) -> Fetch)
    requires AllScenesLoad(analyses, search, download)
    ensures var clips := Transitioned(SceneClips(analyses, search, download), TransitionSeconds);
      |clips| == |analyses| && forall c <- clips :: 3.0 <= c.duration <= MAX_CLIP_DURATION
  {
    var scenes := SceneClips(analyses, search, download);
    var clips := Transitioned(scenes, TransitionSeconds);
    forall c | c in clips ensures 3.0 <= c.duration <= MAX_CLIP_DURATION {
      var i :| 0 <= i < |clips| && clips[i] == c;
      SceneClipCases(i, analyses[i], search, download);
    }
  }
}
