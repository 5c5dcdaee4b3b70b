/** The stock-footage search: one request to the Pexels video search, and from each returned
    video the rendition that best fits the frame. Without an API key, and whenever the request
    or its answer goes wrong, the service answers with one fixed sample video instead. The HTTP
    client is a parameter: `http` maps a request to what the server answers. */
module StockVideo {
  import opened Wrappers
  import opened Seqs
  import opened Text
  import opened Config
  import opened Media

  /** A JSON object member: absent, explicitly null, or present. */
  datatype Field<+T> = Missing | Null | Present(value: T)

  /** One rendition of a video; `link` and `height` are `None` when absent. */
  datatype VideoFile = VideoFile(link: Option<string>, width: Field<int>, height: Option<int>)

  /** One search hit; `videoFiles` is `None` when absent or null. */
  datatype PexelsVideo = PexelsVideo(videoFiles: Option<seq<VideoFile>>, duration: Option<int>, image: Option<string>)

  /** The decoded answer body. */
  datatype Body = Body(videos: Field<seq<PexelsVideo>>)

  /** What the HTTP client gives back: an exception, or a status with the body decoded as JSON
      (`None` when it is not JSON). */
  datatype HttpReply = Raised | Reply(status: int, body: Option<Body>)

  /** The search request: query text, page size and the authorisation key. */
  datatype Request = Request(query: string, perPage: int, apiKey: string)

  /** Why an answer with status 200 still cannot be used: evaluating it raises. */
  datatype ApiError = NotJson | NullVideoList | NullWidth | MissingLink

  const MockUrl: string := "https://sample-videos.com/zip/10/mp4/SampleVideo_1280x720_1mb.mp4"
  const MockPreview: string := "https://via.placeholder.com/320x180"

  /** The fixed sample answer, whatever the keywords. */
  function MockVideos(): (r: seq<VideoInfo>)
    ensures |r| == 1 && r[0].source == "mock"
    ensures r[0].width == Some(VIDEO_WIDTH) && r[0].height == Some(VIDEO_HEIGHT)
  {
    [VideoInfo(MockUrl, None, None, Some(VIDEO_WIDTH), Some(VIDEO_HEIGHT), Some(10), Some(MockPreview), "mock")]
  }

  /** No key is configured, or only the placeholder one. */
  predicate KeyMissing(apiKey: string)
  {
    apiKey == [] || apiKey == PLACEHOLDER_API_KEY
  }

  /** A missing or zero size means the default size. */
  function EffectiveMax(maxResults: Option<int>): (m: int)
    ensures m != 0
    ensures maxResults.Some? && maxResults.value != 0 ==> m == maxResults.value
    ensures maxResults.None? || maxResults.value == 0 ==> m == PEXELS_MAX_RESULTS
  {
    if maxResults.None? || maxResults.value == 0 then PEXELS_MAX_RESULTS else maxResults.value
  }

  /** The query: the first three keywords joined by spaces. */
  function Query(keywords: seq<string>): string
  {
    Join(" ", SliceTo(keywords, 3))
  }

  // ---------------------------------------------------------------------------
  // Choosing a rendition

  predicate NoNullWidth(files: seq<VideoFile>)
  {
    forall j :: 0 <= j < |files| ==> !files[j].width.Null?
  }

  /** The width used for comparisons: an absent width counts as 0. */
  function Width(f: VideoFile): int
    requires !f.width.Null?
  {
    if f.width.Present? then f.width.value else 0
  }

  /** At least as wide as the frame. */
  predicate IsHD(f: VideoFile)
    requires !f.width.Null?
  {
    Width(f) >= VIDEO_WIDTH
  }

  /** The narrowest HD rendition, the first one among equals, or none when there is no HD
      rendition; the scan keeps the earlier candidate unless a later one is strictly narrower. */
  function NarrowestHD(files: seq<VideoFile>): (r: Option<nat>)
    requires NoNullWidth(files)
    ensures r.None? <==> forall j :: 0 <= j < |files| ==> !IsHD(files[j])
    ensures r.Some? ==> r.value < |files| && IsHD(files[r.value])
    ensures r.Some? ==> forall j :: 0 <= j < |files| && IsHD(files[j]) ==> Width(files[r.value]) <= Width(files[j])
    ensures r.Some? ==> forall j :: 0 <= j < r.value && IsHD(files[j]) ==> Width(files[j]) > Width(files[r.value])
  {
    if files == [] then None
    else
      var n := |files| - 1;
      var init := files[..n];
      assert forall j :: 0 <= j < n ==> init[j] == files[j];
      var prev := NarrowestHD(init);
      var f := files[n];
      if IsHD(f) && (prev.None? || Width(f) < Width(files[prev.value])) then Some(n) else prev
  }

  /** The widest rendition, the first one among equals. */
  function Widest(files: seq<VideoFile>): (i: nat)
    requires files != [] && NoNullWidth(files)
    ensures i < |files|
    ensures forall j :: 0 <= j < |files| ==> Width(files[j]) <= Width(files[i])
    ensures forall j :: 0 <= j < i ==> Width(files[j]) < Width(files[i])
  {
    var n := |files| - 1;
    if n == 0 then 0
    else
      var init := files[..n];
      assert forall j :: 0 <= j < n ==> init[j] == files[j];
      var prev := Widest(init);
      if Width(files[n]) > Width(files[prev]) then n else prev
  }

  /** The rendition taken: the narrowest HD one if there is one, otherwise the widest. */
  function BestFile(files: seq<VideoFile>): (i: nat)
    requires files != [] && NoNullWidth(files)
    ensures i < |files|
  {
    match NarrowestHD(files)
    case Some(i) => i
    case None => Widest(files)
  }

  /** The choice prefers HD: when an HD rendition exists the chosen one is HD and no HD
      rendition is narrower; otherwise none is wider. In both cases no earlier rendition ties. */
  lemma BestFilePrefersHD(files: seq<VideoFile>)
    requires files != [] && NoNullWidth(files)
    ensures var i := BestFile(files);
      if exists j :: 0 <= j < |files| && IsHD(files[j]) then
        && IsHD(files[i])
        && (forall j :: 0 <= j < |files| && IsHD(files[j]) ==> Width(files[i]) <= Width(files[j]))
        && (forall j :: 0 <= j < i && IsHD(files[j]) ==> Width(files[j]) != Width(files[i]))
      else
        && (forall j :: 0 <= j < |files| ==> Width(files[j]) <= Width(files[i]))
        && (forall j :: 0 <= j < i ==> Width(files[j]) != Width(files[i]))
  {
  }

  // ---------------------------------------------------------------------------
  // Reading the answer

  /** `width` as the result reports it: absent stays absent. */
  function ReportedWidth(w: Field<int>): Option<int>
  {
    match w
    case Present(v) => Some(v)
    case _ => None
  }

  /** One hit becomes one result (built from its best rendition), nothing when it has no
      renditions, or an error when a rendition width is null or the chosen one has no link. */
  function ParseVideo(v: PexelsVideo): Result<Option<VideoInfo>, ApiError>
  {
    if v.videoFiles.None? || v.videoFiles.value == [] then Success(None)
    else
      var files := v.videoFiles.value;
      if !NoNullWidth(files) then Failure(NullWidth)
      else
        var best := files[BestFile(files)];
        if best.link.None? then Failure(MissingLink)
        else Success(Some(VideoInfo(best.link.value, None, None, ReportedWidth(best.width), best.height,
                                    v.duration, v.image, "pexels")))
  }

  /** All hits in order; the first error ends the scan. */
  function ParseVideos(vs: seq<PexelsVideo>): Result<seq<VideoInfo>, ApiError>
  {
    if vs == [] then Success([])
    else
      match ParseVideos(vs[..|vs| - 1])
      case Failure(e) => Failure(e)
      case Success(acc) =>
        match ParseVideo(vs[|vs| - 1])
        case Failure(e) => Failure(e)
        case Success(None) => Success(acc)
        case Success(Some(info)) => Success(acc + [info])
  }

  /** The videos of an answer with status 200. */
  function ParseBody(body: Option<Body>): Result<seq<VideoInfo>, ApiError>
  {
    match body
    case None => Failure(NotJson)
    case Some(Body(Missing)) => Success([])
    case Some(Body(Null)) => Failure(NullVideoList)
    case Some(Body(Present(vs))) => ParseVideos(vs)
  }

  /** A successful parse gives at most one result per hit, every one of them from Pexels, and
      exactly one per hit when every hit has renditions. */
  lemma {:induction false} ParseVideosShape(vs: seq<PexelsVideo>)
    requires ParseVideos(vs).Success?
    ensures |ParseVideos(vs).value| <= |vs|
    ensures forall x <- ParseVideos(vs).value :: x.source == "pexels"
    ensures (forall j :: 0 <= j < |vs| ==> vs[j].videoFiles.Some? && vs[j].videoFiles.value != []) ==>
      |ParseVideos(vs).value| == |vs|
  {
    if vs != [] {
      var n := |vs| - 1;
      var init := vs[..n];
      assert forall j :: 0 <= j < n ==> init[j] == vs[j];
      ParseVideosShape(init);
    }
  }

  /** Once a prefix of the hits fails to parse, the whole list fails with the same error. */
  lemma {:induction false} ParseVideosFailureStays(vs: seq<PexelsVideo>, i: nat)
    requires i <= |vs| && ParseVideos(vs[..i]).Failure?
    ensures ParseVideos(vs) == ParseVideos(vs[..i])
    decreases |vs| - i
  {
    if i < |vs| {
      assert vs[..i + 1][..i] == vs[..i];
      ParseVideosFailureStays(vs, i + 1);
    } else {
      assert vs[..i] == vs;
    }
  }

  /** The reference answer of the search. */
  function Answer(reply: HttpReply, m: int): seq<VideoInfo>
  {
    if reply.Raised? || reply.status != 200 then MockVideos()
    else
      match ParseBody(reply.body)
      case Failure(_) => MockVideos()
      case Success(videos) => SliceTo(videos, m)
  }

  /** The answer is empty only when the server answered 200 with nothing usable; in every
      failure case the caller gets the sample video. With a positive size the answer never
      has more entries than the size. */
  lemma AnswerCases(reply: HttpReply, m: int)
    ensures Answer(reply, m) == [] ==>
      reply.Reply? && reply.status == 200 && ParseBody(reply.body).Success? &&
      (m >= 0 ==> m == 0 || ParseBody(reply.body).value == [])
    ensures m >= 1 ==> |Answer(reply, m)| <= m
    ensures (reply.Raised? || reply.status != 200 || ParseBody(reply.body).Failure?) ==> Answer(reply, m) == MockVideos()
  {
  }

  /** The query names the first three keywords, all of them when there are fewer. */
  lemma QueryUsesFirstThree(keywords: seq<string>)
    ensures |keywords| <= 3 ==> Query(keywords) == Join(" ", keywords)
    ensures |keywords| > 3 ==> Query(keywords) == Join(" ", keywords[..3])
  {
    if |keywords| <= 3 {
      assert SliceTo(keywords, 3) == keywords;
    }
  }

  /** Reads the hits one by one, as the answer loop does. */
  method CollectVideos(vs: seq<PexelsVideo>) returns (r: Result<seq<VideoInfo>, ApiError>)
    ensures r == ParseVideos(vs)
  {
    var videos: seq<VideoInfo> := [];
    var i := 0;
    while i < |vs|
      invariant 0 <= i <= |vs|
      invariant ParseVideos(vs[..i]) == Success(videos)
    {
      assert vs[..i + 1][..i] == vs[..i];
      var parsed := ParseVideo(vs[i]);
      if parsed.Failure? {
        assert ParseVideos(vs[..i + 1]) == Failure(parsed.error);
        ParseVideosFailureStays(vs, i + 1);
        return Failure(parsed.error);
      }
      if parsed.value.Some? {
        videos := videos + [parsed.value.value];
      }
      i := i + 1;
    }
    assert vs[..i] == vs;
    r := Success(videos);
  }

  class StockVideoService {
    const apiKey: string
    const maxResults: int := PEXELS_MAX_RESULTS

    constructor(apiKey: string)
      ensures this.apiKey == apiKey
    {
      this.apiKey := apiKey;
    }

    /** Searches for footage matching the keywords. `sent` is the request issued, if any. */
    method SearchStockVideos(keywords: seq<string>, maxResults: Option<int>, http: Request -> HttpReply)
      returns (videos: seq<VideoInfo>, sent: Option<Request>)
      ensures KeyMissing(apiKey) ==> videos == MockVideos() && sent.None?
      ensures !KeyMissing(apiKey) ==>
        && sent == Some(Request(Query(keywords), EffectiveMax(maxResults), apiKey))
        && videos == Answer(http(sent.value), EffectiveMax(maxResults))
    {
      var m := if maxResults.None? || maxResults.value == 0 then this.maxResults else maxResults.value;
      if apiKey == [] || apiKey == PLACEHOLDER_API_KEY {
        return MockVideos(), None;
      }
      var request := Request(Join(" ", SliceTo(keywords, 3)), m, apiKey);
      sent := Some(request);
      var reply := http(request);
      if reply.Raised? || reply.status != 200 {
        return MockVideos(), sent;
      }
      var parsed: Result<seq<VideoInfo>, ApiError>;
      match reply.body {
        case None => parsed := Failure(NotJson);
        case Some(Body(Missing)) => parsed := Success([]);
        case Some(Body(Null)) => parsed := Failure(NullVideoList);
        case Some(Body(Present(vs))) => parsed := CollectVideos(vs);
      }
      if parsed.Failure? {
        return MockVideos(), sent;
      }
      videos := SliceTo(parsed.value, m);
    }
  }
}
