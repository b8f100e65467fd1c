/**
 * The data logic of the portfolio home page: the thumbnail loader handed to the
 * image component, and the build-time step that enriches each fetched video
 * with a blurred placeholder and defaults the project list.
 */
module Home {
  import opened Wrappers
  import opened Strings

  /** A project link from the content API (`name` is the source's `label`, a Dafny keyword). */
  datatype Project = Project(name: string, url: string)

  datatype Viewable = Public | Private
  datatype Language = En
  datatype VideoType = Upload | Archive | Highlight
  datatype MutedSegment = MutedSegment(duration: int, offset: int)

  /** A video record as the streaming platform's API returns it, plus the optional blurred thumbnail. */
  datatype Video = Video(
    id: string,
    streamId: Option<string>,
    userId: string,
    userName: string,
    title: string,
    description: string,
    createdAt: string,
    publishedAt: string,
    url: string,
    thumbnailUrl: string,
    blurredThumbnail: Option<string>,
    viewable: Viewable,
    viewCount: int,
    language: Language,
    videoType: VideoType,
    duration: string,
    mutedSegments: seq<MutedSegment>)

  /** The placeholders of a thumbnail URL template. */
  const WidthToken: string := "%{width}"
  const HeightToken: string := "%{height}"

  /** The largest image the loader asks for. */
  const MaxWidth: nat := 1920
  const MaxHeight: nat := 1080

  /**
   * Fill a thumbnail template: the first `%{width}` first, then the first
   * `%{height}` of the result. Where the placeholders go is stated by
   * SubstituteShape, SubstituteShapeHeightFirst, SubstituteWidthOnly and
   * SubstituteHeightOnly.
   */
  function Substitute(template: string, width: string, height: string): (r: string)
    ensures Free(template, WidthToken) && Free(template, HeightToken) ==> r == template
  {
    ReplaceFirst(ReplaceFirst(template, WidthToken, width), HeightToken, height)
  }

  /** `Math.min(width, 1920)`. */
  function ClampedWidth(width: nat): (w: nat)
    ensures w <= MaxWidth && w <= width
    ensures w == width || w == MaxWidth
  {
    if width < MaxWidth then width else MaxWidth
  }

  /**
   * `Math.ceil((width / 16) * 9)`: the smallest integer at least 9*width/16.
   * Division by 16 is exact in floating point, and every width for which the
   * product could round is clamped below, so integer arithmetic is exact here.
   */
  function ScaledHeight(width: nat): (h: nat)
    ensures 16 * h >= 9 * width
    ensures 16 * (h - 1) < 9 * width
  {
    (9 * width + 15) / 16
  }

  /** `Math.min(Math.ceil((width / 16) * 9), 1080)`, from the unclamped width. */
  function ClampedHeight(width: nat): (h: nat)
    ensures h <= MaxHeight && h <= ScaledHeight(width)
    ensures h == ScaledHeight(width) || h == MaxHeight
  {
    var scaled := ScaledHeight(width);
    if scaled < MaxHeight then scaled else MaxHeight
  }

  /**
   * The two caps agree: the height is capped exactly when the width is, so
   * below the cap the image keeps its 16:9 shape and above it is 1920x1080.
   */
  lemma CapsAgree(width: nat)
    ensures ScaledHeight(width) > MaxHeight <==> width > MaxWidth
    ensures width <= MaxWidth ==> ClampedWidth(width) == width && ClampedHeight(width) == ScaledHeight(width)
    ensures width > MaxWidth ==> ClampedWidth(width) == MaxWidth && ClampedHeight(width) == MaxHeight
  {
    if width <= MaxWidth {
      assert 9 * width <= 16 * MaxHeight;
    } else {
      assert 16 * ScaledHeight(width) >= 9 * width > 16 * MaxHeight;
    }
  }

  /** The image loader of the video `video`: its thumbnail URL for the requested width. */
  function Loader(video: Video, width: nat): (url: string)
    ensures Free(video.thumbnailUrl, WidthToken) && Free(video.thumbnailUrl, HeightToken) ==> url == video.thumbnailUrl
  {
    Substitute(video.thumbnailUrl, NatToString(ClampedWidth(width)), NatToString(ClampedHeight(width)))
  }

  /** The URL of the 720x480 image the blurred placeholder is derived from. */
  function PlaceholderUrl(template: string): (url: string)
    ensures Free(template, WidthToken) && Free(template, HeightToken) ==> url == template
  {
    Substitute(template, "720", "480")
  }

  lemma TokensShape()
    ensures |WidthToken| >= 1 && forall k :: 1 <= k < |WidthToken| ==> WidthToken[k] != WidthToken[0]
    ensures |HeightToken| >= 1 && forall k :: 1 <= k < |HeightToken| ==> HeightToken[k] != HeightToken[0]
    ensures NoDigits(HeightToken)
    ensures WidthToken[0] == HeightToken[0] && WidthToken[2] != HeightToken[2]
    ensures forall k :: 1 <= k < |HeightToken| ==> HeightToken[k] != WidthToken[0]
  {
  }

  /** A `%{width}` right after a `%{width}`-free prefix is the one replaced. */
  lemma ReplaceWidthAt(x: string, y: string, r: string)
    requires Free(x, WidthToken)
    ensures ReplaceFirst(x + WidthToken + y, WidthToken, r) == x + r + y
  {
    TokensShape();
    FirstAtBoundary(x, WidthToken, y);
    ReplaceAtBoundary(x, WidthToken, y, r);
  }

  /** A `%{height}` right after a `%{height}`-free prefix is the one replaced. */
  lemma ReplaceHeightAt(x: string, y: string, r: string)
    requires Free(x, HeightToken)
    ensures ReplaceFirst(x + HeightToken + y, HeightToken, r) == x + r + y
  {
    TokensShape();
    FirstAtBoundary(x, HeightToken, y);
    ReplaceAtBoundary(x, HeightToken, y, r);
  }

  /** A `%{height}` between two `%{width}`-free strings creates no `%{width}`. */
  lemma HeightKeepsWidthFree(a: string, b: string)
    requires Free(a, WidthToken) && Free(b, WidthToken)
    ensures Free(a + HeightToken + b, WidthToken)
  {
    TokensShape();
    FreeAroundToken(a, HeightToken, b, WidthToken, 2);
  }

  /** Digits between two `%{height}`-free strings create no `%{height}`. */
  lemma DigitsKeepHeightFree(a: string, d: string, b: string)
    requires Free(a, HeightToken) && Free(b, HeightToken)
    requires |d| >= 1 && AllDigits(d)
    ensures Free(a + d + b, HeightToken)
  {
    TokensShape();
    FreeAroundDigits(a, d, b, HeightToken);
  }

  /**
   * For a template whose first `%{width}` comes before its first `%{height}`,
   * substitution puts the width text where the first `%{width}` was and the
   * height text where the first `%{height}` was; everything else, including
   * any later placeholder, is left as it was.
   */
  lemma SubstituteShape(pre: string, mid: string, post: string, width: string, height: string)
    requires Free(pre, WidthToken) && Free(pre, HeightToken) && Free(mid, HeightToken)
    requires |width| >= 1 && AllDigits(width)
    ensures Substitute(pre + WidthToken + mid + HeightToken + post, width, height)
         == pre + width + mid + height + post
  {
    WidthFirstStep(pre, mid, post, width);
    DigitsKeepHeightFree(pre, width, mid);
    ReplaceHeightAt(pre + width + mid, post, height);
  }

  /** Replacing the leading `%{width}` of `pre + %{width} + mid + %{height} + post`. */
  lemma WidthFirstStep(pre: string, mid: string, post: string, width: string)
    requires Free(pre, WidthToken)
    ensures ReplaceFirst(pre + WidthToken + mid + HeightToken + post, WidthToken, width)
         == pre + width + mid + HeightToken + post
  {
    var rest := mid + HeightToken + post;
    assert pre + WidthToken + mid + HeightToken + post == pre + WidthToken + rest;
    ReplaceWidthAt(pre, rest, width);
    assert pre + width + rest == pre + width + mid + HeightToken + post;
  }

  /**
   * For a template whose first `%{height}` comes before its first `%{width}`,
   * each text still lands where the first placeholder of its kind was.
   */
  lemma SubstituteShapeHeightFirst(pre: string, mid: string, post: string, width: string, height: string)
    requires Free(pre, HeightToken) && Free(pre, WidthToken) && Free(mid, WidthToken)
    ensures Substitute(pre + HeightToken + mid + WidthToken + post, width, height)
         == pre + height + mid + width + post
  {
    WidthAfterHeight(pre, mid, post, width);
    Regroup(pre, HeightToken, mid, width, post);
    ReplaceHeightAt(pre, mid + width + post, height);
    Regroup(pre, height, mid, width, post);
  }

  /** Replacing the `%{width}` that follows the first `%{height}`. */
  lemma WidthAfterHeight(pre: string, mid: string, post: string, width: string)
    requires Free(pre, WidthToken) && Free(mid, WidthToken)
    ensures ReplaceFirst(pre + HeightToken + mid + WidthToken + post, WidthToken, width)
         == pre + HeightToken + mid + width + post
  {
    HeightKeepsWidthFree(pre, mid);
    ReplaceWidthAt(pre + HeightToken + mid, post, width);
  }

  lemma Regroup(a: string, b: string, c: string, d: string, e: string)
    ensures a + b + c + d + e == a + b + (c + d + e)
  {
  }

  /** A template with a `%{width}` and no `%{height}` gets only the width text. */
  lemma SubstituteWidthOnly(pre: string, post: string, width: string, height: string)
    requires Free(pre, WidthToken) && Free(pre, HeightToken) && Free(post, HeightToken)
    requires |width| >= 1 && AllDigits(width)
    ensures Substitute(pre + WidthToken + post, width, height) == pre + width + post
  {
    ReplaceWidthAt(pre, post, width);
    DigitsKeepHeightFree(pre, width, post);
  }

  /** A template with a `%{height}` and no `%{width}` gets only the height text. */
  lemma SubstituteHeightOnly(pre: string, post: string, width: string, height: string)
    requires Free(pre, WidthToken) && Free(post, WidthToken) && Free(pre, HeightToken)
    ensures Substitute(pre + HeightToken + post, width, height) == pre + height + post
  {
    HeightKeepsWidthFree(pre, post);
    ReplaceHeightAt(pre, post, height);
  }

  /**
   * Any template whose first `%{width}` (at `i`) precedes its first `%{height}`
   * (at `j`) has the shape `SubstituteShape` describes, so the width text lands
   * at `i` and the height text at the shifted `j`.
   */
  lemma SubstituteWidthFirstAt(t: string, i: nat, j: nat, width: string, height: string)
    requires FirstAt(t, WidthToken, i) && FirstAt(t, HeightToken, j) && i < j
    requires |width| >= 1 && AllDigits(width)
    ensures j >= i + |WidthToken|
    ensures Substitute(t, width, height)
         == t[..i] + width + t[i + |WidthToken|..j] + height + t[j + |HeightToken|..]
  {
    WidthFirstSplit(t, i, j);
    SubstituteShape(t[..i], t[i + |WidthToken|..j], t[j + |HeightToken|..], width, height);
  }

  /** The pieces of a width-first template around its two first placeholders. */
  lemma WidthFirstSplit(t: string, i: nat, j: nat)
    requires FirstAt(t, WidthToken, i) && FirstAt(t, HeightToken, j) && i < j
    ensures j >= i + |WidthToken|
    ensures t == t[..i] + WidthToken + t[i + |WidthToken|..j] + HeightToken + t[j + |HeightToken|..]
    ensures Free(t[..i], WidthToken) && Free(t[..i], HeightToken)
    ensures Free(t[i + |WidthToken|..j], HeightToken)
  {
    TokensShape();
    var w := t[i..i + |WidthToken|];
    assert forall k :: i < k < i + |WidthToken| ==> t[k] == w[k - i] != WidthToken[0];
    assert t[j] == t[j..j + |HeightToken|][0] == WidthToken[0];
    FreeSlice(t, WidthToken, 0, i);
    FreeSlice(t, HeightToken, 0, i);
    FreeSlice(t, HeightToken, i + |WidthToken|, j);
    Pieces(t, i, i + |WidthToken|, j, j + |HeightToken|);
  }

  /**
   * Any template whose first `%{height}` (at `j`) precedes its first `%{width}`
   * (at `i`) has the shape `SubstituteShapeHeightFirst` describes.
   */
  lemma SubstituteHeightFirstAt(t: string, i: nat, j: nat, width: string, height: string)
    requires FirstAt(t, WidthToken, i) && FirstAt(t, HeightToken, j) && j < i
    ensures i >= j + |HeightToken|
    ensures Substitute(t, width, height)
         == t[..j] + height + t[j + |HeightToken|..i] + width + t[i + |WidthToken|..]
  {
    HeightFirstSplit(t, i, j);
    SubstituteShapeHeightFirst(t[..j], t[j + |HeightToken|..i], t[i + |WidthToken|..], width, height);
  }

  /** The pieces of a height-first template around its two first placeholders. */
  lemma HeightFirstSplit(t: string, i: nat, j: nat)
    requires FirstAt(t, WidthToken, i) && FirstAt(t, HeightToken, j) && j < i
    ensures i >= j + |HeightToken|
    ensures t == t[..j] + HeightToken + t[j + |HeightToken|..i] + WidthToken + t[i + |WidthToken|..]
    ensures Free(t[..j], HeightToken) && Free(t[..j], WidthToken)
    ensures Free(t[j + |HeightToken|..i], WidthToken)
  {
    TokensShape();
    var h := t[j..j + |HeightToken|];
    assert forall k :: j < k < j + |HeightToken| ==> t[k] == h[k - j] != WidthToken[0];
    assert t[i] == t[i..i + |WidthToken|][0] == WidthToken[0];
    FreeSlice(t, HeightToken, 0, j);
    FreeSlice(t, WidthToken, 0, j);
    FreeSlice(t, WidthToken, j + |HeightToken|, i);
    Pieces(t, j, j + |HeightToken|, i, i + |WidthToken|);
  }

  /** Any template with a first `%{width}` at `i` and no `%{height}` gets only the width text. */
  lemma SubstituteWidthOnlyAt(t: string, i: nat, width: string, height: string)
    requires FirstAt(t, WidthToken, i) && Free(t, HeightToken)
    requires |width| >= 1 && AllDigits(width)
    ensures Substitute(t, width, height) == t[..i] + width + t[i + |WidthToken|..]
  {
    TokensShape();
    FreeSlice(t, WidthToken, 0, i);
    FreeSlice(t, HeightToken, 0, i);
    FreeSlice(t, HeightToken, i + |WidthToken|, |t|);
    assert t[i + |WidthToken|..|t|] == t[i + |WidthToken|..];
    assert t == t[..i] + WidthToken + t[i + |WidthToken|..] by {
      assert t[i..i + |WidthToken|] == WidthToken;
      assert t == t[..i] + t[i..i + |WidthToken|] + t[i + |WidthToken|..];
    }
    SubstituteWidthOnly(t[..i], t[i + |WidthToken|..], width, height);
  }

  /** Any template with a first `%{height}` at `j` and no `%{width}` gets only the height text. */
  lemma SubstituteHeightOnlyAt(t: string, j: nat, width: string, height: string)
    requires FirstAt(t, HeightToken, j) && Free(t, WidthToken)
    ensures Substitute(t, width, height) == t[..j] + height + t[j + |HeightToken|..]
  {
    TokensShape();
    FreeSlice(t, WidthToken, 0, j);
    FreeSlice(t, HeightToken, 0, j);
    FreeSlice(t, WidthToken, j + |HeightToken|, |t|);
    assert t[j + |HeightToken|..|t|] == t[j + |HeightToken|..];
    assert t == t[..j] + HeightToken + t[j + |HeightToken|..] by {
      assert t[j..j + |HeightToken|] == HeightToken;
      assert t == t[..j] + t[j..j + |HeightToken|] + t[j + |HeightToken|..];
    }
    SubstituteHeightOnly(t[..j], t[j + |HeightToken|..], width, height);
  }

  /**
   * The loader writes `min(width, 1920)` in place of the first `%{width}` and
   * `min(ceil(9*width/16), 1080)` in place of the first `%{height}`, as decimals.
   */
  lemma LoaderFills(video: Video, width: nat, pre: string, mid: string, post: string)
    requires video.thumbnailUrl == pre + WidthToken + mid + HeightToken + post
    requires Free(pre, WidthToken) && Free(pre, HeightToken) && Free(mid, HeightToken)
    ensures Loader(video, width) == pre + NatToString(ClampedWidth(width)) + mid + NatToString(ClampedHeight(width)) + post
    ensures DecimalValue(NatToString(ClampedWidth(width))) <= MaxWidth
    ensures DecimalValue(NatToString(ClampedHeight(width))) <= MaxHeight
  {
    SubstituteShape(pre, mid, post, NatToString(ClampedWidth(width)), NatToString(ClampedHeight(width)));
    DecimalRoundTrip(ClampedWidth(width));
    DecimalRoundTrip(ClampedHeight(width));
  }

  /** The placeholder URL is the template with 720 and 480 put in place of its first placeholders, width first. */
  lemma PlaceholderUrlFills(pre: string, mid: string, post: string)
    requires Free(pre, WidthToken) && Free(pre, HeightToken) && Free(mid, HeightToken)
    ensures PlaceholderUrl(pre + WidthToken + mid + HeightToken + post) == pre + "720" + mid + "480" + post
  {
    SubstituteShape(pre, mid, post, "720", "480");
  }

  /**
   * The loader on a template whose first `%{height}` comes first: the same
   * clamped values, each where the first placeholder of its kind was.
   */
  lemma LoaderFillsHeightFirst(video: Video, width: nat, pre: string, mid: string, post: string)
    requires video.thumbnailUrl == pre + HeightToken + mid + WidthToken + post
    requires Free(pre, HeightToken) && Free(pre, WidthToken) && Free(mid, WidthToken)
    ensures Loader(video, width) == pre + NatToString(ClampedHeight(width)) + mid + NatToString(ClampedWidth(width)) + post
  {
    SubstituteShapeHeightFirst(pre, mid, post, NatToString(ClampedWidth(width)), NatToString(ClampedHeight(width)));
  }

  /** The placeholder URL of a template whose first `%{height}` comes first. */
  lemma PlaceholderUrlFillsHeightFirst(pre: string, mid: string, post: string)
    requires Free(pre, HeightToken) && Free(pre, WidthToken) && Free(mid, WidthToken)
    ensures PlaceholderUrl(pre + HeightToken + mid + WidthToken + post) == pre + "480" + mid + "720" + post
  {
    SubstituteShapeHeightFirst(pre, mid, post, "720", "480");
  }

  /** A thumbnail template of the platform's shape gets exactly 720x480 put into it. */
  lemma PlaceholderUrlExample(pre: string, mid: string, post: string)
    requires pre == "t-" && mid == "-" && post == ".jpg"
    ensures PlaceholderUrl(pre + WidthToken + mid + HeightToken + post) == "t-720-480.jpg"
  {
    ShorterIsFree(pre, WidthToken);
    ShorterIsFree(pre, HeightToken);
    ShorterIsFree(mid, HeightToken);
    PlaceholderUrlFills(pre, mid, post);
  }

  /**
   * `output` is `input` with its blurred thumbnail set to what `blur` derives
   * from the input's 720x480 thumbnail, every other field unchanged.
   */
  predicate Enriched(input: Video, output: Video, blur: string -> string) {
    // equal on every field but the blurred thumbnail
    output == input.(blurredThumbnail := output.blurredThumbnail)
    && output.blurredThumbnail == Some(blur(PlaceholderUrl(input.thumbnailUrl)))
  }

  /**
   * The placeholder loop: for each fetched video, in order, derive the blurred
   * image of its 720x480 thumbnail and append the video carrying it.
   */
  method EnrichVideos(videos: seq<Video>, blur: string -> string) returns (enriched: seq<Video>)
    ensures |enriched| == |videos|
    ensures forall i :: 0 <= i < |videos| ==> Enriched(videos[i], enriched[i], blur)
  {
    enriched := [];
    for i := 0 to |videos|
      invariant |enriched| == i
      invariant forall k :: 0 <= k < i ==> Enriched(videos[k], enriched[k], blur)
    {
      var video := videos[i];
      var base64 := blur(PlaceholderUrl(video.thumbnailUrl));
      var withThumbnail := video.(blurredThumbnail := Some(base64));
      EnrichedAppend(videos, enriched, withThumbnail, blur);
      enriched := enriched + [withThumbnail];
    }
  }

  /** Appending the enriched copy of the next video keeps the prefix enriched pointwise. */
  lemma EnrichedAppend(videos: seq<Video>, before: seq<Video>, next: Video, blur: string -> string)
    requires |before| < |videos|
    requires forall k :: 0 <= k < |before| ==> Enriched(videos[k], before[k], blur)
    requires next == videos[|before|].(blurredThumbnail := Some(blur(PlaceholderUrl(videos[|before|].thumbnailUrl))))
    ensures forall k :: 0 <= k <= |before| ==> Enriched(videos[k], (before + [next])[k], blur)
  {
    assert Enriched(videos[|before|], next, blur);
    forall k | 0 <= k < |before|
      ensures (before + [next])[k] == before[k]
    {
    }
  }

  /** The project query's data: its `projects` field may be absent. */
  datatype ProjectsData = ProjectsData(projects: Option<seq<Project>>)

  /** `data.projects ?? []`. */
  function ProjectsOrEmpty(data: ProjectsData): (projects: seq<Project>)
    ensures data.projects.Some? ==> projects == data.projects.value
    ensures data.projects.None? ==> projects == []
  {
    match data.projects
    case Some(p) => p
    case None => []
  }

  datatype HomeProps = HomeProps(projects: seq<Project>, videos: seq<Video>)
  datatype StaticProps = StaticProps(props: HomeProps, revalidate: nat)

  /** Reading `projects` of the query's data when the query returned no data. */
  datatype BuildError = NoQueryData

  /** The page is regenerated at most once an hour. */
  const RevalidateSeconds: nat := 60 * 60

  /**
   * The build step, given the project query's data (absent when the query
   * failed), the fetched videos and the placeholder derivation: enrich the
   * videos, default the projects, and fail when there is no query data.
   */
  method GetStaticProps(data: Option<ProjectsData>, fetched: seq<Video>, blur: string -> string)
    returns (r: Result<StaticProps, BuildError>)
    ensures r.Success? <==> data.Some?
    ensures r.Failure? ==> r.error == NoQueryData
    ensures r.Success? ==> r.value.revalidate == 3600 && r.value.props.projects == ProjectsOrEmpty(data.value)
    ensures r.Success? ==> |r.value.props.videos| == |fetched|
    ensures r.Success? ==> forall i :: 0 <= i < |fetched| ==> Enriched(fetched[i], r.value.props.videos[i], blur)
  {
    var videosWithThumbnail := EnrichVideos(fetched, blur);
    match data
    case None =>
      r := Failure(NoQueryData);
    case Some(d) =>
      r := Success(StaticProps(HomeProps(ProjectsOrEmpty(d), videosWithThumbnail), RevalidateSeconds));
  }
}
