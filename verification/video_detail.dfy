/** The video page: choosing the player for a video's link and posting a
    comment. */
module VideoDetail {
  import opened Browser
  import opened YouTube

  datatype Comment = Comment(id: string, userName: string, text: string, createdAt: string)

  datatype Video = Video(
    title: string,
    filePath: Option<string>,
    thumbnailUrl: Option<string>,
    comments: Option<seq<Comment>>)

  datatype Screen = Screen(video: Option<Video>, loading: bool, error: Option<string>, commentText: string)

  const Initial: Screen := Screen(None, true, None, "")

  const LoadError: string := "Произошла ошибка при загрузке видео"
  const CommentError: string := "Ошибка при добавлении комментария"
  const EmbedBase: string := "https://www.youtube.com/embed/"

  /** What the page renders for a video: an embedded YouTube frame, or the
      browser's own video element playing the stored link. */
  datatype Player = Embed(src: string, title: string) | Native(source: Option<string>, poster: Option<string>)

  /** Template-literal interpolation of the identifier: null becomes "null". */
  function IdText(id: Option<string>): string {
    if id.Some? then id.value else "null"
  }

  /** The frame is used exactly for YouTube links and points at the embed
      address followed by the extracted identifier, or by the text "null"
      when there is none; every other link is handed to the video element
      unchanged, with the thumbnail as poster. */
  function PlayerFor(v: Video): (p: Player)
    ensures p.Embed? <==> IsYouTubeUrl(v.filePath)
    ensures p.Embed? ==> p.title == v.title && |p.src| >= |EmbedBase| && p.src[..|EmbedBase|] == EmbedBase
    ensures p.Embed? && GetYouTubeId(v.filePath).Some? ==> p.src[|EmbedBase|..] == GetYouTubeId(v.filePath).value
    ensures p.Embed? && GetYouTubeId(v.filePath).None? ==> p.src == EmbedBase + "null"
    ensures p.Native? ==> p.source == v.filePath && p.poster == v.thumbnailUrl
  {
    if IsYouTubeUrl(v.filePath) then Embed(EmbedBase + IdText(GetYouTubeId(v.filePath)), v.title)
    else Native(v.filePath, v.thumbnailUrl)
  }

  /** A YouTube link written with any of the usual markers, followed by the
      identifier and then nothing or a query or fragment without `/` or
      `v=`, embeds ".../embed/" followed by exactly the identifier, so the
      common shapes of a link to one video render the same frame. */
  lemma PlainLinkEmbedsId(prefix: string, marker: string, id: string, suffix: string, v: Video)
    requires forall i :: 0 <= i < |prefix| ==> !IsLineTerminator(prefix[i])
    requires IsPlainMarker(marker)
    requires forall i :: 0 <= i < |id| ==> !IsStopper(id[i])
    requires suffix == [] || IsStopper(suffix[0])
    requires NoMarkerEnd(id + suffix)
    requires Utf16Length(id) == 11
    requires v.filePath == Some(prefix + marker + id + suffix) && IsYouTubeUrl(v.filePath)
    ensures PlayerFor(v) == Embed(EmbedBase + id, v.title)
  {
    PlainLinkId(prefix, marker, id, suffix);
  }

  /** A link that mentions youtube.com but has no marker (here the bare
      host name) still gets the frame, pointed at ".../embed/null". */
  lemma YouTubeLinkWithoutIdEmbedsNull(v: Video)
    requires v.filePath == Some("www.youtube.com")
    ensures PlayerFor(v) == Embed(EmbedBase + "null", v.title)
  {
    var s := v.filePath.value;
    assert s[4..15] == "youtube.com";
    assert OccursAt(s, "youtube.com", 4);
    IncludesIffOccurs(s, "youtube.com");
    assert IsYouTubeUrl(v.filePath);
    NoDelimiterNoId(s);
    assert IdText(GetYouTubeId(v.filePath)) == "null";
  }

  /** `fetchVideo`: without a token go to the login page; otherwise request
      the video, show it, or on failure go to login (401) or show the
      server's error text or the default. Loading ends on every path. */
  function FetchVideo(s: Screen, courseId: string, videoId: string, token: Option<string>,
                      response: Outcome<Option<Video>>): (r: Step<Screen>)
    ensures !r.state.loading
    ensures !Truthy(token) ==> r.effects == [Navigate("/login")] && r.state == s.(loading := false)
    ensures Truthy(token) ==>
      |r.effects| >= 1 &&
      r.effects[0] == Send(Authorized(Get, "/api/course/" + courseId + "/video/" + videoId, token, []))
    ensures response.Ok? && Truthy(token) ==>
      r.state == s.(video := response.data, loading := false) && |r.effects| == 1
    ensures response.Failed? && Truthy(token) && response.failure.status == Some(401) ==>
      r.state == s.(loading := false) && r.effects[1..] == [Navigate("/login")]
    ensures response.Failed? && Truthy(token) && response.failure.status != Some(401) ==>
      r.state == s.(error := Some(OrElse(response.failure.serverError, LoadError)), loading := false) &&
      |r.effects| == 1
  {
    if !Truthy(token) then Step(s.(loading := false), [Navigate("/login")])
    else
      var request := Send(Authorized(Get, "/api/course/" + courseId + "/video/" + videoId, token, []));
      match response
      case Ok(video) => Step(s.(video := video, loading := false), [request])
      case Failed(f) =>
        if f.status == Some(401) then Step(s.(loading := false), [request, Navigate("/login")])
        else Step(s.(error := Some(OrElse(f.serverError, LoadError)), loading := false), [request])
  }

  /** Starting without an error, the page ends showing the video with no
      error and no detour to the login page exactly when there is a token
      and the request succeeds. */
  lemma FetchVideoLoadedIff(s: Screen, courseId: string, videoId: string, token: Option<string>,
                            response: Outcome<Option<Video>>)
    requires s.error.None?
    ensures var r := FetchVideo(s, courseId, videoId, token, response);
      (Truthy(token) && response.Ok?) <==> (r.state.error.None? && NoLoginRedirect(r.effects))
  {
    var r := FetchVideo(s, courseId, videoId, token, response);
    if !Truthy(token) {
      assert r.effects[0] == Navigate("/login");
    } else if response.Failed? && response.failure.status == Some(401) {
      assert r.effects[1] == Navigate("/login");
    } else if response.Ok? {
      assert r.effects == [Send(Authorized(Get, "/api/course/" + courseId + "/video/" + videoId, token, []))];
    }
  }

  /** The first load of a freshly opened page: the video is shown, with no
      error and no detour to the login page, exactly when there is a token
      and the request succeeds; it then holds exactly the fetched video. */
  lemma FirstLoad(courseId: string, videoId: string, token: Option<string>, response: Outcome<Option<Video>>)
    ensures var r := FetchVideo(Initial, courseId, videoId, token, response);
      (Truthy(token) && response.Ok?) <==> (r.state.error.None? && NoLoginRedirect(r.effects))
    ensures Truthy(token) && response.Ok? ==>
      FetchVideo(Initial, courseId, videoId, token, response).state == Screen(response.data, false, None, "")
  {
    FetchVideoLoadedIff(Initial, courseId, videoId, token, response);
  }

  /** `handleCommentSubmit`. A posted comment goes in front of the existing
      ones and the text box is cleared; if the page holds no comment list the
      spread throws and the default alert is shown instead. */
  function SubmitComment(s: Screen, courseId: string, videoId: string, token: Option<string>,
                         response: Outcome<Comment>): (r: Step<Screen>)
    ensures !Truthy(token) ==> r == Step(s, [Navigate("/login")])
    ensures Truthy(token) ==>
      (|r.effects| >= 1 &&
       r.effects[0] == Send(Authorized(Post, "/api/course/" + courseId + "/video/" + videoId + "/comment",
                                       token, [("text", Text(s.commentText))])))
    ensures response.Failed? && Truthy(token) ==>
      r.state == s && r.effects[1..] == [Alert(OrElse(response.failure.serverError, CommentError))]
    ensures response.Ok? && Truthy(token) && s.video.Some? && s.video.value.comments.Some? ==>
      var before := s.video.value.comments.value;
      var v := r.state.video;
      v.Some? && v.value.comments.Some? &&
      |v.value.comments.value| == |before| + 1 &&
      v.value.comments.value[0] == response.data &&
      (forall i :: 0 <= i < |before| ==> v.value.comments.value[i + 1] == before[i]) &&
      v.value.(comments := s.video.value.comments) == s.video.value &&
      r.state.commentText == "" && r.state.loading == s.loading && r.state.error == s.error &&
      |r.effects| == 1
    ensures response.Ok? && Truthy(token) && !(s.video.Some? && s.video.value.comments.Some?) ==>
      r.state == s && r.effects[1..] == [Alert(CommentError)]
  {
    if !Truthy(token) then Step(s, [Navigate("/login")])
    else
      var request := Send(Authorized(Post, "/api/course/" + courseId + "/video/" + videoId + "/comment",
                                     token, [("text", Text(s.commentText))]));
      match response
      case Ok(c) =>
        if s.video.Some? && s.video.value.comments.Some? then
          var v := s.video.value;
          Step(s.(video := Some(v.(comments := Some([c] + v.comments.value))), commentText := ""), [request])
        else Step(s, [request, Alert(CommentError)])
      case Failed(f) => Step(s, [request, Alert(OrElse(f.serverError, CommentError))])
  }
}
