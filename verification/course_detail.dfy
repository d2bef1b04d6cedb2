/** The course page: loading a course with its videos, and the two delete
    actions. */
module CourseDetail {
  import opened Browser
  import opened Catalog
  import CourseList

  datatype Screen = Screen(course: Option<Course>, videos: seq<VideoEntry>, loading: bool, error: Option<string>)

  const Initial: Screen := Screen(None, [], true, None)

  const NoAccess: string := "У вас нет доступа к этому курсу"
  const NotFound: string := "Курс не найден"
  const LoadError: string := "Произошла ошибка при загрузке курса"
  const VideoDeleteError: string := "Ошибка при удалении видео"
  const CourseDeleteError: string := "Ошибка при удалении курса"

  /** The error the page throws itself when the course reply has no course:
      no response, only a message. */
  const MissingCourse: HttpFailure := HttpFailure(None, None, NotFound)

  /** What the page does with a caught error. */
  datatype Reaction = ToLogin | Show(message: string)

  /** The `catch` block of `fetchCourseDetails`, checked in this order: 401
      goes to the login page, 403 and 404 show their fixed messages, and any
      other error shows the server's error text, else the error's own
      message, else the default. */
  function OnCaught(f: HttpFailure): (r: Reaction)
    ensures r.ToLogin? <==> f.status == Some(401)
    ensures f.status == Some(403) ==> r == Show(NoAccess)
    ensures f.status == Some(404) ==> r == Show(NotFound)
    ensures f.status !in {Some(401), Some(403), Some(404)} && Truthy(f.serverError) ==> r == Show(f.serverError.value)
    ensures f.status !in {Some(401), Some(403), Some(404)} && !Truthy(f.serverError) && f.message != "" ==>
      r == Show(f.message)
    ensures f.status !in {Some(401), Some(403), Some(404)} && !Truthy(f.serverError) && f.message == "" ==>
      r == Show(LoadError)
  {
    if f.status == Some(401) then ToLogin
    else if f.status == Some(403) then Show(NoAccess)
    else if f.status == Some(404) then Show(NotFound)
    else Show(OrElse(f.serverError, OrElse(Some(f.message), LoadError)))
  }

  /** Every shown message is non-empty, so a caught error other than 401
      always puts the page in its error state. */
  lemma ShownMessageNonEmpty(f: HttpFailure)
    requires !OnCaught(f).ToLogin?
    ensures OnCaught(f).message != ""
  {
  }

  /** Applies a reaction to the screen; the effects are those issued before
      the error. Loading ends either way (the `finally` block). */
  function Caught(s: Screen, sent: seq<Effect>, f: HttpFailure): (r: Step<Screen>)
    ensures !r.state.loading && r.state.course == s.course && r.state.videos == s.videos
    ensures OnCaught(f).ToLogin? ==> r.state.error == s.error && r.effects == sent + [Navigate("/login")]
    ensures OnCaught(f).Show? ==> r.state.error == Some(OnCaught(f).message) && r.effects == sent
  {
    match OnCaught(f)
    case ToLogin => Step(s.(loading := false), sent + [Navigate("/login")])
    case Show(message) => Step(s.(error := Some(message), loading := false), sent)
  }

  /** `fetchCourseDetails`. Without a token: the login page and no request.
      Otherwise the course is requested; a reply without a course is treated
      as an error whose message is "course not found". A course is shown
      before its videos are requested, so it stays shown when that second
      request fails. Loading ends on every path. */
  function FetchCourseDetails(s: Screen, courseId: string, token: Option<string>,
                              courseReply: Outcome<Option<Course>>, videosReply: VideosReply): (r: Step<Screen>)
    ensures !r.state.loading
    ensures !Truthy(token) ==> r == Step(s.(loading := false), [Navigate("/login")])
    ensures Truthy(token) ==>
      |r.effects| >= 1 && r.effects[0] == Send(Authorized(Get, "/api/course/" + courseId, token, []))
    ensures Truthy(token) && courseReply.Ok? && courseReply.data.None? ==>
      r.state == s.(error := Some(NotFound), loading := false) && |r.effects| == 1
    ensures Truthy(token) && courseReply.Failed? ==>
      r == Caught(s, [Send(Authorized(Get, "/api/course/" + courseId, token, []))], courseReply.failure)
    ensures Truthy(token) && courseReply.Ok? && courseReply.data.Some? ==>
      r.state.course == courseReply.data && |r.effects| >= 2 &&
      r.effects[1..2] == [Send(VideosRequest(courseId, token))]
    ensures Truthy(token) && courseReply.Ok? && courseReply.data.Some? && videosReply.Ok? ==>
      r.state == s.(course := courseReply.data, videos := VideosOrEmpty(videosReply.data), loading := false) &&
      |r.effects| == 2
    ensures Truthy(token) && courseReply.Ok? && courseReply.data.Some? && videosReply.Failed? ==>
      r == Caught(s.(course := courseReply.data),
                  [Send(Authorized(Get, "/api/course/" + courseId, token, [])), Send(VideosRequest(courseId, token))],
                  videosReply.failure)
  {
    if !Truthy(token) then Step(s.(loading := false), [Navigate("/login")])
    else
      var courseRequest := Send(Authorized(Get, "/api/course/" + courseId, token, []));
      match courseReply
      case Failed(f) => Caught(s, [courseRequest], f)
      case Ok(course) =>
        if course.None? then Caught(s, [courseRequest], MissingCourse)
        else
          var shown := s.(course := course);
          var sent := [courseRequest, Send(VideosRequest(courseId, token))];
          match videosReply
          case Ok(videos) => Step(shown.(videos := VideosOrEmpty(videos), loading := false), sent)
          case Failed(f) => Caught(shown, sent, f)
  }

  /** The course page and the course list agree on a course's videos: from
      a page with no videos yet, the page shows exactly the list the course
      list attaches to that course for the same reply, whether the reply
      arrived or failed. */
  lemma SameVideosAsList(s: Screen, courseId: string, token: Option<string>, course: Course,
                         videosReply: VideosReply)
    requires Truthy(token) && s.videos == []
    ensures FetchCourseDetails(s, courseId, token, Ok(Some(course)), videosReply).state.videos
         == CourseList.WithVideos(course, videosReply).videos.value
  {
  }

  /** When the videos request fails, the page keeps whatever videos it
      already showed: on a page reused for another course (the effect runs
      again when the id changes) those are the previous course's videos. */
  lemma FailedVideosKeepList(s: Screen, courseId: string, token: Option<string>, course: Course,
                             failure: HttpFailure)
    requires Truthy(token)
    ensures FetchCourseDetails(s, courseId, token, Ok(Some(course)), Failed(failure)).state.videos == s.videos
    ensures FetchCourseDetails(s, courseId, token, Ok(Some(course)), Failed(failure)).state.course == Some(course)
  {
  }

  /** A course reply without a course and a 404 end the same way. */
  lemma MissingCourseIsNotFound(s: Screen, courseId: string, token: Option<string>, videosReply: VideosReply,
                                failure: HttpFailure)
    requires Truthy(token) && failure.status == Some(404)
    ensures FetchCourseDetails(s, courseId, token, Ok(None), videosReply)
         == FetchCourseDetails(s, courseId, token, Failed(failure), videosReply)
  {
  }

  /** The page ends up showing the fetched course, with no error and no
      detour to the login page, exactly when both requests succeed with a
      course, starting from no error. */
  lemma LoadedIff(s: Screen, courseId: string, token: Option<string>,
                  courseReply: Outcome<Option<Course>>, videosReply: VideosReply)
    requires s.error.None?
    ensures var r := FetchCourseDetails(s, courseId, token, courseReply, videosReply);
      (Truthy(token) && courseReply.Ok? && courseReply.data.Some? && videosReply.Ok?) <==>
      (r.state.error.None? && NoLoginRedirect(r.effects))
  {
    var r := FetchCourseDetails(s, courseId, token, courseReply, videosReply);
    if !Truthy(token) {
      assert r.effects[0] == Navigate("/login");
    } else if courseReply.Failed? && OnCaught(courseReply.failure).ToLogin? {
      assert r.effects[1] == Navigate("/login");
    } else if courseReply.Ok? && courseReply.data.Some? && videosReply.Failed? && OnCaught(videosReply.failure).ToLogin? {
      assert r.effects[2] == Navigate("/login");
    } else if courseReply.Ok? && courseReply.data.Some? && videosReply.Ok? {
      assert r.effects == [Send(Authorized(Get, "/api/course/" + courseId, token, [])), Send(VideosRequest(courseId, token))];
    }
  }

  /** The first load of a freshly opened page: the course and its videos
      are shown, with no error and no detour to the login page, exactly when
      there is a token and both requests succeed with a course; the page then
      holds exactly what arrived. */
  lemma FirstLoad(courseId: string, token: Option<string>,
                  courseReply: Outcome<Option<Course>>, videosReply: VideosReply)
    ensures var r := FetchCourseDetails(Initial, courseId, token, courseReply, videosReply);
      (Truthy(token) && courseReply.Ok? && courseReply.data.Some? && videosReply.Ok?) <==>
      (r.state.error.None? && NoLoginRedirect(r.effects))
    ensures Truthy(token) && courseReply.Ok? && courseReply.data.Some? && videosReply.Ok? ==>
      FetchCourseDetails(Initial, courseId, token, courseReply, videosReply).state ==
      Screen(courseReply.data, VideosOrEmpty(videosReply.data), false, None)
  {
    LoadedIff(Initial, courseId, token, courseReply, videosReply);
  }

  /** `handleDeleteVideo`. Unconfirmed: nothing happens. Without a token:
      the login page. Otherwise the video is deleted and the list is fetched
      again and replaces the shown one; if either request fails the
      delete-error message is shown and the list stays. The course and the
      loading flag are never touched. */
  function DeleteVideo(s: Screen, courseId: string, videoId: string, confirmed: bool, token: Option<string>,
                       deleteReply: Outcome<()>, videosReply: VideosReply): (r: Step<Screen>)
    ensures r.state.course == s.course && r.state.loading == s.loading
    ensures !confirmed ==> r == Step(s, [])
    ensures confirmed && !Truthy(token) ==> r == Step(s, [Navigate("/login")])
    ensures confirmed && Truthy(token) ==>
      |r.effects| >= 1 &&
      r.effects[0] == Send(Authorized(Delete, "/api/course/" + courseId + "/video/" + videoId, token, []))
    ensures confirmed && Truthy(token) && deleteReply.Ok? ==>
      r.effects[1..] == [Send(VideosRequest(courseId, token))]
    ensures confirmed && Truthy(token) && deleteReply.Ok? && videosReply.Ok? ==>
      r.state == s.(videos := VideosOrEmpty(videosReply.data))
    ensures confirmed && Truthy(token) && (deleteReply.Failed? || videosReply.Failed?) ==>
      r.state == s.(error := Some(VideoDeleteError))
    ensures confirmed && Truthy(token) && deleteReply.Failed? ==> |r.effects| == 1
  {
    if !confirmed then Step(s, [])
    else if !Truthy(token) then Step(s, [Navigate("/login")])
    else
      var deleteRequest := Send(Authorized(Delete, "/api/course/" + courseId + "/video/" + videoId, token, []));
      if deleteReply.Failed? then Step(s.(error := Some(VideoDeleteError)), [deleteRequest])
      else
        var sent := [deleteRequest, Send(VideosRequest(courseId, token))];
        match videosReply
        case Ok(videos) => Step(s.(videos := VideosOrEmpty(videos)), sent)
        case Failed(_) => Step(s.(error := Some(VideoDeleteError)), sent)
  }

  /** `handleDeleteCourse`. Unconfirmed: nothing happens. Without a token:
      the login page. Otherwise the course is deleted and the browser goes
      back to the course list, or the delete-error message is shown. */
  function DeleteCourse(s: Screen, courseId: string, confirmed: bool, token: Option<string>,
                        reply: Outcome<()>): (r: Step<Screen>)
    ensures !confirmed ==> r == Step(s, [])
    ensures confirmed && !Truthy(token) ==> r == Step(s, [Navigate("/login")])
    ensures confirmed && Truthy(token) ==>
      |r.effects| >= 1 && r.effects[0] == Send(Authorized(Delete, "/api/course/" + courseId, token, []))
    ensures confirmed && Truthy(token) && reply.Ok? ==> r.state == s && r.effects[1..] == [Navigate("/courses")]
    ensures confirmed && Truthy(token) && reply.Failed? ==>
      r.state == s.(error := Some(CourseDeleteError)) && |r.effects| == 1
  {
    if !confirmed then Step(s, [])
    else if !Truthy(token) then Step(s, [Navigate("/login")])
    else
      var request := Send(Authorized(Delete, "/api/course/" + courseId, token, []));
      match reply
      case Ok(_) => Step(s, [request, Navigate("/courses")])
      case Failed(_) => Step(s.(error := Some(CourseDeleteError)), [request])
  }

  /** Only a confirmed delete with a token sends anything. */
  lemma DeletesNeedConfirmationAndToken(s: Screen, courseId: string, videoId: string, confirmed: bool,
                                        token: Option<string>, deleteReply: Outcome<()>, videosReply: VideosReply)
    ensures !NoRequest(DeleteVideo(s, courseId, videoId, confirmed, token, deleteReply, videosReply).effects)
        <==> confirmed && Truthy(token)
    ensures !NoRequest(DeleteCourse(s, courseId, confirmed, token, deleteReply).effects)
        <==> confirmed && Truthy(token)
  {
    if confirmed && Truthy(token) {
      assert DeleteVideo(s, courseId, videoId, confirmed, token, deleteReply, videosReply).effects[0].Send?;
      assert DeleteCourse(s, courseId, confirmed, token, deleteReply).effects[0].Send?;
    }
  }
}
