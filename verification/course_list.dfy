/** The course catalogue: every course the user may see, each with its list
    of videos. */
module CourseList {
  import opened Browser
  import opened Catalog

  datatype Screen = Screen(courses: seq<Course>, loading: bool, error: Option<string>)

  const Initial: Screen := Screen([], true, None)

  const LoadError: string := "Ошибка при загрузке курсов"

  /** The course as the list keeps it: the fetched record with the videos of
      its own reply, or no videos when that request failed. */
  function WithVideos(course: Course, reply: VideosReply): (r: Course)
    ensures r.videos.Some?
    ensures reply.Ok? ==> r.videos.value == VideosOrEmpty(reply.data)
    ensures reply.Failed? ==> r.videos.value == []
    ensures r.(videos := course.videos) == course
  {
    match reply
    case Ok(videos) => course.(videos := Some(VideosOrEmpty(videos)))
    case Failed(_) => course.(videos := Some([]))
  }

  /** The per-course step of `Promise.all(courses.map(...))`: the course at
      position `offset + i` of the fetched list is paired with reply number
      `offset + i`. A failure is caught per course, so the whole list always
      comes back. */
  function Enrich(courses: seq<Course>, replies: nat -> VideosReply, offset: nat): (r: seq<Course>)
    ensures |r| == |courses|
    ensures forall i :: 0 <= i < |courses| ==> r[i] == WithVideos(courses[i], replies(offset + i))
    decreases |courses|
  {
    if courses == [] then []
    else [WithVideos(courses[0], replies(offset))] + Enrich(courses[1..], replies, offset + 1)
  }

  /** One videos request per course, in the order of the list. */
  function VideoRequests(courses: seq<Course>, token: Option<string>): (r: seq<Effect>)
    ensures |r| == |courses|
    ensures forall i :: 0 <= i < |courses| ==> r[i] == Send(VideosRequest(courses[i].id, token))
    decreases |courses|
  {
    if courses == [] then []
    else [Send(VideosRequest(courses[0].id, token))] + VideoRequests(courses[1..], token)
  }

  /** `fetchCourses`. Without a token: the login page and no request.
      Otherwise the course list is requested and, when it has courses, one
      videos request follows per course; the screen then shows the courses
      in the order received, each with its videos. A reply without courses
      shows the empty list. A failure shows the server's error text or the
      default, and a 401 additionally opens the login page. Loading ends on
      every path. */
  function FetchCourses(s: Screen, token: Option<string>, reply: Outcome<Option<seq<Course>>>,
                        videoReplies: nat -> VideosReply): (r: Step<Screen>)
    ensures !r.state.loading
    ensures !Truthy(token) ==> r == Step(s.(loading := false), [Navigate("/login")])
    ensures Truthy(token) ==> |r.effects| >= 1 && r.effects[0] == Send(Authorized(Get, "/api/courses", token, []))
    ensures Truthy(token) && reply.Ok? && reply.data.None? ==>
      r.state.courses == [] && r.state.error == s.error && |r.effects| == 1
    ensures Truthy(token) && reply.Ok? && reply.data.Some? ==>
      var fetched := reply.data.value;
      |r.state.courses| == |fetched| && r.state.error == s.error &&
      (forall i :: 0 <= i < |fetched| ==> r.state.courses[i] == WithVideos(fetched[i], videoReplies(i))) &&
      r.effects[1..] == VideoRequests(fetched, token)
    ensures Truthy(token) && reply.Failed? ==>
      r.state.courses == s.courses &&
      r.state.error == Some(OrElse(reply.failure.serverError, LoadError)) &&
      r.effects[1..] == (if reply.failure.status == Some(401) then [Navigate("/login")] else [])
  {
    if !Truthy(token) then Step(s.(loading := false), [Navigate("/login")])
    else
      var request := Send(Authorized(Get, "/api/courses", token, []));
      match reply
      case Ok(courses) =>
        if courses.Some? then
          Step(s.(courses := Enrich(courses.value, videoReplies, 0), loading := false),
               [request] + VideoRequests(courses.value, token))
        else Step(s.(courses := [], loading := false), [request])
      case Failed(f) =>
        var failed := s.(error := Some(OrElse(f.serverError, LoadError)), loading := false);
        if f.status == Some(401) then Step(failed, [request, Navigate("/login")])
        else Step(failed, [request])
  }

  /** Enrichment keeps every course's own fields and their order: forgetting
      the added videos gives back exactly the fetched list. */
  lemma EnrichKeepsCourses(courses: seq<Course>, replies: nat -> VideosReply, offset: nat)
    ensures var r := Enrich(courses, replies, offset);
      forall i :: 0 <= i < |courses| ==> r[i].(videos := courses[i].videos) == courses[i]
  {
  }

  /** A failed videos request touches only its own course: with replies that
      agree everywhere except at position `k`, where one of them fails, the
      two lists agree on every other course, and course `k` has no videos. */
  lemma FailureIsLocal(courses: seq<Course>, replies: nat -> VideosReply, other: nat -> VideosReply,
                       k: nat, failure: HttpFailure)
    requires k < |courses|
    requires forall j: nat :: j != k ==> replies(j) == other(j)
    requires other(k) == Failed(failure)
    ensures var r := Enrich(courses, replies, 0);
      var r' := Enrich(courses, other, 0);
      |r'| == |r| &&
      (forall i :: 0 <= i < |r| && i != k ==> r'[i] == r[i]) &&
      r'[k].videos == Some([]) &&
      r'[k].(videos := r[k].videos) == r[k]
  {
  }

  /** Splitting the course list splits the enriched list the same way: the
      result for a concatenation is the results for the parts, the second
      part paired with the replies after the first. */
  lemma EnrichAppend(a: seq<Course>, b: seq<Course>, replies: nat -> VideosReply, offset: nat)
    ensures Enrich(a + b, replies, offset) == Enrich(a, replies, offset) + Enrich(b, replies, offset + |a|)
  {
    var whole := Enrich(a + b, replies, offset);
    var parts := Enrich(a, replies, offset) + Enrich(b, replies, offset + |a|);
    forall i | 0 <= i < |whole| ensures whole[i] == parts[i] {
      if i >= |a| {
        assert (a + b)[i] == b[i - |a|];
      }
    }
  }

  /** The first load of a freshly opened list: it ends with no error and no
      detour to the login page exactly when there is a token and the list
      request succeeds; the list then holds the fetched courses, enriched in
      order. */
  lemma FirstLoad(token: Option<string>, reply: Outcome<Option<seq<Course>>>, videoReplies: nat -> VideosReply)
    ensures var r := FetchCourses(Initial, token, reply, videoReplies);
      (Truthy(token) && reply.Ok?) <==> (r.state.error.None? && NoLoginRedirect(r.effects))
    ensures Truthy(token) && reply.Ok? && reply.data.Some? ==>
      FetchCourses(Initial, token, reply, videoReplies).state == Screen(Enrich(reply.data.value, videoReplies, 0), false, None)
  {
    var r := FetchCourses(Initial, token, reply, videoReplies);
    if !Truthy(token) {
      assert r.effects[0] == Navigate("/login");
    } else if reply.Ok? {
      forall i | 0 <= i < |r.effects| ensures r.effects[i] != Navigate("/login") {
        if i > 0 {
          assert r.effects[i] == r.effects[1..][i - 1];
        }
      }
    }
  }
}
