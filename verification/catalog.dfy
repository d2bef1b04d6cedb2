/** The course records the list and detail screens receive from the backend. */
module Catalog {
  import opened Browser

  /** A video as listed for a course. */
  datatype VideoEntry = VideoEntry(id: string, title: string)

  /** A course as the backend sends it. `videos` is the field the course list
      adds to each course; the backend's own records do not carry it. */
  datatype Course = Course(
    id: string,
    title: string,
    description: string,
    thumbnailUrl: Option<string>,
    accessExpires: Option<string>,
    videos: Option<seq<VideoEntry>>)

  /** The reply of `GET /api/course/{id}/videos`: the body's `videos` list, if
      it has one. */
  type VideosReply = Outcome<Option<seq<VideoEntry>>>

  /** `videosResponse.data.videos || []` for a reply that arrived: the
      listed videos (an empty array is truthy and is kept), or the empty
      list when the body has none. */
  function VideosOrEmpty(videos: Option<seq<VideoEntry>>): (r: seq<VideoEntry>)
    ensures videos.Some? ==> r == videos.value
    ensures videos.None? ==> r == []
  {
    if videos.Some? then videos.value else []
  }

  /** The videos request for one course. */
  function VideosRequest(courseId: string, token: Option<string>): Request {
    Authorized(Get, "/api/course/" + courseId + "/videos", token, [])
  }
}
