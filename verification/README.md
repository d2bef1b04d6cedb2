# adilgazyfront screens in Dafny

A model of the logic behind the course platform's React screens. These are
the video page, the navigation bar, the PDF and video attachment forms, the
user administration table, the course list and the course page.

Every event handler is a pure function. Its inputs are:

- the screen state;
- the session values read from browser storage (`Option<string>`);
- the user's answer to a confirmation dialog (`bool`);
- the settled result of each awaited request (`Outcome`: the data the
  handler reads, or the failure it catches).

It returns the new state together with the list of effects it caused, in
order. The effects are requests, navigations and alerts.

The largest part is the video page's YouTube support:

- `isYouTubeUrl` is substring search.
- `getYouTubeId` is the regular expression
  `^.*(youtu.be\/|v\/|u\/\w\/|embed\/|watch\?v=|&v=)([^#&?]*).*`, evaluated
  the way JavaScript's backtracking does, plus the 11-code-unit check. It is
  proved equal to a declarative reading of the match: the rightmost
  reachable group 1 and the maximal group 2.

Modules:

- `Browser`: shared values, requests, effects, JavaScript truthiness and the role test.
- `YouTube`: the two link helpers.
- `VideoDetail`: the player choice, loading a video and posting a comment.
- `Navbar`: the navigation list, `classNames`, logout and the avatar letter.
- `CreatePdf`: the PDF form.
- `AddVideo`: the video form and its two uploads.
- `UserList`: the user table.
- `Catalog`: the course records.
- `CourseList`: the course list.
- `CourseDetail`: the course page.

## Model

| member | source | states |
|---|---|---|
| YouTube.Includes | src/components/course/VideoDetail.js:18-19 | `includes` is never true of a pattern longer than the text, and is true whenever the text starts with the pattern, so always for the empty pattern |
| YouTube.IncludesIffOccurs | src/components/course/VideoDetail.js:18-19 | `includes` is true exactly when the pattern occurs at some position of the string |
| YouTube.IsYouTubeUrl | src/components/course/VideoDetail.js:16-21 | only a link at least as long as "youtu.be" counts as YouTube, and every link that starts with "youtube.com" or "youtu.be" does |
| YouTube.IsYouTubeUrlSpec | src/components/course/VideoDetail.js:16-21 | a link counts as YouTube exactly when it is present, non-empty, and contains "youtube.com" or "youtu.be" somewhere |
| YouTube.MarkerAt | src/components/course/VideoDetail.js:27 | when group 1 can start at `k`, the alternative taken is 2 to 9 characters long and fits in the string |
| YouTube.MarkerAtIff | src/components/course/VideoDetail.js:27 | group 1 can start at `k` exactly when at least one of the six alternatives matches there, whatever their order |
| YouTube.AlternativeLength | src/components/course/VideoDetail.js:27 | whichever of the six alternatives matches at `k` is the one group 1 takes, with that alternative's own length, `u/` + word character + `/` included: they start with six different characters, so at most one matches at a position |
| YouTube.ReachLimit | src/components/course/VideoDetail.js:27 | the leading `.*` reaches up to the first line terminator: no terminator before the limit, and a terminator at it unless it is the end |
| YouTube.ReachableIff | src/components/course/VideoDetail.js:27 | group 1 can start exactly at the positions from 0 up to the reach of `.*` |
| YouTube.GroupOneIff | src/components/course/VideoDetail.js:27 | the expression can place group 1 at `k` exactly when `k` is within reach and one of the six alternatives matches there |
| YouTube.LastFrom | src/components/course/VideoDetail.js:27 | the backtracking of the leading `.*`, trying the start and then each earlier position: a returned position is a hit no later than the start (that it is the latest such hit is stated by LastFromSpec) |
| YouTube.LastFromSpec | src/components/course/VideoDetail.js:27 | the backward search of the greedy `.*` returns `k` exactly when `k` is a hit and no later position up to the start is |
| YouTube.LastFromNone | src/components/course/VideoDetail.js:27 | the backward search finds nothing exactly when no position up to the start is a hit |
| YouTube.LastMarker | src/components/course/VideoDetail.js:27-28 | the position the search returns is inside the string, and an alternative matches there |
| YouTube.LastMarkerIsRightmost | src/components/course/VideoDetail.js:27-28 | the search returns `k` exactly when group 1 can match at `k` and at no position to its right |
| YouTube.LastMarkerNone | src/components/course/VideoDetail.js:27-28 | the search finds nothing exactly when group 1 can match nowhere, so `match` returns null |
| YouTube.RunFrom | src/components/course/VideoDetail.js:27 | group 2 is the longest run after group 1 without `#`, `&` or `?`: it ends at the end of the string or at one of those characters |
| YouTube.MaximalRunIsScan | src/components/course/VideoDetail.js:27 | there is only one maximal run from a given start, and the scan computes it |
| YouTube.GetYouTubeId | src/components/course/VideoDetail.js:24-33 | a missing or empty link gives null; any identifier returned is 11 UTF-16 code units long and contains no `#`, `&` or `?` |
| YouTube.IdAt | src/components/course/VideoDetail.js:30-32 | the group 2 that follows a marker is kept only when it is 11 code units long, and then it holds no stopper character |
| YouTube.IdIsGroupTwo | src/components/course/VideoDetail.js:24-33 | every identifier returned is group 2 of the match JavaScript finds, and is 11 code units long |
| YouTube.GroupTwoIsId | src/components/course/VideoDetail.js:24-33 | when group 2 of the match JavaScript finds is 11 code units long, it is returned |
| YouTube.GetYouTubeIdSpec | src/components/course/VideoDetail.js:24-33 | `getYouTubeId` returns `id` if and only if the link is non-empty, the match has group 2 equal to `id`, and `id` is 11 code units long |
| YouTube.NoMarkerNoId | src/components/course/VideoDetail.js:28-32 | when the expression does not match, the result is null |
| YouTube.MarkerShape | src/components/course/VideoDetail.js:27 | each alternative is at least two long, starts with one of six character pairs, and ends with `/` or `v=` |
| YouTube.NoDelimiterNoId | src/components/course/VideoDetail.js:27-32 | a link with no `/` and no `=` has no identifier |
| YouTube.PlainMarkerMatches | src/components/course/VideoDetail.js:27 | "youtu.be/", "v/", "embed/", "watch?v=" and "&v=" written at `k` make group 1 match at `k` with exactly that length |
| YouTube.NoMarkerAfter | src/components/course/VideoDetail.js:27 | after one of those markers, if no `/` and no `v=` follows, group 1 can match at no position further right |
| YouTube.RightmostMarkerId | src/components/course/VideoDetail.js:27-32 | if group 1 matches at a reachable `k` and nowhere to its right, the result is the run after it when that run is 11 code units long, else null |
| YouTube.LastPlainMarkerId | src/components/course/VideoDetail.js:27-32 | the same result for a usual marker with no `/` and no `v=` after it |
| YouTube.PlainLinkId | src/components/course/VideoDetail.js:24-33 | for prefix + marker + id + suffix, where the marker is a usual one and the suffix is empty or a query or fragment (such as `?si=...` or `&t=42`) with no `/` and no `v=`, the result is `id` exactly when it is 11 code units long, else null |
| YouTube.Utf16LengthOfBmp | src/components/course/VideoDetail.js:30 | for text inside the Basic Multilingual Plane, `length` equals the number of characters |
| YouTube.WatchLinkExample | src/components/course/VideoDetail.js:24-33 | "https://www.youtube.com/watch?v=dQw4w9WgXcQ#comments" yields "dQw4w9WgXcQ" |
| YouTube.ShareLinkExample | src/components/course/VideoDetail.js:24-33 | "https://youtu.be/dQw4w9WgXcQ?si=abc" yields "dQw4w9WgXcQ" |
| YouTube.TimedLinkExample | src/components/course/VideoDetail.js:24-33 | "https://www.youtube.com/watch?v=dQw4w9WgXcQ&t=42" yields "dQw4w9WgXcQ" |
| YouTube.TenCharacterIdRejected | src/components/course/VideoDetail.js:30-32 | "https://youtu.be/abc123XYZ9" yields null, because its identifier is ten long |
| VideoDetail.PlayerFor | src/components/course/VideoDetail.js:149-168 | the frame is chosen exactly for YouTube links. Its address is the embed base followed by the identifier, or by "null" when the link has none, and it carries the video title. Any other link goes unchanged to the video element, with the thumbnail as poster |
| VideoDetail.PlainLinkEmbedsId | src/components/course/VideoDetail.js:149-158 | a YouTube link written with any usual marker, an 11-long identifier and a query or fragment without `/` or `v=` embeds ".../embed/" followed by exactly that identifier, so watch, short, share and embed links to one video give the same frame |
| VideoDetail.YouTubeLinkWithoutIdEmbedsNull | src/components/course/VideoDetail.js:150-153 | a link that is the bare host "www.youtube.com" still gets the frame, pointed at ".../embed/null" |
| VideoDetail.FetchVideo | src/components/course/VideoDetail.js:35-64 | without a token: the login page and no request. Otherwise exactly one authorized GET of that course's video. Success shows the video and does nothing else. A 401 goes to login and nothing else. Any other failure changes only the error, to the server's error text or the default. Loading always ends |
| VideoDetail.FetchVideoLoadedIff | src/components/course/VideoDetail.js:35-64 | starting without an error, the page ends with no error and no login redirect exactly when there is a token and the request succeeds |
| VideoDetail.FirstLoad | src/components/course/VideoDetail.js:8-64 | on a freshly opened page, the video is shown with no error and no login redirect exactly when there is a token and the request succeeds; the page then holds exactly the fetched video and an empty comment box |
| VideoDetail.SubmitComment | src/components/course/VideoDetail.js:70-101 | without a token: the login page. Otherwise a POST of the comment text. On success, when the page holds a comment list, that POST is the only effect: the returned comment goes in front, the old comments follow in order, the rest of the video is unchanged, and the text box is cleared. On success without a comment list, the spread throws: the POST is followed by the default alert and nothing changes, so the comment is stored while the user is told it failed. A failure alerts the server's error text or the default and changes nothing |
| Navbar.Navigation | src/components/layout/Navbar.js:11-18 | Courses is first for everyone. Only an administrator also gets Grant Access, Register Account and Users, in that order. An item is current exactly when its address is the current path |
| Navbar.AtMostOneCurrent | src/components/layout/Navbar.js:11-18 | at most one navigation item is marked current |
| Navbar.KeepTruthy | src/components/layout/Navbar.js:27 | `filter(Boolean)` keeps exactly the present non-empty strings, and never more than it was given |
| Navbar.KeepTruthyAppend | src/components/layout/Navbar.js:27 | filtering keeps argument order: it commutes with concatenation |
| Navbar.Join | src/components/layout/Navbar.js:27 | `.join(' ')` of no parts is empty; otherwise the result starts with the first part and is as long as all parts together plus one space per gap |
| Navbar.ClassNames | src/components/layout/Navbar.js:26-28 | the joined class string is empty exactly when no argument is truthy, and otherwise splitting it at spaces gives the space-separated tokens of the truthy arguments, in order |
| Navbar.SplitSpacesAppend | src/components/layout/Navbar.js:27 | splitting at spaces distributes over a joining space |
| Navbar.JoinTokens | src/components/layout/Navbar.js:27 | splitting a non-empty joined list gives the tokens of each part, in order |
| Navbar.JoinSplitSpaces | src/components/layout/Navbar.js:27 | joining the pieces of a split with single spaces gives back the original string |
| Navbar.SplitJoin | src/components/layout/Navbar.js:27 | joining space-free parts with single spaces is undone by splitting at spaces |
| Navbar.ClassNamesSplit | src/components/layout/Navbar.js:26-28 | splitting the result of `classNames` at spaces gives back the truthy space-free arguments, in order |
| Navbar.Logout | src/components/layout/Navbar.js:20-24 | the token and role are removed, every other stored entry is kept, and the browser goes to the login page |
| Navbar.LogoutHidesAdminLinks | src/components/layout/Navbar.js:13-17 | after logging out, the bar shows only the Courses link |
| Navbar.AvatarLetter | src/components/layout/Navbar.js:69 | the avatar shows 'A' exactly for an administrator, and 'S' otherwise |
| Navbar.AvatarMatchesLinks | src/components/layout/Navbar.js:13-69 | the avatar shows 'A' exactly when the bar has the four administrator links, since both test the same role |
| CreatePdf.SetTitle | src/components/course/CreatePdf.js:68 | typing changes the title and nothing else |
| CreatePdf.FileChange | src/components/course/CreatePdf.js:45-54 | a file is kept exactly when one was chosen with the type "application/pdf", and then the error is cleared. Otherwise any earlier file is dropped and the not-a-PDF error is shown |
| CreatePdf.SubmitEnabled | src/components/course/CreatePdf.js:90 | the button is enabled exactly when its `disabled` expression is false: there is a non-empty title and a file |
| CreatePdf.Submit | src/components/course/CreatePdf.js:13-43 | with no title or no file: only the missing-fields error, and no request. Otherwise a POST with exactly "title" and "pdf". Then the course page opens, or the server's error text or the default is shown |
| CreatePdf.ButtonMatchesGuard | src/components/course/CreatePdf.js:16-19 | a submit sends a request exactly when the button (line 90) is enabled |
| CreatePdf.FileChoiceGatesSubmit | src/components/course/CreatePdf.js:45-54 | after a file choice, the button is enabled exactly when there is a title and the chosen file is a PDF |
| CreatePdf.InitialFormBlocked | src/components/course/CreatePdf.js:7-19 | a freshly opened form has its button disabled, and submitting it only shows the missing-fields error and sends nothing |
| AddVideo.InputChange | src/components/course/AddVideo.js:19-25 | the named field takes the value. Every other field, loading and the error are unchanged |
| AddVideo.UploadChange | src/components/course/AddVideo.js:27-82 | without a file nothing happens. Otherwise one upload request goes out. Success changes only the target field, to the returned address. Failure changes only the error. Loading ends |
| AddVideo.UploadRequest | src/components/course/AddVideo.js:33-67 | a POST without an Authorization header to the video or image endpoint, carrying the file and the preset, and a third field `resource_type` = "video" exactly for the video upload |
| AddVideo.UploadsDifferOnlyInKind | src/components/course/AddVideo.js:33-67 | the two uploads differ only in the endpoint and the trailing `resource_type` field |
| AddVideo.VideoChange | src/components/course/AddVideo.js:27-54 | a video upload with the preset and resource type. Success sets `video_url` alone; failure sets the video error and keeps the form |
| AddVideo.ThumbnailChange | src/components/course/AddVideo.js:56-82 | an image upload with the preset. Success sets `thumbnail_url` alone; failure sets the image error and keeps the form |
| AddVideo.SubmitEnabled | src/components/course/AddVideo.js:191 | the button is enabled exactly when its `disabled` expression is false: no upload is loading and the video address is non-empty |
| AddVideo.Submit | src/components/course/AddVideo.js:84-112 | posts exactly the title, video address and thumbnail address from the form. Success clears the error and opens the course page. Failure shows the server's error text or the default. The form is never changed and loading ends |
| AddVideo.VideoUploadEnablesSubmit | src/components/course/AddVideo.js:191 | after a successful video upload, submit is enabled exactly when the returned address is non-empty. After a failed one, it is enabled exactly when it had an address before |
| AddVideo.ThumbnailUploadKeepsSubmit | src/components/course/AddVideo.js:191 | once a thumbnail upload is over, submit is enabled exactly when the form has a video address |
| AddVideo.InitialFormBlocked | src/components/course/AddVideo.js:9-54 | a freshly opened form cannot be submitted; a successful video upload enables it exactly when the returned address is non-empty |
| UserList.FetchUsers | src/components/course/UserList.js:15-46 | without a token: the authorization error and no request. Otherwise a GET. Success shows the reply's users, or none when the reply has no list. Failure shows the server's error text or the default. Loading always ends |
| UserList.FetchUsersLoadedIff | src/components/course/UserList.js:15-46 | starting without an error, the table ends with no error exactly when there is a token and the request succeeds, and then it shows the reply's users when the reply lists them |
| UserList.FirstLoad | src/components/course/UserList.js:10-46 | on a freshly opened table, no error exactly when there is a token and the request succeeds; the table then holds exactly the reply's users, or none |
| UserList.Edit | src/components/course/UserList.js:48-50 | opens that user's edit page, sends nothing, and changes nothing |
| UserList.RemoveId | src/components/course/UserList.js:59 | the filtered list holds exactly the users whose identifier differs, and is no longer than before |
| UserList.RemoveIdAppend | src/components/course/UserList.js:59 | the filter keeps order: it commutes with concatenation |
| UserList.RemoveAbsentId | src/components/course/UserList.js:59 | a list without that identifier is left exactly as it was |
| UserList.DeleteUser | src/components/course/UserList.js:52-65 | unconfirmed: nothing happens. Confirmed: a DELETE. Success removes every entry with that identifier, and the DELETE is the only effect. Failure keeps the list and alerts the server's error text or the default |
| UserList.RoleLabel | src/components/course/UserList.js:133 | the label is as long as the role, its first character upper-cased and the rest unchanged |
| UserList.RoleLabelIdempotent | src/components/course/UserList.js:133 | capitalising a label again changes nothing |
| UserList.BadgeColours | src/components/course/UserList.js:130-132 | one of exactly two class strings: the red one exactly for "admin", the green one for every other role |
| UserList.LabelDoesNotDecideBadge | src/components/course/UserList.js:130-133 | "admin" and "Admin" both show the label "Admin" but get different badges: the colour follows the stored role, not the label |
| CourseList.WithVideos | src/components/course/CourseList.js:40-49 | a course always gains a video list: the reply's videos (or none when the reply has no list), or none when its request failed. Every other field is kept |
| Catalog.VideosOrEmpty | src/components/course/CourseList.js:42 | `videos || []`: the listed videos when the reply has a list, kept even when empty, and the empty list when it has none |
| CourseList.Enrich | src/components/course/CourseList.js:31-52 | the enriched list has the fetched length and order, and course `i` is paired with reply `i` |
| CourseList.VideoRequests | src/components/course/CourseList.js:32-39 | one videos request per course, in list order, for that course's identifier |
| CourseList.FetchCourses | src/components/course/CourseList.js:14-66 | without a token: the login page and no request. Otherwise the list is requested. A reply without courses shows none. A reply with courses sends one videos request each and shows them enriched, in order. A failure shows the server's error text or the default, and a 401 also opens the login page. Loading always ends |
| CourseList.EnrichKeepsCourses | src/components/course/CourseList.js:40-49 | enrichment changes no course's own fields |
| CourseList.FailureIsLocal | src/components/course/CourseList.js:44-49 | a failed videos request for course `k` leaves every other course as it would have been, and gives course `k` an empty list |
| CourseList.EnrichAppend | src/components/course/CourseList.js:31-52 | enriching a concatenation is enriching the parts, the second part paired with the replies after the first |
| CourseList.FirstLoad | src/components/course/CourseList.js:7-66 | on a freshly opened list, no error and no login redirect exactly when there is a token and the list request succeeds; a reply with courses then shows exactly them, enriched in order |
| CourseDetail.OnCaught | src/components/course/CourseDetail.js:62-74 | 401 goes to the login page and nothing else does. 403 and 404 show their fixed messages. Otherwise the server's error text, else the error's message, else the default |
| CourseDetail.ShownMessageNonEmpty | src/components/course/CourseDetail.js:62-74 | every message shown for a caught error is non-empty |
| CourseDetail.Caught | src/components/course/CourseDetail.js:54-77 | a caught error either opens the login page with the error unchanged, or shows its message. The course and videos are kept, and loading ends |
| CourseDetail.FetchCourseDetails | src/components/course/CourseDetail.js:16-78 | without a token: the login page. Otherwise the course is requested. A reply without a course shows "course not found". A course is shown before its videos are requested. If that request fails, the course stays shown and the failure is handled by the catch block exactly as a failed course request is, with both requests recorded. Loading always ends |
| CourseDetail.SameVideosAsList | src/components/course/CourseDetail.js:52 | starting from a page that shows no videos yet, with a token, the page's videos for a course are exactly the list the course list gives that course for the same reply. From a page that already shows videos (the effect re-runs when the course id changes), a failed videos request keeps the old list (FailedVideosKeepList), where the course list would give none |
| CourseDetail.FailedVideosKeepList | src/components/course/CourseDetail.js:52-81 | with a token and a found course, a failed videos request leaves the videos the page already showed and shows the new course: after the effect re-runs for another course id, the previous course's videos stay on screen |
| CourseDetail.MissingCourseIsNotFound | src/components/course/CourseDetail.js:36-38 | a reply without a course ends exactly as a 404 does |
| CourseDetail.LoadedIff | src/components/course/CourseDetail.js:16-78 | starting without an error, the page ends with no error and no login redirect exactly when there is a token and both requests succeed with a course |
| CourseDetail.FirstLoad | src/components/course/CourseDetail.js:9-78 | on a freshly opened page, no error and no login redirect exactly when there is a token and both requests succeed with a course; the page then holds exactly that course and its videos |
| CourseDetail.DeleteVideo | src/components/course/CourseDetail.js:87-111 | unconfirmed: nothing. No token: the login page. Otherwise a DELETE, then the videos are fetched again and replace the list. A failed DELETE is the only effect and shows the delete error; a failed refetch also shows it. The course and loading are never touched |
| CourseDetail.DeleteCourse | src/components/course/CourseDetail.js:113-134 | unconfirmed: nothing. No token: the login page. Otherwise a DELETE, then the course list opens, or the delete error is shown |
| CourseDetail.DeletesNeedConfirmationAndToken | src/components/course/CourseDetail.js:87-134 | either delete sends a request exactly when it is confirmed and there is a token |

## Left out

- HTTP itself is not modelled. Each awaited request is an input `Outcome`, and the request is recorded as an effect. For backend calls only the path after the origin is kept, because the origins differ from call to call (`config.apiUrl`, localhost, the hosted backend). `config.js` and `services/api.js` are not part of this model.
- Browser storage, `window.confirm`, the file input and `FileReader` become inputs. Rendering, the loading, error and not-found screens, and routing (`App.js`) are not modelled.
- The screens for granting access, creating and editing courses, editing users and registering accounts are not part of this model.
- Concurrency is not modelled. `Promise.all` in the course list is read as its ordered result. Two uploads on the add-video form share one loading flag, and overlapping ones are not modelled.
- Stale closures are not modelled. The user table filters the list it held when the delete began.
- Navigation-only handlers are not modelled: the video page's back button, the course page's add-video button, and the course cards' buttons. Each only navigates to a fixed page.
- HTML `required` attributes are not modelled. Only the handlers' own guards are.
- AddVideo.UploadChange: a successful upload whose reply lacks `secure_url` would store `undefined`. The model takes the address as a string.
- UserList.RoleLabel: `toUpperCase` is modelled for ASCII letters only. Other scripts' case mapping and a missing role are not modelled; a missing role makes the page throw.
- VideoDetail.SubmitComment: a reply without a `comment` would insert `undefined`. The model takes the comment as given.
- UserList.User: identifiers are compared as the text they take in request paths. Numeric identifiers compared with `!==` against a string are not distinguished.
- A shortened link with a ten-character identifier yields null (`YouTube.TenCharacterIdRejected`).
- Console output (`console.log` and `console.error` in the handlers) is not modelled: it changes neither the state nor what the user sees.
