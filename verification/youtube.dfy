/** Recognition of YouTube links and extraction of the video identifier, as
    done by the video page's two helpers.

    The identifier comes from the regular expression
        ^.*(youtu.be\/|v\/|u\/\w\/|embed\/|watch\?v=|&v=)([^#&?]*).*
    followed by a check that group 2 is exactly 11 long. The expression is
    modelled as JavaScript evaluates it: the leading greedy `.*` backtracks
    from its longest reach, so the marker (group 1) used is the rightmost
    position where one of the alternatives matches; `.*` cannot pass a line
    terminator; group 2 is then the longest run without `#`, `&` or `?`, and
    the trailing `.*` always succeeds. Strings are sequences of characters;
    JavaScript's `length` counts UTF-16 code units, so the length check does
    too, and the `.` inside `youtu.be` matches a single code unit. */
module YouTube {
  import opened Browser

  // ---------------------------------------------------------------------
  // Characters

  /** The characters JavaScript's `.` refuses. */
  predicate IsLineTerminator(c: char) {
    c == '\n' || c == '\r' || c == '\U{2028}' || c == '\U{2029}'
  }

  /** `\w` */
  predicate IsWordChar(c: char) {
    ('a' <= c <= 'z') || ('A' <= c <= 'Z') || ('0' <= c <= '9') || c == '_'
  }

  /** The characters `[^#&?]` excludes, which end group 2. */
  predicate IsStopper(c: char) {
    c == '#' || c == '&' || c == '?'
  }

  /** Number of UTF-16 code units JavaScript stores for a character. */
  function CodeUnits(c: char): nat {
    if c as int < 0x1_0000 then 1 else 2
  }

  /** `s.length` in JavaScript. */
  function Utf16Length(s: string): nat {
    if s == [] then 0 else CodeUnits(s[0]) + Utf16Length(s[1..])
  }

  // ---------------------------------------------------------------------
  // Substring search (`String.prototype.includes`)

  /** `pat` occurs in `s` starting at `i`. */
  ghost predicate OccursAt(s: string, pat: string, i: int) {
    0 <= i && i + |pat| <= |s| && s[i..i + |pat|] == pat
  }

  /** First index at or after `from` where `pat` occurs, found by scanning. */
  function IndexFrom(s: string, pat: string, from: nat): (r: Option<nat>)
    ensures r.Some? ==> from <= r.value && OccursAt(s, pat, r.value)
    decreases |s| - from
  {
    if from + |pat| > |s| then None
    else if s[from..from + |pat|] == pat then Some(from)
    else IndexFrom(s, pat, from + 1)
  }

  /** `s.includes(pat)`: never true of a pattern longer than the text, and
      true whenever the text starts with the pattern (so always for the
      empty pattern). */
  function Includes(s: string, pat: string): (r: bool)
    ensures r ==> |pat| <= |s|
    ensures |pat| <= |s| && s[..|pat|] == pat ==> r
  {
    IndexFrom(s, pat, 0).Some?
  }

  lemma {:induction false} IndexFromFinds(s: string, pat: string, from: nat)
    ensures IndexFrom(s, pat, from).Some? <==> exists i :: from <= i && OccursAt(s, pat, i)
    decreases |s| - from
  {
    if from + |pat| > |s| {
    } else if s[from..from + |pat|] == pat {
      assert OccursAt(s, pat, from);
    } else {
      IndexFromFinds(s, pat, from + 1);
      if exists i :: from <= i && OccursAt(s, pat, i) {
        var i :| from <= i && OccursAt(s, pat, i);
        assert i != from;
        assert from + 1 <= i;
      }
    }
  }

  /** `includes` is true exactly when the pattern occurs somewhere. */
  lemma IncludesIffOccurs(s: string, pat: string)
    ensures Includes(s, pat) <==> exists i :: OccursAt(s, pat, i)
  {
    IndexFromFinds(s, pat, 0);
  }

  // ---------------------------------------------------------------------
  // isYouTubeUrl

  /** `url && (url.includes('youtube.com') || url.includes('youtu.be'))`,
      read as a condition: only a link at least as long as "youtu.be"
      qualifies, and every link that starts with either host name does. */
  function IsYouTubeUrl(url: Option<string>): (r: bool)
    ensures r ==> url.Some? && |url.value| >= 8
    ensures url.Some? && |url.value| >= 11 && url.value[..11] == "youtube.com" ==> r
    ensures url.Some? && |url.value| >= 8 && url.value[..8] == "youtu.be" ==> r
  {
    Truthy(url) && (Includes(url.value, "youtube.com") || Includes(url.value, "youtu.be"))
  }

  /** A link counts as YouTube exactly when it is non-empty and contains
      "youtube.com" or "youtu.be" (with a literal dot) somewhere. */
  lemma IsYouTubeUrlSpec(url: Option<string>)
    ensures IsYouTubeUrl(url) <==>
      url.Some? && url.value != "" &&
      ((exists i :: OccursAt(url.value, "youtube.com", i)) || (exists i :: OccursAt(url.value, "youtu.be", i)))
  {
    if url.Some? {
      IncludesIffOccurs(url.value, "youtube.com");
      IncludesIffOccurs(url.value, "youtu.be");
    }
  }

  // ---------------------------------------------------------------------
  // The regular expression

  /** One position of an alternative: a literal character, the `.` of
      `youtu.be`, or `\w`. */
  datatype Atom = Lit(c: char) | Dot | Word

  predicate AtomMatches(a: Atom, c: char) {
    match a
    case Lit(x) => c == x
    case Dot => !IsLineTerminator(c) && c as int < 0x1_0000
    case Word => IsWordChar(c)
  }

  /** The alternatives of group 1, in the order the expression lists them. */
  const YoutuBe: seq<Atom> := [Lit('y'), Lit('o'), Lit('u'), Lit('t'), Lit('u'), Dot, Lit('b'), Lit('e'), Lit('/')]
  const SlashV: seq<Atom> := [Lit('v'), Lit('/')]
  const UserWord: seq<Atom> := [Lit('u'), Lit('/'), Word, Lit('/')]
  const EmbedMarker: seq<Atom> := [Lit('e'), Lit('m'), Lit('b'), Lit('e'), Lit('d'), Lit('/')]
  const WatchV: seq<Atom> := [Lit('w'), Lit('a'), Lit('t'), Lit('c'), Lit('h'), Lit('?'), Lit('v'), Lit('=')]
  const AmpV: seq<Atom> := [Lit('&'), Lit('v'), Lit('=')]

  /** The alternative `p` matches the beginning of `t`. */
  predicate PrefixMatches(p: seq<Atom>, s: string, k: nat) {
    k + |p| <= |s| && forall j :: 0 <= j < |p| ==> AtomMatches(p[j], s[k + j])
  }

  /** Length of the group-1 text when group 1 can match at `k`, trying the
      alternatives in order. */
  function MarkerAt(s: string, k: nat): (r: Option<nat>)
    requires k <= |s|
    ensures r.Some? ==> 2 <= r.value <= 9 && k + r.value <= |s|
  {
    if PrefixMatches(YoutuBe, s, k) then Some(|YoutuBe|)
    else if PrefixMatches(SlashV, s, k) then Some(|SlashV|)
    else if PrefixMatches(UserWord, s, k) then Some(|UserWord|)
    else if PrefixMatches(EmbedMarker, s, k) then Some(|EmbedMarker|)
    else if PrefixMatches(WatchV, s, k) then Some(|WatchV|)
    else if PrefixMatches(AmpV, s, k) then Some(|AmpV|)
    else None
  }

  /** Group 1 can match at `k` exactly when one of the six alternatives
      does; their order only decides which one is taken. */
  lemma MarkerAtIff(s: string, k: nat)
    requires k <= |s|
    ensures MarkerAt(s, k).Some? <==>
      PrefixMatches(YoutuBe, s, k) || PrefixMatches(SlashV, s, k) || PrefixMatches(UserWord, s, k) ||
      PrefixMatches(EmbedMarker, s, k) || PrefixMatches(WatchV, s, k) || PrefixMatches(AmpV, s, k)
  {
  }

  /** Whichever alternative matches at `k` is the one group 1 takes there,
      with its own length: the six alternatives start with six different
      characters ('y', 'v', 'u', 'e', 'w', '&'), so at most one of them can
      match at any position. */
  lemma AlternativeLength(p: seq<Atom>, s: string, k: nat)
    requires k <= |s|
    requires p in [YoutuBe, SlashV, UserWord, EmbedMarker, WatchV, AmpV]
    requires PrefixMatches(p, s, k)
    ensures MarkerAt(s, k) == Some(|p|)
  {
    FirstAtom(p, s, k);
    if PrefixMatches(YoutuBe, s, k) { FirstAtom(YoutuBe, s, k); }
    if PrefixMatches(SlashV, s, k) { FirstAtom(SlashV, s, k); }
    if PrefixMatches(UserWord, s, k) { FirstAtom(UserWord, s, k); }
    if PrefixMatches(EmbedMarker, s, k) { FirstAtom(EmbedMarker, s, k); }
    if PrefixMatches(WatchV, s, k) { FirstAtom(WatchV, s, k); }
  }

  /** An alternative that matches at `k` matches its first atom there. */
  lemma FirstAtom(p: seq<Atom>, s: string, k: nat)
    requires |p| > 0 && PrefixMatches(p, s, k)
    ensures AtomMatches(p[0], s[k])
  {
  }

  /** The leading `.*` can end at `k`: no line terminator before it. */
  ghost predicate Reachable(s: string, k: int) {
    0 <= k <= |s| && forall i :: 0 <= i < k ==> !IsLineTerminator(s[i])
  }

  /** The expression can match with group 1 starting at `k`. */
  ghost predicate GroupOneAt(s: string, k: int) {
    Reachable(s, k) && MarkerAt(s, k).Some?
  }

  /** `g` is group 2 when group 2 starts at `j`: the longest run from `j`
      without `#`, `&` or `?`. */
  ghost predicate IsMaximalRun(s: string, j: int, g: string) {
    0 <= j && j + |g| <= |s| && s[j..j + |g|] == g &&
    (forall i :: 0 <= i < |g| ==> !IsStopper(g[i])) &&
    (j + |g| == |s| || IsStopper(s[j + |g|]))
  }

  /** The match JavaScript returns has group 2 equal to `g`: group 1 sits at
      the rightmost position where it can match, and group 2 follows it. */
  ghost predicate RegexGroupTwo(s: string, g: string) {
    exists k :: GroupOneAt(s, k) && IsMaximalRun(s, k + MarkerAt(s, k).value, g) &&
      forall k' :: k < k' ==> !GroupOneAt(s, k')
  }

  // ---------------------------------------------------------------------
  // Evaluation, in JavaScript's backtracking order

  /** Index of the first line terminator, or `|s|`: the farthest `.*` reaches. */
  function ReachLimit(s: string): (n: nat)
    ensures n <= |s|
    ensures forall i :: 0 <= i < n ==> !IsLineTerminator(s[i])
    ensures n < |s| ==> IsLineTerminator(s[n])
  {
    if s == [] || IsLineTerminator(s[0]) then 0 else 1 + ReachLimit(s[1..])
  }

  /** The positions where group 1 can match. */
  function MarkerHits(s: string): nat -> bool {
    (k: nat) => k <= |s| && MarkerAt(s, k).Some?
  }

  /** Tries `k`, `k - 1`, ..., `0` in turn and returns the first position
      where `hit` holds, as the backtracking `.*` does. */
  function LastFrom(hit: nat -> bool, k: nat): (r: Option<nat>)
    ensures r.Some? ==> r.value <= k && hit(r.value)
    decreases k
  {
    if hit(k) then Some(k)
    else if k == 0 then None
    else LastFrom(hit, k - 1)
  }

  /** Where group 1 sits in the match JavaScript finds. */
  function LastMarker(s: string): (r: Option<nat>)
    ensures r.Some? ==> r.value <= |s| && MarkerAt(s, r.value).Some?
  {
    var r := LastFrom(MarkerHits(s), ReachLimit(s));
    assert r.Some? ==> MarkerHits(s)(r.value);
    r
  }

  /** Group 2 starting at `j`: the characters up to the first `#`, `&` or `?`. */
  function RunFrom(s: string, j: nat): (g: string)
    requires j <= |s|
    ensures IsMaximalRun(s, j, g)
    decreases |s| - j
  {
    if j == |s| || IsStopper(s[j]) then [] else [s[j]] + RunFrom(s, j + 1)
  }

  /** `getYouTubeId`: null for a falsy url, for no match, and for a group 2
      whose length is not 11; otherwise group 2. */
  function GetYouTubeId(url: Option<string>): (r: Option<string>)
    ensures !Truthy(url) ==> r == None
    ensures r.Some? ==> Utf16Length(r.value) == 11
    ensures r.Some? ==> forall i :: 0 <= i < |r.value| ==> !IsStopper(r.value[i])
  {
    if !Truthy(url) then None
    else
      match LastMarker(url.value)
      case None => None
      case Some(k) => IdAt(url.value, k)
  }

  /** Group 2 after group 1 at `k`, kept when it is 11 code units long. */
  function IdAt(s: string, k: nat): (r: Option<string>)
    requires k <= |s| && MarkerAt(s, k).Some?
    ensures r.Some? ==> Utf16Length(r.value) == 11
    ensures r.Some? ==> forall i :: 0 <= i < |r.value| ==> !IsStopper(r.value[i])
  {
    var g := RunFrom(s, k + MarkerAt(s, k).value);
    if Utf16Length(g) == 11 then Some(g) else None
  }

  // ---------------------------------------------------------------------
  // The evaluation agrees with the declarative reading

  /** The backward search returns the rightmost hit at or before where it
      starts. */
  lemma LastFromSpec(hit: nat -> bool, n: nat, k: nat)
    ensures LastFrom(hit, n) == Some(k) <==>
      k <= n && hit(k) && forall k' :: k < k' <= n ==> !hit(k')
  {
    if LastFrom(hit, n) == Some(k) {
      LastFromFound(hit, n, k);
    }
    if k <= n && hit(k) && forall k' :: k < k' <= n ==> !hit(k') {
      LastFromFinds(hit, n, k);
    }
  }

  lemma {:induction false} LastFromFound(hit: nat -> bool, n: nat, k: nat)
    requires LastFrom(hit, n) == Some(k)
    ensures forall k' :: k < k' <= n ==> !hit(k')
    decreases n
  {
    if !hit(n) {
      LastFromFound(hit, n - 1, k);
    }
  }

  lemma {:induction false} LastFromFinds(hit: nat -> bool, n: nat, k: nat)
    requires k <= n && hit(k)
    requires forall k' :: k < k' <= n ==> !hit(k')
    ensures LastFrom(hit, n) == Some(k)
    decreases n
  {
    if k < n {
      LastFromFinds(hit, n - 1, k);
    }
  }

  /** The backward search fails exactly when nothing at or before where it
      starts is a hit. */
  lemma {:induction false} LastFromNone(hit: nat -> bool, n: nat)
    ensures LastFrom(hit, n) == None <==> forall k :: 0 <= k <= n ==> !hit(k)
    decreases n
  {
    if !hit(n) && n > 0 {
      LastFromNone(hit, n - 1);
    }
  }

  /** Positions the leading `.*` can reach are exactly those up to the first
      line terminator. */
  lemma ReachableIff(s: string, k: int)
    ensures Reachable(s, k) <==> 0 <= k <= ReachLimit(s)
  {
    var n := ReachLimit(s);
    if n < |s| {
      assert IsLineTerminator(s[n]);
    }
  }

  /** Group 1 can match at `k` exactly when `k` is a hit at or before the
      reach of `.*`. */
  lemma GroupOneIff(s: string, k: int)
    ensures GroupOneAt(s, k) <==> 0 <= k <= ReachLimit(s) && MarkerHits(s)(k)
  {
    ReachableIff(s, k);
  }

  /** The search finds the rightmost position where group 1 can match. */
  lemma LastMarkerIsRightmost(s: string, k: nat)
    ensures LastMarker(s) == Some(k) <==> GroupOneAt(s, k) && forall k' :: k < k' ==> !GroupOneAt(s, k')
  {
    var n := ReachLimit(s);
    LastFromSpec(MarkerHits(s), n, k);
    GroupOneIff(s, k);
    forall k' ensures GroupOneAt(s, k') <==> 0 <= k' <= n && MarkerHits(s)(k') {
      GroupOneIff(s, k');
    }
  }

  /** The search fails exactly when group 1 can match nowhere. */
  lemma LastMarkerNone(s: string)
    ensures LastMarker(s) == None <==> forall k :: !GroupOneAt(s, k)
  {
    var n := ReachLimit(s);
    LastFromNone(MarkerHits(s), n);
    forall k' ensures GroupOneAt(s, k') <==> 0 <= k' <= n && MarkerHits(s)(k') {
      GroupOneIff(s, k');
    }
  }

  /** Group 2 is determined by where it starts: the one maximal run is the
      one the scan computes. */
  lemma {:induction false} MaximalRunIsScan(s: string, j: nat, g: string)
    requires j <= |s|
    requires IsMaximalRun(s, j, g)
    ensures g == RunFrom(s, j)
    decreases |s| - j
  {
    if j == |s| {
    } else if IsStopper(s[j]) {
      assert |g| == 0;
    } else {
      assert |g| > 0;
      assert g[0] == s[j];
      assert s[j + 1..j + 1 + |g[1..]|] == g[1..];
      MaximalRunIsScan(s, j + 1, g[1..]);
      assert g == [g[0]] + g[1..];
    }
  }

  /** Every identifier returned is group 2 of the match JavaScript returns,
      and 11 code units long. */
  lemma IdIsGroupTwo(s: string, id: string)
    requires GetYouTubeId(Some(s)) == Some(id)
    ensures s != "" && RegexGroupTwo(s, id) && Utf16Length(id) == 11
  {
    var k := LastMarker(s).value;
    LastMarkerIsRightmost(s, k);
    assert GroupOneAt(s, k) && IsMaximalRun(s, k + MarkerAt(s, k).value, id);
  }

  /** Group 2 of the match JavaScript returns is the identifier whenever it is
      11 code units long. */
  lemma GroupTwoIsId(s: string, id: string)
    requires s != "" && RegexGroupTwo(s, id) && Utf16Length(id) == 11
    ensures GetYouTubeId(Some(s)) == Some(id)
  {
    var k :| GroupOneAt(s, k) && IsMaximalRun(s, k + MarkerAt(s, k).value, id) &&
      forall k' :: k < k' ==> !GroupOneAt(s, k');
    LastMarkerIsRightmost(s, k);
    RunAfterLastMarker(s, k, id);
  }

  /** Once the search has found group 1 at `k`, a maximal run after it
      decides the result. */
  lemma RunAfterLastMarker(s: string, k: nat, g: string)
    requires s != "" && LastMarker(s) == Some(k)
    requires IsMaximalRun(s, k + MarkerAt(s, k).value, g)
    ensures GetYouTubeId(Some(s)) == if Utf16Length(g) == 11 then Some(g) else None
  {
    assert RunFrom(s, k + MarkerAt(s, k).value) == g by {
      MaximalRunIsScan(s, k + MarkerAt(s, k).value, g);
    }
    IdAfterMarker(s, k);
  }

  /** Once the search has found group 1 at `k`, the result is the run after
      it, when that is 11 code units long. */
  lemma IdAfterMarker(s: string, k: nat)
    requires s != "" && LastMarker(s) == Some(k)
    ensures GetYouTubeId(Some(s)) == IdAt(s, k)
  {
  }

  /** `getYouTubeId` returns exactly the 11-code-unit group 2 of the match
      JavaScript returns, and nothing else. */
  lemma GetYouTubeIdSpec(s: string, id: string)
    ensures GetYouTubeId(Some(s)) == Some(id) <==>
      s != "" && RegexGroupTwo(s, id) && Utf16Length(id) == 11
  {
    if GetYouTubeId(Some(s)) == Some(id) {
      IdIsGroupTwo(s, id);
    }
    if s != "" && RegexGroupTwo(s, id) && Utf16Length(id) == 11 {
      GroupTwoIsId(s, id);
    }
  }

  /** With no position where group 1 can match, the result is null. */
  lemma NoMarkerNoId(s: string)
    requires forall k :: !GroupOneAt(s, k)
    ensures GetYouTubeId(Some(s)) == None
  {
    LastMarkerNone(s);
  }

  // ---------------------------------------------------------------------
  // Links of the usual shapes

  /** The two characters every alternative starts with. */
  predicate IsMarkerStart(a: char, b: char) {
    (a == 'y' && b == 'o') || (a == 'v' && b == '/') || (a == 'u' && b == '/') ||
    (a == 'e' && b == 'm') || (a == 'w' && b == 'a') || (a == '&' && b == 'v')
  }

  /** Every alternative is at least two long, starts with one of the pairs
      above, and ends with `/` or with `v=`. */
  lemma MarkerShape(s: string, k: nat)
    requires k <= |s| && MarkerAt(s, k).Some?
    ensures var m := MarkerAt(s, k).value;
      2 <= m && IsMarkerStart(s[k], s[k + 1]) &&
      (s[k + m - 1] == '/' || (s[k + m - 2] == 'v' && s[k + m - 1] == '='))
  {
    if PrefixMatches(YoutuBe, s, k) {
      EndsMatch(YoutuBe, s, k);
    } else if PrefixMatches(SlashV, s, k) {
      EndsMatch(SlashV, s, k);
    } else if PrefixMatches(UserWord, s, k) {
      EndsMatch(UserWord, s, k);
    } else if PrefixMatches(EmbedMarker, s, k) {
      EndsMatch(EmbedMarker, s, k);
    } else if PrefixMatches(WatchV, s, k) {
      EndsMatch(WatchV, s, k);
    } else {
      EndsMatch(AmpV, s, k);
    }
  }

  /** The first two and the last two positions of a matching alternative. */
  lemma EndsMatch(p: seq<Atom>, s: string, k: nat)
    requires PrefixMatches(p, s, k) && 2 <= |p|
    ensures AtomMatches(p[0], s[k]) && AtomMatches(p[1], s[k + 1])
    ensures AtomMatches(p[|p| - 2], s[k + |p| - 2]) && AtomMatches(p[|p| - 1], s[k + |p| - 1])
  {
    assert AtomMatches(p[0], s[k + 0]);
  }

  /** Every alternative ends with `/` or `=`, so a link containing neither
      has no identifier. */
  lemma NoDelimiterNoId(s: string)
    requires '/' !in s && '=' !in s
    ensures GetYouTubeId(Some(s)) == None
  {
    forall k | 0 <= k <= |s| ensures MarkerAt(s, k).None? {
      if MarkerAt(s, k).Some? {
        MarkerShape(s, k);
      }
    }
    NoMarkerNoId(s);
  }

  /** The markers a YouTube link is usually written with. */
  predicate IsPlainMarker(marker: string) {
    marker == "youtu.be/" || marker == "v/" || marker == "embed/" || marker == "watch?v=" || marker == "&v="
  }

  lemma PlainMarkerMatches(s: string, k: nat, marker: string)
    requires IsPlainMarker(marker)
    requires k + |marker| <= |s| && s[k..k + |marker|] == marker
    ensures MarkerAt(s, k) == Some(|marker|)
  {
    var t := s[k..k + |marker|];
    assert forall j :: 0 <= j < |marker| ==> s[k + j] == marker[j] by {
      forall j | 0 <= j < |marker| ensures s[k + j] == marker[j] {
        assert t[j] == s[k + j];
      }
    }
    if marker == "youtu.be/" {
      forall j | 0 <= j < 9 ensures AtomMatches(YoutuBe[j], s[k + j]) {
        assert j == 0 || j == 1 || j == 2 || j == 3 || j == 4 || j == 5 || j == 6 || j == 7 || j == 8;
      }
      assert PrefixMatches(YoutuBe, s, k);
    } else {
      assert !AtomMatches(YoutuBe[0], s[k + 0]);
      if marker == "v/" {
        forall j | 0 <= j < 2 ensures AtomMatches(SlashV[j], s[k + j]) {
          assert j == 0 || j == 1;
        }
        assert PrefixMatches(SlashV, s, k);
      } else {
        assert !AtomMatches(SlashV[0], s[k + 0]) && !AtomMatches(UserWord[0], s[k + 0]);
        if marker == "embed/" {
          forall j | 0 <= j < 6 ensures AtomMatches(EmbedMarker[j], s[k + j]) {
            assert j == 0 || j == 1 || j == 2 || j == 3 || j == 4 || j == 5;
          }
          assert PrefixMatches(EmbedMarker, s, k);
        } else {
          assert !AtomMatches(EmbedMarker[0], s[k + 0]);
          if marker == "watch?v=" {
            forall j | 0 <= j < 8 ensures AtomMatches(WatchV[j], s[k + j]) {
              assert j == 0 || j == 1 || j == 2 || j == 3 || j == 4 || j == 5 || j == 6 || j == 7;
            }
            assert PrefixMatches(WatchV, s, k);
          } else {
            assert !AtomMatches(WatchV[0], s[k + 0]);
            forall j | 0 <= j < 3 ensures AtomMatches(AmpV[j], s[k + j]) {
              assert j == 0 || j == 1 || j == 2;
            }
            assert PrefixMatches(AmpV, s, k);
          }
        }
      }
    }
  }

  /** Each usual marker ends with `/` or `=`. */
  lemma PlainMarkerEnds(marker: string)
    requires IsPlainMarker(marker)
    ensures |marker| >= 2 && (marker[|marker| - 1] == '/' || marker[|marker| - 1] == '=')
  {
  }

  /** No alternative starts strictly inside one of the usual markers. */
  lemma PlainMarkerInterior(marker: string, o: int)
    requires IsPlainMarker(marker) && 0 < o && o + 1 < |marker|
    ensures !IsMarkerStart(marker[o], marker[o + 1])
  {
  }

  /** After one of the usual markers, if no `/` and no `v=` follows, group 1
      can match nowhere further right. */
  lemma NoMarkerAfter(s: string, k: nat, marker: string)
    requires IsPlainMarker(marker)
    requires k + |marker| <= |s| && s[k..k + |marker|] == marker
    requires forall p :: k + |marker| <= p < |s| ==> s[p] != '/'
    requires forall p :: k + |marker| <= p < |s| - 1 ==> !(s[p] == 'v' && s[p + 1] == '=')
    ensures forall k' :: k < k' <= |s| ==> MarkerAt(s, k').None?
  {
    var j := k + |marker|;
    PlainMarkerEnds(marker);
    assert s[j - 1] == marker[|marker| - 1];
    forall k' | k < k' <= |s| ensures MarkerAt(s, k').None? {
      if k' + 1 < j {
        assert s[k'] == marker[k' - k] && s[k' + 1] == marker[k' + 1 - k];
        PlainMarkerInterior(marker, k' - k);
      }
      if MarkerAt(s, k').Some? {
        MarkerShape(s, k');
      }
    }
  }

  /** Group 1 at `k` is one of the usual markers and no `/` and no `v=`
      follows it: the identifier is the run after that marker, when it is 11
      code units long. */
  lemma LastPlainMarkerId(s: string, k: nat, marker: string, g: string)
    requires Reachable(s, k)
    requires IsPlainMarker(marker)
    requires k + |marker| <= |s| && s[k..k + |marker|] == marker
    requires forall p :: k + |marker| <= p < |s| ==> s[p] != '/'
    requires forall p :: k + |marker| <= p < |s| - 1 ==> !(s[p] == 'v' && s[p + 1] == '=')
    requires IsMaximalRun(s, k + |marker|, g)
    ensures GetYouTubeId(Some(s)) == if Utf16Length(g) == 11 then Some(g) else None
  {
    PlainMarkerMatches(s, k, marker);
    NoMarkerAfter(s, k, marker);
    RightmostMarkerId(s, k, g);
  }

  /** Group 1 matches at a reachable `k` and nowhere to its right: the
      identifier is the run after it, when that is 11 code units long. */
  lemma RightmostMarkerId(s: string, k: nat, g: string)
    requires Reachable(s, k) && MarkerAt(s, k).Some?
    requires forall k' :: k < k' <= |s| ==> MarkerAt(s, k').None?
    requires IsMaximalRun(s, k + MarkerAt(s, k).value, g)
    ensures GetYouTubeId(Some(s)) == if Utf16Length(g) == 11 then Some(g) else None
  {
    RightmostIsLast(s, k);
    RunAfterLastMarker(s, k, g);
  }

  /** The rightmost reachable placement of group 1 is the one the search
      returns. */
  lemma RightmostIsLast(s: string, k: nat)
    requires Reachable(s, k) && MarkerAt(s, k).Some?
    requires forall k' :: k < k' <= |s| ==> MarkerAt(s, k').None?
    ensures LastMarker(s) == Some(k)
  {
    ReachableIff(s, k);
    LastFromSpec(MarkerHits(s), ReachLimit(s), k);
  }

  /** No `/` and no `v=` in `t`: every alternative ends with one of them,
      so none can end inside `t`. */
  predicate NoMarkerEnd(t: string) {
    (forall i :: 0 <= i < |t| ==> t[i] != '/') &&
    (forall i :: 0 <= i < |t| - 1 ==> !(t[i] == 'v' && t[i + 1] == '='))
  }

  /** A link written as some prefix, one of the usual markers, the identifier
      and then nothing or a query or fragment (`?si=...`, `&t=42`,
      `#comments`) with no further `/` or `v=`: the marker is the one the
      expression uses and group 2 is the identifier, so the identifier is
      returned exactly when it is 11 code units long. */
  lemma PlainLinkId(prefix: string, marker: string, id: string, suffix: string)
    requires forall i :: 0 <= i < |prefix| ==> !IsLineTerminator(prefix[i])
    requires IsPlainMarker(marker)
    requires forall i :: 0 <= i < |id| ==> !IsStopper(id[i])
    requires suffix == [] || IsStopper(suffix[0])
    requires NoMarkerEnd(id + suffix)
    ensures GetYouTubeId(Some(prefix + marker + id + suffix)) ==
      if Utf16Length(id) == 11 then Some(id) else None
  {
    IdIsRunOfRest(id, suffix);
    Regroup(prefix + marker, id, suffix);
    LinkWithRestId(prefix, marker, id + suffix, id, prefix + marker + id + suffix);
  }

  lemma IdIsRunOfRest(id: string, suffix: string)
    requires forall i :: 0 <= i < |id| ==> !IsStopper(id[i])
    requires suffix == [] || IsStopper(suffix[0])
    ensures IsMaximalRun(id + suffix, 0, id)
  {
    var rest := id + suffix;
    assert rest[0..|id|] == id;
    if |id| < |rest| {
      assert rest[|id|] == suffix[0];
    }
  }

  lemma LinkWithRestId(prefix: string, marker: string, rest: string, id: string, s: string)
    requires forall i :: 0 <= i < |prefix| ==> !IsLineTerminator(prefix[i])
    requires IsPlainMarker(marker)
    requires NoMarkerEnd(rest)
    requires IsMaximalRun(rest, 0, id)
    requires s == prefix + marker + rest
    ensures GetYouTubeId(Some(s)) == if Utf16Length(id) == 11 then Some(id) else None
  {
    var head := prefix + marker;
    var k := |prefix|;
    var j := |head|;
    forall p | j <= p < |s| ensures s[p] == rest[p - j] { }
    NoMarkerEndShifted(s, j, rest);
    assert s[k..j] == marker by {
      assert forall i :: 0 <= i < |marker| ==> s[k + i] == marker[i];
    }
    assert Reachable(s, k) by {
      assert forall i :: 0 <= i < k ==> s[i] == prefix[i];
    }
    assert IsMaximalRun(s, j, id) by {
      assert s[j..j + |id|] == rest[0..|id|];
    }
    LastPlainMarkerId(s, k, marker, id);
  }

  /** `NoMarkerEnd` of a tail, read at the positions of the whole string. */
  lemma NoMarkerEndShifted(s: string, j: nat, rest: string)
    requires j + |rest| == |s| && forall p :: j <= p < |s| ==> s[p] == rest[p - j]
    requires NoMarkerEnd(rest)
    ensures forall p :: j <= p < |s| ==> s[p] != '/'
    ensures forall p :: j <= p < |s| - 1 ==> !(s[p] == 'v' && s[p + 1] == '=')
  {
    forall p | j <= p < |s| - 1 ensures !(s[p] == 'v' && s[p + 1] == '=') {
      assert s[p] == rest[p - j] && s[p + 1] == rest[p - j + 1];
    }
  }

  /** For text without characters outside the Basic Multilingual Plane,
      JavaScript's length is the number of characters. */
  lemma {:induction false} Utf16LengthOfBmp(s: string)
    requires forall i :: 0 <= i < |s| ==> s[i] as int < 0x1_0000
    ensures Utf16Length(s) == |s|
  {
    if s != [] {
      Utf16LengthOfBmp(s[1..]);
    }
  }

  /** The prefixes used below contain no line terminator. */
  lemma PrefixesReachable(prefix: string)
    requires prefix == "https://www.youtube.com/" || prefix == "https://"
    ensures forall i :: 0 <= i < |prefix| ==> !IsLineTerminator(prefix[i])
  {
  }

  /** Text with no `/` and no `=` has no marker end. */
  lemma NoDelimiterNoMarkerEnd(t: string)
    requires forall i :: 0 <= i < |t| ==> t[i] != '/' && t[i] != '='
    ensures NoMarkerEnd(t)
  {
  }

  /** The identifiers used below contain no `#`, `&` or `?`, no `/` and no
      `=`, and their JavaScript length is their character count. */
  lemma ElevenCharacterId(id: string)
    requires id == "dQw4w9WgXcQ"
    ensures forall i :: 0 <= i < |id| ==> !IsStopper(id[i]) && id[i] != '/' && id[i] != '='
    ensures Utf16Length(id) == 11
  {
    Utf16LengthOfBmp(id);
  }

  lemma TenCharacterId(id: string)
    requires id == "abc123XYZ9"
    ensures forall i :: 0 <= i < |id| ==> !IsStopper(id[i]) && id[i] != '/' && id[i] != '='
    ensures Utf16Length(id) == 10
  {
    Utf16LengthOfBmp(id);
  }

  /** The tails used below start with `#`, `&` or `?` and contain no `/`
      and no `v=` (though `?si=abc` and `&t=42` do contain `=`). */
  lemma SuffixPieces(suffix: string)
    requires suffix == "#comments" || suffix == "?si=abc" || suffix == "&t=42"
    ensures IsStopper(suffix[0]) && NoMarkerEnd(suffix)
  {
  }

  /** Two texts without `/` or `v=` whose junction does not form `v=` give
      one without them. */
  lemma NoMarkerEndAppend(a: string, b: string)
    requires NoMarkerEnd(a) && NoMarkerEnd(b)
    requires a == [] || b == [] || !(a[|a| - 1] == 'v' && b[0] == '=')
    ensures NoMarkerEnd(a + b)
  {
    var t := a + b;
    forall i | 0 <= i < |t| - 1 ensures !(t[i] == 'v' && t[i + 1] == '=') {
      if i + 1 < |a| {
        assert t[i] == a[i] && t[i + 1] == a[i + 1];
      } else if i >= |a| {
        assert t[i] == b[i - |a|] && t[i + 1] == b[i + 1 - |a|];
      } else {
        assert t[i] == a[|a| - 1] && t[i + 1] == b[0];
      }
    }
    forall i | 0 <= i < |t| ensures t[i] != '/' {
      if i < |a| { assert t[i] == a[i]; } else { assert t[i] == b[i - |a|]; }
    }
  }

  /** A watch link with an 11-character identifier and a fragment yields
      that identifier. */
  lemma WatchLinkExample(url: string)
    requires url == "https://www.youtube.com/" + "watch?v=" + "dQw4w9WgXcQ" + "#comments"
    ensures GetYouTubeId(Some(url)) == Some("dQw4w9WgXcQ")
  {
    PrefixesReachable("https://www.youtube.com/");
    ElevenCharacterId("dQw4w9WgXcQ");
    NoDelimiterNoMarkerEnd("dQw4w9WgXcQ");
    SuffixPieces("#comments");
    NoMarkerEndAppend("dQw4w9WgXcQ", "#comments");
    PlainLinkId("https://www.youtube.com/", "watch?v=", "dQw4w9WgXcQ", "#comments");
  }

  /** A shortened link with a share query keeps the identifier: the `=` of
      `si=` is not preceded by `v`. */
  lemma ShareLinkExample(url: string)
    requires url == "https://" + "youtu.be/" + "dQw4w9WgXcQ" + "?si=abc"
    ensures GetYouTubeId(Some(url)) == Some("dQw4w9WgXcQ")
  {
    PrefixesReachable("https://");
    ElevenCharacterId("dQw4w9WgXcQ");
    NoDelimiterNoMarkerEnd("dQw4w9WgXcQ");
    SuffixPieces("?si=abc");
    NoMarkerEndAppend("dQw4w9WgXcQ", "?si=abc");
    PlainLinkId("https://", "youtu.be/", "dQw4w9WgXcQ", "?si=abc");
  }

  /** A watch link with a start time after the identifier yields the
      identifier. */
  lemma TimedLinkExample(url: string)
    requires url == "https://www.youtube.com/" + "watch?v=" + "dQw4w9WgXcQ" + "&t=42"
    ensures GetYouTubeId(Some(url)) == Some("dQw4w9WgXcQ")
  {
    PrefixesReachable("https://www.youtube.com/");
    ElevenCharacterId("dQw4w9WgXcQ");
    NoDelimiterNoMarkerEnd("dQw4w9WgXcQ");
    SuffixPieces("&t=42");
    NoMarkerEndAppend("dQw4w9WgXcQ", "&t=42");
    PlainLinkId("https://www.youtube.com/", "watch?v=", "dQw4w9WgXcQ", "&t=42");
  }

  /** A shortened link whose identifier has only ten characters yields null:
      the length check admits exactly 11. */
  lemma TenCharacterIdRejected(url: string)
    requires url == "https://" + "youtu.be/" + "abc123XYZ9" + ""
    ensures GetYouTubeId(Some(url)) == None
  {
    PrefixesReachable("https://");
    TenCharacterId("abc123XYZ9");
    NoDelimiterNoMarkerEnd("abc123XYZ9");
    assert "abc123XYZ9" + "" == "abc123XYZ9";
    PlainLinkId("https://", "youtu.be/", "abc123XYZ9", "");
  }
}
