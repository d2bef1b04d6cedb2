/** The navigation bar: the role-dependent list of links, the class-name
    joiner, logging out and the avatar letter. */
module Navbar {
  import opened Browser

  datatype NavItem = NavItem(name: string, href: string, current: bool)

  /** A link, marked current when the browser is on its address. */
  function Item(name: string, href: string, currentPath: string): NavItem {
    NavItem(name, href, currentPath == href)
  }

  /** `navigation`: Courses for everyone, and for an administrator also
      Grant Access, Register Account and Users, in that order. */
  function Navigation(role: Option<string>, currentPath: string): (items: seq<NavItem>)
    ensures |items| >= 1 && items[0].name == "Courses" && items[0].href == "/courses"
    ensures !IsAdmin(role) ==> |items| == 1
    ensures IsAdmin(role) ==>
      |items| == 4 &&
      items[1].name == "Grant Access" && items[1].href == "/grant-access" &&
      items[2].name == "Register Account" && items[2].href == "/register-account" &&
      items[3].name == "Users" && items[3].href == "/users"
    ensures forall i :: 0 <= i < |items| ==> (items[i].current <==> items[i].href == currentPath)
  {
    [Item("Courses", "/courses", currentPath)] +
    (if IsAdmin(role) then
       [ Item("Grant Access", "/grant-access", currentPath),
         Item("Register Account", "/register-account", currentPath),
         Item("Users", "/users", currentPath) ]
     else [])
  }

  /** The links have distinct addresses, so at most one is marked current. */
  lemma AtMostOneCurrent(role: Option<string>, currentPath: string)
    ensures var items := Navigation(role, currentPath);
      forall i, j :: 0 <= i < |items| && 0 <= j < |items| && items[i].current && items[j].current ==> i == j
  {
    var items := Navigation(role, currentPath);
    forall i, j | 0 <= i < |items| && 0 <= j < |items| && items[i].current && items[j].current
      ensures i == j
    {
      assert items[i].href == items[j].href;
    }
  }

  // ---------------------------------------------------------------------
  // classNames

  /** `classes.filter(Boolean)` for arguments that are strings or absent
      (`false`, `null`, `undefined`): the non-empty strings, in order. */
  function KeepTruthy(classes: seq<Option<string>>): (kept: seq<string>)
    ensures forall i :: 0 <= i < |kept| ==> kept[i] != ""
    ensures forall x :: x in kept <==> (Some(x) in classes && x != "")
    ensures |kept| <= |classes|
  {
    if classes == [] then []
    else (if Truthy(classes[0]) then [classes[0].value] else []) + KeepTruthy(classes[1..])
  }

  /** Filtering commutes with concatenation: the kept strings stay in the
      order of the arguments. */
  lemma {:induction false} KeepTruthyAppend(a: seq<Option<string>>, b: seq<Option<string>>)
    ensures KeepTruthy(a + b) == KeepTruthy(a) + KeepTruthy(b)
    decreases |a|
  {
    if a != [] {
      assert (a + b)[0] == a[0];
      assert (a + b)[1..] == a[1..] + b;
      KeepTruthyAppend(a[1..], b);
      var head := if Truthy(a[0]) then [a[0].value] else [];
      assert KeepTruthy(a + b) == head + (KeepTruthy(a[1..]) + KeepTruthy(b));
      assert KeepTruthy(a) == head + KeepTruthy(a[1..]);
    } else {
      assert a + b == b;
    }
  }

  /** Total length of the parts. */
  function TotalLength(parts: seq<string>): nat {
    if parts == [] then 0 else |parts[0]| + TotalLength(parts[1..])
  }

  /** `.join(' ')`: the parts with one space between neighbours, so the
      result starts with the first part and is as long as the parts
      together plus one per gap. */
  function Join(parts: seq<string>): (r: string)
    ensures parts == [] ==> r == ""
    ensures parts != [] ==> |r| == TotalLength(parts) + |parts| - 1
    ensures parts != [] ==> r[..|parts[0]|] == parts[0]
  {
    if |parts| == 0 then ""
    else if |parts| == 1 then parts[0]
    else
      var rest := Join(parts[1..]);
      var r := parts[0] + " " + rest;
      assert r[..|parts[0]|] == parts[0];
      r
  }

  /** `classNames(...classes)`: the truthy arguments joined by single spaces.
      The class list a browser reads from the result is every token of every
      truthy argument, in argument order. */
  function ClassNames(classes: seq<Option<string>>): (r: string)
    ensures r == "" <==> KeepTruthy(classes) == []
    ensures KeepTruthy(classes) != [] ==> SplitSpaces(r) == Tokens(KeepTruthy(classes))
    ensures r == Join(Tokens(KeepTruthy(classes)))
  {
    var kept := KeepTruthy(classes);
    if kept == [] then Join(kept)
    else
      JoinNonEmpty(kept);
      JoinTokens(kept);
      JoinSplitSpaces(Join(kept));
      Join(kept)
  }

  lemma {:induction false} JoinNonEmpty(parts: seq<string>)
    requires parts != [] && parts[0] != ""
    ensures Join(parts) != ""
  {
    if |parts| > 1 {
      assert Join(parts)[0] == parts[0][0];
    }
  }

  /** Splitting at every single space: the reference reading of a class
      list. Two adjacent spaces give an empty piece between them. */
  function SplitSpaces(s: string): (parts: seq<string>)
    ensures |parts| >= 1
  {
    if s == [] then [""]
    else
      var rest := SplitSpaces(s[1..]);
      if s[0] == ' ' then [""] + rest
      else [[s[0]] + rest[0]] + rest[1..]
  }

  /** Text without spaces is one piece. */
  lemma {:induction false} SplitSpaceFree(s: string)
    requires ' ' !in s
    ensures SplitSpaces(s) == [s]
  {
    if s != [] {
      assert ' ' !in s[1..] by {
        forall k | 0 <= k < |s[1..]| ensures s[1..][k] != ' ' {
          assert s[1..][k] == s[k + 1];
        }
      }
      SplitSpaceFree(s[1..]);
      assert [s[0]] + s[1..] == s;
    }
  }

  /** The space-separated pieces of each part, in order. */
  function Tokens(parts: seq<string>): seq<string> {
    if parts == [] then [] else SplitSpaces(parts[0]) + Tokens(parts[1..])
  }

  /** Splitting a string that starts with `c`: a space opens a new piece,
      any other character joins the first piece. */
  lemma SplitCons(c: char, s: string)
    ensures SplitSpaces([c] + s) ==
      if c == ' ' then [""] + SplitSpaces(s) else [[c] + SplitSpaces(s)[0]] + SplitSpaces(s)[1..]
  {
    assert ([c] + s)[1..] == s;
  }

  /** Splitting distributes over a joining space. */
  lemma {:induction false} SplitSpacesAppend(a: string, b: string)
    ensures SplitSpaces(a + " " + b) == SplitSpaces(a) + SplitSpaces(b)
    decreases |a|
  {
    if a == [] {
      assert a + " " + b == [' '] + b;
      SplitCons(' ', b);
    } else {
      var c, tail := a[0], a[1..];
      assert a + " " + b == [c] + (tail + " " + b);
      assert a == [c] + tail;
      SplitSpacesAppend(tail, b);
      SplitCons(c, tail + " " + b);
      SplitCons(c, tail);
      ExtendFirst([c], SplitSpaces(tail), SplitSpaces(b));
    }
  }

  /** Growing the first piece of `r` before or after appending `q` gives the same list. */
  lemma ExtendFirst(x: string, r: seq<string>, q: seq<string>)
    requires |r| >= 1
    ensures [x + (r + q)[0]] + (r + q)[1..] == ([x + r[0]] + r[1..]) + q
    ensures [""] + (r + q) == ([""] + r) + q
  {
    assert (r + q)[1..] == r[1..] + q;
  }

  /** Splitting a joined list gives the pieces of its parts. */
  lemma {:induction false} JoinTokens(parts: seq<string>)
    requires parts != []
    ensures SplitSpaces(Join(parts)) == Tokens(parts)
    decreases |parts|
  {
    if |parts| == 1 {
      assert parts[1..] == [];
    } else {
      JoinTokens(parts[1..]);
      SplitSpacesAppend(parts[0], Join(parts[1..]));
    }
  }

  /** Joining the pieces of a split gives back the string: splitting loses
      nothing. */
  lemma {:induction false} JoinSplitSpaces(s: string)
    ensures Join(SplitSpaces(s)) == s
    decreases |s|
  {
    if s != [] {
      JoinSplitSpaces(s[1..]);
      SplitCons(s[0], s[1..]);
      if s[0] == ' ' {
        JoinAfterSpace(SplitSpaces(s[1..]));
      } else {
        var rest := SplitSpaces(s[1..]);
        assert [rest[0]] + rest[1..] == rest;
        JoinGrowFirst(s[0], rest[0], rest[1..]);
      }
      assert s == [s[0]] + s[1..];
    }
  }

  /** An empty first piece contributes only its joining space. */
  lemma JoinAfterSpace(rest: seq<string>)
    requires rest != []
    ensures Join([""] + rest) == " " + Join(rest)
  {
    assert ([""] + rest)[1..] == rest;
  }

  /** Growing the first piece by `c` grows the joined text by `c`. */
  lemma JoinGrowFirst(c: char, head: string, tail: seq<string>)
    ensures Join([[c] + head] + tail) == [c] + Join([head] + tail)
  {
    if tail != [] {
      JoinStep([c] + head, tail);
      JoinStep(head, tail);
      Regroup([c], head, " " + Join(tail));
    }
  }

  /** One step of joining: the first part, a space, and the rest joined. */
  lemma JoinStep(x: string, tail: seq<string>)
    requires tail != []
    ensures Join([x] + tail) == x + " " + Join(tail)
  {
    assert ([x] + tail)[1..] == tail;
  }

  /** Joining classes that contain no spaces can be undone by splitting at
      spaces. */
  lemma {:induction false} SplitJoin(parts: seq<string>)
    requires parts != []
    requires forall i :: 0 <= i < |parts| ==> ' ' !in parts[i]
    ensures SplitSpaces(Join(parts)) == parts
    decreases |parts|
  {
    JoinTokens(parts);
    SpaceFreeTokens(parts);
  }

  /** Space-free parts are their own pieces. */
  lemma {:induction false} SpaceFreeTokens(parts: seq<string>)
    requires forall i :: 0 <= i < |parts| ==> ' ' !in parts[i]
    ensures Tokens(parts) == parts
    decreases |parts|
  {
    if parts != [] {
      SplitSpaceFree(parts[0]);
      SpaceFreeTokens(parts[1..]);
      assert parts == [parts[0]] + parts[1..];
    }
  }

  /** Space-free classes come back out of the joined string one by one, in
      argument order, with the falsy ones gone. */
  lemma ClassNamesSplit(classes: seq<Option<string>>)
    requires forall i :: 0 <= i < |classes| && classes[i].Some? ==> ' ' !in classes[i].value
    requires KeepTruthy(classes) != []
    ensures SplitSpaces(ClassNames(classes)) == KeepTruthy(classes)
  {
    var kept := KeepTruthy(classes);
    forall i | 0 <= i < |kept| ensures ' ' !in kept[i] {
      assert kept[i] in kept;
      assert Some(kept[i]) in classes;
    }
    SplitJoin(kept);
  }

  // ---------------------------------------------------------------------
  // Session

  /** `localStorage.getItem(key)` */
  function GetItem(store: map<string, string>, key: string): Option<string> {
    if key in store then Some(store[key]) else None
  }

  /** `handleLogout`: both session keys are removed, every other stored entry
      is kept as it was, and the browser goes to the login page. */
  function Logout(store: map<string, string>): (r: Step<map<string, string>>)
    ensures "token" !in r.state && "userRole" !in r.state
    ensures forall k :: k != "token" && k != "userRole" ==> GetItem(r.state, k) == GetItem(store, k)
    ensures r.effects == [Navigate("/login")]
  {
    Step(store - {"token", "userRole"}, [Navigate("/login")])
  }

  /** After logging out the bar shows only the Courses link. */
  lemma LogoutHidesAdminLinks(store: map<string, string>, currentPath: string)
    ensures |Navigation(GetItem(Logout(store).state, "userRole"), currentPath)| == 1
  {
  }

  /** The avatar and the link list use the same administrator test: the
      avatar shows 'A' exactly when the administrator links are listed. */
  lemma AvatarMatchesLinks(role: Option<string>, currentPath: string)
    ensures AvatarLetter(role) == 'A' <==> |Navigation(role, currentPath)| == 4
  {
  }

  /** The avatar shows 'A' for an administrator and 'S' for anyone else. */
  function AvatarLetter(role: Option<string>): (c: char)
    ensures c == 'A' || c == 'S'
    ensures c == 'A' <==> IsAdmin(role)
  {
    if IsAdmin(role) then 'A' else 'S'
  }
}
