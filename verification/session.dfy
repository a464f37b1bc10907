/** The session guard every dashboard page runs on mount: it reads the
    `isLoggedIn` flag from `document.cookie`, redirects to the login page
    when the flag is missing, and gates rendering on the outcome. */
module Session {
  import opened Common
  import opened Text

  /** The prefix a cookie segment must start with, after trimming. */
  const LoginFlag: string := "isLoggedIn=true"

  const LoginPath: string := "/login"

  /** One `;`-separated segment of the cookie string admits the visitor. The
      match is a prefix match: `isLoggedIn=trueX` admits as well. */
  predicate Admits(segment: string) {
    StartsWith(Trim(segment), LoginFlag)
  }

  /** `segments.some(cookie => cookie.trim().startsWith("isLoggedIn=true"))`. */
  function SomeSegmentAdmits(segments: seq<string>): (ok: bool)
    ensures ok <==> exists i :: 0 <= i < |segments| && Admits(segments[i])
    decreases |segments|
  {
    if |segments| == 0 then false
    else if Admits(segments[0]) then true
    else
      var ok := SomeSegmentAdmits(segments[1..]);
      assert forall i :: 1 <= i < |segments| ==> segments[i] == segments[1..][i - 1];
      ok
  }

  /** The guard's test on `document.cookie`: some segment of the cookie
      string, split on `;` and trimmed, starts with `isLoggedIn=true`. */
  predicate IsLoggedIn(cookie: string): (ok: bool)
    ensures ok <==> exists i :: 0 <= i < |Split(cookie, ';')| && Admits(Split(cookie, ';')[i])
  {
    var segments := Split(cookie, ';');
    var ok := SomeSegmentAdmits(segments);
    assert ok ==> exists i :: 0 <= i < |Split(cookie, ';')| && Admits(Split(cookie, ';')[i]) by {
      if ok {
        var i :| 0 <= i < |segments| && Admits(segments[i]);
        assert Admits(Split(cookie, ';')[i]);
      }
    }
    ok
  }

  predicate NoSemicolon(segments: seq<string>) {
    forall i :: 0 <= i < |segments| ==> ';' !in segments[i]
  }

  /** For a cookie string assembled from `;`-free segments, the verdict is
      decided segment by segment. */
  lemma SegmentsDecide(segments: seq<string>)
    requires NoSemicolon(segments)
    ensures IsLoggedIn(Join(segments, ";")) <==> exists i :: 0 <= i < |segments| && Admits(segments[i])
  {
    if |segments| == 0 {
      assert Split("", ';') == [""];
      assert !Admits("") by {
        assert Trim("") == "";
      }
    } else {
      SplitJoin(segments, ';');
    }
  }

  /** The order of the segments does not affect the verdict: two cookie
      strings made of the same segments are both admitted or both refused. */
  lemma SegmentOrderIrrelevant(a: seq<string>, b: seq<string>)
    requires NoSemicolon(a) && NoSemicolon(b)
    requires forall i :: 0 <= i < |a| ==> a[i] in b
    requires forall j :: 0 <= j < |b| ==> b[j] in a
    ensures IsLoggedIn(Join(a, ";")) == IsLoggedIn(Join(b, ";"))
  {
    SegmentsDecide(a);
    SegmentsDecide(b);
  }

  /** Segments that trim to the same text give the same verdict; with
      `TrimIgnoresPadding`, whitespace around a segment does not matter. */
  lemma SegmentPaddingIrrelevant(a: seq<string>, b: seq<string>)
    requires NoSemicolon(a) && NoSemicolon(b) && |a| == |b|
    requires forall i :: 0 <= i < |a| ==> Trim(a[i]) == Trim(b[i])
    ensures IsLoggedIn(Join(a, ";")) == IsLoggedIn(Join(b, ";"))
  {
    SegmentsDecide(a);
    SegmentsDecide(b);
    SomeAdmitsAlike(a, b);
    SomeAdmitsAlike(b, a);
  }

  /** If some segment of `a` admits, so does the segment of `b` at the same
      place, when the two trim alike. */
  lemma SomeAdmitsAlike(a: seq<string>, b: seq<string>)
    requires |a| == |b|
    requires forall i :: 0 <= i < |a| ==> Trim(a[i]) == Trim(b[i])
    ensures (exists i :: 0 <= i < |a| && Admits(a[i])) ==> exists i :: 0 <= i < |b| && Admits(b[i])
  {
    if exists i :: 0 <= i < |a| && Admits(a[i]) {
      var i :| 0 <= i < |a| && Admits(a[i]);
      assert Admits(b[i]);
    }
  }

  /** A browser exposes its cookies as `name=value` pairs separated by
      `"; "`. */
  function DocumentCookie(pairs: seq<string>): string {
    Join(pairs, "; ")
  }

  /** The segments `split(";")` sees in a `"; "`-separated list: every pair
      after the first carries one leading space. */
  function Spaced(pairs: seq<string>): (segments: seq<string>)
    ensures |segments| == |pairs|
  {
    if |pairs| == 0 then [] else [pairs[0]] + seq(|pairs| - 1, i requires 0 <= i < |pairs| - 1 => " " + pairs[i + 1])
  }

  lemma {:induction false} SpacedJoin(pairs: seq<string>)
    ensures DocumentCookie(pairs) == Join(Spaced(pairs), ";")
    decreases |pairs|
  {
    if |pairs| > 1 {
      SpacedJoin(pairs[1..]);
      var s := Spaced(pairs);
      var t := Spaced(pairs[1..]);
      assert s[1..] == [" " + t[0]] + t[1..];
      JoinSpace(t);
      calc {
        Join(s, ";");
        s[0] + ";" + Join(s[1..], ";");
        pairs[0] + ";" + (" " + Join(t, ";"));
        { SemicolonSpace(pairs[0], Join(t, ";")); }
        pairs[0] + "; " + Join(pairs[1..], "; ");
      }
    }
  }

  lemma SemicolonSpace(a: string, x: string)
    ensures a + ";" + (" " + x) == a + "; " + x
  {
    assert ";" + " " == "; ";
  }

  lemma JoinSpace(t: seq<string>)
    requires |t| >= 1
    ensures Join([" " + t[0]] + t[1..], ";") == " " + Join(t, ";")
  {
    JoinPrefix(" ", t[0], t[1..], ";");
    assert [t[0]] + t[1..] == t;
  }

  /** A prefix on the first part is a prefix of the whole join. */
  lemma JoinPrefix(p: string, x: string, rest: seq<string>, sep: string)
    ensures Join([p + x] + rest, sep) == p + Join([x] + rest, sep)
  {
    if |rest| > 0 {
      assert ([p + x] + rest)[1..] == rest;
      assert ([x] + rest)[1..] == rest;
      var j := Join(rest, sep);
      assert (p + x) + sep + j == p + (x + sep + j);
    }
  }

  /** The guard admits a browser's cookie string exactly when one of its
      pairs starts with `isLoggedIn=true` once trimmed. */
  lemma DocumentCookieDecides(pairs: seq<string>)
    requires NoSemicolon(pairs)
    ensures IsLoggedIn(DocumentCookie(pairs)) <==> exists i :: 0 <= i < |pairs| && Admits(pairs[i])
  {
    var s := Spaced(pairs);
    SpacedJoin(pairs);
    forall i | 0 <= i < |s| ensures ';' !in s[i] && Trim(s[i]) == Trim(pairs[i]) {
      if i > 0 {
        assert s[i] == " " + pairs[i] + "";
        TrimIgnoresPadding(" ", pairs[i], "");
        assert pairs[i] + "" == pairs[i];
      }
    }
    SegmentsDecide(s);
    SegmentPaddingIrrelevant(s, pairs);
    SegmentsDecide(pairs);
  }

  /** A single trimmed segment admits exactly when it starts with the flag. */
  lemma LoneSegment(x: string)
    requires ';' !in x && Trimmed(x)
    ensures IsLoggedIn(x) <==> StartsWith(x, LoginFlag)
  {
    SegmentsDecide([x]);
    assert x[0..|x|] == x;
    TrimOfPadded(x, x, 0);
  }

  /** The match is by prefix: a cookie reading `isLoggedIn=trueX` admits. */
  lemma PrefixMatchAdmits()
    ensures IsLoggedIn("isLoggedIn=trueX")
  {
    LoneSegment("isLoggedIn=trueX");
  }

  /** A cookie reading `isLoggedIn=false` is refused. */
  lemma FalseFlagRefused()
    ensures !IsLoggedIn("isLoggedIn=false")
  {
    var z := "isLoggedIn=false";
    assert z[11] != LoginFlag[11];
    LoneSegment(z);
  }

  /** An empty cookie string is refused. */
  lemma EmptyCookieRefused()
    ensures !IsLoggedIn("")
  {
    SegmentsDecide([]);
  }

  /** The flag itself, as a segment, admits. */
  lemma FlagAdmits()
    ensures ';' !in LoginFlag
    ensures Admits(LoginFlag)
  {
    FlagHasNoSemicolon();
    assert LoginFlag[0] == 'i' && LoginFlag[|LoginFlag| - 1] == 'e';
    TrimOfTrimmed(LoginFlag);
  }

  /** The flag holds no `;`, so it survives the guard's split whole. */
  lemma FlagHasNoSemicolon()
    ensures ';' !in LoginFlag
  {
  }

  /** Whatever other cookies the browser holds, and in whatever order, a
      stored `isLoggedIn=true` pair admits the visitor. */
  lemma FlagPairAdmits(before: seq<string>, after: seq<string>)
    requires NoSemicolon(before) && NoSemicolon(after)
    ensures IsLoggedIn(DocumentCookie(before + [LoginFlag] + after))
  {
    var pairs := before + [LoginFlag] + after;
    FlagAdmits();
    assert pairs[|before|] == LoginFlag;
    assert NoSemicolon(pairs) by {
      forall i | 0 <= i < |pairs| ensures ';' !in pairs[i] {
        if i < |before| { assert pairs[i] == before[i]; }
        else if i > |before| { assert pairs[i] == after[i - |before| - 1]; }
      }
    }
    DocumentCookieDecides(pairs);
  }

  /** The guard's React state: the page starts loading and unauthenticated. */
  datatype Guard = Guard(isLoading: bool, isAuthenticated: bool)

  const Mounted: Guard := Guard(true, false)

  /** The guard's new state, and the path it navigates to, if any. */
  datatype GuardStep = GuardStep(guard: Guard, redirect: Option<string>)

  /** The mount effect. Loading always ends; a refused cookie navigates to
      the login page and leaves `isAuthenticated` as it was, an admitted one
      sets it. */
  function CheckSession(g: Guard, cookie: string): (r: GuardStep)
    ensures !r.guard.isLoading
    ensures r.redirect.Some? <==> !IsLoggedIn(cookie)
    ensures r.redirect.Some? ==> r.redirect.value == LoginPath
    ensures r.guard.isAuthenticated <==> g.isAuthenticated || IsLoggedIn(cookie)
  {
    if !IsLoggedIn(cookie) then GuardStep(g.(isLoading := false), Some(LoginPath))
    else GuardStep(Guard(false, true), None)
  }

  /** What a protected page shows: a spinner while loading, nothing once
      refused, its content once admitted. */
  datatype View = Spinner | Blank | Content

  function Render(g: Guard): (v: View)
    ensures v == Spinner <==> g.isLoading
    ensures v == Content <==> !g.isLoading && g.isAuthenticated
    ensures v == Blank <==> !g.isLoading && !g.isAuthenticated
  {
    if g.isLoading then Spinner
    else if !g.isAuthenticated then Blank
    else Content
  }

  /** From mount, protected content is shown only after an admitted cookie;
      a refused cookie renders nothing and navigates to the login page. */
  lemma ContentOnlyWhenLoggedIn(cookie: string)
    ensures Render(Mounted) == Spinner
    ensures Render(CheckSession(Mounted, cookie).guard) == Content <==> IsLoggedIn(cookie)
    ensures Render(CheckSession(Mounted, cookie).guard) == Blank <==> !IsLoggedIn(cookie)
  {
  }
}
