/**
 * The request guard that runs before every page: a decision over whether
 * the request carries a session and the request path.
 */
module Middleware {
  import opened Text

  /** The eight protected route prefixes, in the order they are listed. */
  const ProtectedPrefixes: seq<string> := [
    "/dashboard", "/occurrences", "/investigations", "/actions",
    "/training", "/reports", "/communications", "/settings"
  ]

  const SignInPath: string := "/sign-in"
  const DashboardPath: string := "/dashboard"
  const RootPath: string := "/"

  /** `protectedRoutes.some(route => pathname.startsWith(route))`. */
  predicate IsProtected(path: string) {
    exists i | 0 <= i < |ProtectedPrefixes| :: StartsWith(path, ProtectedPrefixes[i])
  }

  datatype Decision = Next | Redirect(target: string)

  /** The guard: the first rule that applies decides; otherwise the request passes. */
  function Route(hasSession: bool, path: string): (d: Decision)
    ensures d == Redirect(SignInPath) <==> !hasSession && IsProtected(path)
    ensures d == Redirect(DashboardPath) <==> hasSession && (path == SignInPath || path == RootPath)
    ensures d.Redirect? ==> d.target == SignInPath || d.target == DashboardPath
    ensures d == Next <==> ((hasSession && path != SignInPath && path != RootPath)
                            || (!hasSession && !IsProtected(path)))
  {
    if !hasSession && IsProtected(path) then Redirect(SignInPath)
    else if hasSession && path == SignInPath then Redirect(DashboardPath)
    else if hasSession && path == RootPath then Redirect(DashboardPath)
    else Next
  }

  /** A signed-in user is never sent to the sign-in page; an anonymous one never to the dashboard. */
  lemma RedirectTargetsFollowSession(hasSession: bool, path: string)
    ensures hasSession ==> Route(hasSession, path) != Redirect(SignInPath)
    ensures !hasSession ==> Route(hasSession, path) != Redirect(DashboardPath)
  {
  }

  /** Each listed prefix, and anything longer that begins with it, is protected. */
  lemma PrefixesProtected(i: int, rest: string)
    requires 0 <= i < |ProtectedPrefixes|
    ensures IsProtected(ProtectedPrefixes[i] + rest)
  {
    assert (ProtectedPrefixes[i] + rest)[..|ProtectedPrefixes[i]|] == ProtectedPrefixes[i];
  }

  /** Matching is by raw prefix: `/settings-x` and `/occurrencesX` are protected too. */
  lemma RawPrefixMatching()
    ensures IsProtected("/settings-x")
    ensures IsProtected("/occurrencesX")
    ensures Route(false, "/settings-x") == Redirect(SignInPath)
  {
    PrefixesProtected(7, "-x");
    assert ProtectedPrefixes[7] + "-x" == "/settings-x";
    PrefixesProtected(1, "X");
    assert ProtectedPrefixes[1] + "X" == "/occurrencesX";
  }

  /** Neither `/sign-in` nor `/` begins with a protected prefix. */
  lemma SignInNotProtected()
    ensures !IsProtected(SignInPath)
    ensures !IsProtected(RootPath)
  {
    forall i | 0 <= i < |ProtectedPrefixes|
      ensures !StartsWith(SignInPath, ProtectedPrefixes[i])
    {
      if i == 7 {
        assert ProtectedPrefixes[7][2] != SignInPath[2];
      } else {
        assert ProtectedPrefixes[i][1] != SignInPath[1];
      }
    }
    forall i | 0 <= i < |ProtectedPrefixes|
      ensures !StartsWith(RootPath, ProtectedPrefixes[i])
    {
      assert |ProtectedPrefixes[i]| > |RootPath|;
    }
  }

  /** Anonymous requests for `/` and `/sign-in` pass; signed-in ones are sent to the dashboard. */
  lemma PublicEntryPoints()
    ensures Route(false, RootPath) == Next && Route(false, SignInPath) == Next
    ensures Route(true, RootPath) == Redirect(DashboardPath) && Route(true, SignInPath) == Redirect(DashboardPath)
  {
    SignInNotProtected();
  }

  /** A signed-in user reaches every protected page. */
  lemma SessionReachesProtected(path: string)
    requires IsProtected(path)
    ensures Route(true, path) == Next
  {
    assert path != RootPath by {
      var i :| 0 <= i < |ProtectedPrefixes| && StartsWith(path, ProtectedPrefixes[i]);
      assert |ProtectedPrefixes[i]| > 1;
    }
    assert path != SignInPath by {
      SignInNotProtected();
    }
  }
}
