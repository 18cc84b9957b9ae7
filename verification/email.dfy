/** The email rule of the validator: the anchored pattern
    `^[A-Za-z0-9._%+\-]+@[A-Za-z0-9.\-]+\.[A-Za-z]{2,}$` (no modifiers),
    given once as the set of strings the pattern describes and once as an
    explicit decision procedure, with a proof that the two agree. */
module Email {
  import opened Chars

  /** `t` splits as local part, `@`, host, `.`, top-level segment, with an
      `@` at `at` and the `.` at `dot`; this is what the pattern body
      `L+@H+\.A{2,}` matches when it must consume the whole of `t`. */
  ghost predicate SplitsAt(t: string, at: int, dot: int) {
    && 0 < at && at + 1 < dot && dot + 3 <= |t|
    && t[at] == '@' && t[dot] == '.'
    && (forall k :: 0 <= k < at ==> LocalClass.Allows(t[k]))
    && (forall k :: at < k < dot ==> HostClass.Allows(t[k]))
    && (forall k :: dot < k < |t| ==> AlphaClass.Allows(t[k]))
  }

  ghost predicate MatchesBody(t: string) {
    exists at, dot :: SplitsAt(t, at, dot)
  }

  /** Without the `D` modifier, PCRE's `$` matches at the very end of the
      subject and also just before a final newline. */
  ghost predicate MatchesPattern(s: string) {
    || MatchesBody(s)
    || (|s| > 0 && s[|s| - 1] == '\n' && MatchesBody(s[..|s| - 1]))
  }

  /** The decision: the first `@` ends a non-empty local part; everything
      after it is host characters; the last `.` of that host has a non-empty
      prefix and is followed by at least two ASCII letters. */
  function IsEmailBody(t: string): (r: bool)
    ensures r <==> MatchesBody(t)
  {
    match FirstIndexOf(t, '@')
    case None =>
      NoAtNoMatch(t);
      false
    case Some(at) =>
      var host := t[at + 1..];
      match LastIndexOf(host, '.')
      case None =>
        NoDotNoMatch(t, at, host);
        false
      case Some(j) =>
        DecisionComplete(t, at, host, j);
        if 0 < at && AllIn(LocalClass, t[..at]) && AllIn(HostClass, host)
           && 1 <= j && j + 3 <= |host| && AllIn(AlphaClass, host[j + 1..])
        then
          DecisionSound(t, at, host, j);
          true
        else
          false
  }

  /** The email rule as preg_match applies it: accepted iff the pattern matches. */
  function IsValidEmail(s: string): (r: bool)
    ensures r <==> MatchesPattern(s)
  {
    || IsEmailBody(s)
    || (|s| > 0 && s[|s| - 1] == '\n' && IsEmailBody(s[..|s| - 1]))
  }

  lemma NoAtNoMatch(t: string)
    requires forall k :: 0 <= k < |t| ==> t[k] != '@'
    ensures !MatchesBody(t)
  {
  }

  lemma NoDotNoMatch(t: string, at: nat, host: string)
    requires at < |t| && t[at] == '@' && host == t[at + 1..]
    requires forall k :: 0 <= k < at ==> t[k] != '@'
    requires forall k :: 0 <= k < |host| ==> host[k] != '.'
    ensures !MatchesBody(t)
  {
  }

  lemma DecisionSound(t: string, at: nat, host: string, j: nat)
    requires at < |t| && t[at] == '@' && host == t[at + 1..]
    requires 0 < at && AllIn(LocalClass, t[..at])
    requires AllIn(HostClass, host)
    requires j < |host| && host[j] == '.' && 1 <= j && j + 3 <= |host|
    requires AllIn(AlphaClass, host[j + 1..])
    ensures MatchesBody(t)
  {
    var dot := at + 1 + j;
    forall k | 0 <= k < at ensures LocalClass.Allows(t[k]) {
      assert t[..at][k] == t[k];
    }
    forall k | at < k < dot ensures HostClass.Allows(t[k]) {
      assert host[k - at - 1] == t[k];
    }
    forall k | dot < k < |t| ensures AlphaClass.Allows(t[k]) {
      assert host[j + 1..][k - dot - 1] == t[k];
    }
    assert SplitsAt(t, at, dot);
  }

  /** Any match forces the decision's conditions, read at the first `@` and
      the last `.` after it. */
  lemma DecisionComplete(t: string, at: nat, host: string, j: nat)
    requires at < |t| && t[at] == '@' && host == t[at + 1..]
    requires forall k :: 0 <= k < at ==> t[k] != '@'
    requires j < |host| && host[j] == '.'
    requires forall k :: j < k < |host| ==> host[k] != '.'
    ensures MatchesBody(t) ==>
      && 0 < at && AllIn(LocalClass, t[..at]) && AllIn(HostClass, host)
      && 1 <= j && j + 3 <= |host| && AllIn(AlphaClass, host[j + 1..])
  {
  }
}
