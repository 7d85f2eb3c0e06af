/**
 Which federation role ARNs a secret may name: `arn:aws:iam::<account>:role<path><name>` with an allowed account, a path
 under the configured prefix and a legal name. The matcher is a one-pass splitter; the regular expression's language is
 stated separately, as the ARNs that can be built from legal pieces.
 */
module FederationRole {
  import opened Text
  import opened Strings
  import Arn

  datatype RoleArn = RoleArn(account: string, path: string, name: string)

  const ARN_HEAD: string := "arn:aws:iam::"
  const ROLE: string := ":role"

  predicate IsAccount(s: string) {
    |s| == 12 && forall i | 0 <= i < |s| :: '0' <= s[i] <= '9'
  }

  /** `[!-.0-~]+`: printable ASCII other than the slash, at least one character. */
  predicate IsSegment(s: string) {
    s != "" && forall i | 0 <= i < |s| :: '!' <= s[i] <= '~' && s[i] != '/'
  }

  predicate IsRoleName(s: string) {
    1 <= |s| <= 64 && forall i | 0 <= i < |s| :: Arn.IsNameChar(s[i])
  }

  // ---- paths ----

  /** A slash, then every segment followed by a slash. */
  function Path(segments: seq<string>): (p: string)
    ensures p != "" && p[0] == '/' && p[|p| - 1] == '/'
  {
    if segments == [] then "/" else "/" + segments[0] + Path(segments[1..])
  }

  /** The segments of a text that starts and ends with a slash. */
  function SegmentsOf(path: string): (segments: seq<string>)
    requires path != "" && path[0] == '/' && path[|path| - 1] == '/'
    ensures forall i | 0 <= i < |segments| :: '/' !in segments[i]
  {
    if |path| == 1 then []
    else var parts := Split(path[1..], '/'); parts[..|parts| - 1]
  }

  lemma {:induction false} SplitPath(segments: seq<string>)
    requires forall i | 0 <= i < |segments| :: '/' !in segments[i]
    ensures Split(Path(segments)[1..], '/') == segments + [""]
  {
    if segments == [] {
      assert "/"[1..] == "";
    } else {
      SplitPath(segments[1..]);
      var rest := Path(segments[1..]);
      assert Path(segments)[1..] == segments[0] + ['/'] + rest[1..];
      SplitAtFirst(segments[0], '/', rest[1..]);
      assert [segments[0]] + (segments[1..] + [""]) == segments + [""];
    }
  }

  lemma SegmentsOfPath(segments: seq<string>)
    requires forall i | 0 <= i < |segments| :: '/' !in segments[i]
    ensures SegmentsOf(Path(segments)) == segments
  {
    SplitPath(segments);
    assert segments != [] ==> |Path(segments)| > 1;
    assert (segments + [""])[..|segments|] == segments;
  }

  lemma {:induction false} PathOfParts(parts: seq<string>)
    requires parts != [] && parts[|parts| - 1] == ""
    ensures "/" + Join(parts, '/') == Path(parts[..|parts| - 1])
  {
    if |parts| > 1 {
      PathOfParts(parts[1..]);
      assert parts[..|parts| - 1][1..] == parts[1..][..|parts| - 2];
      assert "/" + Join(parts, '/') == "/" + parts[0] + ("/" + Join(parts[1..], '/'));
    }
  }

  lemma {:induction false} LastPartEmpty(s: string)
    requires s != "" && s[|s| - 1] == '/'
    ensures var parts := Split(s, '/'); |parts| >= 2 && parts[|parts| - 1] == ""
  {
    if |s| == 1 {
      assert s == "" + ['/'] + "";
      SplitAtFirst("", '/', "");
    } else {
      LastPartEmpty(s[1..]);
    }
  }

  /** Every text between two slashes is the path of its segments, in one way only. */
  lemma PathOfSegments(path: string)
    requires path != "" && path[0] == '/' && path[|path| - 1] == '/'
    ensures Path(SegmentsOf(path)) == path
  {
    hide Split, Join, Path;
    if |path| == 1 {
      EmptyPath();
      assert path == "/";
    } else {
      LastPartEmpty(path[1..]);
      PathOfParts(Split(path[1..], '/'));
      JoinSplit(path[1..], '/');
      assert path == "/" + path[1..];
    }
  }

  lemma EmptyPath()
    ensures Path([]) == "/"
  {
  }

  /** String prefix agrees with segment-wise prefix, because both sides start and end with a slash. */
  lemma {:induction false} PrefixBySegments(a: seq<string>, b: seq<string>)
    requires forall i | 0 <= i < |a| :: '/' !in a[i]
    requires forall i | 0 <= i < |b| :: '/' !in b[i]
    ensures Path(a) <= Path(b) <==> a <= b
  {
    if a != [] && b != [] {
      PrefixBySegments(a[1..], b[1..]);
      UnfoldPath(a);
      UnfoldPath(b);
      PrefixStep(a, b);
      hide Path;
      SegmentPrefixStep(a[0], Path(a[1..]), b[0], Path(b[1..]));
    } else if a == [] {
      assert Path(b)[0] == '/';
    } else {
      assert |Path(a)| > 1;
    }
  }

  lemma UnfoldPath(a: seq<string>)
    requires a != []
    ensures Path(a) == "/" + a[0] + Path(a[1..])
  {
  }

  lemma PrefixStep(a: seq<string>, b: seq<string>)
    requires a != [] && b != []
    ensures a <= b <==> a[0] == b[0] && a[1..] <= b[1..]
  {
    assert a == [a[0]] + a[1..] && b == [b[0]] + b[1..];
  }

  lemma SegmentPrefixStep(x: string, u: string, y: string, v: string)
    requires '/' !in x && '/' !in y && u != "" && u[0] == '/' && v != "" && v[0] == '/'
    ensures "/" + x + u <= "/" + y + v <==> x == y && u <= v
  {
    if "/" + x + u <= "/" + y + v {
      FirstSegmentEqual(x, u, y, v);
      assert u == ("/" + x + u)[1 + |x|..] && v == ("/" + y + v)[1 + |x|..];
    }
  }

  lemma FirstSegmentEqual(x: string, u: string, y: string, v: string)
    requires '/' !in x && '/' !in y && u != "" && u[0] == '/' && v != "" && v[0] == '/'
    requires "/" + x + u <= "/" + y + v
    ensures x == y
  {
    var s, t := "/" + x + u, "/" + y + v;
    assert s[1 + |x|] == '/' && t[1 + |y|] == '/';
    assert forall k | 1 <= k < 1 + |x| :: s[k] == x[k - 1] && s[k] != '/';
    assert forall k | 1 <= k < 1 + |y| :: t[k] == y[k - 1] && t[k] != '/';
    assert forall k | 0 <= k < |s| :: s[k] == t[k];
    assert |x| == |y|;
    assert x == s[1..1 + |x|] && y == t[1..1 + |y|];
  }

  // ---- matching ----

  /** The language of the regular expression. */
  ghost predicate Denotes(arn: string, account: string, segments: seq<string>, name: string) {
    && IsAccount(account) && IsRoleName(name) && (forall i | 0 <= i < |segments| :: IsSegment(segments[i]))
    && arn == BuildArn(account, Path(segments) + name)
  }

  function BuildArn(account: string, rest: string): string {
    ARN_HEAD + account + ROLE + rest
  }

  /** Position after the last slash, or 0. */
  function AfterLastSlash(s: string): (n: nat)
    ensures n <= |s|
    ensures n > 0 ==> s[n - 1] == '/'
    ensures '/' !in s[n..]
  {
    if s == "" then 0
    else if s[|s| - 1] == '/' then |s|
    else
      var n := AfterLastSlash(s[..|s| - 1]);
      assert s[n..] == s[..|s| - 1][n..] + [s[|s| - 1]];
      n
  }

  /** Path and name, cut at the last slash. */
  function CutPath(rest: string): Option<(string, string)> {
    var n := AfterLastSlash(rest);
    var path, name := rest[..n], rest[n..];
    if path != "" && path[0] == '/' && (forall i | 0 <= i < |SegmentsOf(path)| :: IsSegment(SegmentsOf(path)[i]))
       && IsRoleName(name)
    then Some((path, name)) else None
  }

  /** Cut the ARN at its fixed offsets. */
  function MatchRoleArn(arn: string): Option<RoleArn> {
    if !(|arn| >= 30 && arn[..13] == ARN_HEAD && arn[25..30] == ROLE && IsAccount(arn[13..25])) then None
    else match CutPath(arn[30..])
      case None => None
      case Some((path, name)) => Some(RoleArn(arn[13..25], path, name))
  }

  lemma NameHasNoSlash(name: string)
    requires IsRoleName(name)
    ensures '/' !in name
  {
  }

  lemma LastSlashIsUnique(path: string, name: string)
    requires path != "" && path[|path| - 1] == '/' && '/' !in name
    ensures AfterLastSlash(path + name) == |path|
  {
    var s := path + name;
    var n := AfterLastSlash(s);
    hide AfterLastSlash;
    assert s[|path| - 1] == '/' && s[|path|..] == name;
    assert forall k | 0 <= k < |s| - n :: s[n..][k] == s[n + k];
  }

  ghost predicate LegalPieces(segments: seq<string>, name: string) {
    IsRoleName(name) && forall i | 0 <= i < |segments| :: IsSegment(segments[i])
  }

  lemma CutBuilt(segments: seq<string>, name: string)
    requires LegalPieces(segments, name)
    ensures CutPath(Path(segments) + name) == Some((Path(segments), name))
  {
    SegmentsHaveNoSlash(segments);
    SegmentsOfPath(segments);
    NameHasNoSlash(name);
    LastSlashIsUnique(Path(segments), name);
    hide SegmentsOf, Path, IsSegment, IsRoleName, AfterLastSlash;
    var rest := Path(segments) + name;
    assert rest[..|Path(segments)|] == Path(segments) && rest[|Path(segments)|..] == name;
  }

  lemma CutParts(rest: string)
    requires CutPath(rest).Some?
    ensures var (path, name) := CutPath(rest).value;
            && rest == path + name && IsRoleName(name)
            && path != "" && path[0] == '/' && path[|path| - 1] == '/'
            && forall i | 0 <= i < |SegmentsOf(path)| :: IsSegment(SegmentsOf(path)[i])
  {
    var n := AfterLastSlash(rest);
    assert rest == rest[..n] + rest[n..];
    hide SegmentsOf, IsSegment, IsRoleName, AfterLastSlash;
  }

  lemma BuiltOfCut(rest: string, segments: seq<string>, name: string)
    requires forall i | 0 <= i < |segments| :: '/' !in segments[i]
    requires CutPath(rest) == Some((Path(segments), name))
    ensures rest == Path(segments) + name && LegalPieces(segments, name)
  {
    SegmentsOfPath(segments);
    CutParts(rest);
    hide CutPath, SegmentsOf, Path, IsSegment, IsRoleName;
  }

  lemma ArnPieces(account: string, rest: string)
    requires |account| == 12
    ensures var arn := BuildArn(account, rest);
            && |arn| >= 30 && arn[..13] == ARN_HEAD && arn[13..25] == account && arn[25..30] == ROLE && arn[30..] == rest
  {
  }

  lemma PiecesArn(arn: string)
    requires |arn| >= 30 && arn[..13] == ARN_HEAD && arn[25..30] == ROLE
    ensures arn == BuildArn(arn[13..25], arn[30..])
  {
  }

  lemma SegmentsHaveNoSlash(segments: seq<string>)
    requires forall i | 0 <= i < |segments| :: IsSegment(segments[i])
    ensures forall i | 0 <= i < |segments| :: '/' !in segments[i]
  {
  }

  /** The splitter accepts exactly the regular expression's language and recovers its pieces, which are unique. */
  lemma MatchExactly(arn: string, account: string, segments: seq<string>, name: string)
    ensures Denotes(arn, account, segments, name) <==>
            MatchRoleArn(arn) == Some(RoleArn(account, Path(segments), name))
            && forall i | 0 <= i < |segments| :: '/' !in segments[i]
  {
    hide Path, CutPath, IsSegment, IsRoleName, BuildArn;
    if Denotes(arn, account, segments, name) {
      SegmentsHaveNoSlash(segments);
      CutBuilt(segments, name);
      ArnPieces(account, Path(segments) + name);
    } else if MatchRoleArn(arn) == Some(RoleArn(account, Path(segments), name))
              && forall i | 0 <= i < |segments| :: '/' !in segments[i] {
      BuiltOfCut(arn[30..], segments, name);
      PiecesArn(arn);
    }
  }

  /** An ARN has one account, one list of segments and one name. */
  lemma DenotesUnique(arn: string, a1: string, s1: seq<string>, n1: string, a2: string, s2: seq<string>, n2: string)
    requires Denotes(arn, a1, s1, n1) && Denotes(arn, a2, s2, n2)
    ensures a1 == a2 && s1 == s2 && n1 == n2
  {
    hide Denotes, MatchRoleArn, Path, SegmentsOf;
    MatchExactly(arn, a1, s1, n1);
    MatchExactly(arn, a2, s2, n2);
    SegmentsOfPath(s1);
    SegmentsOfPath(s2);
  }

  // ---- the check ----

  datatype Verdict = Accepted | MintingDisabled | NotARoleArn | AccountNotAllowed | OutsidePath

  function ValidateFederationRoleArn(arn: string, allowedAccountIds: seq<string>, rolePathPrefix: string): Verdict {
    if allowedAccountIds == [] then MintingDisabled
    else match MatchRoleArn(arn)
      case None => NotARoleArn
      case Some(m) =>
        if m.account !in allowedAccountIds then AccountNotAllowed
        else if !(rolePathPrefix <= m.path) then OutsidePath
        else Accepted
  }

  /**
   An ARN is accepted exactly when it is built from an allowed account, legal non-empty segments that begin with the
   prefix's own segments, and a legal name.
   */
  lemma AcceptedExactly(arn: string, allowedAccountIds: seq<string>, rolePathPrefix: string)
    requires rolePathPrefix != "" && rolePathPrefix[0] == '/' && rolePathPrefix[|rolePathPrefix| - 1] == '/'
    ensures ValidateFederationRoleArn(arn, allowedAccountIds, rolePathPrefix) == Accepted <==>
            exists account, segments, name ::
              && Denotes(arn, account, segments, name)
              && account in allowedAccountIds && SegmentsOf(rolePathPrefix) <= segments
  {
    hide MatchRoleArn, Denotes, IsAccount, IsRoleName;
    PathOfSegments(rolePathPrefix);
    if ValidateFederationRoleArn(arn, allowedAccountIds, rolePathPrefix) == Accepted {
      var m := MatchRoleArn(arn).value;
      MatchedPath(arn);
      var segments := SegmentsOf(m.path);
      PathOfSegments(m.path);
      MatchExactly(arn, m.account, segments, m.name);
      PrefixBySegments(SegmentsOf(rolePathPrefix), segments);
      assert Denotes(arn, m.account, segments, m.name);
    }
    forall account, segments, name
      | Denotes(arn, account, segments, name) && account in allowedAccountIds && SegmentsOf(rolePathPrefix) <= segments
      ensures ValidateFederationRoleArn(arn, allowedAccountIds, rolePathPrefix) == Accepted
    {
      MatchExactly(arn, account, segments, name);
      PrefixBySegments(SegmentsOf(rolePathPrefix), segments);
    }
  }

  /** Which of the other verdicts an ARN gets, and with it which message: the first check it fails. */
  lemma RefusedExactly(arn: string, allowedAccountIds: seq<string>, rolePathPrefix: string)
    requires rolePathPrefix != "" && rolePathPrefix[0] == '/' && rolePathPrefix[|rolePathPrefix| - 1] == '/'
    ensures var v := ValidateFederationRoleArn(arn, allowedAccountIds, rolePathPrefix);
            && (v == MintingDisabled <==> allowedAccountIds == [])
            && (v == NotARoleArn <==>
                allowedAccountIds != [] && forall account, segments, name :: !Denotes(arn, account, segments, name))
            && (v == AccountNotAllowed <==>
                allowedAccountIds != []
                && exists account, segments, name :: Denotes(arn, account, segments, name) && account !in allowedAccountIds)
            && (v == OutsidePath <==>
                exists account, segments, name ::
                  Denotes(arn, account, segments, name) && account in allowedAccountIds
                  && !(SegmentsOf(rolePathPrefix) <= segments))
  {
    hide MatchRoleArn, Denotes, IsAccount, IsRoleName;
    PathOfSegments(rolePathPrefix);
    if MatchRoleArn(arn).Some? {
      var m := MatchRoleArn(arn).value;
      MatchedPath(arn);
      var segments := SegmentsOf(m.path);
      PathOfSegments(m.path);
      MatchExactly(arn, m.account, segments, m.name);
      PrefixBySegments(SegmentsOf(rolePathPrefix), segments);
      assert Denotes(arn, m.account, segments, m.name);
    }
    forall account, segments, name | Denotes(arn, account, segments, name)
      ensures MatchRoleArn(arn) == Some(RoleArn(account, Path(segments), name))
      ensures Path(SegmentsOf(rolePathPrefix)) <= Path(segments) <==> SegmentsOf(rolePathPrefix) <= segments
    {
      MatchExactly(arn, account, segments, name);
      PrefixBySegments(SegmentsOf(rolePathPrefix), segments);
    }
  }

  lemma MatchedPath(arn: string)
    requires MatchRoleArn(arn).Some?
    ensures var path := MatchRoleArn(arn).value.path; path != "" && path[0] == '/' && path[|path| - 1] == '/'
  {
  }
}
