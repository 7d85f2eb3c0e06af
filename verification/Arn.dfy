/** Identity extraction from AWS ARNs, and the caller's fields as token minting reads them back. */
module Arn {
  import opened Text
  import opened Strings

  datatype PrincipalInfo = PrincipalInfo(
    arn: string, accountId: string, principal: Option<string>, sessionName: Option<string>, project: string)

  /** `arn:service:region:account:resource-type/path`: the account, and the path parts after the resource type. */
  function ExtractArnParts(arn: string): (string, Option<seq<string>>) {
    if ':' !in arn then ("unknown", None)
    else
      var parts := Split(arn, ':');
      var account := if |parts| >= 5 then parts[4] else "unknown";
      if |parts| >= 6 && '/' in parts[5] then (account, Some(Split(parts[5], '/')[1..])) else (account, None)
  }

  const USER_PROFILE: string := "UserProfile_"
  const ASSUMED_ROLE: string := "assumed-role"

  /** What follows the second underscore of a `UserProfile_` role name. */
  function ProjectOfRole(role: string): Option<string> {
    if USER_PROFILE <= role && |Split(role, '_')| >= 3 then Some(Join(Split(role, '_')[2..], '_')) else None
  }

  function ParseIdentityFromArn(arn: string): PrincipalInfo {
    var (account, path) := ExtractArnParts(arn);
    if Contains(arn, ASSUMED_ROLE) && path.Some? && |path.value| >= 2 then
      var role := path.value[0];
      var project := ProjectOfRole(role);
      PrincipalInfo(arn, account, Some(ASSUMED_ROLE + "/" + role), Some(path.value[1]),
                    if project.None? || project.value == "" then "unknown" else project.value)
    else PrincipalInfo(arn, account, None, None, "unknown")
  }

  /** The role ARN behind a session ARN; None where the original indexes past the end of a split. */
  function GetRoleArn(sessionArn: string): Option<string> {
    var (account, path) := ExtractArnParts(sessionArn);
    if path.Some? && |path.value| > 0 then Some("arn:aws:iam::" + account + ":role/" + path.value[0])
    else
      var bySlash, byColon := Split(sessionArn, '/'), Split(sessionArn, ':');
      if |bySlash| >= 2 && |byColon| >= 5 then Some("arn:aws:iam::" + byColon[4] + ":role/" + bySlash[1]) else None
  }

  // ---- what minting reads ----

  datatype Caller<T> = Ok(value: T) | NotAssumedRole | BadSessionName

  /** `\w` in ASCII, or one of `+=,.@-`. */
  predicate IsNameChar(c: char) {
    'a' <= c <= 'z' || 'A' <= c <= 'Z' || '0' <= c <= '9' || c in "_+=,.@-"
  }

  predicate IsRoleSessionName(s: string) {
    2 <= |s| <= 64 && forall i | 0 <= i < |s| :: IsNameChar(s[i])
  }

  function CallerRoleName(p: PrincipalInfo): Caller<string> {
    var prefix := ASSUMED_ROLE + "/";
    if p.principal.None? || !(prefix <= p.principal.value) then NotAssumedRole
    else if !IsRoleSessionName(p.principal.value[|prefix|..]) then BadSessionName
    else Ok(p.principal.value[|prefix|..])
  }

  function CallerSession(p: PrincipalInfo): Caller<string> {
    if p.sessionName.None? || p.sessionName.value == "" then NotAssumedRole else Ok(p.sessionName.value)
  }

  function CallerProject(p: PrincipalInfo): string {
    if p.project == "unknown" then "" else p.project
  }

  // ---- building and parsing ----

  predicate IsField(s: string) { ':' !in s && '/' !in s }

  function AssumedRoleArn(account: string, role: string, session: string): string {
    Join(["arn", "aws", "sts", "", account, ASSUMED_ROLE + "/" + role + "/" + session], ':')
  }

  lemma ResourceParts(role: string, session: string)
    requires IsField(role) && IsField(session)
    ensures Split(ASSUMED_ROLE + "/" + role + "/" + session, '/') == [ASSUMED_ROLE, role, session]
    ensures ':' !in ASSUMED_ROLE + "/" + role + "/" + session && '/' in ASSUMED_ROLE + "/" + role + "/" + session
  {
    var resource := ASSUMED_ROLE + "/" + role + "/" + session;
    assert resource == ASSUMED_ROLE + ['/'] + (role + ['/'] + session);
    SplitAtFirst(ASSUMED_ROLE, '/', role + ['/'] + session);
    SplitAtFirst(role, '/', session);
    SplitOfNone(session, '/');
    assert resource[|ASSUMED_ROLE|] == '/';
  }

  lemma ContainsInLastPart(parts: seq<string>, sep: char, sub: string)
    requires parts != [] && sub <= parts[|parts| - 1]
    ensures Contains(Join(parts, sep), sub)
  {
    if |parts| == 1 {
      assert parts[0][0..] == parts[0];
    } else {
      ContainsInLastPart(parts[1..], sep, sub);
      var rest := Join(parts[1..], sep);
      var i :| 0 <= i <= |rest| && sub <= rest[i..];
      var whole := Join(parts, sep);
      assert whole[|parts[0]| + 1 + i..] == rest[i..];
    }
  }

  lemma PartsOfBuilt(account: string, role: string, session: string)
    requires IsField(account) && IsField(role) && IsField(session)
    ensures ExtractArnParts(AssumedRoleArn(account, role, session)) == (account, Some([role, session]))
    ensures Contains(AssumedRoleArn(account, role, session), ASSUMED_ROLE)
  {
    var resource := ASSUMED_ROLE + "/" + role + "/" + session;
    var parts := ["arn", "aws", "sts", "", account, resource];
    ResourceParts(role, session);
    SplitJoin(parts, ':');
    assert ASSUMED_ROLE <= resource;
    ContainsInLastPart(parts, ':', ASSUMED_ROLE);
    var arn := Join(parts, ':');
    assert arn[3] == ':' by { assert arn == "arn" + [':'] + Join(parts[1..], ':'); }
  }

  /**
   Building the session ARN of an assumed role, parsing it and reading the caller's fields gives back the account, the
   role and the session, and the role ARN names the role.
   */
  lemma IdentityRoundTrip(account: string, role: string, session: string)
    requires IsField(account) && IsField(role) && IsField(session) && IsRoleSessionName(role) && session != ""
    ensures var arn := AssumedRoleArn(account, role, session);
            var p := ParseIdentityFromArn(arn);
            && p.accountId == account && CallerRoleName(p) == Ok(role) && CallerSession(p) == Ok(session)
            && GetRoleArn(arn) == Some("arn:aws:iam::" + account + ":role/" + role)
  {
    hide ExtractArnParts, AssumedRoleArn, Contains, ProjectOfRole;
    PartsOfBuilt(account, role, session);
    var prefix := ASSUMED_ROLE + "/";
    assert (prefix + role)[|prefix|..] == role;
  }

  // ---- what any text parses to ----

  ghost predicate OccursAt(s: string, sub: string, i: int) {
    0 <= i <= |s| - |sub| && forall j | 0 <= j < |sub| :: s[i + j] == sub[j]
  }

  ghost predicate Occurs(s: string, sub: string) {
    exists i :: OccursAt(s, sub, i)
  }

  ghost predicate PartsOf(s: string, sep: char, parts: seq<string>) {
    parts != [] && Join(parts, sep) == s && forall i | 0 <= i < |parts| :: sep !in parts[i]
  }

  lemma OccursExactly(s: string, sub: string)
    ensures Contains(s, sub) <==> Occurs(s, sub)
  {
    if Contains(s, sub) {
      var i :| 0 <= i <= |s| && sub <= s[i..];
      forall j | 0 <= j < |sub| ensures s[i + j] == sub[j] { assert s[i..][j] == sub[j]; }
      assert OccursAt(s, sub, i);
    }
    if Occurs(s, sub) {
      var i :| OccursAt(s, sub, i);
      assert s[i..][..|sub|] == sub;
    }
  }

  lemma SeveralParts(s: string, sep: char)
    ensures |Split(s, sep)| >= 2 <==> sep in s
  {
    JoinSplit(s, sep);
    var parts := Split(s, sep);
    if sep !in s {
      SplitOfNone(s, sep);
    } else {
      assert parts[0] != s;
    }
  }

  /**
   Every text has a caller exactly if `assumed-role` occurs in it and its sixth colon-separated part has at least two parts
   after its first slash; then the first of these is the role and the second the session. The account is the fifth part.
   */
  lemma ParsesExactly(arn: string, parts: seq<string>, segments: seq<string>)
    requires PartsOf(arn, ':', parts) && (|parts| >= 6 ==> PartsOf(parts[5], '/', segments))
    ensures var p := ParseIdentityFromArn(arn);
            && p.arn == arn && p.accountId == (if |parts| >= 5 then parts[4] else "unknown")
            && (p.principal.Some? <==> Occurs(arn, "assumed-role") && |parts| >= 6 && |segments| >= 3)
            && (p.principal.Some? ==>
                  p.principal == Some("assumed-role/" + segments[1]) && p.sessionName == Some(segments[2])
                  && p.project == match ProjectOfRole(segments[1])
                                  case None => "unknown"
                                  case Some(project) => if project == "" then "unknown" else project)
            && (p.principal.None? ==> p.sessionName.None? && p.project == "unknown")
  {
    SplitExactly(arn, ':', parts);
    SeveralParts(arn, ':');
    OccursExactly(arn, ASSUMED_ROLE);
    if |parts| >= 6 {
      SplitExactly(parts[5], '/', segments);
      SeveralParts(parts[5], '/');
    }
    hide Split, Join, Contains, Occurs, ProjectOfRole;
    if |parts| >= 6 && |segments| >= 3 {
      assert ASSUMED_ROLE + "/" + segments[1] == "assumed-role/" + segments[1] by {
        assert ASSUMED_ROLE + "/" == "assumed-role/";
      }
      assert segments[1..][0] == segments[1] && segments[1..][1] == segments[2];
    }
  }

  /** The role ARN behind any text; None exactly where a part is missing. */
  lemma RoleArnExactly(arn: string, parts: seq<string>, segments: seq<string>, bySlash: seq<string>)
    requires PartsOf(arn, ':', parts) && (|parts| >= 6 ==> PartsOf(parts[5], '/', segments)) && PartsOf(arn, '/', bySlash)
    ensures GetRoleArn(arn) ==
            if |parts| >= 6 && |segments| >= 2 then Some("arn:aws:iam::" + parts[4] + ":role/" + segments[1])
            else if |parts| >= 5 && |bySlash| >= 2 then Some("arn:aws:iam::" + parts[4] + ":role/" + bySlash[1])
            else None
  {
    SplitExactly(arn, ':', parts);
    SplitExactly(arn, '/', bySlash);
    SeveralParts(arn, ':');
    if |parts| >= 6 {
      SplitExactly(parts[5], '/', segments);
      SeveralParts(parts[5], '/');
    }
    hide Split, Join;
  }

  /**
   Who may mint: exactly the texts with an assumed role whose name has 2 to 64 of the allowed characters and with a session
   that is not empty. Whatever else the text says, it is not a caller.
   */
  lemma CallersExactly(arn: string, parts: seq<string>, segments: seq<string>)
    requires PartsOf(arn, ':', parts) && (|parts| >= 6 ==> PartsOf(parts[5], '/', segments))
    ensures var role, session := CallerRoleName(ParseIdentityFromArn(arn)), CallerSession(ParseIdentityFromArn(arn));
            var assumed := Occurs(arn, "assumed-role") && |parts| >= 6 && |segments| >= 3;
            && (role.NotAssumedRole? <==> !assumed)
            && (role.Ok? <==> assumed && 2 <= |segments[1]| <= 64 && forall c | c in segments[1] ::
                  'a' <= c <= 'z' || 'A' <= c <= 'Z' || '0' <= c <= '9' || c in ['_', '+', '=', ',', '.', '@', '-'])
            && (role.Ok? ==> role.value == segments[1])
            && session == (if assumed && segments[2] != "" then Ok(segments[2]) else NotAssumedRole)
  {
    ParsesExactly(arn, parts, segments);
    hide ParseIdentityFromArn, Occurs, Join, ProjectOfRole;
    if Occurs(arn, "assumed-role") && |parts| >= 6 && |segments| >= 3 {
      var prefix := ASSUMED_ROLE + "/";
      assert prefix == "assumed-role/";
      assert (prefix + segments[1])[|prefix|..] == segments[1];
      assert forall c :: c in "_+=,.@-" <==> c in ['_', '+', '=', ',', '.', '@', '-'];
      assert forall i | 0 <= i < |segments[1]| :: segments[1][i] in segments[1];
    }
  }

  /** The caller's project, read from the built ARN, is that of the role; missing, empty and "unknown" all read as "". */
  lemma ProjectRoundTrip(account: string, role: string, session: string)
    requires IsField(account) && IsField(role) && IsField(session)
    ensures CallerProject(ParseIdentityFromArn(AssumedRoleArn(account, role, session))) ==
            match ProjectOfRole(role)
            case None => ""
            case Some(p) => if p == "unknown" then "" else p
  {
    hide ExtractArnParts, AssumedRoleArn, Contains, ProjectOfRole;
    PartsOfBuilt(account, role, session);
  }

  /** The project of `UserProfile_<user>_<project>` is everything after the second underscore, underscores included. */
  lemma ProjectIsAfterSecondUnderscore(user: string, project: string)
    requires '_' !in user
    ensures ProjectOfRole(USER_PROFILE + user + "_" + project) == Some(project)
  {
    var role := USER_PROFILE + user + "_" + project;
    var first := "UserProfile";
    assert role == first + ['_'] + (user + ['_'] + project);
    SplitAtFirst(first, '_', user + ['_'] + project);
    SplitAtFirst(user, '_', project);
    JoinSplit(project, '_');
    assert ([first] + ([user] + Split(project, '_')))[2..] == Split(project, '_');
  }

  /** And no other role name has one. */
  lemma NoProjectOtherwise(role: string)
    requires ProjectOfRole(role).Some?
    ensures exists user, project :: '_' !in user && role == USER_PROFILE + user + "_" + project
  {
    var parts := Split(role, '_');
    JoinSplit(role, '_');
    var user, project := parts[1], Join(parts[2..], '_');
    assert parts[1..][1..] == parts[2..];
    assert role == parts[0] + ['_'] + (user + ['_'] + project);
    assert |parts[0]| == 11 by {
      assert role[11] == USER_PROFILE[11] == '_';
      assert forall i | 0 <= i < 11 :: role[i] == USER_PROFILE[i] && role[i] != '_';
      assert role[|parts[0]|] == '_' && role[..|parts[0]|] == parts[0];
      assert |parts[0]| >= 11;
    }
    assert role[..12] == USER_PROFILE;
    assert role == USER_PROFILE + user + "_" + project;
  }
}
