/** Where a login sends the user back to: always a path on this site. */
module LocalPath {
  import opened Wrappers

  predicate Control(c: char) { c < ' ' || c == '\U{007F}' }

  /** A path of this site: one slash first, then anything but backslashes and control
      characters. */
  predicate Safe(s: string) {
    && s != "" && s[0] == '/'
    && (|s| > 1 ==> s[1] != '/')
    && (forall i | 0 <= i < |s| :: s[i] != '\\' && s[i] as int >= 0x20 && s[i] as int != 0x7F)
  }

  function SafeLocalPath(s: string): (path: Option<string>)
    ensures path == if Safe(s) then Some(s) else None
  {
    if s == "" || s[0] != '/' then None
    else if |s| > 1 && (s[1] == '/' || s[1] == '\\') then None
    else if exists i | 0 <= i < |s| :: s[i] == '\\' || Control(s[i]) then None
    else Some(s)
  }

  predicate Stands(s: string, part: string, i: int) {
    0 <= i && i + |part| <= |s| && s[i..i + |part|] == part
  }

  lemma StandsFurther(s: string, part: string)
    requires s != ""
    ensures forall i | i >= 1 :: Stands(s, part, i) <==> Stands(s[1..], part, i - 1)
  {
    forall i | i >= 1 ensures Stands(s, part, i) <==> Stands(s[1..], part, i - 1) {
      if i + |part| <= |s| { assert s[1..][i - 1..i - 1 + |part|] == s[i..i + |part|]; }
    }
  }

  /** Where `part` first stands in `s`. */
  function Find(s: string, part: string): (r: Option<nat>)
    ensures r.Some? ==> Stands(s, part, r.value) && forall i | Stands(s, part, i) :: r.value <= i
    ensures r.None? ==> forall i :: !Stands(s, part, i)
  {
    if part <= s then Some(0)
    else if s == "" then None
    else
      StandsFurther(s, part);
      var rest := Find(s[1..], part);
      if rest.None? then None else Some(rest.value + 1)
  }

  const SCHEME_END := "://"

  /** An address without its host. */
  function AfterAuthority(after: string): string {
    match Find(after, "/")
    case None => "/"
    case Some(j) => after[j..]
  }

  /** An address without its scheme and host. */
  function Rest(raw: string): string {
    match Find(raw, SCHEME_END)
    case None => raw
    case Some(i) => AfterAuthority(raw[i + 3..])
  }

  function LocalPart(raw: string): Option<string> {
    SafeLocalPath(Rest(raw))
  }

  /** An address without a scheme is taken as it is, and only if it is safe. */
  lemma NoSchemeIsTakenAsItIs(raw: string)
    requires Find(raw, "://").None?
    ensures LocalPart(raw) == if Safe(raw) then Some(raw) else None
  {
  }

  /** The path and query of a page address come out whatever site it names. */
  lemma OriginIsDropped(scheme: string, host: string, path: string)
    requires ':' !in scheme && '/' !in host && path != "" && path[0] == '/'
    ensures LocalPart(scheme + SCHEME_END + (host + path)) == SafeLocalPath(path)
    ensures LocalPart(scheme + SCHEME_END + host) == Some("/")
  {
    RestAfterScheme(scheme, host + path);
    RestAfterScheme(scheme, host);
    AfterHost(host, path);
  }

  lemma RestAfterScheme(scheme: string, after: string)
    requires ':' !in scheme
    ensures Rest(scheme + SCHEME_END + after) == AfterAuthority(after)
  {
    AfterScheme(scheme, after);
  }

  lemma OneStands(s: string, c: char, i: int)
    ensures Stands(s, [c], i) <==> 0 <= i < |s| && s[i] == c
  {
    if 0 <= i < |s| { assert s[i..i + 1] == [s[i]]; }
  }

  lemma AfterHost(host: string, path: string)
    requires '/' !in host && path != "" && path[0] == '/'
    ensures Find(host + path, "/") == Some(|host|) && (host + path)[|host|..] == path
    ensures Find(host, "/") == None
  {
    var s := host + path;
    OneStands(s, '/', |host|);
    forall i | Stands(s, "/", i) ensures |host| <= i {
      OneStands(s, '/', i);
    }
    forall i ensures !Stands(host, "/", i) {
      OneStands(host, '/', i);
    }
  }

  lemma AfterScheme(scheme: string, rest: string)
    requires ':' !in scheme
    ensures Find(scheme + SCHEME_END + rest, SCHEME_END) == Some(|scheme|)
    ensures (scheme + SCHEME_END + rest)[|scheme| + 3..] == rest
  {
    var s := scheme + SCHEME_END + rest;
    assert Stands(s, SCHEME_END, |scheme|);
    forall i | Stands(s, SCHEME_END, i) ensures |scheme| <= i {
      assert s[i] == s[i..i + 3][0];
    }
  }

  /** A safe path is taken as it is exactly when `://` is nowhere in it; otherwise what
      follows the next slash is taken for the path. */
  lemma SafePathIsKeptIff(path: string)
    requires Safe(path)
    ensures LocalPart(path) == Some(path) <==> Find(path, SCHEME_END).None?
  {
    var found := Find(path, SCHEME_END);
    if found.Some? {
      assert |Rest(path)| < |path| || Rest(path) == "/";
      assert |path| > 1;
    }
  }

  /** Where the last slash stands. */
  function LastSlash(path: string): (r: Option<nat>)
    ensures r.None? ==> '/' !in path
    ensures r.Some? ==> r.value < |path| && path[r.value] == '/' && '/' !in path[r.value + 1..]
  {
    if path == "" then None
    else if path[|path| - 1] == '/' then Some(|path| - 1)
    else
      assert path == path[..|path| - 1] + [path[|path| - 1]];
      var r := LastSlash(path[..|path| - 1]);
      assert r.Some? ==> path[r.value + 1..] == path[..|path| - 1][r.value + 1..] + [path[|path| - 1]];
      r
  }

  /** The first of the candidates that has a safe local part. */
  function FirstLocal(candidates: seq<Option<string>>): Option<string> {
    if candidates == [] then None
    else if candidates[0].Some? && LocalPart(candidates[0].value).Some? then LocalPart(candidates[0].value)
    else FirstLocal(candidates[1..])
  }

  /** The page a request belongs to, when nothing says where it was issued from: its path
      without the last segment. */
  function ParentPath(path: string): (parent: string)
    ensures Safe(parent)
    ensures parent != "/" ==> exists verb :: path == parent + "/" + verb && '/' !in verb
  {
    match LastSlash(path)
    case None => "/"
    case Some(i) =>
      if i > 0 && Safe(path[..i]) then
        assert path == path[..i] + "/" + path[i + 1..];
        path[..i]
      else "/"
  }

  /** Whenever the path without its last segment is safe, that is the page. */
  lemma ParentPathIs(parent: string, verb: string)
    requires Safe(parent) && '/' !in verb
    ensures ParentPath(parent + "/" + verb) == parent
  {
    var path := parent + "/" + verb;
    LastSlashIs(path, |parent|);
    assert path[..|parent|] == parent;
  }

  lemma {:induction false} LastSlashIs(path: string, i: nat)
    requires i < |path| && path[i] == '/' && '/' !in path[i + 1..]
    ensures LastSlash(path) == Some(i)
  {
    if i < |path| - 1 {
      assert path[|path| - 1] in path[i + 1..];
      assert path[..|path| - 1][i + 1..] == path[i + 1..][..|path| - i - 2];
      LastSlashIs(path[..|path| - 1], i);
    }
  }

  /** `readOnly` says that the method is GET or HEAD; `target` is the request's path and
      query if it has one, `currentUrl` and `referer` what those headers say. */
  method LoginNext(readOnly: bool, target: Option<string>, path: string,
                   currentUrl: Option<string>, referer: Option<string>)
    returns (next: string)
    ensures Safe(next)
    ensures readOnly ==>
              var page := if target.Some? then target.value else path;
              next == if Safe(page) then page else "/"
    ensures !readOnly ==>
              var issuedFrom := FirstLocal([currentUrl, referer]);
              next == if issuedFrom.Some? then issuedFrom.value else ParentPath(path)
  {
    if readOnly {
      var page := SafeLocalPath(if target.Some? then target.value else path);
      if page.Some? { return page.value; }
      return "/";
    }
    var candidates := [currentUrl, referer];
    for i := 0 to |candidates|
      invariant FirstLocal(candidates[i..]) == FirstLocal(candidates)
    {
      assert candidates[i..][1..] == candidates[i + 1..];
      if candidates[i].Some? {
        var local := LocalPart(candidates[i].value);
        if local.Some? { return local.value; }
      }
    }
    var slash := LastSlash(path);
    if slash.None? || slash.value == 0 { return "/"; }
    var parent := SafeLocalPath(path[..slash.value]);
    return if parent.Some? then parent.value else "/";
  }
}
