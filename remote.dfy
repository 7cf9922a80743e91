/** The GitHub remote URLs the connector builds, the reading of an `https`
    URL's userinfo (the `user:password@` part of the authority, section 3.2.1
    of RFC 3986, read here up to the last `@` of the authority), and the
    masking of credentials in git's error text. */
module Remote {
  import opened Strings

  const Scheme := "https://"

  /** `https://github.com/<repo>.git`: the URL built by `_build_clone_url`
      and the one `_sanitize_remote_url` sets as `origin`. */
  function CloneUrl(repoPath: string): string {
    Scheme + "github.com/" + repoPath + ".git"
  }

  /** `https://<user>:<token>@github.com/<repo>.git`, the URL handed to `git clone`. */
  function AuthUrl(user: string, token: string, repoPath: string): string {
    Scheme + user + ":" + token + "@github.com/" + repoPath + ".git"
  }

  // ---------------------------------------------------------------------------
  // Reading a URL's credentials

  /** Characters that end the authority of a URL. */
  predicate EndsAuthority(c: char) {
    c == '/' || c == '?' || c == '#'
  }

  /** `s` holds no character that ends an authority. */
  predicate Plain(s: string) {
    '/' !in s && '?' !in s && '#' !in s
  }

  /** The length of the authority at the front of `s` (the text after `//`). */
  function AuthorityLength(s: string): (n: nat)
    ensures n <= |s| && (n == |s| || EndsAuthority(s[n]))
    ensures forall k :: 0 <= k < n ==> !EndsAuthority(s[k])
  {
    if s == [] || EndsAuthority(s[0]) then 0 else AuthorityLength(s[1..]) + 1
  }

  /** The index of the last `c` in `s`. */
  function LastIndex(s: string, c: char): (r: Option<nat>)
    ensures r.None? ==> c !in s
    ensures r.Some? ==> r.value < |s| && s[r.value] == c && c !in s[r.value + 1..]
  {
    if s == [] then None
    else if s[|s| - 1] == c then Some(|s| - 1)
    else
      var r := LastIndex(s[..|s| - 1], c);
      assert s == s[..|s| - 1] + [s[|s| - 1]];
      r
  }

  /** The authority of an `https` URL. */
  function Authority(url: string): string
    requires StartsWith(url, Scheme)
  {
    var rest := url[|Scheme|..];
    rest[..AuthorityLength(rest)]
  }

  /** The userinfo of an `https` URL: the authority up to its last `@`, if it has one.
      Reading up to the last `@` is this model's choice for a credential that itself
      holds an `@`; RFC 3986 admits no raw `@` in userinfo. */
  function UserInfo(url: string): Option<string>
    requires StartsWith(url, Scheme)
  {
    var auth := Authority(url);
    match LastIndex(auth, '@')
    case None => None
    case Some(i) => Some(auth[..i])
  }

  /** The user name and password in an `https` URL: its userinfo split at the first `:`. */
  function Credentials(url: string): Option<(string, string)>
    requires StartsWith(url, Scheme)
  {
    match UserInfo(url)
    case None => None
    case Some(info) =>
      if ':' in info then
        var i := FirstIndex(info, ':');
        Some((info[..i], info[i + 1..]))
      else Some((info, ""))
  }

  /** The URL with its userinfo and the `@` after it deleted. */
  function StripUserInfo(url: string): string
    requires StartsWith(url, Scheme)
  {
    var rest := url[|Scheme|..];
    var n := AuthorityLength(rest);
    var auth := rest[..n];
    match LastIndex(auth, '@')
    case None => url
    case Some(i) => Scheme + auth[i + 1..] + rest[n..]
  }

  lemma {:induction false} AuthorityBeforeSlash(a: string, b: string)
    requires Plain(a)
    ensures AuthorityLength(a + "/" + b) == |a|
  {
    if a != [] {
      assert a[0] in a;
      assert forall x :: x in a[1..] ==> x in a;
      assert (a + "/" + b)[1..] == a[1..] + "/" + b;
      AuthorityBeforeSlash(a[1..], b);
    }
  }

  lemma {:induction false} LastIndexBefore(a: string, c: char, b: string)
    requires c !in b
    ensures LastIndex(a + [c] + b, c) == Some(|a|)
  {
    if b != [] {
      var s := a + [c] + b;
      assert s[..|s| - 1] == a + [c] + b[..|b| - 1];
      assert s[|s| - 1] == b[|b| - 1];
      LastIndexBefore(a, c, b[..|b| - 1]);
    }
  }

  lemma FirstIndexBefore(a: string, c: char, b: string)
    requires c !in a
    ensures c in a + [c] + b && FirstIndex(a + [c] + b, c) == |a|
  {
    var s := a + [c] + b;
    assert s[|a|] == c;
  }

  /** How an `https` URL whose authority is `auth` is read. */
  lemma ReadUrl(auth: string, path: string)
    requires Plain(auth)
    ensures StartsWith(Scheme + auth + "/" + path, Scheme)
    ensures (Scheme + auth + "/" + path)[|Scheme|..] == auth + "/" + path
    ensures AuthorityLength(auth + "/" + path) == |auth|
    ensures Authority(Scheme + auth + "/" + path) == auth
  {
    var url := Scheme + auth + "/" + path;
    assert url[..|Scheme|] == Scheme;
    assert url[|Scheme|..] == auth + "/" + path;
    AuthorityBeforeSlash(auth, path);
    assert (auth + "/" + path)[..|auth|] == auth;
  }

  /** The host name ends no authority and holds no `@`. */
  lemma HostIsPlain()
    ensures Plain("github.com") && '@' !in "github.com"
  {
  }

  /** The authenticated URL is the clean one's authority preceded by `user:token@`. */
  lemma AuthUrlShape(user: string, token: string, repoPath: string)
    ensures AuthUrl(user, token, repoPath) == Scheme + ((user + ":" + token) + "@" + "github.com") + "/" + (repoPath + ".git")
    ensures CloneUrl(repoPath) == Scheme + "github.com" + "/" + (repoPath + ".git")
  {
  }

  /** The clean URL carries no credentials, whatever the repository reference holds. */
  lemma CloneUrlHasNoUserInfo(repoPath: string)
    ensures StartsWith(CloneUrl(repoPath), Scheme)
    ensures UserInfo(CloneUrl(repoPath)) == None
    ensures StripUserInfo(CloneUrl(repoPath)) == CloneUrl(repoPath)
  {
    HostIsPlain();
    AuthUrlShape("", "", repoPath);
    ReadUrl("github.com", repoPath + ".git");
  }

  /** The userinfo of a URL whose authority is `info@host`. */
  lemma ReadUserInfo(info: string, host: string, path: string)
    requires Plain(info) && Plain(host) && '@' !in host
    ensures StartsWith(Scheme + (info + "@" + host) + "/" + path, Scheme)
    ensures UserInfo(Scheme + (info + "@" + host) + "/" + path) == Some(info)
    ensures StripUserInfo(Scheme + (info + "@" + host) + "/" + path) == Scheme + host + "/" + path
  {
    var auth := info + "@" + host;
    ReadUrl(auth, path);
    assert auth == info + ['@'] + host;
    LastIndexBefore(info, '@', host);
    assert auth[..|info|] == info;
    assert auth[|info| + 1..] == host;
    assert (auth + "/" + path)[|auth|..] == "/" + path;
  }

  /** The authenticated URL, read back: its userinfo is `user:token`, and
      deleting that `user:token@` leaves exactly the clean URL. */
  lemma AuthUrlStripsToCloneUrl(user: string, token: string, repoPath: string)
    requires Plain(user) && Plain(token)
    ensures StartsWith(AuthUrl(user, token, repoPath), Scheme)
    ensures UserInfo(AuthUrl(user, token, repoPath)) == Some(user + ":" + token)
    ensures StripUserInfo(AuthUrl(user, token, repoPath)) == CloneUrl(repoPath)
  {
    var info := user + ":" + token;
    assert Plain(info);
    HostIsPlain();
    AuthUrlShape(user, token, repoPath);
    ReadUserInfo(info, "github.com", repoPath + ".git");
  }

  /** The authenticated URL carries exactly the configured user name and token. */
  lemma AuthUrlCredentials(user: string, token: string, repoPath: string)
    requires Plain(user) && ':' !in user
    requires Plain(token)
    ensures StartsWith(AuthUrl(user, token, repoPath), Scheme)
    ensures Credentials(AuthUrl(user, token, repoPath)) == Some((user, token))
  {
    AuthUrlStripsToCloneUrl(user, token, repoPath);
    var info := user + ":" + token;
    assert info == user + [':'] + token;
    FirstIndexBefore(user, ':', token);
    assert info[..|user|] == user && info[|user| + 1..] == token;
  }

  // ---------------------------------------------------------------------------
  // Masking credentials in git's error output

  const Mask := "***"

  /** `stderr.replace(token, "***").replace(username, "***")`. */
  function ScrubError(stderr: string, token: string, user: string): string {
    Replace(Replace(stderr, token, Mask), user, Mask)
  }

  /** The masked error text holds no occurrence of a non-empty token without `*`. */
  lemma ScrubHidesToken(stderr: string, token: string, user: string)
    requires token != [] && '*' !in token
    ensures !Occurs(token, ScrubError(stderr, token, user))
  {
    ReplaceRemoves(token, stderr, Mask);
    ReplaceKeepsAbsent(token, Replace(stderr, token, Mask), user, Mask);
  }

  /** Nor any occurrence of a non-empty user name without `*`. */
  lemma ScrubHidesUser(stderr: string, token: string, user: string)
    requires user != [] && '*' !in user
    ensures !Occurs(user, ScrubError(stderr, token, user))
  {
    ReplaceRemoves(user, Replace(stderr, token, Mask), Mask);
  }
}
