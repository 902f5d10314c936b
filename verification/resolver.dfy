/** Source resolution of the root package (resolver.go): deciding whether a
    source identifier names a remote repository, where a remote source is
    stored locally, and the base name its skills are named after. */
module Resolver {
  import opened Wrappers
  import opened Strings
  import opened Platform
  import Namer

  /** The hosting prefixes that mark a source as remote (`knownHosts`). */
  const KnownHosts: seq<string> := ["github.com/", "gitlab.com/", "bitbucket.org/", "codeberg.org/"]

  /** `IsRemote(src)`: some known host prefix starts `src`. */
  function IsRemote(src: string): (r: bool)
    ensures r <==> exists i :: 0 <= i < |KnownHosts| && HasPrefix(src, KnownHosts[i])
  {
    HasAnyPrefix(KnownHosts, src)
  }

  /** The allow-list spelled out: exactly four prefixes, each with its trailing slash. */
  lemma IsRemoteHosts(src: string)
    ensures IsRemote(src) <==>
              HasPrefix(src, "github.com/") || HasPrefix(src, "gitlab.com/") ||
              HasPrefix(src, "bitbucket.org/") || HasPrefix(src, "codeberg.org/")
  {
    assert KnownHosts[0] == "github.com/" && KnownHosts[1] == "gitlab.com/";
    assert KnownHosts[2] == "bitbucket.org/" && KnownHosts[3] == "codeberg.org/";
  }

  /** Identifiers under a known host are remote. */
  lemma RemoteExamples()
    ensures IsRemote("github.com/hayeah/skills")
    ensures IsRemote("codeberg.org/x")
  {
    IsRemoteHosts("github.com/hayeah/skills");
    IsRemoteHosts("codeberg.org/x");
  }

  /** A host without its slash is local. */
  lemma BareHostIsLocal()
    ensures !IsRemote("github.com")
  {
    IsRemoteHosts("github.com");
  }

  /** A URL with a scheme is local: the classification is by prefix only. */
  lemma SchemeUrlIsLocal()
    ensures !IsRemote("https://github.com/hayeah/skills")
  {
    var url := "https://github.com/hayeah/skills";
    IsRemoteHosts(url);
    assert url[0] == 'h';
  }

  /** `toHTTPS(src)`: the HTTPS clone URL; `src` can be read back from between
      the scheme and the ".git" suffix. */
  function ToHTTPS(src: string): (url: string)
    ensures |url| == |src| + 12
    ensures HasPrefix(url, "https://")
    ensures url[8..|url| - 4] == src
    ensures url[|url| - 4..] == ".git"
  {
    var url := "https://" + src + ".git";
    assert url[8..|url| - 4] == src;
    url
  }

  /** Distinct sources give distinct clone URLs. */
  lemma ToHTTPSInjective(a: string, b: string)
    requires ToHTTPS(a) == ToHTTPS(b)
    ensures a == b
  {
    var u := ToHTTPS(a);
    assert a == u[8..|u| - 4];
  }

  /** `storageName(src)`: the flat directory name under the storage root. */
  function StorageName(src: string): (r: string)
    ensures |r| == |src|
    ensures '/' !in r
    ensures forall i :: 0 <= i < |src| && src[i] != '/' ==> r[i] == src[i]
    ensures forall i :: 0 <= i < |src| && src[i] == '/' ==> r[i] == '_'
  {
    Flatten(src)
  }

  lemma StorageNameIdempotent(src: string)
    ensures StorageName(StorageName(src)) == StorageName(src)
  {
    FlattenIdempotent(src);
  }

  /** `storageDir(src)`: SKILLA_PATH, with "~/" expanded against the home
      directory, or `$HOME/.skilla` when the variable is empty; then the flat
      storage name below it. A failing home-directory lookup is returned. */
  function StorageDir(src: string, env: Env): (r: Result<string, string>)
    ensures env.skillaPath == "" ==>
              r == (if env.home.Err? then Err(env.home.error)
                    else Ok(env.join(env.join(env.home.value, ".skilla"), StorageName(src))))
    ensures env.skillaPath != "" && HasPrefix(env.skillaPath, "~/") ==>
              r == (if env.home.Err? then Err(env.home.error)
                    else Ok(env.join(env.join(env.home.value, env.skillaPath[2..]), StorageName(src))))
    ensures env.skillaPath != "" && !HasPrefix(env.skillaPath, "~/") ==>
              r == Ok(env.join(env.skillaPath, StorageName(src)))
  {
    var base :=
      if env.skillaPath == "" then
        match env.home
        case Err(e) => Err(e)
        case Ok(home) => Ok(env.join(home, ".skilla"))
      else if HasPrefix(env.skillaPath, "~/") then
        match env.home
        case Err(e) => Err(e)
        case Ok(home) => Ok(env.join(home, env.skillaPath[2..]))
      else Ok(env.skillaPath);
    match base
    case Err(e) => Err(e)
    case Ok(b) => Ok(env.join(b, StorageName(src)))
  }

  /** The home directory matters only for the default root and for "~/" roots. */
  lemma StorageDirFailsOnlyWithoutHome(src: string, env: Env)
    ensures StorageDir(src, env).Err? <==>
              env.home.Err? && (env.skillaPath == "" || HasPrefix(env.skillaPath, "~/"))
  {
  }

  /** `Resolve(src)`: a remote source lives in its storage directory and is named
      by its flattened identifier; a local source is its absolute path, named by
      the last path element. */
  function Resolve(src: string, env: Env): (r: Result<Resolved, string>)
    ensures r.Ok? ==> r.value.remote == IsRemote(src)
    ensures IsRemote(src) ==> (r.Ok? <==> StorageDir(src, env).Ok?)
    ensures IsRemote(src) && r.Ok? ==>
              r.value.localDir == StorageDir(src, env).value && r.value.name == StorageName(src)
    ensures !IsRemote(src) ==> (r.Ok? <==> env.abs(src).Ok?)
    ensures !IsRemote(src) && r.Ok? ==>
              r.value.localDir == env.abs(src).value && r.value.name == env.base(r.value.localDir)
  {
    if IsRemote(src) then
      match StorageDir(src, env)
      case Err(e) => Err(e)
      case Ok(dir) => Ok(Resolved(dir, true, StorageName(src)))
    else
      match env.abs(src)
      case Err(e) => Err(e)
      case Ok(abs) => Ok(Resolved(abs, false, env.base(abs)))
  }

  /** A remote source's base name is the skill name of its root skill, so the
      root skill is linked under the flattened identifier itself. */
  lemma RemoteNameIsRootSkillName(src: string, env: Env)
    requires IsRemote(src) && Resolve(src, env).Ok?
    ensures Resolve(src, env).value.name == Namer.SkillName(src, "")
    ensures '/' !in Resolve(src, env).value.name
  {
  }
}
