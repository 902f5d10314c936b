/** Source resolution of package internal/source (internal/source/resolver.go).
    The package repeats the root package's resolver under exported names; each
    function here follows its own copy of the code and is proved to agree with
    the root package's version. */
module SourceResolver {
  import opened Wrappers
  import opened Strings
  import opened Platform
  import Resolver

  /** The package's own copy of the host allow-list. */
  const KnownHosts: seq<string> := ["github.com/", "gitlab.com/", "bitbucket.org/", "codeberg.org/"]

  function IsRemote(src: string): (r: bool)
    ensures r <==> exists i :: 0 <= i < |KnownHosts| && HasPrefix(src, KnownHosts[i])
    ensures r == Resolver.IsRemote(src)
  {
    HasAnyPrefix(KnownHosts, src)
  }

  function ToHTTPS(src: string): (url: string)
    ensures |url| == |src| + 12
    ensures HasPrefix(url, "https://") && url[8..|url| - 4] == src && url[|url| - 4..] == ".git"
    ensures url == Resolver.ToHTTPS(src)
  {
    "https://" + src + ".git"
  }

  function StorageName(src: string): (r: string)
    ensures |r| == |src| && '/' !in r
    ensures forall i :: 0 <= i < |src| && src[i] == '/' ==> r[i] == '_'
    ensures r == Resolver.StorageName(src)
  {
    Flatten(src)
  }

  function StorageDir(src: string, env: Env): (r: Result<string, string>)
    ensures r.Err? <==> env.home.Err? && (env.skillaPath == "" || HasPrefix(env.skillaPath, "~/"))
    ensures r == Resolver.StorageDir(src, env)
  {
    var base :=
      if env.skillaPath == "" then
        match env.home
        case Err(e) => Err(e)
        case Ok(home) => Ok(env.join(home, ".skilla"))
      else if HasPrefix(env.skillaPath, "~/") then
        match env.home
        case Err(e) => Err(e)
        case Ok(home) => Ok(env.join(home, env.skillaPath[2..]))
      else Ok(env.skillaPath);
    match base
    case Err(e) => Err(e)
    case Ok(b) => Ok(env.join(b, StorageName(src)))
  }

  function Resolve(src: string, env: Env): (r: Result<Resolved, string>)
    ensures r.Ok? ==> r.value.remote == IsRemote(src)
    ensures IsRemote(src) && r.Ok? ==> r.value.name == StorageName(src) && '/' !in r.value.name
    ensures !IsRemote(src) ==> (r.Ok? <==> env.abs(src).Ok?)
    ensures !IsRemote(src) && r.Ok? ==>
              r.value.localDir == env.abs(src).value && r.value.name == env.base(r.value.localDir)
    ensures r == Resolver.Resolve(src, env)
  {
    if IsRemote(src) then
      match StorageDir(src, env)
      case Err(e) => Err(e)
      case Ok(dir) => Ok(Resolved(dir, true, StorageName(src)))
    else
      match env.abs(src)
      case Err(e) => Err(e)
      case Ok(abs) => Ok(Resolved(abs, false, env.base(abs)))
  }
}
