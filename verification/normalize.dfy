/** Source-identifier normalisation and the split of a remote identifier into
    repository and subpath (`NormalizeSource`, `ParseRemote`). Their Go bodies
    are not part of this model: the definitions here are reconstructed from the
    cases of resolver_test.go, working on "/"-separated segments the way
    `strings.Split` and `strings.Join` do, and are proved to reproduce every
    case listed there. */
module Normalize {
  import opened Strings

  /** `strings.Split(s, "/")`: the segments between separators, at least one. */
  function Split(s: string): (parts: seq<string>)
    ensures |parts| >= 1
    ensures forall k :: 0 <= k < |parts| ==> '/' !in parts[k]
    decreases |s|
  {
    if s == [] then [""]
    else
      var rest := Split(s[1..]);
      if s[0] == '/' then [""] + rest
      else [[s[0]] + rest[0]] + rest[1..]
  }

  /** `strings.Join(parts, "/")`. */
  function Join(parts: seq<string>): string
    decreases |parts|
  {
    if parts == [] then ""
    else if |parts| == 1 then parts[0]
    else parts[0] + "/" + Join(parts[1..])
  }

  /** Splitting loses nothing: joining the segments gives the string back. */
  lemma {:induction false} JoinSplit(s: string)
    ensures Join(Split(s)) == s
    decreases |s|
  {
    if s != [] {
      var rest := Split(s[1..]);
      JoinSplit(s[1..]);
      if s[0] == '/' {
        assert ([""] + rest)[1..] == rest;
      } else if |rest| > 1 {
        var parts := [[s[0]] + rest[0]] + rest[1..];
        assert parts[1..] == rest[1..];
        assert Join(rest) == rest[0] + "/" + Join(rest[1..]);
      }
      assert s == [s[0]] + s[1..];
    }
  }

  /** A segment followed by a separator splits off as the first segment. */
  lemma {:induction false} SplitSegment(a: string, t: string)
    requires '/' !in a
    ensures Split(a + "/" + t) == [a] + Split(t)
    decreases |a|
  {
    if a == [] {
      assert a + "/" + t == ['/'] + t;
      assert (['/'] + t)[1..] == t;
    } else {
      assert (a + "/" + t)[1..] == a[1..] + "/" + t;
      assert (a + "/" + t)[0] == a[0];
      SplitSegment(a[1..], t);
      assert [a[0]] + a[1..] == a;
    }
  }

  /** A string without separators is one segment. */
  lemma {:induction false} SplitWhole(a: string)
    requires '/' !in a
    ensures Split(a) == [a]
    decreases |a|
  {
    if a != [] {
      SplitWhole(a[1..]);
      assert [a[0]] + a[1..] == a;
    }
  }

  /** Joining separator-free segments and splitting again gives them back. */
  lemma {:induction false} SplitJoin(parts: seq<string>)
    requires |parts| >= 1
    requires forall k :: 0 <= k < |parts| ==> '/' !in parts[k]
    ensures Split(Join(parts)) == parts
    decreases |parts|
  {
    if |parts| == 1 {
      SplitWhole(parts[0]);
    } else {
      SplitJoin(parts[1..]);
      SplitSegment(parts[0], Join(parts[1..]));
      assert parts == [parts[0]] + parts[1..];
    }
  }

  lemma {:induction false} JoinConcat(a: seq<string>, b: seq<string>)
    requires a != [] && b != []
    ensures Join(a + b) == Join(a) + "/" + Join(b)
    decreases |a|
  {
    if |a| == 1 {
      assert (a + b)[1..] == b;
    } else {
      assert (a + b)[1..] == a[1..] + b;
      JoinConcat(a[1..], b);
    }
  }

  // ---------------------------------------------------------------------------
  // ParseRemote

  /** A remote identifier split into the repository (host/owner/repo) and the
      path of the skills inside it. */
  datatype Remote = Remote(repo: string, subpath: string)

  /** `ParseRemote(src)`: the first three segments name the repository, the
      rest (if any) is the subpath. */
  function ParseRemote(src: string): Remote
  {
    var segs := Split(src);
    if |segs| <= 3 then Remote(src, "")
    else Remote(Join(segs[..3]), Join(segs[3..]))
  }

  /** The repository is the first three segments, the subpath all the others. */
  lemma ParseRemoteSegments(src: string)
    ensures |Split(src)| <= 3 ==> ParseRemote(src) == Remote(src, "")
    ensures |Split(src)| > 3 ==>
              && Split(ParseRemote(src).repo) == Split(src)[..3]
              && Split(ParseRemote(src).subpath) == Split(src)[3..]
  {
    var segs := Split(src);
    if |segs| > 3 {
      SplitJoin(segs[..3]);
      SplitJoin(segs[3..]);
    }
  }

  /** The repository and subpath put back together give the identifier. */
  lemma ParseRemoteRoundTrip(src: string)
    ensures var r := ParseRemote(src);
            src == if |Split(src)| <= 3 then r.repo else r.repo + "/" + r.subpath
  {
    var segs := Split(src);
    JoinSplit(src);
    if |segs| > 3 {
      assert segs == segs[..3] + segs[3..];
      JoinConcat(segs[..3], segs[3..]);
    }
  }

  /** Three separator-free leading segments (host, owner, repo) joined with
      any separator-free subpath segments parse back into the two parts. */
  lemma ParseRemoteOfPrefix(pre: seq<string>, sub: seq<string>)
    requires |pre| == 3
    requires forall k :: 0 <= k < |pre| ==> '/' !in pre[k]
    requires forall k :: 0 <= k < |sub| ==> '/' !in sub[k]
    ensures ParseRemote(Join(pre + sub)) == Remote(Join(pre), Join(sub))
  {
    SeparatorFreeConcat(pre, sub);
    ParseRemoteOfJoined(pre + sub);
    assert (pre + sub)[..3] == pre && (pre + sub)[3..] == sub;
  }

  /** Joined separator-free segments, at least three, parse back into the first
      three and the rest. */
  lemma ParseRemoteOfJoined(parts: seq<string>)
    requires |parts| >= 3
    requires forall k :: 0 <= k < |parts| ==> '/' !in parts[k]
    ensures ParseRemote(Join(parts)) == Remote(Join(parts[..3]), Join(parts[3..]))
  {
    SplitJoin(parts);
    ParseRemoteOfSegments(Join(parts), parts);
    if |parts| == 3 {
      assert parts[..3] == parts;
    }
  }

  /** Separator-free segments stay so when put together. */
  lemma SeparatorFreeConcat(a: seq<string>, b: seq<string>)
    requires forall k :: 0 <= k < |a| ==> '/' !in a[k]
    requires forall k :: 0 <= k < |b| ==> '/' !in b[k]
    ensures forall k :: 0 <= k < |a + b| ==> '/' !in (a + b)[k]
  {
    forall k | 0 <= k < |a + b| ensures '/' !in (a + b)[k] {
      if k >= |a| {
        assert (a + b)[k] == b[k - |a|];
      }
    }
  }

  /** `ParseRemote` in terms of the segments alone. */
  lemma ParseRemoteOfSegments(src: string, parts: seq<string>)
    requires Split(src) == parts
    ensures |parts| <= 3 ==> ParseRemote(src) == Remote(src, "")
    ensures |parts| > 3 ==> ParseRemote(src) == Remote(Join(parts[..3]), Join(parts[3..]))
  {
  }

  /** The suffix of one or two segments. */
  lemma SuffixSmall(a: string, b: string)
    ensures Suffix([a]) == "/" + a
    ensures Suffix([a, b]) == "/" + a + "/" + b
  {
    JoinSmall(a, b, "");
  }

  lemma JoinSmall(a: string, b: string, c: string)
    ensures Join([a]) == a
    ensures Join([a, b]) == a + "/" + b
    ensures Join([a, b, c]) == a + "/" + b + "/" + c
  {
    assert [a, b][1..] == [b];
    assert [a, b, c][1..] == [b, c];
    assert Join([b, c]) == b + "/" + c;
    assert Join([a, b, c]) == a + "/" + Join([b, c]);
    assert a + "/" + (b + "/" + c) == a + "/" + b + "/" + c;
  }

  /** Exactly three separator-free names: the whole identifier is the repository. */
  lemma ParseRemoteRepoOnly(host: string, owner: string, repo: string, src: string)
    requires '/' !in host && '/' !in owner && '/' !in repo
    requires src == host + "/" + owner + "/" + repo
    ensures ParseRemote(src) == Remote(src, "")
  {
    SplitWhole(repo);
    SplitSegment(owner, repo);
    assert src == host + "/" + (owner + "/" + repo);
    SplitSegment(host, owner + "/" + repo);
  }

  /** resolver_test.go:40. */
  lemma ParseRemoteBareRepo(src: string)
    requires src == "github.com/hayeah/skills"
    ensures ParseRemote(src) == Remote("github.com/hayeah/skills", "")
  {
    ParseRemoteRepoOnly("github.com", "hayeah", "skills", src);
  }

  /** resolver_test.go:41-42 and 44: the segments after the third are the subpath. */
  lemma ParseRemoteWithSubpath(host: string, owner: string, repo: string, sub: seq<string>, src: string)
    requires '/' !in host && '/' !in owner && '/' !in repo && sub != []
    requires forall k :: 0 <= k < |sub| ==> '/' !in sub[k]
    requires src == host + "/" + owner + "/" + repo + "/" + Join(sub)
    ensures ParseRemote(src) == Remote(host + "/" + owner + "/" + repo, Join(sub))
  {
    JoinSmall(host, owner, repo);
    ParseRemoteOfPrefix([host, owner, repo], sub);
    JoinConcat([host, owner, repo], sub);
  }

  /** `ParseRemoteWithSubpath` with the expected parts named, for the cases below. */
  lemma SubpathCase(host: string, owner: string, repo: string, sub: seq<string>,
                    src: string, wantRepo: string, wantSub: string)
    requires '/' !in host && '/' !in owner && '/' !in repo && sub != [] && SeparatorFree(sub)
    requires src == host + "/" + owner + "/" + repo + Suffix(sub)
    requires wantRepo == host + "/" + owner + "/" + repo && wantSub == Join(sub)
    ensures ParseRemote(src) == Remote(wantRepo, wantSub)
  {
    ParseRemoteWithSubpath(host, owner, repo, sub, src);
  }

  /** The identifier of resolver_test.go:41 and its expected parts, in segments. */
  lemma SpellFoo(s: string, repo: string, sub: string)
    requires s == "github.com/hayeah/skills/foo" && repo == "github.com/hayeah/skills" && sub == "foo"
    ensures s == "github.com" + "/" + "hayeah" + "/" + "skills" + Suffix(["foo"])
    ensures repo == "github.com" + "/" + "hayeah" + "/" + "skills" && sub == Join(["foo"])
  {
    assert "github.com/hayeah/" == "github.com" + "/" + "hayeah" + "/" by {
      assert "github.com" + "/" == "github.com/";
      assert "github.com/" + "hayeah" == "github.com/hayeah";
      assert "github.com/hayeah" + "/" == "github.com/hayeah/";
    }
    assert "github.com/hayeah/skills" == "github.com" + "/" + "hayeah" + "/" + "skills" by {
      assert "github.com/hayeah/" + "skills" == "github.com/hayeah/skills";
    }
    assert Suffix(["foo"]) == "/foo" by {
      SuffixSmall("foo", "");
      assert "/" + "foo" == "/foo";
    }
    assert "github.com/hayeah/skills" + "/foo" == "github.com/hayeah/skills/foo";
    assert Join(["foo"]) == "foo" by {
      JoinSmall("foo", "", "");
    }
  }

  /** resolver_test.go:41. */
  lemma ParseRemoteFoo(src: string)
    requires src == "github.com/hayeah/skills/foo"
    ensures ParseRemote(src) == Remote("github.com/hayeah/skills", "foo")
  {
    SpellFoo(src, "github.com/hayeah/skills", "foo");
    SubpathCase("github.com", "hayeah", "skills", ["foo"], src, "github.com/hayeah/skills", "foo");
  }

  /** The identifier of resolver_test.go:42 and its expected parts, in segments. */
  lemma SpellFooBar(s: string, repo: string, sub: string)
    requires s == "github.com/hayeah/skills/foo/bar" && repo == "github.com/hayeah/skills" && sub == "foo/bar"
    ensures s == "github.com" + "/" + "hayeah" + "/" + "skills" + Suffix(["foo", "bar"])
    ensures repo == "github.com" + "/" + "hayeah" + "/" + "skills" && sub == Join(["foo", "bar"])
  {
    assert "github.com/hayeah/" == "github.com" + "/" + "hayeah" + "/" by {
      assert "github.com" + "/" == "github.com/";
      assert "github.com/" + "hayeah" == "github.com/hayeah";
      assert "github.com/hayeah" + "/" == "github.com/hayeah/";
    }
    assert "github.com/hayeah/skills" == "github.com" + "/" + "hayeah" + "/" + "skills" by {
      assert "github.com/hayeah/" + "skills" == "github.com/hayeah/skills";
    }
    assert Suffix(["foo", "bar"]) == "/foo/bar" by {
      SuffixSmall("foo", "bar");
      assert "/" + "foo" == "/foo";
      assert "/foo" + "/" == "/foo/";
      assert "/foo/" + "bar" == "/foo/bar";
    }
    assert "github.com/hayeah/skills" + "/foo/bar" == "github.com/hayeah/skills/foo/bar";
    assert Join(["foo", "bar"]) == "foo/bar" by {
      JoinSmall("foo", "bar", "");
      assert "foo" + "/" == "foo/";
      assert "foo/" + "bar" == "foo/bar";
    }
  }

  /** resolver_test.go:42. */
  lemma ParseRemoteFooBar(src: string)
    requires src == "github.com/hayeah/skills/foo/bar"
    ensures ParseRemote(src) == Remote("github.com/hayeah/skills", "foo/bar")
  {
    SpellFooBar(src, "github.com/hayeah/skills", "foo/bar");
    SubpathCase("github.com", "hayeah", "skills", ["foo", "bar"], src, "github.com/hayeah/skills", "foo/bar");
  }

  /** resolver_test.go:43. */
  lemma ParseRemoteGitlab(src: string)
    requires src == "gitlab.com/org/repo"
    ensures ParseRemote(src) == Remote("gitlab.com/org/repo", "")
  {
    ParseRemoteRepoOnly("gitlab.com", "org", "repo", src);
  }

  /** The identifier of resolver_test.go:44 and its expected parts, in segments. */
  lemma SpellDeepPath(s: string, repo: string, sub: string)
    requires s == "gitlab.com/org/repo/deep/path" && repo == "gitlab.com/org/repo" && sub == "deep/path"
    ensures s == "gitlab.com" + "/" + "org" + "/" + "repo" + Suffix(["deep", "path"])
    ensures repo == "gitlab.com" + "/" + "org" + "/" + "repo" && sub == Join(["deep", "path"])
  {
    assert "gitlab.com/org/" == "gitlab.com" + "/" + "org" + "/" by {
      assert "gitlab.com" + "/" == "gitlab.com/";
      assert "gitlab.com/" + "org" == "gitlab.com/org";
      assert "gitlab.com/org" + "/" == "gitlab.com/org/";
    }
    assert "gitlab.com/org/repo" == "gitlab.com" + "/" + "org" + "/" + "repo" by {
      assert "gitlab.com/org/" + "repo" == "gitlab.com/org/repo";
    }
    assert Suffix(["deep", "path"]) == "/deep/path" by {
      SuffixSmall("deep", "path");
      assert "/" + "deep" == "/deep";
      assert "/deep" + "/" == "/deep/";
      assert "/deep/" + "path" == "/deep/path";
    }
    assert "gitlab.com/org/repo" + "/deep/path" == "gitlab.com/org/repo/deep/path";
    assert Join(["deep", "path"]) == "deep/path" by {
      JoinSmall("deep", "path", "");
      assert "deep" + "/" == "deep/";
      assert "deep/" + "path" == "deep/path";
    }
  }

  /** resolver_test.go:44. */
  lemma ParseRemoteDeepPath(src: string)
    requires src == "gitlab.com/org/repo/deep/path"
    ensures ParseRemote(src) == Remote("gitlab.com/org/repo", "deep/path")
  {
    SpellDeepPath(src, "gitlab.com/org/repo", "deep/path");
    SubpathCase("gitlab.com", "org", "repo", ["deep", "path"], src, "gitlab.com/org/repo", "deep/path");
  }

  // ---------------------------------------------------------------------------
  // NormalizeSource

  /** `NormalizeSource(src)`: a repository URL as a browser shows it — with an
      "https://" or "http://" scheme and possibly "/tree/<branch>" after
      host/owner/repo — becomes the bare identifier host/owner/repo[/path];
      anything without a scheme is left as it is. */
  function NormalizeSource(src: string): string
  {
    if HasPrefix(src, "https://") then DropTree(src[8..])
    else if HasPrefix(src, "http://") then DropTree(src[7..])
    else src
  }

  /** Removes the "tree" and branch segments that follow host/owner/repo. */
  function DropTree(rest: string): string
  {
    var segs := Split(rest);
    if |segs| >= 5 && segs[3] == "tree" then Join(segs[..3] + segs[5..]) else rest
  }

  /** "/" followed by the joined segments, or nothing for no segments. */
  function Suffix(path: seq<string>): string {
    if path == [] then "" else "/" + Join(path)
  }

  predicate SeparatorFree(parts: seq<string>) {
    forall k :: 0 <= k < |parts| ==> '/' !in parts[k]
  }

  /** A string ending in separator-free segments splits into them. */
  lemma {:induction false} SplitWithSuffix(a: string, path: seq<string>)
    requires '/' !in a && SeparatorFree(path)
    ensures Split(a + Suffix(path)) == [a] + path
  {
    if path == [] {
      assert a + Suffix(path) == a;
      SplitWhole(a);
    } else {
      SplitJoin(path);
      SplitSegment(a, Join(path));
      assert a + Suffix(path) == a + "/" + Join(path);
    }
  }

  lemma JoinWithSuffix(parts: seq<string>, path: seq<string>)
    requires parts != []
    ensures Join(parts + path) == Join(parts) + Suffix(path)
  {
    if path == [] {
      assert parts + path == parts;
    } else {
      JoinConcat(parts, path);
    }
  }

  /** Without a scheme, nothing changes: bare identifiers and local paths. */
  lemma NormalizeKeepsUnschemed(src: string)
    requires !HasPrefix(src, "https://") && !HasPrefix(src, "http://")
    ensures NormalizeSource(src) == src
  {
  }

  /** The scheme is dropped and the rest examined. */
  lemma NormalizeScheme(scheme: string, rest: string, src: string)
    requires scheme == "https://" || scheme == "http://"
    requires src == scheme + rest
    ensures NormalizeSource(src) == DropTree(rest)
  {
    assert src[..|scheme|] == scheme && src[|scheme|..] == rest;
    if scheme == "http://" && |src| >= 8 {
      assert src[4] == ':';
      assert src[..8] != "https://" by {
        assert "https://"[4] == 's';
      }
    }
  }

  /** "tree" and the branch after host/owner/repo are dropped. */
  lemma DropTreeSegments(host: string, owner: string, repo: string, branch: string, path: seq<string>)
    requires '/' !in host && '/' !in owner && '/' !in repo && '/' !in branch && SeparatorFree(path)
    ensures DropTree(host + "/" + owner + "/" + repo + "/" + ("tree" + "/" + (branch + Suffix(path))))
            == host + "/" + owner + "/" + repo + Suffix(path)
  {
    var rest := host + "/" + owner + "/" + repo + "/" + ("tree" + "/" + (branch + Suffix(path)));
    var segs := [host, owner, repo] + (["tree", branch] + path);
    SplitTreeRest(host, owner, repo, branch, path);
    assert segs[3] == "tree" && |segs| >= 5;
    assert segs[..3] + segs[5..] == [host, owner, repo] + path;
    DropTreeOfSegments(rest, segs);
    JoinRepoSuffix(host, owner, repo, path);
  }

  /** `DropTree` in terms of the segments alone. */
  lemma DropTreeOfSegments(rest: string, segs: seq<string>)
    requires Split(rest) == segs
    ensures |segs| >= 5 && segs[3] == "tree" ==> DropTree(rest) == Join(segs[..3] + segs[5..])
    ensures !(|segs| >= 5 && segs[3] == "tree") ==> DropTree(rest) == rest
  {
  }

  /** The segments of a repository path followed by tree/branch and more segments. */
  lemma SplitTreeRest(host: string, owner: string, repo: string, branch: string, path: seq<string>)
    requires '/' !in host && '/' !in owner && '/' !in repo && '/' !in branch && SeparatorFree(path)
    ensures Split(host + "/" + owner + "/" + repo + "/" + ("tree" + "/" + (branch + Suffix(path))))
            == [host, owner, repo] + (["tree", branch] + path)
  {
    var m := branch + Suffix(path);
    var t := "tree" + "/" + m;
    var r := repo + "/" + t;
    var u := owner + "/" + r;
    assert Split(m) == [branch] + path by {
      SplitWithSuffix(branch, path);
    }
    assert Split(t) == ["tree"] + Split(m) by {
      SplitSegment("tree", m);
    }
    assert Split(r) == [repo] + Split(t) by {
      SplitSegment(repo, t);
    }
    assert Split(u) == [owner] + Split(r) by {
      SplitSegment(owner, r);
    }
    assert Split(host + "/" + u) == [host] + Split(u) by {
      SplitSegment(host, u);
    }
    RegroupRepoSeparated(host, owner, repo, t);
    assert [host] + ([owner] + ([repo] + (["tree"] + ([branch] + path))))
           == [host, owner, repo] + (["tree", branch] + path);
  }

  /** host/owner/repo/`x`, grouped from the right. */
  lemma RegroupRepoSeparated(host: string, owner: string, repo: string, x: string)
    ensures host + "/" + owner + "/" + repo + "/" + x == host + "/" + (owner + "/" + (repo + "/" + x))
  {
  }

  /** Joining host, owner, repo and more segments. */
  lemma JoinRepoSuffix(host: string, owner: string, repo: string, path: seq<string>)
    ensures Join([host, owner, repo] + path) == host + "/" + owner + "/" + repo + Suffix(path)
  {
    JoinWithSuffix([host, owner, repo], path);
    JoinSmall(host, owner, repo);
  }

  /** host/owner/repo followed by `x`, grouped from the right. */
  lemma RegroupRepo(host: string, owner: string, repo: string, x: string)
    ensures host + "/" + owner + "/" + repo + x == host + "/" + (owner + "/" + (repo + x))
  {
  }

  /** The segments of host/owner/repo followed by separator-free segments. */
  lemma SplitRepoSuffix(host: string, owner: string, repo: string, path: seq<string>)
    requires '/' !in host && '/' !in owner && '/' !in repo && SeparatorFree(path)
    ensures Split(host + "/" + owner + "/" + repo + Suffix(path)) == [host, owner, repo] + path
  {
    var t := repo + Suffix(path);
    var u := owner + "/" + t;
    assert Split(t) == [repo] + path by {
      SplitWithSuffix(repo, path);
    }
    assert Split(u) == [owner] + Split(t) by {
      SplitSegment(owner, t);
    }
    assert Split(host + "/" + u) == [host] + Split(u) by {
      SplitSegment(host, u);
    }
    RegroupRepo(host, owner, repo, Suffix(path));
    assert [host] + ([owner] + ([repo] + path)) == [host, owner, repo] + path;
  }

  /** Without "tree" after host/owner/repo, nothing is dropped. */
  lemma DropTreeKeeps(host: string, owner: string, repo: string, path: seq<string>)
    requires '/' !in host && '/' !in owner && '/' !in repo && SeparatorFree(path)
    requires path == [] || path[0] != "tree"
    ensures DropTree(host + "/" + owner + "/" + repo + Suffix(path)) == host + "/" + owner + "/" + repo + Suffix(path)
  {
    SplitRepoSuffix(host, owner, repo, path);
    var segs := [host, owner, repo] + path;
    assert |segs| >= 5 ==> segs[3] == path[0];
  }

  /** Regrouping of a branch URL: the scheme, then the rest by segments. */
  lemma TreeUrlRegroup(scheme: string, head: string, branch: string, suffix: string, src: string)
    requires src == scheme + head + "/tree/" + branch + suffix
    ensures src == scheme + (head + "/" + ("tree" + "/" + (branch + suffix)))
  {
    assert "/tree/" == "/" + "tree" + "/";
  }

  /** A browser URL of a branch, optionally of a directory in it, becomes
      host/owner/repo followed by that directory. */
  lemma NormalizeTreeUrl(scheme: string, host: string, owner: string, repo: string, branch: string,
                         path: seq<string>, src: string)
    requires scheme == "https://" || scheme == "http://"
    requires '/' !in host && '/' !in owner && '/' !in repo && '/' !in branch && SeparatorFree(path)
    requires src == scheme + host + "/" + owner + "/" + repo + "/tree/" + branch + Suffix(path)
    ensures NormalizeSource(src) == host + "/" + owner + "/" + repo + Suffix(path)
  {
    var head := host + "/" + owner + "/" + repo;
    TreeUrlRegroup(scheme, head, branch, Suffix(path), src);
    NormalizeScheme(scheme, head + "/" + ("tree" + "/" + (branch + Suffix(path))), src);
    DropTreeSegments(host, owner, repo, branch, path);
  }

  /** Regrouping of a URL without "tree": the scheme, then the rest. */
  lemma PlainUrlRegroup(scheme: string, host: string, owner: string, repo: string, suffix: string, src: string)
    requires src == scheme + host + "/" + owner + "/" + repo + suffix
    ensures src == scheme + (host + "/" + owner + "/" + repo + suffix)
  {
  }

  /** A browser URL without "tree" after host/owner/repo only loses its scheme. */
  lemma NormalizePlainUrl(scheme: string, host: string, owner: string, repo: string, path: seq<string>, src: string)
    requires scheme == "https://" || scheme == "http://"
    requires '/' !in host && '/' !in owner && '/' !in repo && SeparatorFree(path)
    requires path == [] || path[0] != "tree"
    requires src == scheme + host + "/" + owner + "/" + repo + Suffix(path)
    ensures NormalizeSource(src) == host + "/" + owner + "/" + repo + Suffix(path)
  {
    PlainUrlRegroup(scheme, host, owner, repo, Suffix(path), src);
    NormalizeScheme(scheme, host + "/" + owner + "/" + repo + Suffix(path), src);
    DropTreeKeeps(host, owner, repo, path);
  }

  /** Normalising a directory URL and parsing the result recovers the
      repository and the directory inside it. */
  lemma NormalizeThenParse(scheme: string, host: string, owner: string, repo: string, branch: string,
                           path: seq<string>, src: string)
    requires scheme == "https://" || scheme == "http://"
    requires '/' !in host && '/' !in owner && '/' !in repo && '/' !in branch && SeparatorFree(path)
    requires path != []
    requires src == scheme + host + "/" + owner + "/" + repo + "/tree/" + branch + Suffix(path)
    ensures ParseRemote(NormalizeSource(src)) == Remote(host + "/" + owner + "/" + repo, Join(path))
  {
    NormalizeTreeUrl(scheme, host, owner, repo, branch, path, src);
    ParseRemoteWithSubpath(host, owner, repo, path, NormalizeSource(src));
  }

  /** `NormalizeTreeUrl` with the expected result named, for the cases below. */
  lemma TreeUrlCase(scheme: string, host: string, owner: string, repo: string, branch: string,
                    path: seq<string>, src: string, want: string)
    requires scheme == "https://" || scheme == "http://"
    requires '/' !in host && '/' !in owner && '/' !in repo && '/' !in branch && SeparatorFree(path)
    requires src == scheme + host + "/" + owner + "/" + repo + "/tree/" + branch + Suffix(path)
    requires want == host + "/" + owner + "/" + repo + Suffix(path)
    ensures NormalizeSource(src) == want
  {
    NormalizeTreeUrl(scheme, host, owner, repo, branch, path, src);
  }

  /** `NormalizePlainUrl` with the expected result named, for the case below. */
  lemma PlainUrlCase(scheme: string, host: string, owner: string, repo: string,
                     path: seq<string>, src: string, want: string)
    requires scheme == "https://" || scheme == "http://"
    requires '/' !in host && '/' !in owner && '/' !in repo && SeparatorFree(path)
    requires path == [] || path[0] != "tree"
    requires src == scheme + host + "/" + owner + "/" + repo + Suffix(path)
    requires want == host + "/" + owner + "/" + repo + Suffix(path)
    ensures NormalizeSource(src) == want
  {
    NormalizePlainUrl(scheme, host, owner, repo, path, src);
  }

  /** The URL of resolver_test.go:11, in parts. */
  lemma SpellTreeSkillsUrl(s: string)
    requires s == "https://github.com/hayeah/dotfiles/tree/master/skills"
    ensures s == "https://" + "github.com" + "/" + "hayeah" + "/" + "dotfiles" + "/tree/" + "master" + Suffix(["skills"])
  {
    assert "https://github.com/hayeah" == "https://" + "github.com" + "/" + "hayeah" by {
      assert "https://" + "github.com" == "https://github.com";
      assert "https://github.com" + "/" == "https://github.com/";
      assert "https://github.com/" + "hayeah" == "https://github.com/hayeah";
    }
    assert "https://github.com/hayeah/dotfiles/tree/" == "https://" + "github.com" + "/" + "hayeah" + "/" + "dotfiles" + "/tree/" by {
      assert "https://github.com/hayeah" + "/" == "https://github.com/hayeah/";
      assert "https://github.com/hayeah/" + "dotfiles" == "https://github.com/hayeah/dotfiles";
      assert "https://github.com/hayeah/dotfiles" + "/tree/" == "https://github.com/hayeah/dotfiles/tree/";
    }
    assert "https://github.com/hayeah/dotfiles/tree/master" == "https://" + "github.com" + "/" + "hayeah" + "/" + "dotfiles" + "/tree/" + "master" by {
      assert "https://github.com/hayeah/dotfiles/tree/" + "master" == "https://github.com/hayeah/dotfiles/tree/master";
    }
    assert Suffix(["skills"]) == "/skills" by {
      SuffixSmall("skills", "");
      assert "/" + "skills" == "/skills";
    }
    assert "https://github.com/hayeah/dotfiles/tree/master" + "/skills" == "https://github.com/hayeah/dotfiles/tree/master/skills";
  }

  /** The expected result of resolver_test.go:11, in parts. */
  lemma SpellTreeSkillsBare(s: string)
    requires s == "github.com/hayeah/dotfiles/skills"
    ensures s == "github.com" + "/" + "hayeah" + "/" + "dotfiles" + Suffix(["skills"])
  {
    assert "github.com/hayeah/" == "github.com" + "/" + "hayeah" + "/" by {
      assert "github.com" + "/" == "github.com/";
      assert "github.com/" + "hayeah" == "github.com/hayeah";
      assert "github.com/hayeah" + "/" == "github.com/hayeah/";
    }
    assert "github.com/hayeah/dotfiles" == "github.com" + "/" + "hayeah" + "/" + "dotfiles" by {
      assert "github.com/hayeah/" + "dotfiles" == "github.com/hayeah/dotfiles";
    }
    assert Suffix(["skills"]) == "/skills" by {
      SuffixSmall("skills", "");
      assert "/" + "skills" == "/skills";
    }
    assert "github.com/hayeah/dotfiles" + "/skills" == "github.com/hayeah/dotfiles/skills";
  }

  /** resolver_test.go:11. */
  lemma NormalizeTreeSkills(src: string)
    requires src == "https://github.com/hayeah/dotfiles/tree/master/skills"
    ensures NormalizeSource(src) == "github.com/hayeah/dotfiles/skills"
  {
    var want := "github.com/hayeah/dotfiles/skills";
    SpellTreeSkillsUrl(src);
    SpellTreeSkillsBare(want);
    TreeUrlCase("https://", "github.com", "hayeah", "dotfiles", "master", ["skills"], src, want);
  }

  /** The URL of resolver_test.go:12, in parts. */
  lemma SpellTreeFooBarUrl(s: string)
    requires s == "https://github.com/hayeah/dotfiles/tree/main/foo/bar"
    ensures s == "https://" + "github.com" + "/" + "hayeah" + "/" + "dotfiles" + "/tree/" + "main" + Suffix(["foo", "bar"])
  {
    assert "https://github.com/hayeah" == "https://" + "github.com" + "/" + "hayeah" by {
      assert "https://" + "github.com" == "https://github.com";
      assert "https://github.com" + "/" == "https://github.com/";
      assert "https://github.com/" + "hayeah" == "https://github.com/hayeah";
    }
    assert "https://github.com/hayeah/dotfiles/tree/" == "https://" + "github.com" + "/" + "hayeah" + "/" + "dotfiles" + "/tree/" by {
      assert "https://github.com/hayeah" + "/" == "https://github.com/hayeah/";
      assert "https://github.com/hayeah/" + "dotfiles" == "https://github.com/hayeah/dotfiles";
      assert "https://github.com/hayeah/dotfiles" + "/tree/" == "https://github.com/hayeah/dotfiles/tree/";
    }
    assert "https://github.com/hayeah/dotfiles/tree/main" == "https://" + "github.com" + "/" + "hayeah" + "/" + "dotfiles" + "/tree/" + "main" by {
      assert "https://github.com/hayeah/dotfiles/tree/" + "main" == "https://github.com/hayeah/dotfiles/tree/main";
    }
    assert Suffix(["foo", "bar"]) == "/foo/bar" by {
      SuffixSmall("foo", "bar");
      assert "/" + "foo" == "/foo";
      assert "/foo" + "/" == "/foo/";
      assert "/foo/" + "bar" == "/foo/bar";
    }
    assert "https://github.com/hayeah/dotfiles/tree/main" + "/foo/bar" == "https://github.com/hayeah/dotfiles/tree/main/foo/bar";
  }


  /** The expected result of resolver_test.go:12, in parts. */
  lemma SpellTreeFooBarBare(s: string)
    requires s == "github.com/hayeah/dotfiles/foo/bar"
    ensures s == "github.com" + "/" + "hayeah" + "/" + "dotfiles" + Suffix(["foo", "bar"])
  {
    assert "github.com/hayeah/" == "github.com" + "/" + "hayeah" + "/" by {
      assert "github.com" + "/" == "github.com/";
      assert "github.com/" + "hayeah" == "github.com/hayeah";
      assert "github.com/hayeah" + "/" == "github.com/hayeah/";
    }
    assert "github.com/hayeah/dotfiles" == "github.com" + "/" + "hayeah" + "/" + "dotfiles" by {
      assert "github.com/hayeah/" + "dotfiles" == "github.com/hayeah/dotfiles";
    }
    assert Suffix(["foo", "bar"]) == "/foo/bar" by {
      SuffixSmall("foo", "bar");
      assert "/" + "foo" == "/foo";
      assert "/foo" + "/" == "/foo/";
      assert "/foo/" + "bar" == "/foo/bar";
    }
    assert "github.com/hayeah/dotfiles" + "/foo/bar" == "github.com/hayeah/dotfiles/foo/bar";
  }

  /** resolver_test.go:12. */
  lemma NormalizeTreeFooBar(src: string)
    requires src == "https://github.com/hayeah/dotfiles/tree/main/foo/bar"
    ensures NormalizeSource(src) == "github.com/hayeah/dotfiles/foo/bar"
  {
    var want := "github.com/hayeah/dotfiles/foo/bar";
    SpellTreeFooBarUrl(src);
    SpellTreeFooBarBare(want);
    TreeUrlCase("https://", "github.com", "hayeah", "dotfiles", "main", ["foo", "bar"], src, want);
  }

  /** The URL of resolver_test.go:14, in parts. */
  lemma SpellTreeBranchOnlyUrl(s: string)
    requires s == "https://github.com/hayeah/skills/tree/master"
    ensures s == "https://" + "github.com" + "/" + "hayeah" + "/" + "skills" + "/tree/" + "master" + Suffix([])
  {
    assert "https://github.com/hayeah" == "https://" + "github.com" + "/" + "hayeah" by {
      assert "https://" + "github.com" == "https://github.com";
      assert "https://github.com" + "/" == "https://github.com/";
      assert "https://github.com/" + "hayeah" == "https://github.com/hayeah";
    }
    assert "https://github.com/hayeah/skills/tree/" == "https://" + "github.com" + "/" + "hayeah" + "/" + "skills" + "/tree/" by {
      assert "https://github.com/hayeah" + "/" == "https://github.com/hayeah/";
      assert "https://github.com/hayeah/" + "skills" == "https://github.com/hayeah/skills";
      assert "https://github.com/hayeah/skills" + "/tree/" == "https://github.com/hayeah/skills/tree/";
    }
    assert "https://github.com/hayeah/skills/tree/master" == "https://" + "github.com" + "/" + "hayeah" + "/" + "skills" + "/tree/" + "master" by {
      assert "https://github.com/hayeah/skills/tree/" + "master" == "https://github.com/hayeah/skills/tree/master";
    }
    assert Suffix([]) == "";
    assert "https://github.com/hayeah/skills/tree/master" + "" == "https://github.com/hayeah/skills/tree/master";
  }

  /** The expected result of resolver_test.go:14 and 16, in parts. */
  lemma SpellSkillsRepo(s: string)
    requires s == "github.com/hayeah/skills"
    ensures s == "github.com" + "/" + "hayeah" + "/" + "skills" + Suffix([])
  {
    assert "github.com/hayeah/" == "github.com" + "/" + "hayeah" + "/" by {
      assert "github.com" + "/" == "github.com/";
      assert "github.com/" + "hayeah" == "github.com/hayeah";
      assert "github.com/hayeah" + "/" == "github.com/hayeah/";
    }
    assert "github.com/hayeah/skills" == "github.com" + "/" + "hayeah" + "/" + "skills" by {
      assert "github.com/hayeah/" + "skills" == "github.com/hayeah/skills";
    }
    assert Suffix([]) == "";
    assert "github.com/hayeah/skills" + "" == "github.com/hayeah/skills";
  }

  /** resolver_test.go:14. */
  lemma NormalizeTreeBranchOnly(src: string)
    requires src == "https://github.com/hayeah/skills/tree/master"
    ensures NormalizeSource(src) == "github.com/hayeah/skills"
  {
    var want := "github.com/hayeah/skills";
    SpellTreeBranchOnlyUrl(src);
    SpellSkillsRepo(want);
    TreeUrlCase("https://", "github.com", "hayeah", "skills", "master", [], src, want);
  }

  /** The URL of resolver_test.go:16, in parts. */
  lemma SpellHttpsRepoUrl(s: string)
    requires s == "https://github.com/hayeah/skills"
    ensures s == "https://" + "github.com" + "/" + "hayeah" + "/" + "skills" + Suffix([])
  {
    assert "https://github.com/hayeah" == "https://" + "github.com" + "/" + "hayeah" by {
      assert "https://" + "github.com" == "https://github.com";
      assert "https://github.com" + "/" == "https://github.com/";
      assert "https://github.com/" + "hayeah" == "https://github.com/hayeah";
    }
    assert "https://github.com/hayeah/skills" == "https://" + "github.com" + "/" + "hayeah" + "/" + "skills" by {
      assert "https://github.com/hayeah" + "/" == "https://github.com/hayeah/";
      assert "https://github.com/hayeah/" + "skills" == "https://github.com/hayeah/skills";
    }
    assert Suffix([]) == "";
    assert "https://github.com/hayeah/skills" + "" == "https://github.com/hayeah/skills";
  }


  /** resolver_test.go:16. */
  lemma NormalizeHttpsRepo(src: string)
    requires src == "https://github.com/hayeah/skills"
    ensures NormalizeSource(src) == "github.com/hayeah/skills"
  {
    var want := "github.com/hayeah/skills";
    SpellHttpsRepoUrl(src);
    SpellSkillsRepo(want);
    PlainUrlCase("https://", "github.com", "hayeah", "skills", [], src, want);
  }

  /** The URL of resolver_test.go:18, in parts. */
  lemma SpellHttpTreeUrl(s: string)
    requires s == "http://github.com/hayeah/skills/tree/main/foo"
    ensures s == "http://" + "github.com" + "/" + "hayeah" + "/" + "skills" + "/tree/" + "main" + Suffix(["foo"])
  {
    assert "http://github.com/hayeah" == "http://" + "github.com" + "/" + "hayeah" by {
      assert "http://" + "github.com" == "http://github.com";
      assert "http://github.com" + "/" == "http://github.com/";
      assert "http://github.com/" + "hayeah" == "http://github.com/hayeah";
    }
    assert "http://github.com/hayeah/skills/tree/" == "http://" + "github.com" + "/" + "hayeah" + "/" + "skills" + "/tree/" by {
      assert "http://github.com/hayeah" + "/" == "http://github.com/hayeah/";
      assert "http://github.com/hayeah/" + "skills" == "http://github.com/hayeah/skills";
      assert "http://github.com/hayeah/skills" + "/tree/" == "http://github.com/hayeah/skills/tree/";
    }
    assert "http://github.com/hayeah/skills/tree/main" == "http://" + "github.com" + "/" + "hayeah" + "/" + "skills" + "/tree/" + "main" by {
      assert "http://github.com/hayeah/skills/tree/" + "main" == "http://github.com/hayeah/skills/tree/main";
    }
    assert Suffix(["foo"]) == "/foo" by {
      SuffixSmall("foo", "");
      assert "/" + "foo" == "/foo";
    }
    assert "http://github.com/hayeah/skills/tree/main" + "/foo" == "http://github.com/hayeah/skills/tree/main/foo";
  }

  /** The expected result of resolver_test.go:18, in parts. */
  lemma SpellHttpTreeBare(s: string)
    requires s == "github.com/hayeah/skills/foo"
    ensures s == "github.com" + "/" + "hayeah" + "/" + "skills" + Suffix(["foo"])
  {
    assert "github.com/hayeah/" == "github.com" + "/" + "hayeah" + "/" by {
      assert "github.com" + "/" == "github.com/";
      assert "github.com/" + "hayeah" == "github.com/hayeah";
      assert "github.com/hayeah" + "/" == "github.com/hayeah/";
    }
    assert "github.com/hayeah/skills" == "github.com" + "/" + "hayeah" + "/" + "skills" by {
      assert "github.com/hayeah/" + "skills" == "github.com/hayeah/skills";
    }
    assert Suffix(["foo"]) == "/foo" by {
      SuffixSmall("foo", "");
      assert "/" + "foo" == "/foo";
    }
    assert "github.com/hayeah/skills" + "/foo" == "github.com/hayeah/skills/foo";
  }

  /** resolver_test.go:18. */
  lemma NormalizeHttpTree(src: string)
    requires src == "http://github.com/hayeah/skills/tree/main/foo"
    ensures NormalizeSource(src) == "github.com/hayeah/skills/foo"
  {
    var want := "github.com/hayeah/skills/foo";
    SpellHttpTreeUrl(src);
    SpellHttpTreeBare(want);
    TreeUrlCase("http://", "github.com", "hayeah", "skills", "main", ["foo"], src, want);
  }

  /** resolver_test.go:20-24: bare identifiers and local paths are unchanged. */
  lemma NormalizeUnschemedCases(src: string)
    requires src in ["github.com/hayeah/skills", "github.com/hayeah/skills/foo", "./my-skills", "/abs/path"]
    ensures NormalizeSource(src) == src
  {
    assert src[0] != 'h';
    NormalizeKeepsUnschemed(src);
  }
}
