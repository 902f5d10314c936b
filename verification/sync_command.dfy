/** The `sync` command (cli/sync.go): every source is resolved, cloned and
    searched for skills; the skills of all sources become one desired map from
    link name to absolute target, later sources overriding earlier ones; the
    linker reconciles the destination with it; the results are sorted by name,
    and the command fails exactly when some result carries an error.
    Resolving, cloning, the existence check, skill discovery and
    `filepath.Abs` are collaborators given as input. */
module SyncCommand {
  import opened Wrappers
  import opened Strings
  import opened Platform
  import Namer
  import Linker

  /** The code `runSync` calls but this model does not contain:
      - `resolve`: `gz.Resolve(src)`;
      - `ensureCloned`: `resolved.EnsureCloned()`, `Some(message)` when it fails;
      - `present`: whether `os.Stat` succeeds on a path;
      - `findSkills`: `resolved.FindSkills()`;
      - `abs`: `filepath.Abs`. */
  datatype Collaborators = Collaborators(
    resolve: string -> Result<Resolved, string>,
    ensureCloned: Resolved -> Option<string>,
    present: string -> bool,
    findSkills: Resolved -> Result<seq<Found>, string>,
    abs: string -> Result<string, string>)

  /** Why the command stops before any link is touched. */
  datatype SetupError =
    | ResolveFailed(src: string)      // "resolving <src>"
    | CloneFailed(src: string)        // "cloning <src>"
    | SourceNotFound(dir: string)     // "source directory not found: <dir>"
    | FindFailed(src: string)         // "finding skills in <src>"
    | AbsFailed(skillDir: string)     // "abs path for <dir>"

  /** One write `desired[name] = target` of the gathering loop. */
  datatype Link = Link(name: string, target: string)

  /** A source that resolved, is on disk, and was searched. */
  datatype Source = Source(resolved: Resolved, skills: seq<Found>)

  // ---------------------------------------------------------------------------
  // Gathering the desired map

  /** The checks of one source, in the order the code makes them. */
  function Discover(c: Collaborators, src: string): (r: Result<Source, SetupError>)
    ensures r.Ok? <==>
              && c.resolve(src).Ok?
              && c.ensureCloned(c.resolve(src).value).None?
              && c.present(c.resolve(src).value.localDir)
              && c.findSkills(c.resolve(src).value).Ok?
    ensures r.Ok? ==> r.value == Source(c.resolve(src).value, c.findSkills(c.resolve(src).value).value)
    ensures c.resolve(src).Err? ==> r == Err(ResolveFailed(src))
    ensures c.resolve(src).Ok? && c.ensureCloned(c.resolve(src).value).Some? ==> r == Err(CloneFailed(src))
    ensures (c.resolve(src).Ok? && c.ensureCloned(c.resolve(src).value).None? &&
             !c.present(c.resolve(src).value.localDir)) ==>
              r == Err(SourceNotFound(c.resolve(src).value.localDir))
    ensures (c.resolve(src).Ok? && c.ensureCloned(c.resolve(src).value).None? &&
             c.present(c.resolve(src).value.localDir) && c.findSkills(c.resolve(src).value).Err?) ==>
              r == Err(FindFailed(src))
  {
    match c.resolve(src)
    case Err(_) => Err(ResolveFailed(src))
    case Ok(res) =>
      if c.ensureCloned(res).Some? then Err(CloneFailed(src))
      else if !c.present(res.localDir) then Err(SourceNotFound(res.localDir))
      else
        match c.findSkills(res)
        case Err(_) => Err(FindFailed(src))
        case Ok(skills) => Ok(Source(res, skills))
  }

  /** The writes the inner loop makes for the skills of one source: each skill's
      link name under the source's base name, with its absolute directory; the
      first skill whose directory cannot be made absolute stops the command. */
  function SkillLinks(baseName: string, skills: seq<Found>, abs: string -> Result<string, string>)
    : (r: Result<seq<Link>, SetupError>)
    ensures r.Ok? <==> forall i :: 0 <= i < |skills| ==> abs(skills[i].skillDir).Ok?
    ensures r.Ok? ==> |r.value| == |skills|
    ensures r.Ok? ==> forall i :: 0 <= i < |skills| ==>
              abs(skills[i].skillDir).Ok? &&
              r.value[i] == Link(Namer.SkillName(baseName, skills[i].relPath), abs(skills[i].skillDir).value)
    ensures r.Err? ==> exists i :: (0 <= i < |skills| && abs(skills[i].skillDir).Err? &&
              r.error == AbsFailed(skills[i].skillDir) &&
              forall j :: 0 <= j < i ==> abs(skills[j].skillDir).Ok?)
    decreases |skills|
  {
    if skills == [] then Ok([])
    else
      var s := skills[0];
      match abs(s.skillDir)
      case Err(_) => Err(AbsFailed(s.skillDir))
      case Ok(target) =>
        var rest := SkillLinks(baseName, skills[1..], abs);
        assert forall i :: 0 < i < |skills| ==> skills[i] == skills[1..][i - 1];
        match rest
        case Err(e) =>
          assert exists i :: (0 <= i < |skills[1..]| && abs(skills[1..][i].skillDir).Err? &&
            e == AbsFailed(skills[1..][i].skillDir) &&
            forall j :: 0 <= j < i ==> abs(skills[1..][j].skillDir).Ok?);
          Err(e)
        case Ok(links) => Ok([Link(Namer.SkillName(baseName, s.relPath), target)] + links)
  }

  /** The writes for one source, or why the command stops at it. */
  function SourceLinks(c: Collaborators, src: string): (r: Result<seq<Link>, SetupError>)
    ensures Discover(c, src).Err? ==> r == Err(Discover(c, src).error)
    ensures Discover(c, src).Ok? ==>
              r == SkillLinks(Discover(c, src).value.resolved.name, Discover(c, src).value.skills, c.abs)
  {
    match Discover(c, src)
    case Err(e) => Err(e)
    case Ok(source) => SkillLinks(source.resolved.name, source.skills, c.abs)
  }

  /** The writes of all sources in order, or the first source's failure. */
  function AllLinks(c: Collaborators, sources: seq<string>): (r: Result<seq<Link>, SetupError>)
    ensures r.Ok? <==> forall k :: 0 <= k < |sources| ==> SourceLinks(c, sources[k]).Ok?
    ensures r.Err? ==> exists k :: (0 <= k < |sources| && SourceLinks(c, sources[k]).Err? &&
              r.error == SourceLinks(c, sources[k]).error &&
              forall j :: 0 <= j < k ==> SourceLinks(c, sources[j]).Ok?)
    decreases |sources|
  {
    if sources == [] then Ok([])
    else
      var tail := sources[1..];
      assert forall k :: 0 < k < |sources| ==> sources[k] == tail[k - 1];
      match SourceLinks(c, sources[0])
      case Err(e) => Err(e)
      case Ok(links) =>
        match AllLinks(c, tail)
        case Err(e) =>
          assert exists k :: (0 <= k < |tail| && SourceLinks(c, tail[k]).Err? &&
            e == SourceLinks(c, tail[k]).error &&
            forall j :: 0 <= j < k ==> SourceLinks(c, tail[j]).Ok?);
          Err(e)
        case Ok(rest) => Ok(links + rest)
  }

  /** The writes applied in order to a map. */
  function Overlay(m: map<string, string>, links: seq<Link>): (r: map<string, string>)
    ensures r.Keys == m.Keys + set l | l in links :: l.name
    decreases |links|
  {
    if links == [] then m
    else Overlay(m[links[0].name := links[0].target], links[1..])
  }

  /** The gathering loop of `runSync` as written: source by source, writing into
      the one map as it goes, and returning at the first failure. */
  function Gather(desired: map<string, string>, c: Collaborators, sources: seq<string>)
    : Result<map<string, string>, SetupError>
    decreases |sources|
  {
    if sources == [] then Ok(desired)
    else
      match SourceLinks(c, sources[0])
      case Err(e) => Err(e)
      case Ok(links) => Gather(Overlay(desired, links), c, sources[1..])
  }

  /** The desired map `runSync` hands to the linker, or the setup failure. */
  function BuildDesired(c: Collaborators, sources: seq<string>): (r: Result<map<string, string>, SetupError>)
    ensures r.Err? <==> AllLinks(c, sources).Err?
    ensures r.Err? ==> r.error == AllLinks(c, sources).error
    ensures r.Ok? ==> r.value == Overlay(map[], AllLinks(c, sources).value)
  {
    GatherIsOverlay(map[], c, sources);
    Gather(map[], c, sources)
  }

  /** A later write wins: a name's value is the target of the last write to it. */
  lemma {:induction false} OverlayLastWrite(m: map<string, string>, links: seq<Link>, i: nat)
    requires i < |links|
    requires forall j :: i < j < |links| ==> links[j].name != links[i].name
    ensures links[i].name in Overlay(m, links)
    ensures Overlay(m, links)[links[i].name] == links[i].target
    decreases |links|
  {
    var m1 := m[links[0].name := links[0].target];
    var tail := links[1..];
    assert Overlay(m, links) == Overlay(m1, tail);
    if i > 0 {
      assert links[i] == tail[i - 1];
      assert forall j :: i - 1 < j < |tail| ==> tail[j] == links[j + 1];
      OverlayLastWrite(m1, tail, i - 1);
    } else {
      assert forall j :: 0 <= j < |tail| ==> tail[j] == links[j + 1];
      OverlayUnwritten(m1, tail, links[0].name);
    }
  }

  /** A name no write mentions keeps its value. */
  lemma {:induction false} OverlayUnwritten(m: map<string, string>, links: seq<Link>, n: string)
    requires n in m
    requires forall j :: 0 <= j < |links| ==> links[j].name != n
    ensures n in Overlay(m, links) && Overlay(m, links)[n] == m[n]
    decreases |links|
  {
    if links != [] {
      var tail := links[1..];
      assert forall j :: 0 <= j < |tail| ==> tail[j] == links[j + 1];
      OverlayUnwritten(m[links[0].name := links[0].target], tail, n);
    }
  }

  lemma {:induction false} OverlayConcat(m: map<string, string>, a: seq<Link>, b: seq<Link>)
    ensures Overlay(m, a + b) == Overlay(Overlay(m, a), b)
    decreases |a|
  {
    if a != [] {
      assert (a + b)[0] == a[0] && (a + b)[1..] == a[1..] + b;
      var m1 := m[a[0].name := a[0].target];
      OverlayConcat(m1, a[1..], b);
      assert Overlay(m, a + b) == Overlay(m1, a[1..] + b);
      assert Overlay(m, a) == Overlay(m1, a[1..]);
    } else {
      assert a + b == b;
    }
  }

  /** The loop as written equals the overlay of all sources' writes. */
  lemma {:induction false} GatherIsOverlay(m: map<string, string>, c: Collaborators, sources: seq<string>)
    ensures Gather(m, c, sources).Err? <==> AllLinks(c, sources).Err?
    ensures Gather(m, c, sources).Err? ==> Gather(m, c, sources).error == AllLinks(c, sources).error
    ensures Gather(m, c, sources).Ok? ==> Gather(m, c, sources).value == Overlay(m, AllLinks(c, sources).value)
    decreases |sources|
  {
    if sources != [] {
      var tail := sources[1..];
      match SourceLinks(c, sources[0])
      case Err(_) =>
      case Ok(links) =>
        GatherIsOverlay(Overlay(m, links), c, tail);
        if AllLinks(c, tail).Ok? {
          OverlayConcat(m, links, AllLinks(c, tail).value);
        }
    }
  }

  // ---------------------------------------------------------------------------
  // The desired map in terms of the sources

  /** Skill `i` of source `src` is linked as `name -> target`. */
  predicate Provides(c: Collaborators, src: string, i: int, name: string, target: string) {
    && Discover(c, src).Ok?
    && 0 <= i < |Discover(c, src).value.skills|
    && name == Namer.SkillName(Discover(c, src).value.resolved.name, Discover(c, src).value.skills[i].relPath)
    && c.abs(Discover(c, src).value.skills[i].skillDir) == Ok(target)
  }

  /** Each write of a source comes from one of its skills. */
  lemma SourceLinkProvided(c: Collaborators, src: string, i: int)
    requires SourceLinks(c, src).Ok? && 0 <= i < |SourceLinks(c, src).value|
    ensures Provides(c, src, i, SourceLinks(c, src).value[i].name, SourceLinks(c, src).value[i].target)
  {
  }

  /** Every write of the gathering loop comes from a skill of some source. */
  lemma {:induction false} LinkOrigin(c: Collaborators, sources: seq<string>, l: Link)
    requires AllLinks(c, sources).Ok? && l in AllLinks(c, sources).value
    ensures exists k, i :: 0 <= k < |sources| && Provides(c, sources[k], i, l.name, l.target)
    decreases |sources|
  {
    var links := SourceLinks(c, sources[0]).value;
    var tail := sources[1..];
    assert AllLinks(c, sources).value == links + AllLinks(c, tail).value;
    if l in links {
      var i :| 0 <= i < |links| && links[i] == l;
      SourceLinkProvided(c, sources[0], i);
    } else {
      LinkOrigin(c, tail, l);
      var k, i :| 0 <= k < |tail| && Provides(c, tail[k], i, l.name, l.target);
      assert tail[k] == sources[k + 1];
    }
  }

  /** The writes of a sequence of sources split at any point. */
  lemma {:induction false} AllLinksConcat(c: Collaborators, a: seq<string>, b: seq<string>)
    requires AllLinks(c, a + b).Ok?
    ensures AllLinks(c, a).Ok? && AllLinks(c, b).Ok?
    ensures AllLinks(c, a + b).value == AllLinks(c, a).value + AllLinks(c, b).value
    decreases |a|
  {
    if a == [] {
      assert a + b == b;
    } else {
      assert (a + b)[0] == a[0] && (a + b)[1..] == a[1..] + b;
      assert forall k :: 0 <= k < |a| ==> a[k] == (a + b)[k];
      assert forall k :: 0 <= k < |b| ==> b[k] == (a + b)[|a| + k];
      AllLinksConcat(c, a[1..], b);
    }
  }

  /** The writes of all sources are those before source `k`, then source
      `k`'s own, then those after it. */
  lemma AllLinksAround(c: Collaborators, sources: seq<string>, k: int)
    requires AllLinks(c, sources).Ok? && 0 <= k < |sources|
    ensures SourceLinks(c, sources[k]).Ok?
    ensures AllLinks(c, sources[..k]).Ok? && AllLinks(c, sources[k + 1..]).Ok?
    ensures AllLinks(c, sources).value
            == AllLinks(c, sources[..k]).value + SourceLinks(c, sources[k]).value + AllLinks(c, sources[k + 1..]).value
  {
    assert sources == sources[..k] + [sources[k]] + sources[k + 1..];
    AllLinksConcat(c, sources[..k] + [sources[k]], sources[k + 1..]);
    AllLinksConcat(c, sources[..k], [sources[k]]);
    assert AllLinks(c, [sources[k]]).value == SourceLinks(c, sources[k]).value + AllLinks(c, []).value;
  }

  /** Every skill of every source is among the writes. */
  lemma ProvidedIsWritten(c: Collaborators, sources: seq<string>, k: int, i: int, n: string, t: string)
    requires AllLinks(c, sources).Ok?
    requires 0 <= k < |sources| && Provides(c, sources[k], i, n, t)
    ensures Link(n, t) in AllLinks(c, sources).value
  {
    AllLinksAround(c, sources, k);
    assert SourceLinks(c, sources[k]).value[i] == Link(n, t);
  }

  /** The desired map holds exactly the skills' link names, and each name's
      target is the absolute directory of a skill linked under that name. */
  lemma DesiredFromSkills(c: Collaborators, sources: seq<string>)
    requires BuildDesired(c, sources).Ok?
    ensures forall n :: n in BuildDesired(c, sources).value ==>
              exists k, i :: 0 <= k < |sources| && Provides(c, sources[k], i, n, BuildDesired(c, sources).value[n])
    ensures forall k, i, n, t :: 0 <= k < |sources| && Provides(c, sources[k], i, n, t) ==>
              n in BuildDesired(c, sources).value
  {
    var desired := BuildDesired(c, sources).value;
    var links := AllLinks(c, sources).value;
    forall n | n in desired
      ensures exists k, i :: 0 <= k < |sources| && Provides(c, sources[k], i, n, desired[n])
    {
      OverlayValueWritten(map[], links, n);
      LinkOrigin(c, sources, Link(n, desired[n]));
    }
    forall k, i, n, t | 0 <= k < |sources| && Provides(c, sources[k], i, n, t)
      ensures n in desired
    {
      ProvidedIsWritten(c, sources, k, i, n, t);
    }
  }

  /** A value in the overlay is either the initial one or some write's target. */
  lemma {:induction false} OverlayValueWritten(m: map<string, string>, links: seq<Link>, n: string)
    requires n in Overlay(m, links)
    ensures (n in m && Overlay(m, links)[n] == m[n]) || Link(n, Overlay(m, links)[n]) in links
    decreases |links|
  {
    if links != [] {
      var m1 := m[links[0].name := links[0].target];
      OverlayValueWritten(m1, links[1..], n);
      if Link(n, Overlay(m, links)[n]) in links[1..] {
        var j :| 0 <= j < |links[1..]| && links[1..][j] == Link(n, Overlay(m, links)[n]);
        assert links[j + 1] == links[1..][j];
      }
    }
  }

  /** No source after `k` provides `n`: none of their writes is to `n`. */
  lemma LaterLinksAvoid(c: Collaborators, sources: seq<string>, k: int, n: string, b: seq<Link>)
    requires 0 <= k < |sources| && AllLinks(c, sources[k + 1..]) == Ok(b)
    requires forall k2, i2, t2 :: k < k2 < |sources| ==> !Provides(c, sources[k2], i2, n, t2)
    ensures forall j :: 0 <= j < |b| ==> b[j].name != n
  {
    var after := sources[k + 1..];
    forall j | 0 <= j < |b| ensures b[j].name != n {
      LinkOrigin(c, after, b[j]);
      var k2, i2 :| 0 <= k2 < |after| && Provides(c, after[k2], i2, b[j].name, b[j].target);
      assert after[k2] == sources[k + 1 + k2];
    }
  }

  /** Later sources override earlier ones: when skill `i` of source `k` is the
      last skill of the last source to be linked under `n`, the desired target
      for `n` is that skill's. */
  lemma LaterSourceWins(c: Collaborators, sources: seq<string>, k: int, i: int, n: string, t: string)
    requires BuildDesired(c, sources).Ok?
    requires 0 <= k < |sources| && Provides(c, sources[k], i, n, t)
    requires forall i2, t2 :: i < i2 ==> !Provides(c, sources[k], i2, n, t2)
    requires forall k2, i2, t2 :: k < k2 < |sources| ==> !Provides(c, sources[k2], i2, n, t2)
    ensures n in BuildDesired(c, sources).value && BuildDesired(c, sources).value[n] == t
  {
    var before, here, after := sources[..k], SourceLinks(c, sources[k]).value, sources[k + 1..];
    AllLinksAround(c, sources, k);
    var a, b := AllLinks(c, before).value, AllLinks(c, after).value;
    assert AllLinks(c, sources).value == a + here + b;
    OverlayConcat(map[], a + here, b);
    OverlayConcat(map[], a, here);
    assert here[i] == Link(n, t);
    forall j | i < j < |here| ensures here[j].name != here[i].name {
      SourceLinkProvided(c, sources[k], j);
    }
    OverlayLastWrite(Overlay(map[], a), here, i);
    LaterLinksAvoid(c, sources, k, n, b);
    OverlayUnwritten(Overlay(Overlay(map[], a), here), b, n);
  }

  // ---------------------------------------------------------------------------
  // Reporting: sorted results and the exit policy

  /** Results in ascending order of name, Go's `<` on strings. */
  predicate SortedByName(s: seq<Linker.LinkResult>) {
    forall i, j :: 0 <= i < j < |s| ==> Below(s[i].name, s[j].name)
  }

  predicate NamesDistinct(s: seq<Linker.LinkResult>) {
    forall i, j :: 0 <= i < j < |s| ==> s[i].name != s[j].name
  }

  /** One result placed into a sorted sequence. */
  function InsertByName(x: Linker.LinkResult, s: seq<Linker.LinkResult>): (t: seq<Linker.LinkResult>)
    requires SortedByName(s)
    ensures SortedByName(t)
    ensures multiset(t) == multiset(s) + multiset{x}
    decreases |s|
  {
    if s == [] then [x]
    else if Below(x.name, s[0].name) then
      InsertInFront(x, s);
      [x] + s
    else
      var rest := InsertByName(x, s[1..]);
      InsertBehind(x, s, rest);
      [s[0]] + rest
  }

  /** A name below the first of a sorted sequence can go in front of it. */
  lemma InsertInFront(x: Linker.LinkResult, s: seq<Linker.LinkResult>)
    requires SortedByName(s) && s != [] && Below(x.name, s[0].name)
    ensures SortedByName([x] + s)
    ensures multiset([x] + s) == multiset(s) + multiset{x}
  {
    assert forall j :: 0 <= j < |s| ==> Below(x.name, s[j].name) by {
      forall j | 0 < j < |s| ensures Below(x.name, s[j].name) {
        BelowTransitive(x.name, s[0].name, s[j].name);
      }
    }
    assert forall i, j :: 0 < i < j < |[x] + s| ==> ([x] + s)[i] == s[i - 1] && ([x] + s)[j] == s[j - 1];
  }

  /** A name not below the first of a sorted sequence goes into its tail,
      behind the first. */
  lemma InsertBehind(x: Linker.LinkResult, s: seq<Linker.LinkResult>, rest: seq<Linker.LinkResult>)
    requires SortedByName(s) && s != [] && !Below(x.name, s[0].name)
    requires SortedByName(rest) && multiset(rest) == multiset(s[1..]) + multiset{x}
    ensures SortedByName([s[0]] + rest)
    ensures multiset([s[0]] + rest) == multiset(s) + multiset{x}
  {
    BelowTotal(x.name, s[0].name);
    assert s == [s[0]] + s[1..];
    assert forall y :: y in rest ==> Below(s[0].name, y.name) by {
      forall y | y in rest ensures Below(s[0].name, y.name) {
        assert y in multiset(rest);
        if y != x {
          assert y in multiset(s[1..]);
          var j :| 0 <= j < |s[1..]| && s[1..][j] == y;
          assert s[j + 1] == y;
        }
      }
    }
    assert forall j :: 0 < j < |[s[0]] + rest| ==> ([s[0]] + rest)[j] == rest[j - 1];
  }

  /** `sort.Slice(results, by name)`. */
  function SortByName(s: seq<Linker.LinkResult>): (t: seq<Linker.LinkResult>)
    ensures SortedByName(t)
    ensures multiset(t) == multiset(s)
    decreases |s|
  {
    if s == [] then []
    else
      assert s == [s[0]] + s[1..];
      InsertByName(s[0], SortByName(s[1..]))
  }

  /** Two sorted sequences with distinct names and the same members start alike. */
  lemma SortedHeadsAgree(a: seq<Linker.LinkResult>, b: seq<Linker.LinkResult>)
    requires SortedByName(a) && SortedByName(b) && NamesDistinct(a)
    requires forall r :: r in a <==> r in b
    requires a != []
    ensures b != [] && a[0] == b[0]
  {
    assert a[0] in b;
    assert b[0] in b;
    var i :| 0 <= i < |a| && a[i] == b[0];
    var j :| 0 <= j < |b| && b[j] == a[0];
    BelowReflexive(a[0].name);
    BelowReflexive(b[0].name);
    assert Below(a[0].name, a[i].name);
    assert Below(b[0].name, b[j].name);
    BelowAntisymmetric(a[0].name, b[0].name);
  }

  /** Past a shared first element, the members still agree. */
  lemma SortedTails(a: seq<Linker.LinkResult>, b: seq<Linker.LinkResult>, r: Linker.LinkResult)
    requires NamesDistinct(a) && NamesDistinct(b)
    requires forall x :: x in a <==> x in b
    requires a != [] && b != [] && a[0] == b[0]
    ensures r in a[1..] ==> r in b[1..]
  {
    if r in a[1..] {
      var k :| 0 <= k < |a[1..]| && a[1..][k] == r;
      assert r == a[k + 1] && r.name != a[0].name;
      assert r in a;
      var m :| 0 <= m < |b| && b[m] == r;
      assert m != 0 && b[1..][m - 1] == r;
    }
  }

  /** When names are distinct, there is only one sorted order: the sort being
      unstable does not make the printed report ambiguous. */
  lemma {:induction false} SortedOrderUnique(a: seq<Linker.LinkResult>, b: seq<Linker.LinkResult>)
    requires SortedByName(a) && SortedByName(b) && NamesDistinct(a) && NamesDistinct(b)
    requires forall r :: r in a <==> r in b
    ensures a == b
    decreases |a|
  {
    if a == [] {
      assert forall k :: 0 <= k < |b| ==> b[k] in a;
    } else {
      SortedHeadsAgree(a, b);
      var ta, tb := a[1..], b[1..];
      forall r ensures r in ta <==> r in tb {
        SortedTails(a, b, r);
        SortedTails(b, a, r);
      }
      assert forall k :: 0 <= k < |ta| ==> ta[k] == a[k + 1];
      assert forall k :: 0 <= k < |tb| ==> tb[k] == b[k + 1];
      SortedOrderUnique(ta, tb);
      assert a == [a[0]] + ta && b == [b[0]] + tb;
    }
  }

  /** Whatever order Go's map iteration takes, two runs with the same inputs
      print the same sorted report and leave the same directory. */
  lemma SyncReportDetermined(d: Linker.DestDir, desired: map<string, string>, dry: bool, faults: set<Linker.Fault>,
                             r1: seq<Linker.LinkResult>, after1: Linker.DestDir,
                             r2: seq<Linker.LinkResult>, after2: Linker.DestDir)
    requires Linker.SyncPost(d, desired, dry, faults, r1, after1) && SortedByName(r1)
    requires Linker.SyncPost(d, desired, dry, faults, r2, after2) && SortedByName(r2)
    ensures r1 == r2 && after1 == after2
  {
    if Linker.DirFailure(d, dry, faults).None? {
      Linker.SyncOneResultPerName(d, desired, dry, faults, r1, after1);
      Linker.SyncOneResultPerName(d, desired, dry, faults, r2, after2);
      forall r ensures r in r1 <==> r in r2 {
        if r in r1 {
          assert r.name in Linker.NamesOf(r2);
          var r' :| r' in r2 && r'.name == r.name;
        }
        if r in r2 {
          assert r.name in Linker.NamesOf(r1);
          var r' :| r' in r1 && r'.name == r.name;
        }
      }
      SortedOrderUnique(r1, r2);
    }
  }

  /** The number of results carrying an error. */
  function CountErrors(s: seq<Linker.LinkResult>): (n: nat)
    ensures n <= |s|
    ensures n == 0 <==> forall i :: 0 <= i < |s| ==> s[i].err.None?
    decreases |s|
  {
    if s == [] then 0
    else
      assert forall i :: 0 < i < |s| ==> s[i] == s[1..][i - 1];
      (if s[0].err.Some? then 1 else 0) + CountErrors(s[1..])
  }

  lemma {:induction false} CountErrorsConcat(a: seq<Linker.LinkResult>, b: seq<Linker.LinkResult>)
    ensures CountErrors(a + b) == CountErrors(a) + CountErrors(b)
    decreases |a|
  {
    if a == [] {
      assert a + b == b;
    } else {
      assert (a + b)[0] == a[0] && (a + b)[1..] == a[1..] + b;
      CountErrorsConcat(a[1..], b);
    }
  }

  /** Sorting never changes what `Sync` reported, only its order. */
  lemma SyncPostPermutation(d: Linker.DestDir, desired: map<string, string>, dry: bool, faults: set<Linker.Fault>,
                            a: seq<Linker.LinkResult>, b: seq<Linker.LinkResult>, after: Linker.DestDir)
    requires Linker.SyncPost(d, desired, dry, faults, a, after)
    requires multiset(a) == multiset(b)
    ensures Linker.SyncPost(d, desired, dry, faults, b, after)
  {
    SameMembers(a, b);
    if Linker.DirFailure(d, dry, faults).Some? {
      assert b == [b[0]];
    }
  }

  /** Two reorderings of one report hold the same results and the same names. */
  lemma SameMembers(a: seq<Linker.LinkResult>, b: seq<Linker.LinkResult>)
    requires multiset(a) == multiset(b)
    ensures |a| == |b|
    ensures forall r :: r in a <==> r in b
    ensures Linker.NamesOf(a) == Linker.NamesOf(b)
  {
    assert |a| == |multiset(a)| == |multiset(b)| == |b|;
    forall r ensures r in a <==> r in b {
      assert r in a <==> r in multiset(a);
      assert r in b <==> r in multiset(b);
    }
  }

  /** The counting loop of `runSync`. */
  method ErrorCount(results: seq<Linker.LinkResult>) returns (errCount: nat)
    ensures errCount == CountErrors(results)
    ensures errCount > 0 <==> exists i :: 0 <= i < |results| && results[i].err.Some?
  {
    errCount := 0;
    var i := 0;
    while i < |results|
      invariant 0 <= i <= |results|
      invariant errCount == CountErrors(results[..i])
    {
      assert results[..i + 1] == results[..i] + [results[i]];
      CountErrorsConcat(results[..i], [results[i]]);
      if results[i].err.Some? {
        errCount := errCount + 1;
      }
      i := i + 1;
    }
    assert results[..i] == results;
  }

  /** How `runSync` ends. */
  datatype Exit =
    | Success
    | SetupFailed(cause: SetupError)   // returned before the linker runs
    | LinkErrors(count: nat)           // "<count> error(s) during sync"

  /** `runSync`: gather the desired map, stopping at the first failing source
      with nothing touched; otherwise reconcile the destination with `dry`
      passed through, sort the results by name, and fail exactly when some
      result carries an error, giving their number. */
  method RunSync(c: Collaborators, sources: seq<string>, d: Linker.DestDir, dry: bool, faults: set<Linker.Fault>)
    returns (results: seq<Linker.LinkResult>, exit: Exit, after: Linker.DestDir)
    ensures BuildDesired(c, sources).Err? ==>
              results == [] && exit == SetupFailed(BuildDesired(c, sources).error) && after == d
    ensures BuildDesired(c, sources).Ok? ==>
              && Linker.SyncPost(d, BuildDesired(c, sources).value, dry, faults, results, after)
              && SortedByName(results)
              && (exit == Success <==> forall i :: 0 <= i < |results| ==> results[i].err.None?)
              && (exit != Success ==> exit == LinkErrors(CountErrors(results)))
  {
    var built := BuildDesired(c, sources);
    if built.Err? {
      results, exit, after := [], SetupFailed(built.error), d;
    } else {
      var raw, dir := Linker.Sync(d, built.value, dry, faults);
      results := SortByName(raw);
      SyncPostPermutation(d, built.value, dry, faults, raw, results, dir);
      after := dir;
      var errCount := ErrorCount(results);
      exit := if errCount > 0 then LinkErrors(errCount) else Success;
    }
  }
}
