/** The link reconciler (linker.go). The destination directory is a finite map
    from entry name to entry; failures of individual system calls come from a
    fault set given as input; Go's random map iteration order is an input too,
    and every property below holds for every order. */
module Linker {
  import opened Wrappers
  import opened Platform
  import Namer

  /** A directory entry: a symbolic link with its literal target, or anything else. */
  datatype Entry = Symlink(target: string) | Other

  /** The destination directory: absent, or present with its entries. */
  datatype DestDir = Missing | Present(entries: map<string, Entry>)

  /** The system calls that may fail, per entry name where the call names one. */
  datatype Fault =
    | MkdirFails                  // os.MkdirAll of the destination
    | ReadDirFails                // os.ReadDir of an existing destination
    | ReadlinkFails(name: string) // os.Readlink of that entry
    | RemoveFails(name: string)   // os.Remove of that entry
    | SymlinkFails(name: string)  // os.Symlink creating that entry

  /** `LinkResult.Action`; `NoAction` is the empty string of an error result. */
  datatype Action = Create | Update | Skip | Remove | NoAction

  /** The error a result carries, by the message prefix the code gives it. */
  datatype LinkError =
    | CreateDestDir     // "create dest dir"
    | ReadDestDir       // "read dest dir"
    | RemoveOldSymlink  // "remove old symlink"
    | SymlinkFailed     // "symlink"
    | RemoveFailed      // "remove"
    | UnexpectedFile    // "unexpected file at"
    | AbsFailed         // the error of filepath.Abs

  /** `LinkResult`: `err == None` is Go's nil error. */
  datatype LinkResult = LinkResult(name: string, target: string, action: Action, err: Option<LinkError>)

  function Done(name: string, target: string, action: Action): LinkResult {
    LinkResult(name, target, action, None)
  }

  /** An error result carries only the name, as in the code. */
  function Failed(name: string, e: LinkError): LinkResult {
    LinkResult(name, "", NoAction, Some(e))
  }

  function Entries(d: DestDir): map<string, Entry> {
    if d.Missing? then map[] else d.entries
  }

  /** The entry at `name`, if any. */
  function At(fs: map<string, Entry>, name: string): Option<Entry> {
    if name in fs then Some(fs[name]) else None
  }

  /** `fs` with the entry at `name` replaced (or removed, for `None`). */
  function Put(fs: map<string, Entry>, name: string, e: Option<Entry>): (r: map<string, Entry>)
    ensures At(r, name) == e
    ensures forall n :: n != name ==> At(r, n) == At(fs, n)
  {
    if e.None? then fs - {name} else fs[name := e.value]
  }

  predicate Distinct(xs: seq<string>) {
    forall i, j :: 0 <= i < j < |xs| ==> xs[i] != xs[j]
  }

  /** `order` lists every element of `s` once: one possible Go map iteration. */
  predicate IsEnumeration(order: seq<string>, s: set<string>) {
    && Distinct(order)
    && (forall x :: x in order ==> x in s)
    && (forall x :: x in s ==> x in order)
  }

  // ---------------------------------------------------------------------------
  // Scanning

  /** The scan of the destination: every symbolic link whose target can be read,
      with that target. Other entries and unreadable links are left out. */
  function Scan(d: DestDir, faults: set<Fault>): (current: map<string, string>)
    ensures forall n :: n in current <==>
              n in Entries(d) && Entries(d)[n].Symlink? && ReadlinkFails(n) !in faults
    ensures forall n :: n in current ==> At(Entries(d), n) == Some(Symlink(current[n]))
  {
    var fs := Entries(d);
    map n | n in fs && fs[n].Symlink? && ReadlinkFails(n) !in faults :: fs[n].target
  }

  // ---------------------------------------------------------------------------
  // One name

  /** What a reconciliation decides for a desired name, before any failure. */
  function Classify(current: map<string, string>, name: string, target: string): Action {
    if name !in current then Create
    else if current[name] == target then Skip
    else Update
  }

  /** The outcome for one name: its result and the entry left at that name. */
  datatype Step = Step(result: LinkResult, after: Option<Entry>)

  /** Sync's handling of one desired `name -> target`, given the entry `here`
      currently at that name. */
  function SyncOne(here: Option<Entry>, current: map<string, string>, name: string, target: string,
                   dry: bool, faults: set<Fault>): (s: Step)
    requires name in current ==> here == Some(Symlink(current[name]))
    ensures s.result.name == name
    ensures s.result.err.None? ==> s.result == Done(name, target, Classify(current, name, target))
    ensures dry ==> s.result.err.None? && s.after == here
    ensures !dry && s.result.err.None? ==> s.after == Some(Symlink(target))
    ensures s.result.err.Some? <==>
              && !dry && Classify(current, name, target) != Skip
              && (|| (name in current && RemoveFails(name) in faults)
                  || SymlinkFails(name) in faults
                  || (here.Some? && name !in current))
    ensures s.result.err.Some? ==>
              && !dry && Classify(current, name, target) != Skip
              && (|| (s.result == Failed(name, RemoveOldSymlink) && s.after == here
                      && RemoveFails(name) in faults)
                  || (s.result == Failed(name, SymlinkFailed)
                      && s.after == (if name in current then None else here)
                      && (SymlinkFails(name) in faults || (here.Some? && name !in current))))
  {
    if name in current && current[name] == target then
      Step(Done(name, target, Skip), here)
    else
      var verb := if name in current then Update else Create;
      if dry then
        Step(Done(name, target, verb), here)
      else if name in current && RemoveFails(name) in faults then
        Step(Failed(name, RemoveOldSymlink), here)
      else
        var cleared := if name in current then None else here;
        // os.Symlink fails on an occupied name as well as by an injected fault
        if cleared.Some? || SymlinkFails(name) in faults then
          Step(Failed(name, SymlinkFailed), cleared)
        else
          Step(Done(name, target, verb), Some(Symlink(target)))
  }

  /** Sync's handling of a scanned link `name -> target` that is not desired. */
  function PruneOne(here: Option<Entry>, name: string, target: string, dry: bool, faults: set<Fault>): (s: Step)
    requires here == Some(Symlink(target))
    ensures s.result.name == name
    ensures s.result.err.None? ==> s.result == Done(name, target, Remove)
    ensures s.after == (if s.result.err.None? && !dry then None else here)
    ensures s.result.err.Some? <==> !dry && RemoveFails(name) in faults
    ensures s.result.err.Some? ==> s.result == Failed(name, RemoveFailed)
  {
    if !dry && RemoveFails(name) in faults then
      Step(Failed(name, RemoveFailed), here)
    else
      Step(Done(name, target, Remove), if dry then here else None)
  }

  /** Sync's handling of any name it reports on: desired names are linked,
      scanned links that are not desired are removed. */
  function Reconcile(here: Option<Entry>, current: map<string, string>, desired: map<string, string>,
                     name: string, dry: bool, faults: set<Fault>): (s: Step)
    requires name in desired || name in current
    requires name in current ==> here == Some(Symlink(current[name]))
    ensures s.result.name == name
  {
    if name in desired then SyncOne(here, current, name, desired[name], dry, faults)
    else PruneOne(here, name, current[name], dry, faults)
  }

  // ---------------------------------------------------------------------------
  // One pass over the names, in a given order

  /** Results in processing order, and the entries afterwards. */
  datatype Pass = Pass(results: seq<LinkResult>, fs: map<string, Entry>)

  /** The scan still describes the live entries at every name of `order`. */
  predicate Agrees(fs: map<string, Entry>, current: map<string, string>, order: seq<string>) {
    forall i :: 0 <= i < |order| && order[i] in current ==> At(fs, order[i]) == Some(Symlink(current[order[i]]))
  }

  /** The sequential loop of the code: each name in turn, against the live entries. */
  function RunAll(fs: map<string, Entry>, current: map<string, string>, desired: map<string, string>,
                  order: seq<string>, dry: bool, faults: set<Fault>): Pass
    requires Distinct(order)
    requires forall i :: 0 <= i < |order| ==> order[i] in desired || order[i] in current
    requires Agrees(fs, current, order)
    decreases |order|
  {
    if order == [] then Pass([], fs)
    else
      var name := order[0];
      var s := Reconcile(At(fs, name), current, desired, name, dry, faults);
      var rest := RunAll(Put(fs, name, s.after), current, desired, order[1..], dry, faults);
      Pass([s.result] + rest.results, rest.fs)
  }

  /** The loop reports, at each position, what that name gets processed alone
      against the initial entries. */
  lemma {:induction false} RunAllResultsPerName(fs: map<string, Entry>, current: map<string, string>,
                                                desired: map<string, string>, order: seq<string>,
                                                dry: bool, faults: set<Fault>)
    requires Distinct(order)
    requires forall i :: 0 <= i < |order| ==> order[i] in desired || order[i] in current
    requires Agrees(fs, current, order)
    ensures |RunAll(fs, current, desired, order, dry, faults).results| == |order|
    ensures forall i :: 0 <= i < |order| ==>
              RunAll(fs, current, desired, order, dry, faults).results[i]
              == Reconcile(At(fs, order[i]), current, desired, order[i], dry, faults).result
    decreases |order|
  {
    if order != [] {
      var name := order[0];
      var s := Reconcile(At(fs, name), current, desired, name, dry, faults);
      var fs1 := Put(fs, name, s.after);
      var tail := order[1..];
      assert forall i :: 0 <= i < |tail| ==> tail[i] == order[i + 1] && tail[i] != name;
      RunAllResultsPerName(fs1, current, desired, tail, dry, faults);
      var p := RunAll(fs, current, desired, order, dry, faults);
      forall i | 0 <= i < |order|
        ensures p.results[i] == Reconcile(At(fs, order[i]), current, desired, order[i], dry, faults).result
      {
        if i > 0 {
          assert order[i] == tail[i - 1];
        }
      }
    }
  }

  /** The loop leaves at each name of the order what that name's processing
      alone leaves there, and every other name untouched. */
  lemma {:induction false} RunAllEntriesPerName(fs: map<string, Entry>, current: map<string, string>,
                                                desired: map<string, string>, order: seq<string>,
                                                dry: bool, faults: set<Fault>)
    requires Distinct(order)
    requires forall i :: 0 <= i < |order| ==> order[i] in desired || order[i] in current
    requires Agrees(fs, current, order)
    ensures forall n :: At(RunAll(fs, current, desired, order, dry, faults).fs, n)
                        == if n in order then Reconcile(At(fs, n), current, desired, n, dry, faults).after
                           else At(fs, n)
    decreases |order|
  {
    if order != [] {
      var name := order[0];
      var s := Reconcile(At(fs, name), current, desired, name, dry, faults);
      var fs1 := Put(fs, name, s.after);
      var tail := order[1..];
      assert forall i :: 0 <= i < |tail| ==> tail[i] == order[i + 1] && tail[i] != name;
      RunAllEntriesPerName(fs1, current, desired, tail, dry, faults);
      var p := RunAll(fs, current, desired, order, dry, faults);
      forall n
        ensures At(p.fs, n) == if n in order then Reconcile(At(fs, n), current, desired, n, dry, faults).after
                               else At(fs, n)
      {
        if n in tail {
          var k :| 0 <= k < |tail| && tail[k] == n;
          assert n != name;
        }
      }
    }
  }

  /** Order does not matter: the loop's result for each name, and the entry it
      leaves there, are those of that name processed alone against the
      initial entries; names outside the order are untouched. */
  lemma RunAllPerName(fs: map<string, Entry>, current: map<string, string>,
                      desired: map<string, string>, order: seq<string>,
                      dry: bool, faults: set<Fault>)
    requires Distinct(order)
    requires forall i :: 0 <= i < |order| ==> order[i] in desired || order[i] in current
    requires Agrees(fs, current, order)
    ensures |RunAll(fs, current, desired, order, dry, faults).results| == |order|
    ensures forall i :: 0 <= i < |order| ==>
              RunAll(fs, current, desired, order, dry, faults).results[i]
              == Reconcile(At(fs, order[i]), current, desired, order[i], dry, faults).result
    ensures forall n :: At(RunAll(fs, current, desired, order, dry, faults).fs, n)
                        == if n in order then Reconcile(At(fs, n), current, desired, n, dry, faults).after
                           else At(fs, n)
  {
    RunAllResultsPerName(fs, current, desired, order, dry, faults);
    RunAllEntriesPerName(fs, current, desired, order, dry, faults);
  }

  lemma {:induction false} EnumerationSize(order: seq<string>, s: set<string>)
    requires IsEnumeration(order, s)
    ensures |order| == |s|
    decreases |order|
  {
    if order == [] {
      assert s == {};
    } else {
      var x, tail := order[0], order[1..];
      assert forall i :: 0 <= i < |tail| ==> tail[i] == order[i + 1] && tail[i] != x;
      assert forall y :: y in s - {x} ==> y in tail by {
        forall y | y in s - {x} ensures y in tail {
          var k :| 0 <= k < |order| && order[k] == y;
          assert tail[k - 1] == y;
        }
      }
      EnumerationSize(tail, s - {x});
    }
  }

  lemma {:induction false} AtExtensional(a: map<string, Entry>, b: map<string, Entry>)
    requires forall n :: At(a, n) == At(b, n)
    ensures a == b
  {
    assert a.Keys == b.Keys by {
      forall n ensures n in a <==> n in b {
        assert At(a, n).Some? <==> At(b, n).Some?;
      }
    }
    forall n | n in a ensures a[n] == b[n] {
      assert At(a, n) == At(b, n);
    }
  }

  /** Desired names followed by the stale links enumerate the reported names once each. */
  lemma {:induction false} CombinedOrder(desired: map<string, string>, current: map<string, string>,
                                         desiredOrder: seq<string>, staleOrder: seq<string>)
    requires IsEnumeration(desiredOrder, desired.Keys)
    requires IsEnumeration(staleOrder, current.Keys - desired.Keys)
    ensures IsEnumeration(desiredOrder + staleOrder, desired.Keys + current.Keys)
    ensures forall i :: 0 <= i < |desiredOrder + staleOrder| ==>
              (desiredOrder + staleOrder)[i] in desired || (desiredOrder + staleOrder)[i] in current
  {
    var order := desiredOrder + staleOrder;
    forall i, j | 0 <= i < j < |order| ensures order[i] != order[j] {
      if j >= |desiredOrder| && i < |desiredOrder| {
        assert order[i] in desiredOrder && order[j] in staleOrder;
      }
    }
    forall i | 0 <= i < |order| ensures order[i] in desired || order[i] in current {
      if i < |desiredOrder| {
        assert order[i] in desiredOrder;
      } else {
        assert order[i] in staleOrder;
      }
    }
  }

  // ---------------------------------------------------------------------------
  // A whole run

  /** The destination after the os.MkdirAll that only a non-dry run performs. */
  function Prepared(d: DestDir, dry: bool): DestDir {
    if !dry && d.Missing? then Present(map[]) else d
  }

  /** The directory-level failure that ends a run with a single error result. */
  function DirFailure(d: DestDir, dry: bool, faults: set<Fault>): Option<LinkError> {
    if !dry && MkdirFails in faults then Some(CreateDestDir)
    else if Prepared(d, dry).Present? && ReadDirFails in faults then Some(ReadDestDir)
    else None
  }

  /** What `Sync` returns, with the destination as it is afterwards. */
  datatype SyncRun = SyncRun(results: seq<LinkResult>, dir: DestDir)

  /** `Linker.Sync(desired)` with `Dry == dry`, where `desiredOrder` and
      `staleOrder` are the orders in which Go happens to iterate the desired map
      and the scanned links that are not desired. */
  function SyncWith(d: DestDir, desired: map<string, string>, dry: bool, faults: set<Fault>,
                    desiredOrder: seq<string>, staleOrder: seq<string>): SyncRun
    requires IsEnumeration(desiredOrder, desired.Keys)
    requires IsEnumeration(staleOrder, Scan(d, faults).Keys - desired.Keys)
  {
    if !dry && MkdirFails in faults then
      SyncRun([Failed("", CreateDestDir)], d)
    else
      var d1 := Prepared(d, dry);
      if d1.Present? && ReadDirFails in faults then
        SyncRun([Failed("", ReadDestDir)], d1)
      else
        var current := Scan(d1, faults);
        // desired names first, then the scanned links that are not desired
        var order := desiredOrder + staleOrder;
        assert current == Scan(d, faults);
        CombinedOrder(desired, current, desiredOrder, staleOrder);
        var p := RunAll(Entries(d1), current, desired, order, dry, faults);
        SyncRun(p.results, if d1.Missing? then d1 else Present(p.fs))
  }

  // ---------------------------------------------------------------------------
  // The order-free description of a run

  /** The names a run reports on: every desired name and every scanned link. */
  function Touched(d: DestDir, desired: map<string, string>, faults: set<Fault>): set<string> {
    desired.Keys + Scan(d, faults).Keys
  }

  /** A reported name handled alone against the initial entries. */
  function Expected(d: DestDir, desired: map<string, string>, dry: bool, faults: set<Fault>, name: string): Step
    requires name in Touched(d, desired, faults)
  {
    Reconcile(At(Entries(d), name), Scan(d, faults), desired, name, dry, faults)
  }

  /** The entry a run leaves at `name`. */
  function NewAt(d: DestDir, desired: map<string, string>, dry: bool, faults: set<Fault>, name: string): Option<Entry> {
    if name in Touched(d, desired, faults) then Expected(d, desired, dry, faults, name).after
    else At(Entries(d), name)
  }

  function ExpectedEntries(d: DestDir, desired: map<string, string>, dry: bool, faults: set<Fault>): map<string, Entry> {
    map n | n in Entries(d).Keys + desired.Keys && NewAt(d, desired, dry, faults, n).Some?
      :: NewAt(d, desired, dry, faults, n).value
  }

  function NamesOf(results: seq<LinkResult>): set<string> {
    set r | r in results :: r.name
  }

  /** What any run of `Sync` returns, whatever the iteration order: a single
      error for a directory failure; otherwise exactly one result per reported
      name, each the one that name gets on its own, and every entry as its own
      name's handling leaves it. */
  ghost predicate SyncPost(d: DestDir, desired: map<string, string>, dry: bool, faults: set<Fault>,
                           results: seq<LinkResult>, after: DestDir)
  {
    match DirFailure(d, dry, faults)
    case Some(e) =>
      results == [Failed("", e)] && after == (if e == CreateDestDir then d else Prepared(d, dry))
    case None =>
      && |results| == |Touched(d, desired, faults)|
      && NamesOf(results) == Touched(d, desired, faults)
      && (forall r :: r in results ==>
            r.name in Touched(d, desired, faults) && r == Expected(d, desired, dry, faults, r.name).result)
      && after == (if Prepared(d, dry).Missing? then Missing else Present(ExpectedEntries(d, desired, dry, faults)))
  }

  /** The loop over a full enumeration of the reported names reports each
      name once, with the result that name gets on its own. */
  lemma PassResultsMeetPost(d: DestDir, desired: map<string, string>, dry: bool, faults: set<Fault>,
                            order: seq<string>)
    requires IsEnumeration(order, Touched(d, desired, faults))
    requires forall i :: 0 <= i < |order| ==> order[i] in desired || order[i] in Scan(d, faults)
    requires Agrees(Entries(d), Scan(d, faults), order)
    ensures var p := RunAll(Entries(d), Scan(d, faults), desired, order, dry, faults);
            && |p.results| == |Touched(d, desired, faults)|
            && NamesOf(p.results) == Touched(d, desired, faults)
            && (forall r :: r in p.results ==>
                  r.name in Touched(d, desired, faults) && r == Expected(d, desired, dry, faults, r.name).result)
  {
    var p := RunAll(Entries(d), Scan(d, faults), desired, order, dry, faults);
    assert |p.results| == |order| && forall i :: 0 <= i < |order| ==>
             order[i] in Touched(d, desired, faults) &&
             p.results[i] == Expected(d, desired, dry, faults, order[i]).result by {
      RunAllResultsPerName(Entries(d), Scan(d, faults), desired, order, dry, faults);
    }
    PassReportsEachName(d, desired, dry, faults, order, p);
    EnumerationSize(order, Touched(d, desired, faults));
  }

  /** The loop over a full enumeration of the reported names leaves every
      entry as its own name's handling leaves it. */
  lemma PassEntriesMeetPost(d: DestDir, desired: map<string, string>, dry: bool, faults: set<Fault>,
                            order: seq<string>)
    requires IsEnumeration(order, Touched(d, desired, faults))
    requires forall i :: 0 <= i < |order| ==> order[i] in desired || order[i] in Scan(d, faults)
    requires Agrees(Entries(d), Scan(d, faults), order)
    ensures RunAll(Entries(d), Scan(d, faults), desired, order, dry, faults).fs == ExpectedEntries(d, desired, dry, faults)
  {
    var p := RunAll(Entries(d), Scan(d, faults), desired, order, dry, faults);
    assert forall n :: At(p.fs, n) ==
             if n in order then Expected(d, desired, dry, faults, n).after else At(Entries(d), n) by {
      RunAllEntriesPerName(Entries(d), Scan(d, faults), desired, order, dry, faults);
    }
    PassLeavesExpectedEntries(d, desired, dry, faults, order, p);
  }

  /** Every iteration order gives a run that meets `SyncPost`. */
  lemma SyncWithMeetsPost(d: DestDir, desired: map<string, string>, dry: bool,
                          faults: set<Fault>, desiredOrder: seq<string>,
                          staleOrder: seq<string>)
    requires IsEnumeration(desiredOrder, desired.Keys)
    requires IsEnumeration(staleOrder, Scan(d, faults).Keys - desired.Keys)
    ensures SyncPost(d, desired, dry, faults,
                     SyncWith(d, desired, dry, faults, desiredOrder, staleOrder).results,
                     SyncWith(d, desired, dry, faults, desiredOrder, staleOrder).dir)
  {
    if DirFailure(d, dry, faults).None? {
      var d1 := Prepared(d, dry);
      assert Scan(d1, faults) == Scan(d, faults);
      assert Entries(d1) == Entries(d);
      var order := desiredOrder + staleOrder;
      CombinedOrder(desired, Scan(d, faults), desiredOrder, staleOrder);
      PassResultsMeetPost(d, desired, dry, faults, order);
      PassEntriesMeetPost(d, desired, dry, faults, order);
    }
  }

  lemma {:induction false} PassReportsEachName(d: DestDir, desired: map<string, string>, dry: bool,
                                               faults: set<Fault>, order: seq<string>, p: Pass)
    requires IsEnumeration(order, Touched(d, desired, faults))
    requires |p.results| == |order|
    requires forall i :: 0 <= i < |order| ==>
               order[i] in Touched(d, desired, faults) &&
               p.results[i] == Expected(d, desired, dry, faults, order[i]).result
    ensures NamesOf(p.results) == Touched(d, desired, faults)
    ensures forall r :: r in p.results ==>
              r.name in Touched(d, desired, faults) && r == Expected(d, desired, dry, faults, r.name).result
  {
    var touched := Touched(d, desired, faults);
    forall r | r in p.results
      ensures r.name in touched && r == Expected(d, desired, dry, faults, r.name).result
    {
      var i :| 0 <= i < |p.results| && p.results[i] == r;
      assert r.name == order[i];
    }
    forall n | n in touched ensures n in NamesOf(p.results) {
      var i :| 0 <= i < |order| && order[i] == n;
      assert p.results[i].name == n;
    }
  }

  lemma {:induction false} PassLeavesExpectedEntries(d: DestDir, desired: map<string, string>, dry: bool,
                                                     faults: set<Fault>, order: seq<string>, p: Pass)
    requires IsEnumeration(order, Touched(d, desired, faults))
    requires forall n :: At(p.fs, n) ==
               if n in order then Expected(d, desired, dry, faults, n).after else At(Entries(d), n)
    ensures p.fs == ExpectedEntries(d, desired, dry, faults)
  {
    var want := ExpectedEntries(d, desired, dry, faults);
    forall n ensures At(p.fs, n) == At(want, n) {
      assert NewAt(d, desired, dry, faults, n) == At(p.fs, n);
    }
    AtExtensional(p.fs, want);
  }

  // ---------------------------------------------------------------------------
  // Laws of a run, for any results and final state `Sync` can return

  /** The result one reported name gets, by the state machine of the code. */
  lemma ExpectedResultClassified(d: DestDir, desired: map<string, string>, dry: bool, faults: set<Fault>,
                                 n: string)
    requires n in Touched(d, desired, faults)
    ensures var r := Expected(d, desired, dry, faults, n).result;
            && r.name == n
            && (n in desired ==>
                  && r.action != Remove
                  && (r.err.None? ==>
                        r.target == desired[n] && r.action == Classify(Scan(d, faults), n, desired[n])))
            && (n !in desired ==>
                  && n in Scan(d, faults)
                  && (r == Done(n, Scan(d, faults)[n], Remove) || r == Failed(n, RemoveFailed)))
  {
  }

  /** The entry one reported name is left with. */
  lemma ExpectedEntryFor(d: DestDir, desired: map<string, string>, dry: bool, faults: set<Fault>, n: string)
    requires n in Touched(d, desired, faults)
    ensures var s := Expected(d, desired, dry, faults, n);
            && (dry ==> s.result.err.None? && s.after == At(Entries(d), n))
            && (!dry && s.result.err.None? ==>
                  s.after == if n in desired then Some(Symlink(desired[n])) else None)
  {
  }

  /** Each desired name and each stale scanned link is reported; a desired name
      is linked, skipped or updated as the scan dictates and is never removed;
      a stale link is removed. */
  lemma SyncClassification(d: DestDir, desired: map<string, string>, dry: bool, faults: set<Fault>,
                           results: seq<LinkResult>, after: DestDir)
    requires SyncPost(d, desired, dry, faults, results, after)
    requires DirFailure(d, dry, faults).None?
    ensures forall n :: n in desired ==> n in NamesOf(results)
    ensures forall n :: n in Scan(d, faults) ==> n in NamesOf(results)
    ensures forall r :: r in results && r.name in desired ==>
              && r.action != Remove
              && (r.err.None? ==>
                    r.target == desired[r.name] && r.action == Classify(Scan(d, faults), r.name, desired[r.name]))
    ensures forall r :: r in results && r.name !in desired ==>
              && r.name in Scan(d, faults)
              && (r == Done(r.name, Scan(d, faults)[r.name], Remove) || r == Failed(r.name, RemoveFailed))
  {
    forall r | r in results
      ensures r.name in Touched(d, desired, faults) && r == Expected(d, desired, dry, faults, r.name).result
    {
    }
    forall r | r in results ensures r.name in desired ==> r.action != Remove {
      ExpectedResultClassified(d, desired, dry, faults, r.name);
    }
    forall r | r in results && r.name in desired && r.err.None?
      ensures r.target == desired[r.name] && r.action == Classify(Scan(d, faults), r.name, desired[r.name])
    {
      ExpectedResultClassified(d, desired, dry, faults, r.name);
    }
    forall r | r in results && r.name !in desired
      ensures r.name in Scan(d, faults)
      ensures r == Done(r.name, Scan(d, faults)[r.name], Remove) || r == Failed(r.name, RemoveFailed)
    {
      ExpectedResultClassified(d, desired, dry, faults, r.name);
    }
  }

  lemma {:induction false} NamesBound(xs: seq<LinkResult>)
    ensures |NamesOf(xs)| <= |xs|
  {
    if xs != [] {
      NamesBound(xs[1..]);
      assert NamesOf(xs) == {xs[0].name} + NamesOf(xs[1..]);
    }
  }

  /** As many names as results: no name repeats. */
  lemma {:induction false} CountedNamesDistinct(results: seq<LinkResult>)
    requires |NamesOf(results)| == |results|
    ensures forall i, j :: 0 <= i < j < |results| ==> results[i].name != results[j].name
  {
    forall i, j | 0 <= i < j < |results| ensures results[i].name != results[j].name {
      if results[i].name == results[j].name {
        var rest := results[..j] + results[j + 1..];
        assert results == results[..j] + [results[j]] + results[j + 1..];
        assert NamesOf(results) == NamesOf(rest) by {
          assert results[i] in rest;
        }
        NamesBound(rest);
        assert false;
      }
    }
  }

  /** Two results of one run never share a name. */
  lemma SyncOneResultPerName(d: DestDir, desired: map<string, string>, dry: bool,
                             faults: set<Fault>, results: seq<LinkResult>, after: DestDir)
    requires SyncPost(d, desired, dry, faults, results, after)
    requires DirFailure(d, dry, faults).None?
    ensures forall i, j :: 0 <= i < j < |results| ==> results[i].name != results[j].name
  {
    CountedNamesDistinct(results);
  }

  /** The entries a run leaves, name by name. */
  lemma ExpectedEntriesAt(d: DestDir, desired: map<string, string>, dry: bool, faults: set<Fault>)
    ensures forall n :: At(ExpectedEntries(d, desired, dry, faults), n) == NewAt(d, desired, dry, faults, n)
  {
  }

  lemma {:induction false} DryEntriesUnchanged(d: DestDir, desired: map<string, string>, faults: set<Fault>)
    ensures ExpectedEntries(d, desired, true, faults) == Entries(d)
  {
    var want := ExpectedEntries(d, desired, true, faults);
    ExpectedEntriesAt(d, desired, true, faults);
    forall n ensures At(want, n) == At(Entries(d), n) {
      if n in Touched(d, desired, faults) {
        ExpectedEntryFor(d, desired, true, faults, n);
      }
    }
    AtExtensional(want, Entries(d));
  }

  /** A dry run changes nothing and reports no error beyond an unreadable directory. */
  lemma {:induction false} SyncDryRunLeavesStateAlone(d: DestDir, desired: map<string, string>,
                                                      faults: set<Fault>, results: seq<LinkResult>,
                                                      after: DestDir)
    requires SyncPost(d, desired, true, faults, results, after)
    ensures after == d
    ensures DirFailure(d, true, faults).None? ==> forall r :: r in results ==> r.err.None?
  {
    if DirFailure(d, true, faults).None? {
      forall r | r in results ensures r.err.None? {
        ExpectedEntryFor(d, desired, true, faults, r.name);
      }
      DryEntriesUnchanged(d, desired, faults);
    }
  }

  /** Each reported name's expected result is in the report. */
  lemma ExpectedReported(d: DestDir, desired: map<string, string>, dry: bool, faults: set<Fault>,
                         results: seq<LinkResult>, after: DestDir, n: string)
    requires SyncPost(d, desired, dry, faults, results, after)
    requires DirFailure(d, dry, faults).None? && n in Touched(d, desired, faults)
    ensures Expected(d, desired, dry, faults, n).result in results
  {
    assert n in NamesOf(results);
    var q :| q in results && q.name == n;
  }

  /** A dry run reports what a real run does wherever the real run succeeds. */
  lemma {:induction false} SyncDryRunPredictsWetRun(d: DestDir, desired: map<string, string>,
                                                    faults: set<Fault>,
                                                    dryResults: seq<LinkResult>, dryAfter: DestDir,
                                                    wetResults: seq<LinkResult>, wetAfter: DestDir)
    requires SyncPost(d, desired, true, faults, dryResults, dryAfter)
    requires SyncPost(d, desired, false, faults, wetResults, wetAfter)
    requires MkdirFails !in faults && ReadDirFails !in faults
    ensures NamesOf(dryResults) == NamesOf(wetResults)
    ensures forall r :: r in wetResults && r.err.None? ==> r in dryResults
  {
    forall r | r in wetResults && r.err.None? ensures r in dryResults {
      ExpectedEntryFor(d, desired, false, faults, r.name);
      ExpectedReported(d, desired, true, faults, dryResults, dryAfter, r.name);
    }
  }

  /** A run whose results carry no error got past the directory and had every
      reported name succeed. */
  lemma {:induction false} ErrorFreeRun(d: DestDir, desired: map<string, string>, dry: bool, faults: set<Fault>,
                                        results: seq<LinkResult>, after: DestDir)
    requires SyncPost(d, desired, dry, faults, results, after)
    requires forall r :: r in results ==> r.err.None?
    ensures DirFailure(d, dry, faults).None?
    ensures forall n :: n in Touched(d, desired, faults) ==> Expected(d, desired, dry, faults, n).result.err.None?
  {
    if DirFailure(d, dry, faults).None? {
      forall n | n in Touched(d, desired, faults)
        ensures Expected(d, desired, dry, faults, n).result.err.None?
      {
        assert n in NamesOf(results);
        var r :| r in results && r.name == n;
      }
    }
  }

  /** The entries of a real run in which every reported name succeeded. */
  lemma {:induction false} ConvergedEntries(d: DestDir, desired: map<string, string>, faults: set<Fault>)
    requires forall n :: n in Touched(d, desired, faults) ==> Expected(d, desired, false, faults, n).result.err.None?
    ensures var fs := ExpectedEntries(d, desired, false, faults);
            && (forall n :: n in desired ==> At(fs, n) == Some(Symlink(desired[n])))
            && (forall n :: n !in desired && n in Scan(d, faults) ==> At(fs, n) == None)
            && (forall n :: n !in desired && n !in Scan(d, faults) ==> At(fs, n) == At(Entries(d), n))
  {
    ExpectedEntriesAt(d, desired, false, faults);
    forall n | n in Touched(d, desired, faults)
      ensures NewAt(d, desired, false, faults, n) == if n in desired then Some(Symlink(desired[n])) else None
    {
      ExpectedEntryFor(d, desired, false, faults, n);
    }
  }

  /** After a real run without errors every desired name links to its target,
      every scanned stale link is gone, and every other entry is as it was. */
  lemma {:induction false} SyncConverges(d: DestDir, desired: map<string, string>, faults: set<Fault>,
                                         results: seq<LinkResult>, after: DestDir)
    requires SyncPost(d, desired, false, faults, results, after)
    requires forall r :: r in results ==> r.err.None?
    ensures after.Present?
    ensures forall n :: n in desired ==> At(after.entries, n) == Some(Symlink(desired[n]))
    ensures forall n :: n !in desired && n in Scan(d, faults) ==> At(after.entries, n) == None
    ensures forall n :: n !in desired && n !in Scan(d, faults) ==> At(after.entries, n) == At(Entries(d), n)
  {
    ErrorFreeRun(d, desired, false, faults, results, after);
    ConvergedEntries(d, desired, faults);
  }

  /** The symbolic links of a directory, name to target. */
  function Links(fs: map<string, Entry>): (links: map<string, string>)
    ensures forall n :: n in links <==> n in fs && fs[n].Symlink?
  {
    map n | n in fs && fs[n].Symlink? :: fs[n].target
  }

  /** A desired name held by an entry that is not a link: the real run fails to
      create the link and leaves the entry alone. */
  lemma OccupiedNameFails(d: DestDir, desired: map<string, string>, faults: set<Fault>, n: string)
    requires n in desired && At(Entries(d), n) == Some(Other)
    ensures n in Touched(d, desired, faults)
    ensures Expected(d, desired, false, faults, n) == Step(Failed(n, SymlinkFailed), Some(Other))
  {
  }

  /** The entries `SyncConverges` describes, with every link readable and no
      desired name held by another kind of entry: the links are exactly the
      desired ones, and the other entries are those that were there. */
  lemma ExactLinks(d: DestDir, desired: map<string, string>, faults: set<Fault>, after: DestDir)
    requires after.Present?
    requires forall n :: n in desired ==> At(after.entries, n) == Some(Symlink(desired[n]))
    requires forall n :: n !in desired && n in Scan(d, faults) ==> At(after.entries, n) == None
    requires forall n :: n !in desired && n !in Scan(d, faults) ==> At(after.entries, n) == At(Entries(d), n)
    requires forall n :: ReadlinkFails(n) !in faults
    requires forall n :: n in desired ==> At(Entries(d), n) != Some(Other)
    ensures Links(after.entries) == desired
    ensures forall n :: At(after.entries, n) == Some(Other) <==> At(Entries(d), n) == Some(Other)
  {
    var fs := after.entries;
    forall n ensures n in Links(fs) <==> n in desired {
      if n !in desired && n in Entries(d) && Entries(d)[n].Symlink? {
        assert n in Scan(d, faults);
      }
    }
    forall n | n in desired ensures Links(fs)[n] == desired[n] {
      assert At(fs, n) == Some(Symlink(desired[n]));
    }
  }

  /** With every link readable, a real run without errors leaves exactly the
      desired links, and the entries that are not links are untouched. */
  lemma SyncConvergesExactly(d: DestDir, desired: map<string, string>, faults: set<Fault>,
                             results: seq<LinkResult>, after: DestDir)
    requires SyncPost(d, desired, false, faults, results, after)
    requires forall r :: r in results ==> r.err.None?
    requires forall n :: ReadlinkFails(n) !in faults
    ensures after.Present? && Links(after.entries) == desired
    ensures forall n :: At(after.entries, n) == Some(Other) <==> At(Entries(d), n) == Some(Other)
  {
    SyncConverges(d, desired, faults, results, after);
    ErrorFreeRun(d, desired, false, faults, results, after);
    forall n | n in desired ensures At(Entries(d), n) != Some(Other) {
      if At(Entries(d), n) == Some(Other) {
        OccupiedNameFails(d, desired, faults, n);
      }
    }
    ExactLinks(d, desired, faults, after);
  }

  /** A non-symbolic-link entry at a desired name is reported as a failed link
      and left in place. */
  lemma {:induction false} SyncConflictReported(d: DestDir, desired: map<string, string>, faults: set<Fault>,
                                                results: seq<LinkResult>, after: DestDir, n: string)
    requires SyncPost(d, desired, false, faults, results, after)
    requires DirFailure(d, false, faults).None?
    requires n in desired && At(Entries(d), n) == Some(Other)
    ensures Failed(n, SymlinkFailed) in results
    ensures after.Present? && At(after.entries, n) == Some(Other)
  {
    OccupiedNameFails(d, desired, faults, n);
    assert n in NamesOf(results);
    var r :| r in results && r.name == n;
    ExpectedEntriesAt(d, desired, false, faults);
  }

  /** A desired name already linked to its target is skipped and left alone. */
  lemma LinkedNameSkipped(d: DestDir, desired: map<string, string>, dry: bool, faults: set<Fault>, n: string)
    requires n in desired && n in Scan(d, faults) && Scan(d, faults)[n] == desired[n]
    ensures n in Touched(d, desired, faults)
    ensures Expected(d, desired, dry, faults, n) == Step(Done(n, desired[n], Skip), At(Entries(d), n))
  {
  }

  /** A directory whose links are exactly the desired ones, each readable,
      scans to the desired map. */
  lemma ScanOfLinked(after: DestDir, desired: map<string, string>, faults: set<Fault>)
    requires after.Present?
    requires forall n :: n in desired ==> At(after.entries, n) == Some(Symlink(desired[n]))
    requires forall n :: n !in desired ==> At(after.entries, n).None? || At(after.entries, n) == Some(Other)
                                           || ReadlinkFails(n) in faults
    requires forall n :: n in desired ==> ReadlinkFails(n) !in faults
    ensures Scan(after, faults) == desired
  {
    var scan := Scan(after, faults);
    forall n | n in scan ensures n in desired {
      assert At(after.entries, n) == Some(Symlink(scan[n]));
    }
    forall n | n in desired ensures n in scan && scan[n] == desired[n] {
      assert At(after.entries, n) == Some(Symlink(desired[n]));
    }
  }

  /** The entries `SyncConverges` describes scan to the desired links. */
  lemma ConvergedLinks(d: DestDir, desired: map<string, string>, faults: set<Fault>, after: DestDir)
    requires after.Present?
    requires forall n :: n in desired ==> At(after.entries, n) == Some(Symlink(desired[n]))
    requires forall n :: n !in desired && n in Scan(d, faults) ==> At(after.entries, n) == None
    requires forall n :: n !in desired && n !in Scan(d, faults) ==> At(after.entries, n) == At(Entries(d), n)
    requires forall n :: n in desired ==> ReadlinkFails(n) !in faults
    ensures Scan(after, faults) == desired
  {
    forall n | n !in desired
      ensures At(after.entries, n).None? || At(after.entries, n) == Some(Other) || ReadlinkFails(n) in faults
    {
      if n !in Scan(d, faults) {
        assert At(after.entries, n) == At(Entries(d), n);
        if n in Entries(d) && Entries(d)[n].Symlink? {
          assert ReadlinkFails(n) in faults;
        }
      }
    }
    ScanOfLinked(after, desired, faults);
  }

  /** After an error-free real run, a scan in the same environment finds
      exactly the desired links, provided they can be read back. */
  lemma ConvergedScan(d: DestDir, desired: map<string, string>, faults: set<Fault>,
                      results: seq<LinkResult>, after: DestDir)
    requires SyncPost(d, desired, false, faults, results, after)
    requires forall r :: r in results ==> r.err.None?
    requires forall n :: n in desired ==> ReadlinkFails(n) !in faults
    ensures DirFailure(after, false, faults).None?
    ensures Scan(after, faults) == desired
  {
    SyncConverges(d, desired, faults, results, after);
    ErrorFreeRun(d, desired, false, faults, results, after);
    ConvergedLinks(d, desired, faults, after);
  }

  /** When the scan already equals the desired links, every name is skipped and
      nothing changes. */
  lemma {:induction false} LinkedRunSkips(d: DestDir, desired: map<string, string>, faults: set<Fault>)
    requires Scan(d, faults) == desired
    ensures Touched(d, desired, faults) == desired.Keys
    ensures forall n :: n in desired ==>
              Expected(d, desired, false, faults, n).result == Done(n, desired[n], Skip)
    ensures ExpectedEntries(d, desired, false, faults) == Entries(d)
  {
    forall n | n in desired ensures Expected(d, desired, false, faults, n).result == Done(n, desired[n], Skip) {
      LinkedNameSkipped(d, desired, false, faults, n);
    }
    var want := ExpectedEntries(d, desired, false, faults);
    ExpectedEntriesAt(d, desired, false, faults);
    forall n ensures At(want, n) == At(Entries(d), n) {
      if n in desired {
        LinkedNameSkipped(d, desired, false, faults, n);
      }
    }
    AtExtensional(want, Entries(d));
  }

  /** A real run whose every result was error-free, repeated in the same
      environment, only skips and changes nothing, provided the new links can
      be read back. */
  lemma {:induction false} SyncIdempotent(d: DestDir, desired: map<string, string>, faults: set<Fault>,
                                          results1: seq<LinkResult>, after1: DestDir,
                                          results2: seq<LinkResult>, after2: DestDir)
    requires SyncPost(d, desired, false, faults, results1, after1)
    requires forall r :: r in results1 ==> r.err.None?
    requires forall n :: n in desired ==> ReadlinkFails(n) !in faults
    requires SyncPost(after1, desired, false, faults, results2, after2)
    ensures after2 == after1
    ensures |results2| == |desired|
    ensures forall r :: r in results2 ==> r.name in desired && r == Done(r.name, desired[r.name], Skip)
  {
    ConvergedScan(d, desired, faults, results1, after1);
    SyncConverges(d, desired, faults, results1, after1);
    LinkedRunSkips(after1, desired, faults);
  }

  /** The entry name a per-entry fault is about; none for directory faults. */
  function Subject(f: Fault): Option<string> {
    match f
    case ReadlinkFails(n) => Some(n)
    case RemoveFails(n) => Some(n)
    case SymlinkFails(n) => Some(n)
    case _ => None
  }

  /** No fault of `extra` concerns the entry `n`. */
  predicate Spares(extra: set<Fault>, n: string) {
    forall f :: f in extra ==> Subject(f) != Some(n)
  }

  /** What a name gets does not depend on failures at other names. */
  lemma FailureIsLocal(d: DestDir, desired: map<string, string>, dry: bool, faults: set<Fault>,
                       extra: set<Fault>, n: string)
    requires n in Touched(d, desired, faults)
    requires Spares(extra, n)
    ensures n in Touched(d, desired, faults + extra)
    ensures Expected(d, desired, dry, faults + extra, n) == Expected(d, desired, dry, faults, n)
  {
    assert Subject(ReadlinkFails(n)) == Some(n) && Subject(RemoveFails(n)) == Some(n);
    assert Subject(SymlinkFails(n)) == Some(n);
  }

  /** Adding failures at some entries changes no result at any other entry: one
      name's failure does not stop or alter the handling of the rest. */
  lemma {:induction false} SyncFailureIsLocal(d: DestDir, desired: map<string, string>, dry: bool,
                                              faults: set<Fault>, extra: set<Fault>,
                                              results1: seq<LinkResult>, after1: DestDir,
                                              results2: seq<LinkResult>, after2: DestDir)
    requires SyncPost(d, desired, dry, faults, results1, after1)
    requires SyncPost(d, desired, dry, faults + extra, results2, after2)
    requires forall f :: f in extra ==> Subject(f).Some?
    ensures forall r :: r in results1 && Spares(extra, r.name) ==> r in results2
  {
    assert DirFailure(d, dry, faults + extra) == DirFailure(d, dry, faults) by {
      assert Subject(MkdirFails).None? && Subject(ReadDirFails).None?;
    }
    if DirFailure(d, dry, faults).None? {
      forall r | r in results1 && Spares(extra, r.name) ensures r in results2 {
        FailureIsLocal(d, desired, dry, faults, extra, r.name);
        ExpectedReported(d, desired, dry, faults + extra, results2, after2, r.name);
      }
    }
  }

  // ---------------------------------------------------------------------------
  // The operation

  /** Some order in which Go may iterate over `s`. */
  method Enumerate(s: set<string>) returns (order: seq<string>)
    ensures IsEnumeration(order, s)
  {
    order := [];
    var rest := s;
    while rest != {}
      invariant rest <= s
      invariant Distinct(order)
      invariant forall x :: x in order ==> x in s && x !in rest
      invariant forall x :: x in s ==> x in order || x in rest
      decreases rest
    {
      var x :| x in rest;
      order := order + [x];
      rest := rest - {x};
    }
  }

  /** `Linker{DestDir, Dry: dry}.Sync(desired)`: the destination `d` becomes
      `after`, and `results` are reported in Go's unspecified map order. */
  method Sync(d: DestDir, desired: map<string, string>, dry: bool, faults: set<Fault>)
    returns (results: seq<LinkResult>, after: DestDir)
    ensures SyncPost(d, desired, dry, faults, results, after)
  {
    var desiredOrder := Enumerate(desired.Keys);
    var staleOrder := Enumerate(Scan(d, faults).Keys - desired.Keys);
    var run := SyncWith(d, desired, dry, faults, desiredOrder, staleOrder);
    SyncWithMeetsPost(d, desired, dry, faults, desiredOrder, staleOrder);
    results, after := run.results, run.dir;
  }

  // ---------------------------------------------------------------------------
  // Install: additive linking of the skills of one source

  /** os.Readlink succeeds at `name`: a symbolic link whose target can be read. */
  predicate Readable(fs: map<string, Entry>, name: string, faults: set<Fault>) {
    name in fs && fs[name].Symlink? && ReadlinkFails(name) !in faults
  }

  /** `installOne(baseName, s)` against the entries `fs`: the result and the
      entry left at the skill's name. `abs` is filepath.Abs. */
  function InstallOne(fs: map<string, Entry>, baseName: string, s: Found,
                      abs: string -> Result<string, string>, faults: set<Fault>): (st: Step)
    ensures st.result.name == Namer.SkillName(baseName, s.relPath)
    ensures var name := Namer.SkillName(baseName, s.relPath);
            && (abs(s.skillDir).Err? ==> st == Step(Failed(name, AbsFailed), At(fs, name)))
            && (abs(s.skillDir).Ok? && Readable(fs, name, faults) && fs[name].target == abs(s.skillDir).value ==>
                  st == Step(Done(name, abs(s.skillDir).value, Skip), At(fs, name)))
            && (abs(s.skillDir).Ok? && name in fs && !Readable(fs, name, faults) ==>
                  st == Step(Failed(name, UnexpectedFile), At(fs, name)))
            && (st.result.err.None? ==>
                  abs(s.skillDir).Ok? && st.result.target == abs(s.skillDir).value &&
                  st.after == Some(Symlink(abs(s.skillDir).value)))
            && (st.result.action == Update ==>
                  Readable(fs, name, faults) && fs[name].target != abs(s.skillDir).value && fs[name].target != "")
            && (st.result.action == Create ==>
                  name !in fs || (Readable(fs, name, faults) && fs[name].target == ""))
            && (st.result.err.Some? ==> st.after == At(fs, name) || st.after == None)
  {
    var name := Namer.SkillName(baseName, s.relPath);
    var here := At(fs, name);
    match abs(s.skillDir)
    case Err(_) => Step(Failed(name, AbsFailed), here)
    case Ok(absTarget) =>
      if !Readable(fs, name, faults) && here.Some? then
        // a regular file or directory, or a link that cannot be read
        Step(Failed(name, UnexpectedFile), here)
      else
        // Go's `existing` is "" when os.Readlink reported that nothing is there
        var existing := if here.Some? then fs[name].target else "";
        if here.Some? && existing == absTarget then
          Step(Done(name, absTarget, Skip), here)
        else if here.Some? && RemoveFails(name) in faults then
          Step(Failed(name, RemoveOldSymlink), here)
        else if SymlinkFails(name) in faults then
          Step(Failed(name, SymlinkFailed), None)
        else
          Step(Done(name, absTarget, if existing != "" then Update else Create), Some(Symlink(absTarget)))
  }

  /** What `installOne` does in each remaining case: an absent name is linked,
      a readable link to another target is removed and linked anew, and the
      result carries an error exactly when a call fails or the name is taken
      by something that is not a readable link. */
  lemma InstallOneOutcomes(fs: map<string, Entry>, baseName: string, s: Found,
                           abs: string -> Result<string, string>, faults: set<Fault>)
    ensures var st := InstallOne(fs, baseName, s, abs, faults);
            var name := Namer.SkillName(baseName, s.relPath);
            var target := abs(s.skillDir);
            // an absent name is linked, unless os.Symlink fails
            && (target.Ok? && name !in fs ==>
                  st == if SymlinkFails(name) in faults then Step(Failed(name, SymlinkFailed), None)
                        else Step(Done(name, target.value, Create), Some(Symlink(target.value))))
            // a readable link to another target is removed and linked anew
            && (target.Ok? && Readable(fs, name, faults) && fs[name].target != target.value ==>
                  st == if RemoveFails(name) in faults then Step(Failed(name, RemoveOldSymlink), At(fs, name))
                        else if SymlinkFails(name) in faults then Step(Failed(name, SymlinkFailed), None)
                        else Step(Done(name, target.value, if fs[name].target != "" then Update else Create),
                                  Some(Symlink(target.value))))
    ensures var st := InstallOne(fs, baseName, s, abs, faults);
            var name := Namer.SkillName(baseName, s.relPath);
            var target := abs(s.skillDir);
            st.result.err.Some? <==>
              || target.Err?
              || (name in fs && !Readable(fs, name, faults))
              || (Readable(fs, name, faults) && fs[name].target != target.value && RemoveFails(name) in faults)
              || (!(Readable(fs, name, faults) && fs[name].target == target.value) && SymlinkFails(name) in faults)
  {
  }

  /** The link names the skills of one source are installed under. */
  function SkillNames(baseName: string, skills: seq<Found>): set<string> {
    set i | 0 <= i < |skills| :: Namer.SkillName(baseName, skills[i].relPath)
  }

  lemma SkillNamesCons(baseName: string, skills: seq<Found>)
    requires skills != []
    ensures SkillNames(baseName, skills)
            == {Namer.SkillName(baseName, skills[0].relPath)} + SkillNames(baseName, skills[1..])
  {
    assert forall i :: 0 < i < |skills| ==> skills[i] == skills[1..][i - 1];
  }

  /** With distinct names, the first skill's name is not among the others'. */
  lemma FirstNameNotInTail(baseName: string, skills: seq<Found>)
    requires DistinctNames(baseName, skills) && skills != []
    ensures Namer.SkillName(baseName, skills[0].relPath) !in SkillNames(baseName, skills[1..])
    ensures DistinctNames(baseName, skills[1..])
  {
    assert forall i :: 0 <= i < |skills[1..]| ==> skills[1..][i] == skills[i + 1];
  }

  /** The loop of `Install`: each skill in slice order, against the live entries.
      One result per skill, and no entry outside the skills' names changes. */
  function InstallAll(fs: map<string, Entry>, baseName: string, skills: seq<Found>,
                      abs: string -> Result<string, string>, faults: set<Fault>): (p: Pass)
    ensures |p.results| == |skills|
    ensures forall i :: 0 <= i < |skills| ==> p.results[i].name == Namer.SkillName(baseName, skills[i].relPath)
    ensures forall n :: n !in SkillNames(baseName, skills) ==> At(p.fs, n) == At(fs, n)
    decreases |skills|
  {
    if skills == [] then Pass([], fs)
    else
      var st := InstallOne(fs, baseName, skills[0], abs, faults);
      var name := Namer.SkillName(baseName, skills[0].relPath);
      var rest := InstallAll(Put(fs, name, st.after), baseName, skills[1..], abs, faults);
      SkillNamesCons(baseName, skills);
      var results := [st.result] + rest.results;
      assert forall i :: 0 <= i < |skills| ==> results[i].name == Namer.SkillName(baseName, skills[i].relPath) by {
        forall i | 0 < i < |skills| ensures results[i].name == Namer.SkillName(baseName, skills[i].relPath) {
          assert results[i] == rest.results[i - 1] && skills[i] == skills[1..][i - 1];
        }
      }
      Pass(results, rest.fs)
  }

  /** `Linker.Install(baseName, skills)`: additive only, and the dry flag plays no part. */
  function Install(d: DestDir, baseName: string, skills: seq<Found>,
                   abs: string -> Result<string, string>, faults: set<Fault>): (run: SyncRun)
    ensures MkdirFails in faults ==> run == SyncRun([Failed("", CreateDestDir)], d)
    ensures MkdirFails !in faults ==>
              && run.dir.Present?
              && |run.results| == |skills|
              && (forall i :: 0 <= i < |skills| ==>
                    run.results[i].name == Namer.SkillName(baseName, skills[i].relPath))
              && (forall n :: n !in SkillNames(baseName, skills) ==> At(run.dir.entries, n) == At(Entries(d), n))
  {
    if MkdirFails in faults then SyncRun([Failed("", CreateDestDir)], d)
    else
      var p := InstallAll(Entries(d), baseName, skills, abs, faults);
      SyncRun(p.results, Present(p.fs))
  }

  /** No two skills of the source are installed under the same link name. */
  predicate DistinctNames(baseName: string, skills: seq<Found>) {
    forall i, j :: 0 <= i < j < |skills| ==>
      Namer.SkillName(baseName, skills[i].relPath) != Namer.SkillName(baseName, skills[j].relPath)
  }

  /** `installOne` looks only at the entry under the skill's own name. */
  lemma InstallOneLocal(fs: map<string, Entry>, fs': map<string, Entry>, baseName: string, s: Found,
                        abs: string -> Result<string, string>, faults: set<Fault>)
    requires At(fs, Namer.SkillName(baseName, s.relPath)) == At(fs', Namer.SkillName(baseName, s.relPath))
    ensures InstallOne(fs, baseName, s, abs, faults) == InstallOne(fs', baseName, s, abs, faults)
  {
    var name := Namer.SkillName(baseName, s.relPath);
    assert Readable(fs, name, faults) == Readable(fs', name, faults);
  }

  /** With distinct names, each skill's result and the link it leaves are those
      of that skill installed alone against the initial entries. */
  lemma {:induction false} InstallAllPerName(fs: map<string, Entry>, baseName: string, skills: seq<Found>,
                                             abs: string -> Result<string, string>, faults: set<Fault>)
    requires DistinctNames(baseName, skills)
    ensures forall i :: 0 <= i < |skills| ==>
              InstallAll(fs, baseName, skills, abs, faults).results[i]
              == InstallOne(fs, baseName, skills[i], abs, faults).result
    ensures forall i :: 0 <= i < |skills| ==>
              At(InstallAll(fs, baseName, skills, abs, faults).fs, Namer.SkillName(baseName, skills[i].relPath))
              == InstallOne(fs, baseName, skills[i], abs, faults).after
    decreases |skills|
  {
    if skills != [] {
      var name := Namer.SkillName(baseName, skills[0].relPath);
      var st := InstallOne(fs, baseName, skills[0], abs, faults);
      var fs1 := Put(fs, name, st.after);
      var tail := skills[1..];
      FirstNameNotInTail(baseName, skills);
      InstallAllPerName(fs1, baseName, tail, abs, faults);
      var rest := InstallAll(fs1, baseName, tail, abs, faults);
      var p := InstallAll(fs, baseName, skills, abs, faults);
      assert p == Pass([st.result] + rest.results, rest.fs);
      assert At(p.fs, name) == st.after;
      forall i | 0 < i < |skills|
        ensures p.results[i] == InstallOne(fs, baseName, skills[i], abs, faults).result
        ensures At(p.fs, Namer.SkillName(baseName, skills[i].relPath))
                == InstallOne(fs, baseName, skills[i], abs, faults).after
      {
        assert skills[i] == tail[i - 1];
        InstallPastOther(fs, baseName, skills[0], skills[i], abs, faults);
      }
    }
  }

  /** Installing one skill leaves what another skill, under another name, then does unchanged. */
  lemma InstallPastOther(fs: map<string, Entry>, baseName: string, first: Found, s: Found,
                         abs: string -> Result<string, string>, faults: set<Fault>)
    requires Namer.SkillName(baseName, first.relPath) != Namer.SkillName(baseName, s.relPath)
    ensures var fs1 := Put(fs, Namer.SkillName(baseName, first.relPath), InstallOne(fs, baseName, first, abs, faults).after);
            InstallOne(fs1, baseName, s, abs, faults) == InstallOne(fs, baseName, s, abs, faults)
  {
    var fs1 := Put(fs, Namer.SkillName(baseName, first.relPath), InstallOne(fs, baseName, first, abs, faults).after);
    InstallOneLocal(fs1, fs, baseName, s, abs, faults);
  }

  /** A skill whose link is in place is skipped, and its link stays. */
  lemma LinkedSkillSkipped(fs: map<string, Entry>, baseName: string, s: Found,
                           abs: string -> Result<string, string>, faults: set<Fault>, target: string)
    requires abs(s.skillDir) == Ok(target)
    requires At(fs, Namer.SkillName(baseName, s.relPath)) == Some(Symlink(target))
    requires ReadlinkFails(Namer.SkillName(baseName, s.relPath)) !in faults
    ensures InstallOne(fs, baseName, s, abs, faults)
            == Step(Done(Namer.SkillName(baseName, s.relPath), target, Skip), Some(Symlink(target)))
  {
    assert Readable(fs, Namer.SkillName(baseName, s.relPath), faults);
  }

  /** Installing the same skills twice: when the first run links every skill,
      the second reports each as skipped and leaves the directory as it was. */
  lemma InstallIdempotent(d: DestDir, baseName: string, skills: seq<Found>,
                          abs: string -> Result<string, string>, faults: set<Fault>)
    requires MkdirFails !in faults
    requires DistinctNames(baseName, skills)
    requires forall i :: 0 <= i < |skills| ==> ReadlinkFails(Namer.SkillName(baseName, skills[i].relPath)) !in faults
    requires forall i :: 0 <= i < |skills| ==> Install(d, baseName, skills, abs, faults).results[i].err.None?
    ensures var first := Install(d, baseName, skills, abs, faults);
            var second := Install(first.dir, baseName, skills, abs, faults);
            && second.dir == first.dir
            && |second.results| == |skills|
            && forall i :: 0 <= i < |skills| ==> second.results[i] == first.results[i].(action := Skip)
  {
    var fs0 := Entries(d);
    var p1 := InstallAll(fs0, baseName, skills, abs, faults);
    var p2 := InstallAll(p1.fs, baseName, skills, abs, faults);
    InstallAllPerName(fs0, baseName, skills, abs, faults);
    InstallAllPerName(p1.fs, baseName, skills, abs, faults);
    forall i | 0 <= i < |skills|
      ensures p2.results[i] == p1.results[i].(action := Skip)
      ensures At(p2.fs, Namer.SkillName(baseName, skills[i].relPath)) == At(p1.fs, Namer.SkillName(baseName, skills[i].relPath))
    {
      var st := InstallOne(fs0, baseName, skills[i], abs, faults);
      assert st.result == p1.results[i] == Install(d, baseName, skills, abs, faults).results[i];
      assert st.result.err.None?;
      LinkedSkillSkipped(p1.fs, baseName, skills[i], abs, faults, st.result.target);
    }
    forall n ensures At(p2.fs, n) == At(p1.fs, n) {
      if n in SkillNames(baseName, skills) {
        var k :| 0 <= k < |skills| && Namer.SkillName(baseName, skills[k].relPath) == n;
      }
    }
    AtExtensional(p2.fs, p1.fs);
  }

  /** Two skills of one source can share a link name (relative paths "b/c" and
      "b_c" both flatten to "b_c"). Then the later skill's link replaces the
      earlier one, and a second install does not skip: it links the earlier
      skill's target again and reports an update. */
  lemma {:induction false} InstallCollisionUpdates(baseName: string, s0: Found, s1: Found,
                                                   abs: string -> Result<string, string>, t0: string, t1: string)
    requires Namer.SkillName(baseName, s0.relPath) == Namer.SkillName(baseName, s1.relPath)
    requires abs(s0.skillDir) == Ok(t0) && abs(s1.skillDir) == Ok(t1)
    requires t0 != t1 && t1 != ""
    ensures var first := Install(Present(map[]), baseName, [s0, s1], abs, {});
            var second := Install(first.dir, baseName, [s0, s1], abs, {});
            && first.results[0].err.None? && first.results[1].err.None?
            && second.results[0] == Done(Namer.SkillName(baseName, s0.relPath), t0, Update)
  {
    var name := Namer.SkillName(baseName, s0.relPath);
    var skills := [s0, s1];
    var fs0: map<string, Entry> := map[];
    var st0 := InstallOne(fs0, baseName, s0, abs, {});
    assert st0 == Step(Done(name, t0, Create), Some(Symlink(t0)));
    var fs1 := Put(fs0, name, st0.after);
    assert Readable(fs1, name, {});
    var st1 := InstallOne(fs1, baseName, s1, abs, {});
    assert st1.result.err.None? && st1.after == Some(Symlink(t1));
    var fs2 := Put(fs1, name, st1.after);
    assert skills[1..] == [s1] && [s1][1..] == [];
    assert InstallAll(fs2, baseName, [], abs, {}) == Pass([], fs2);
    assert InstallAll(fs1, baseName, [s1], abs, {}) == Pass([st1.result], fs2);
    var p1 := InstallAll(fs0, baseName, skills, abs, {});
    assert p1.results == [st0.result, st1.result] && p1.fs == fs2;
    assert Readable(fs2, name, {}) && fs2[name].target == t1;
    var again := InstallOne(fs2, baseName, s0, abs, {});
    assert again.result == Done(name, t0, Update);
    assert InstallAll(fs2, baseName, skills, abs, {}).results[0] == again.result;
  }

  /** The smallest such source: skills at "b/c" and "b_c" under base name "a". */
  lemma InstallCollisionExample()
    ensures var abs := (p: string) => Ok(p);
            var skills := [Found("a", "a/b/c", "b/c"), Found("a", "a/b_c", "b_c")];
            var first := Install(Present(map[]), "a", skills, abs, {});
            var second := Install(first.dir, "a", skills, abs, {});
            && (forall i :: 0 <= i < |skills| ==> first.results[i].err.None?)
            && second.results[0].action == Update
  {
    var abs := (p: string) => Ok(p);
    var skills := [Found("a", "a/b/c", "b/c"), Found("a", "a/b_c", "b_c")];
    Namer.SkillNameCollides();
    assert Namer.SkillName("a", "b_c") == "a_b_c" by {
      Namer.SkillNameSplits("a", "b_c");
    }
    InstallCollisionUpdates("a", skills[0], skills[1], abs, "a/b/c", "a/b_c");
  }
}
