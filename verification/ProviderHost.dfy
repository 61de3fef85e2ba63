/** The cache of provider packages of the plug-in runner (api/apps/plugin-runner/src/provider_host.rs). The file system
    is a parameter of every call, so it may change in any way between calls. */
module ProviderHost {
  import opened Wrappers

  type Path = string

  /** What the file system answers during one call: the canonical form of a path, and the valid packages. */
  datatype Disk = Disk(canonical: map<Path, Path>, packages: map<Path, Package>)

  datatype Package = Package(identifier: string, contents: string)

  datatype LoadedPackage = LoadedPackage(packageRoot: Path, package: Package)

  datatype Source = Source(packageRoot: Path, identity: Option<string>) {
    predicate CanSkipReload(requested: Source) {
      identity.Some? && this == requested
    }
  }

  datatype Error = CannotResolve | CannotLoad | WrongIdentifier(found: string) | NotLoaded

  function Canonicalize(disk: Disk, path: Path): Result<Path, Error> {
    if path in disk.canonical then Success(disk.canonical[path]) else Failure(CannotResolve)
  }

  function Resolve(disk: Disk, path: Path, identity: Option<string>): Result<Source, Error> {
    match Canonicalize(disk, path)
    case Failure(error) => Failure(error)
    case Success(root) => Success(Source(root, identity))
  }

  function ReadPackage(disk: Disk, path: Path): Result<LoadedPackage, Error> {
    match Canonicalize(disk, path)
    case Failure(error) => Failure(error)
    case Success(root) =>
      if root in disk.packages then Success(LoadedPackage(root, disk.packages[root])) else Failure(CannotLoad)
  }

  // ----- The calls on values -----

  /** Both maps of the host. */
  datatype Cache = Cache(packages: map<string, LoadedPackage>, sources: map<string, Source>)

  const EMPTY := Cache(map[], map[])

  function LoadingSource(c: Cache, disk: Disk, source: Source, expected: Option<string>)
    : (Cache, Result<Package, Error>)
  {
    match ReadPackage(disk, source.packageRoot)
    case Failure(error) => (c, Failure(error))
    case Success(loaded) =>
      var id := loaded.package.identifier;
      if expected.Some? && id != expected.value then (c, Failure(WrongIdentifier(id)))
      else (Cache(c.packages[id := loaded], c.sources[id := source]), Success(loaded.package))
  }

  function Loading(c: Cache, disk: Disk, path: Path): (Cache, Result<Package, Error>) {
    match Resolve(disk, path, None)
    case Failure(error) => (c, Failure(error))
    case Success(source) => LoadingSource(c, disk, source, None)
  }

  predicate Skips(c: Cache, id: string, requested: Source) {
    id in c.sources && c.sources[id].CanSkipReload(requested)
  }

  function LoadingIfNeeded(c: Cache, disk: Disk, id: string, path: Path, identity: Option<string>)
    : (Cache, Result<(), Error>)
  {
    match Resolve(disk, path, identity)
    case Failure(error) => (c, Failure(error))
    case Success(requested) =>
      if Skips(c, id, requested) then (c, Success(()))
      else
        var (next, r) := LoadingSource(c, disk, requested, Some(id));
        (next, if r.Success? then Success(()) else Failure(r.error))
  }

  /** The source used by a reload; without a recorded one, the root of the loaded package. */
  function ReloadSource(c: Cache, id: string): Option<Source> {
    if id in c.sources then Some(c.sources[id])
    else if id in c.packages then Some(Source(c.packages[id].packageRoot, None))
    else None
  }

  function Reloading(c: Cache, disk: Disk, id: string): (Cache, Result<Package, Error>) {
    match ReloadSource(c, id)
    case None => (c, Failure(NotLoaded))
    case Some(source) =>
      if id !in c.packages then (c, Failure(NotLoaded)) else LoadingSource(c, disk, source, Some(id))
  }

  // ----- The host -----

  class Host {
    var loadedPackages: map<string, LoadedPackage>
    var loadedSources: map<string, Source>

    function State(): Cache
      reads this
    {
      Cache(loadedPackages, loadedSources)
    }

    constructor ()
      ensures State() == EMPTY
    {
      loadedPackages := map[];
      loadedSources := map[];
    }

    method LoadSource(disk: Disk, source: Source, expected: Option<string>) returns (r: Result<Package, Error>)
      modifies this
      ensures (State(), r) == LoadingSource(old(State()), disk, source, expected)
    {
      var loaded := ReadPackage(disk, source.packageRoot);
      if loaded.Failure? {
        return Failure(loaded.error);
      }
      var id := loaded.value.package.identifier;
      if expected.Some? && id != expected.value {
        return Failure(WrongIdentifier(id));
      }
      loadedPackages := loadedPackages[id := loaded.value];
      loadedSources := loadedSources[id := source];
      r := Success(loaded.value.package);
    }

    method Load(disk: Disk, path: Path) returns (r: Result<Package, Error>)
      modifies this
      ensures (State(), r) == Loading(old(State()), disk, path)
    {
      var source := Resolve(disk, path, None);
      if source.Failure? {
        return Failure(source.error);
      }
      r := LoadSource(disk, source.value, None);
    }

    method LoadIfNeeded(disk: Disk, id: string, path: Path, identity: Option<string>) returns (r: Result<(), Error>)
      modifies this
      ensures (State(), r) == LoadingIfNeeded(old(State()), disk, id, path, identity)
    {
      var requested := Resolve(disk, path, identity);
      if requested.Failure? {
        return Failure(requested.error);
      }
      if id in loadedSources && loadedSources[id].CanSkipReload(requested.value) {
        return Success(());
      }
      var loaded := LoadSource(disk, requested.value, Some(id));
      r := if loaded.Success? then Success(()) else Failure(loaded.error);
    }

    method Reload(disk: Disk, id: string) returns (r: Result<Package, Error>)
      modifies this
      ensures (State(), r) == Reloading(old(State()), disk, id)
    {
      var source;
      if id in loadedSources {
        source := loadedSources[id];
      } else if id in loadedPackages {
        source := Source(loadedPackages[id].packageRoot, None);
      } else {
        return Failure(NotLoaded);
      }
      if id !in loadedPackages {
        return Failure(NotLoaded);
      }
      r := LoadSource(disk, source, Some(id));
    }
  }

  // ----- Runs -----

  datatype Call =
    | Load(path: Path)
    | LoadIfNeeded(id: string, path: Path, identity: Option<string>)
    | Reload(id: string)

  /** A call and the file system it finds. */
  datatype Event = Event(disk: Disk, call: Call)

  /** The maps after a call, whether it succeeds or fails. */
  function After(c: Cache, event: Event): Cache {
    match event.call
    case Load(path) => Loading(c, event.disk, path).0
    case LoadIfNeeded(id, path, identity) => LoadingIfNeeded(c, event.disk, id, path, identity).0
    case Reload(id) => Reloading(c, event.disk, id).0
  }

  /** The maps after all calls on a new host. */
  function Run(events: seq<Event>): Cache {
    if events == [] then EMPTY else After(Run(events[..|events| - 1]), events[|events| - 1])
  }

  /** The source that a call reads, if it reads one. */
  function ReadSource(c: Cache, event: Event): Option<Source> {
    match event.call
    case Load(path) => FromResolved(Resolve(event.disk, path, None))
    case LoadIfNeeded(id, path, identity) => FromResolved(Resolve(event.disk, path, identity))
    case Reload(id) => if id in c.packages then ReloadSource(c, id) else None
  }

  function FromResolved(r: Result<Source, Error>): Option<Source> {
    if r.Success? then Some(r.value) else None
  }

  /** All that a call can do: nothing, or store under its own identifier the package that it read. */
  lemma CallMeaning(c: Cache, event: Event)
    ensures After(c, event) == c ||
            (exists source, loaded ::
               && ReadSource(c, event) == Some(source) && ReadPackage(event.disk, source.packageRoot) == Success(loaded)
               && After(c, event) == Stored(c, source, loaded))
  {
    var s := ReadSource(c, event);
    if s.Some? {
      var loaded := ReadPackage(event.disk, s.value.packageRoot);
      if loaded.Success? {
        assert After(c, event) == c || After(c, event) == Stored(c, s.value, loaded.value);
      }
    }
  }

  function Stored(c: Cache, source: Source, loaded: LoadedPackage): Cache {
    var id := loaded.package.identifier;
    Cache(c.packages[id := loaded], c.sources[id := source])
  }

  predicate Consistent(c: Cache) {
    && c.packages.Keys == c.sources.Keys
    && forall id <- c.packages :: c.packages[id].package.identifier == id
  }

  ghost predicate ReadBy(event: Event, root: Path, loaded: LoadedPackage) {
    ReadPackage(event.disk, root) == Success(loaded)
  }

  /** Every package in the cache is one that some call read at the recorded root. */
  ghost predicate Accounted(events: seq<Event>, c: Cache) {
    forall id | id in c.packages && id in c.sources ::
      exists event <- events :: ReadBy(event, c.sources[id].packageRoot, c.packages[id])
  }

  /** After any calls, failed ones included, both maps have the same keys, each the identifier of its package, and each
      package was read at the root recorded for it. */
  lemma {:induction false} RunsAreConsistent(events: seq<Event>)
    ensures Consistent(Run(events)) && Accounted(events, Run(events))
  {
    if events != [] {
      var before, event := events[..|events| - 1], events[|events| - 1];
      RunsAreConsistent(before);
      var c, next := Run(before), Run(events);
      CallMeaning(c, event);
      forall id | id in next.packages && id in next.sources
        ensures exists e <- events :: ReadBy(e, next.sources[id].packageRoot, next.packages[id])
      {
        if id in c.packages && next.packages[id] == c.packages[id] && next.sources[id] == c.sources[id] {
          var e :| e in before && ReadBy(e, c.sources[id].packageRoot, c.packages[id]);
          assert e in events;
        } else {
          assert ReadBy(event, next.sources[id].packageRoot, next.packages[id]);
        }
      }
    }
  }

  /** A reload never falls back to the root of the package: a loaded package has a recorded source. */
  lemma ReloadNeverFallsBack(events: seq<Event>, id: string)
    ensures var c := Run(events);
            if id in c.packages then id in c.sources && ReloadSource(c, id) == Some(c.sources[id])
            else ReloadSource(c, id).None?
  {
    RunsAreConsistent(events);
  }

  // ----- Skipping is the same as loading -----

  /** What a package with a given identity at a given root contains. */
  type Contents = (Path, string) -> LoadedPackage

  /** The package that this call can read under an identity is the one that the identity stands for. */
  ghost predicate Honest(f: Contents, c: Cache, event: Event) {
    forall source, loaded ::
      ReadSource(c, event) == Some(source) && source.identity.Some? && ReadBy(event, source.packageRoot, loaded)
      ==> loaded == f(source.packageRoot, source.identity.value)
  }

  ghost predicate HonestRun(f: Contents, events: seq<Event>) {
    events == [] ||
    (&& HonestRun(f, events[..|events| - 1])
     && Honest(f, Run(events[..|events| - 1]), events[|events| - 1]))
  }

  ghost predicate UpToDate(f: Contents, c: Cache) {
    forall id | id in c.packages && id in c.sources && c.sources[id].identity.Some? ::
      c.packages[id] == f(c.sources[id].packageRoot, c.sources[id].identity.value)
  }

  lemma {:induction false} HonestRunsAreUpToDate(f: Contents, events: seq<Event>)
    requires HonestRun(f, events)
    ensures UpToDate(f, Run(events))
  {
    if events != [] {
      var before, event := events[..|events| - 1], events[|events| - 1];
      HonestRunsAreUpToDate(f, before);
      RunsAreConsistent(before);
      CallMeaning(Run(before), event);
      if Run(events) != Run(before) {
        var source, loaded :| ReadSource(Run(before), event) == Some(source)
                              && ReadPackage(event.disk, source.packageRoot) == Success(loaded)
                              && Run(events) == Stored(Run(before), source, loaded);
        assert ReadBy(event, source.packageRoot, loaded);
      }
    }
  }

  /** After honest calls, a successful load-if-needed with an identity leaves the requested source and its package, and,
      if the package can be read at all, exactly the maps that loading afresh leaves. */
  lemma SkippingIsLoading(f: Contents, events: seq<Event>, disk: Disk, id: string, path: Path, identity: string)
    requires HonestRun(f, events + [Event(disk, LoadIfNeeded(id, path, Some(identity)))])
    requires LoadingIfNeeded(Run(events), disk, id, path, Some(identity)).1.Success?
    ensures var next := LoadingIfNeeded(Run(events), disk, id, path, Some(identity)).0;
            var requested := Resolve(disk, path, Some(identity)).value;
            && id in next.sources && next.sources[id] == requested
            && id in next.packages && next.packages[id] == f(requested.packageRoot, identity)
            && next.packages[id].package.identifier == id
            && (ReadPackage(disk, requested.packageRoot).Success? ==>
                  LoadingSource(Run(events), disk, requested, Some(id)) ==
                  (next, Success(f(requested.packageRoot, identity).package)))
  {
    var c, event := Run(events), Event(disk, LoadIfNeeded(id, path, Some(identity)));
    assert (events + [event])[..|events|] == events;
    assert Honest(f, c, event);
    HonestRunsAreUpToDate(f, events);
    RunsAreConsistent(events);
    var requested := Resolve(disk, path, Some(identity)).value;
    var read := ReadPackage(disk, requested.packageRoot);
    assert read.Success? ==> ReadBy(event, requested.packageRoot, read.value);
    if Skips(c, id, requested) && read.Success? {
      assert c.packages[id := c.packages[id]] == c.packages && c.sources[id := c.sources[id]] == c.sources;
    }
  }

  /** A call never touches the entry of another package, and one that fails touches nothing. */
  lemma CallsAreLocal(c: Cache, event: Event, other: string)
    requires Consistent(c)
    ensures match event.call
            case Load(path) =>
              var (next, r) := Loading(c, event.disk, path);
              (r.Failure? ==> next == c) && (r.Success? && r.value.identifier != other ==> SameEntry(c, next, other))
            case LoadIfNeeded(id, path, identity) =>
              var (next, r) := LoadingIfNeeded(c, event.disk, id, path, identity);
              (r.Failure? ==> next == c) && (id != other ==> SameEntry(c, next, other))
            case Reload(id) =>
              var (next, r) := Reloading(c, event.disk, id);
              (r.Failure? ==> next == c) && (id != other ==> SameEntry(c, next, other))
              && (r.Success? ==> id in c.sources && next.sources == c.sources)
  {
    if event.call.Reload? && event.call.id in c.sources {
      var id := event.call.id;
      assert c.sources[id := c.sources[id]] == c.sources;
    }
  }

  predicate SameEntry(c: Cache, next: Cache, id: string) {
    && (id in c.packages <==> id in next.packages) && (id in c.packages ==> c.packages[id] == next.packages[id])
    && (id in c.sources <==> id in next.sources) && (id in c.sources ==> c.sources[id] == next.sources[id])
  }

  /** The call is allowed to store this package: it asked for it, and needs it. */
  predicate Wanted(c: Cache, event: Event, source: Source, id: string) {
    match event.call
    case Load(_) => true
    case LoadIfNeeded(expected, _, _) => id == expected && !Skips(c, id, source)
    case Reload(expected) => id == expected
  }

  /** What a call is going to store, and as read from where. */
  function ToStore(c: Cache, event: Event): Option<(Source, LoadedPackage)> {
    match ReadSource(c, event)
    case None => None
    case Some(source) =>
      match ReadPackage(event.disk, source.packageRoot)
      case Failure(_) => None
      case Success(loaded) =>
        if Wanted(c, event, source, loaded.package.identifier) then Some((source, loaded)) else None
  }

  /** Exactly the calls that are going to store a package under an identity that stands for another one leave the cache
      out of date. */
  lemma CallKeepsUpToDateIff(f: Contents, c: Cache, event: Event)
    requires Consistent(c) && UpToDate(f, c)
    ensures After(c, event) == match ToStore(c, event)
                               case None => c
                               case Some((source, loaded)) => Stored(c, source, loaded)
    ensures UpToDate(f, After(c, event)) <==>
            match ToStore(c, event)
            case None => true
            case Some((source, loaded)) =>
              source.identity.Some? ==> loaded == f(source.packageRoot, source.identity.value)
  {
    var stored := ToStore(c, event);
    if stored.Some? {
      var (source, loaded) := stored.value;
      var id := loaded.package.identifier;
      assert After(c, event) == Stored(c, source, loaded);
      hide After, ToStore;
      assert id in After(c, event).packages && After(c, event).packages[id] == loaded;
    }
  }

  /** If the call succeeds and the package can be read, it leaves what loading afresh would, and that succeeds too. */
  predicate SkipAgrees(c: Cache, disk: Disk, id: string, path: Path, identity: string) {
    var (next, r) := LoadingIfNeeded(c, disk, id, path, Some(identity));
    r.Success? ==>
      var requested := Resolve(disk, path, Some(identity)).value;
      var read := ReadPackage(disk, requested.packageRoot);
      read.Success? ==> LoadingSource(c, disk, requested, Some(id)) == (next, Success(read.value.package))
  }

  ghost predicate AlwaysAgrees(f: Contents, c: Cache) {
    forall disk, id, path, identity | Honest(f, c, Event(disk, LoadIfNeeded(id, path, Some(identity)))) ::
      SkipAgrees(c, disk, id, path, identity)
  }

  /** For a cache as runs leave it: every honest load-if-needed from now on agrees with loading exactly when the cache
      is up to date. */
  lemma AlwaysAgreesIff(f: Contents, c: Cache)
    requires Consistent(c)
    ensures AlwaysAgrees(f, c) <==> UpToDate(f, c)
  {
    if UpToDate(f, c) {
      forall disk, id, path, identity | Honest(f, c, Event(disk, LoadIfNeeded(id, path, Some(identity))))
        ensures SkipAgrees(c, disk, id, path, identity)
      {
        UpToDateAgrees(f, c, disk, id, path, identity);
      }
    }
    if AlwaysAgrees(f, c) {
      forall id | id in c.packages && id in c.sources && c.sources[id].identity.Some?
        ensures c.packages[id] == f(c.sources[id].packageRoot, c.sources[id].identity.value)
      {
        AgreesOnEntry(f, c, id);
      }
    }
  }

  lemma UpToDateAgrees(f: Contents, c: Cache, disk: Disk, id: string, path: Path, identity: string)
    requires Consistent(c) && UpToDate(f, c) && Honest(f, c, Event(disk, LoadIfNeeded(id, path, Some(identity))))
    ensures SkipAgrees(c, disk, id, path, identity)
  {
    var requested := Resolve(disk, path, Some(identity));
    if requested.Success? && Skips(c, id, requested.value) {
      var read := ReadPackage(disk, requested.value.packageRoot);
      if read.Success? {
        assert ReadBy(Event(disk, LoadIfNeeded(id, path, Some(identity))), requested.value.packageRoot, read.value);
        assert c.packages[id := c.packages[id]] == c.packages && c.sources[id := c.sources[id]] == c.sources;
      }
    }
  }

  /** A disk on which the recorded source can be requested under another path and holds what its identity stands for. */
  function HonestDisk(source: Source, loaded: LoadedPackage): Disk {
    Disk(map[source.packageRoot + "x" := source.packageRoot, source.packageRoot := loaded.packageRoot],
         map[loaded.packageRoot := loaded.package])
  }

  lemma AgreesOnEntry(f: Contents, c: Cache, id: string)
    requires Consistent(c) && AlwaysAgrees(f, c) && id in c.packages && c.sources[id].identity.Some?
    ensures c.packages[id] == f(c.sources[id].packageRoot, c.sources[id].identity.value)
  {
    var source := c.sources[id];
    var root, identity := source.packageRoot, source.identity.value;
    var disk, path := HonestDisk(source, f(root, identity)), root + "x";
    assert path != root by { assert |path| != |root|; }
    assert Resolve(disk, path, Some(identity)) == Success(source);
    assert ReadPackage(disk, root) == Success(f(root, identity));
    assert Honest(f, c, Event(disk, LoadIfNeeded(id, path, Some(identity))));
    assert SkipAgrees(c, disk, id, path, identity);
    assert Skips(c, id, source);
  }

  /** Honesty of the load-if-needed calls alone is not enough. A reload while the disk holds another package stores that
      one under the old identity; with the first package back on disk, load-if-needed keeps the wrong one. */
  lemma ReloadMakesIdentityStale()
    ensures exists f: Contents, events: seq<Event>, disk: Disk, id, path, identity ::
              && (forall i | 0 <= i < |events| && events[i].call.LoadIfNeeded? ::
                    Honest(f, Run(events[..i]), events[i]))
              && Honest(f, Run(events), Event(disk, LoadIfNeeded(id, path, Some(identity))))
              && LoadingIfNeeded(Run(events), disk, id, path, Some(identity)).1.Success?
              && LoadingIfNeeded(Run(events), disk, id, path, Some(identity)).0 !=
                 LoadingSource(Run(events), disk, Source(path, Some(identity)), Some(id)).0
              && Resolve(disk, path, Some(identity)) == Success(Source(path, Some(identity)))
              && ReadPackage(disk, path).Success?
  {
    var first, second := Package("p@1", "first"), Package("p@1", "second");
    var f: Contents := (root, identity) => LoadedPackage("/p", first);
    var disk := Disk(map["/p" := "/p"], map["/p" := first]);
    var changed := Disk(map["/p" := "/p"], map["/p" := second]);
    var request := LoadIfNeeded("p@1", "/p", Some("v1"));
    var a, b := Event(disk, request), Event(changed, Reload("p@1"));
    var events := [a, b];
    var source := Source("/p", Some("v1"));
    var one := Cache(map["p@1" := LoadedPackage("/p", first)], map["p@1" := source]);
    var two := Cache(map["p@1" := LoadedPackage("/p", second)], map["p@1" := source]);
    assert events[..0] == [] && events[..1] == [a] && [a][..0] == [];
    assert Run([]) == EMPTY;
    assert After(EMPTY, a) == one;
    assert Run([a]) == one;
    assert After(one, b) == two;
    assert Run(events) == two;
    assert "first" != "second" by { assert "first"[0] != "second"[0]; }
    assert Honest(f, EMPTY, a) && Honest(f, two, Event(disk, request));
    assert forall i | 0 <= i < |events| && events[i].call.LoadIfNeeded? :: Honest(f, Run(events[..i]), events[i]);
    assert LoadingIfNeeded(two, disk, "p@1", "/p", Some("v1")).0 == two;
    assert LoadingSource(two, disk, source, Some("p@1")).0.packages["p@1"] == LoadedPackage("/p", first);
  }
}
