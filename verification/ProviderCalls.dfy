/** What each call of the plug-in runner returns and records, told from the file system that it finds and from what is
    recorded. */
module ProviderCalls {
  import opened Wrappers
  import opened ProviderHost

  /** The path leads to this root. */
  predicate LeadsTo(disk: Disk, path: Path, root: Path) {
    path in disk.canonical && disk.canonical[path] == root
  }

  predicate Leads(disk: Disk, path: Path) {
    path in disk.canonical
  }

  /** There is a valid package at the root. */
  predicate Holds(disk: Disk, root: Path, loaded: LoadedPackage) {
    && LeadsTo(disk, root, loaded.packageRoot)
    && loaded.packageRoot in disk.packages && disk.packages[loaded.packageRoot] == loaded.package
  }

  /** The package and the source are recorded under the identifier of the package; nothing else changes. */
  ghost predicate Recorded(before: Cache, after: Cache, source: Source, loaded: LoadedPackage) {
    var id := loaded.package.identifier;
    && id in after.packages && after.packages[id] == loaded && id in after.sources && after.sources[id] == source
    && (forall k :: k in after.packages <==> k in before.packages || k == id)
    && (forall k :: k in after.sources <==> k in before.sources || k == id)
    && (forall k | k in before.packages && k in after.packages && k != id :: after.packages[k] == before.packages[k])
    && (forall k | k in before.sources && k in after.sources && k != id :: after.sources[k] == before.sources[k])
  }

  /** What loading from a source comes to: the package at its root is recorded if it has the identifier that is asked
      for. */
  ghost predicate Loads(before: Cache, disk: Disk, source: Source, expected: Option<string>, after: Cache,
                        r: Result<Package, Error>) {
    && (!Leads(disk, source.packageRoot) ==> r == Failure(CannotResolve) && after == before)
    && (forall root | LeadsTo(disk, source.packageRoot, root) && root !in disk.packages ::
          r == Failure(CannotLoad) && after == before)
    && forall loaded | Holds(disk, source.packageRoot, loaded) ::
         if expected.Some? && expected.value != loaded.package.identifier
         then r == Failure(WrongIdentifier(loaded.package.identifier)) && after == before
         else r == Success(loaded.package) && Recorded(before, after, source, loaded)
  }

  lemma LoadsMeaning(c: Cache, disk: Disk, source: Source, expected: Option<string>)
    ensures var (next, r) := LoadingSource(c, disk, source, expected); Loads(c, disk, source, expected, next, r)
  {
  }

  /** Loading resolves the path and then records without an identity what is there. */
  lemma LoadMeaning(c: Cache, disk: Disk, path: Path)
    ensures var (next, r) := Loading(c, disk, path);
            && (!Leads(disk, path) ==> r == Failure(CannotResolve) && next == c)
            && forall root | LeadsTo(disk, path, root) :: Loads(c, disk, Source(root, None), None, next, r)
  {
    if Leads(disk, path) { LoadsMeaning(c, disk, Source(disk.canonical[path], None), None); }
    hide LoadingSource, Loads;
  }

  /** Loading if needed changes nothing if just this root is recorded under just this identity, and otherwise loads. */
  lemma LoadIfNeededMeaning(c: Cache, disk: Disk, id: string, path: Path, identity: Option<string>)
    ensures var (next, r) := LoadingIfNeeded(c, disk, id, path, identity);
            && (!Leads(disk, path) ==> r == Failure(CannotResolve) && next == c)
            && forall root | LeadsTo(disk, path, root) ::
                 if identity.Some? && id in c.sources && c.sources[id] == Source(root, identity)
                 then r == Success(()) && next == c
                 else exists loaded: Result<Package, Error> ::
                        && Loads(c, disk, Source(root, identity), Some(id), next, loaded)
                        && r == if loaded.Success? then Success(()) else Failure(loaded.error)
  {
    if Leads(disk, path) { LoadsMeaning(c, disk, Source(disk.canonical[path], identity), Some(id)); }
    hide LoadingSource, Loads;
  }

  /** Reloading a loaded package loads its recorded source again, or without one the root it has. */
  lemma ReloadMeaning(c: Cache, disk: Disk, id: string)
    ensures var (next, r) := Reloading(c, disk, id);
            && (id !in c.packages ==> r == Failure(NotLoaded) && next == c)
            && (id in c.packages ==>
                  Loads(c, disk, if id in c.sources then c.sources[id] else Source(c.packages[id].packageRoot, None),
                        Some(id), next, r))
  {
    var source := ReloadSource(c, id);
    if source.Some? { LoadsMeaning(c, disk, source.value, Some(id)); }
    hide LoadingSource, Loads;
  }

  /** A run makes its calls one after the other on a host that starts without packages. */
  lemma RunMeaning(events: seq<Event>, disk: Disk, id: string, path: Path, identity: Option<string>)
    ensures Run([]).packages == map[] && Run([]).sources == map[]
    ensures Run(events + [Event(disk, Load(path))]) == Loading(Run(events), disk, path).0
    ensures Run(events + [Event(disk, LoadIfNeeded(id, path, identity))]) ==
            LoadingIfNeeded(Run(events), disk, id, path, identity).0
    ensures Run(events + [Event(disk, Reload(id))]) == Reloading(Run(events), disk, id).0
  {
    hide Loading, LoadingIfNeeded, Reloading;
    assert (events + [Event(disk, Load(path))])[..|events|] == events;
    assert (events + [Event(disk, LoadIfNeeded(id, path, identity))])[..|events|] == events;
    assert (events + [Event(disk, Reload(id))])[..|events|] == events;
  }
}
