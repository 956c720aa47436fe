/**
 * Executable handles: one installed simulator or interpreter, with its path,
 * display name and version. The handle is immutable once built, so it is a
 * datatype; building it is a method, because discovery walks the directories
 * of `PATH` in a loop.
 *
 * The process environment is a parameter: the value of `PATH` (absent when
 * the variable is unset), the set of paths that exist on the file system,
 * and what running `<path> --version` prints, as a function of the path.
 * What the construction does to the outside world (reading `PATH`, printing a
 * notice, starting the version query) is returned as a list of events.
 */
module Executables {
  import opened Wrappers
  import opened PosixPath
  import opened Version

  /** The closed set of executable classes: the generic base class and its three subclasses. */
  datatype Kind = Generic | Neuron | Python | Nest

  /** The class-level `name` attribute, which the generic class does not define. */
  function ClassName(kind: Kind): (r: Option<string>)
    ensures r.None? <==> kind == Generic
  {
    match kind
    case Generic => None
    case Neuron => Some("NEURON")
    case Python => Some("Python")
    case Nest => Some("NEST")
  }

  /** The class-level `default_executable_name`, which the generic class does not define. */
  function DefaultExecutableName(kind: Kind): (r: Option<string>)
    ensures r.None? <==> kind == Generic
    ensures r.Some? ==> r.value != [] && Sep !in r.value
  {
    match kind
    case Generic => None
    case Neuron => Some("nrniv")
    case Python => Some("python")
    case Nest => Some("nest")
  }

  datatype Executable = Executable(kind: Kind, name: string, path: string, version: Option<string>)

  datatype Environment = Environment(
    pathVariable: Option<string>,
    files: set<string>,
    versionOutput: string -> string)

  /** What discovery prints: the silent single match, or the ambiguous one. */
  datatype Notice = Using(path: string) | MultipleVersionsFound(path: string)

  datatype Event =
    | ReadSearchPath
    | Announced(notice: Notice)
    | RanVersionQuery(command: string)

  datatype Error =
    | SearchPathUnset                             // `os.getenv('PATH')` is None
    | NoDefaultExecutableName                     // the generic class has no name to search for
    | NotFound(name: string, executable: string)  // no directory of PATH holds the executable

  /** The directories of `dirs`, in order, that contain `executable` (the list `found`). */
  function Found(dirs: seq<string>, files: set<string>, executable: string): (r: seq<string>)
    ensures |r| <= |dirs|
    ensures forall d :: d in r <==> d in dirs && Join(d, executable) in files
  {
    if dirs == [] then []
    else
      var front := Found(dirs[..|dirs| - 1], files, executable);
      var last := dirs[|dirs| - 1];
      assert dirs == dirs[..|dirs| - 1] + [last];
      if Join(last, executable) in files then front + [last] else front
  }

  /** The first element of `found` is the first directory of `dirs` that holds the executable. */
  lemma {:induction false} FoundStartsWithFirstMatch(dirs: seq<string>, files: set<string>, executable: string, k: nat)
    requires k < |dirs| && Join(dirs[k], executable) in files
    requires forall j :: 0 <= j < k ==> Join(dirs[j], executable) !in files
    ensures Found(dirs, files, executable) != []
    ensures Found(dirs, files, executable)[0] == dirs[k]
  {
    var front, last := dirs[..|dirs| - 1], dirs[|dirs| - 1];
    assert dirs == front + [last];
    if k < |dirs| - 1 {
      FoundStartsWithFirstMatch(front, files, executable, k);
    } else {
      FoundEmptyIffNoMatch(front, files, executable);
    }
  }

  /** Discovery finds a directory exactly when some directory of `dirs` holds the executable. */
  lemma FoundEmptyIffNoMatch(dirs: seq<string>, files: set<string>, executable: string)
    ensures Found(dirs, files, executable) == [] <==> forall j :: 0 <= j < |dirs| ==> Join(dirs[j], executable) !in files
  {
    var f := Found(dirs, files, executable);
    if f != [] {
      assert f[0] in f;
    } else {
      forall j | 0 <= j < |dirs| ensures Join(dirs[j], executable) !in files {
        assert dirs[j] in dirs;
      }
    }
  }

  /** The loop of `_find_executable`: append each directory of `dirs` that holds `executable`. */
  method CollectFound(dirs: seq<string>, files: set<string>, executable: string) returns (found: seq<string>)
    ensures found == Found(dirs, files, executable)
  {
    found := [];
    var i := 0;
    while i < |dirs|
      invariant 0 <= i <= |dirs|
      invariant found == Found(dirs[..i], files, executable)
    {
      assert dirs[..i + 1][..i] == dirs[..i];
      if Join(dirs[i], executable) in files {
        found := found + [dirs[i]];
      }
      i := i + 1;
    }
    assert dirs[..i] == dirs;
  }

  /**
   * `_find_executable`: walk `PATH` in order collecting the directories that
   * hold the executable; fail when there is none; otherwise return the path in
   * the first one, announcing it plainly for one match and as an ambiguity for
   * several.
   */
  method FindExecutable(kind: Kind, env: Environment) returns (r: Result<string, Error>, events: seq<Event>)
    ensures env.pathVariable.None? ==> r == Failure(SearchPathUnset)
    ensures env.pathVariable.Some? && kind == Generic ==> r == Failure(NoDefaultExecutableName)
    ensures env.pathVariable.Some? && kind != Generic ==>
      var exe := DefaultExecutableName(kind).value;
      var found := Found(Split(env.pathVariable.value, PathListSep), env.files, exe);
      && (found == [] ==> r == Failure(NotFound(ClassName(kind).value, exe)))
      && (found != [] ==> r == Success(Join(found[0], exe)))
      && (|found| == 1 ==> events == [ReadSearchPath, Announced(Using(Join(found[0], exe)))])
      && (|found| > 1 ==> events == [ReadSearchPath, Announced(MultipleVersionsFound(Join(found[0], exe)))])
    ensures r.Failure? ==> events == [ReadSearchPath]
    ensures r.Success? ==> kind != Generic && env.pathVariable.Some?
    ensures r.Success? ==> |events| == 2 && events[0] == ReadSearchPath && events[1].Announced?
  {
    events := [ReadSearchPath];
    if env.pathVariable.None? {
      return Failure(SearchPathUnset), events;
    }
    var dirs := Split(env.pathVariable.value, PathListSep);
    // `split` yields at least one directory, so the loop body runs and looks the name up
    if kind == Generic {
      return Failure(NoDefaultExecutableName), events;
    }
    var exe := DefaultExecutableName(kind).value;
    var found := CollectFound(dirs, env.files, exe);
    if found == [] {
      return Failure(NotFound(ClassName(kind).value, exe)), events;
    }
    var executable := Join(found[0], exe);
    if |found| == 1 {
      events := events + [Announced(Using(executable))];
    } else {
      events := events + [Announced(MultipleVersionsFound(executable))];
    }
    r := Success(executable);
  }

  /** Discovery succeeds exactly when some directory of `PATH` holds the class's executable. */
  lemma FindSucceedsIffPresent(kind: Kind, env: Environment)
    requires env.pathVariable.Some? && kind != Generic
    ensures
      var exe := DefaultExecutableName(kind).value;
      var dirs := Split(env.pathVariable.value, PathListSep);
      Found(dirs, env.files, exe) != [] <==> exists d :: d in dirs && Join(d, exe) in env.files
  {
    var exe := DefaultExecutableName(kind).value;
    var dirs := Split(env.pathVariable.value, PathListSep);
    FoundEmptyIffNoMatch(dirs, env.files, exe);
  }

  /**
   * `Executable.__init__(path, version)` for a handle of class `kind`: an
   * explicit (truthy) path or version is kept as given; a missing one is
   * discovered. The name is the class's own, or the base name of the `path`
   * argument when the class has none.
   */
  method NewExecutable(kind: Kind, path: Option<string>, version: Option<string>, env: Environment)
    returns (r: Result<Executable, Error>, events: seq<Event>)
    ensures r.Success? ==> r.value.kind == kind
    ensures Truthy(path) ==> r.Success? && r.value.path == path.value && ReadSearchPath !in events
    ensures Truthy(version) && r.Success? ==> r.value.version == version
    ensures Truthy(path) && Truthy(version) ==> events == []
    ensures !Truthy(path) ==> events != [] && events[0] == ReadSearchPath
    ensures !Truthy(path) && kind == Generic ==> r.Failure?
    ensures !Truthy(path) && env.pathVariable.None? ==> r == Failure(SearchPathUnset)
    ensures !Truthy(path) && env.pathVariable.Some? && kind == Generic ==> r == Failure(NoDefaultExecutableName)
    ensures !Truthy(path) && kind != Generic && env.pathVariable.Some? ==>
      (r.Success? <==> Found(Split(env.pathVariable.value, PathListSep), env.files, DefaultExecutableName(kind).value) != [])
    ensures !Truthy(path) && r.Success? ==>
      && env.pathVariable.Some? && kind != Generic
      && r.value.path == Join(Found(Split(env.pathVariable.value, PathListSep), env.files, DefaultExecutableName(kind).value)[0],
                           DefaultExecutableName(kind).value)
    ensures r.Success? && kind != Generic ==> r.value.name == ClassName(kind).value
    ensures r.Success? && kind == Generic ==> Truthy(path) && r.value.name == Basename(path.value)
    ensures r.Success? && !Truthy(version) ==>
      && r.value.version == ExtractVersion(env.versionOutput(r.value.path))
      && |events| > 0 && events[|events| - 1] == RanVersionQuery(r.value.path + " --version")
    ensures r.Failure? ==> forall e :: e in events ==> !e.RanVersionQuery?
    ensures Truthy(version) ==> forall e :: e in events ==> !e.RanVersionQuery?
    ensures !Truthy(path) && kind != Generic && env.pathVariable.Some? &&
            Found(Split(env.pathVariable.value, PathListSep), env.files, DefaultExecutableName(kind).value) == [] ==>
      r == Failure(NotFound(ClassName(kind).value, DefaultExecutableName(kind).value))
  {
    var resolved: string;
    events := [];
    if Truthy(path) {
      resolved := path.value;
    } else {
      var found;
      found, events := FindExecutable(kind, env);
      if found.Failure? {
        return Failure(found.error), events;
      }
      resolved := found.value;
    }
    var name := if kind == Generic then Basename(path.value) else ClassName(kind).value;
    var v := version;
    if !Truthy(version) {
      events := events + [RanVersionQuery(resolved + " --version")];
      v := ExtractVersion(env.versionOutput(resolved));
    }
    r := Success(Executable(kind, name, resolved, v));
  }

  /** `Executable.__str__`: "<name> (version: <version>) at <path>". */
  function Describe(e: Executable): (r: string)
    ensures |r| >= |e.name| + |e.path|
    ensures r[..|e.name|] == e.name
    ensures r[|r| - |e.path|..] == e.path
    ensures r[|e.name|..|r| - |e.path|] == " (version: " + ShowOption(e.version) + ") at "
  {
    e.name + " (version: " + ShowOption(e.version) + ") at " + e.path
  }
}
