/**
 * The program registry: three last-wins tables from a program name, an
 * executable's file name and a script's file extension to the executable
 * class that handles it, filled with the three built-in classes when the
 * module is loaded, and the lookup `get_executable` that builds a handle
 * from an executable path or a script file name.
 */
module Registry {
  import opened Wrappers
  import opened PosixPath
  import opened Executables
  import opened Version

  /** `m` with every key of `keys` bound to `v`: the loop over `extensions` in `register_executable`. */
  function Overwrite(m: map<string, Kind>, keys: seq<string>, v: Kind): (r: map<string, Kind>)
    ensures forall k :: k in keys ==> k in r && r[k] == v
    ensures forall k :: k !in keys ==> (k in r <==> k in m)
    ensures forall k :: k !in keys && k in m ==> r[k] == m[k]
  {
    m + map k | k in keys :: v
  }

  /** Overwriting one more key is a single map update. */
  lemma OverwriteSnoc(m: map<string, Kind>, keys: seq<string>, k: string, v: Kind)
    ensures Overwrite(m, keys + [k], v) == Overwrite(m, keys, v)[k := v]
  {
    var a, b := Overwrite(m, keys + [k], v), Overwrite(m, keys, v)[k := v];
    assert forall x :: x in keys + [k] <==> x in keys || x == k;
    assert a.Keys == b.Keys;
    assert forall x :: x in a ==> a[x] == b[x];
  }

  /** One more key of `keys` overwritten is one more map update: the step of the loop. */
  lemma OverwritePrefix(m: map<string, Kind>, keys: seq<string>, i: nat, v: Kind)
    requires i < |keys|
    ensures Overwrite(m, keys[..i + 1], v) == Overwrite(m, keys[..i], v)[keys[i] := v]
  {
    assert keys[..i + 1] == keys[..i] + [keys[i]];
    OverwriteSnoc(m, keys[..i], keys[i], v);
  }

  /** Overwriting a single key is a map update. */
  lemma OverwriteOne(m: map<string, Kind>, k: string, v: Kind)
    ensures Overwrite(m, [k], v) == m[k := v]
  {
    OverwriteSnoc(m, [], k, v);
    assert Overwrite(m, [], v) == m;
  }

  /** Overwriting two keys is two map updates in order. */
  lemma OverwriteTwo(m: map<string, Kind>, k1: string, k2: string, v: Kind)
    ensures Overwrite(m, [k1, k2], v) == m[k1 := v][k2 := v]
  {
    OverwriteSnoc(m, [k1], k2, v);
    OverwriteOne(m, k1, v);
    assert [k1] + [k2] == [k1, k2];
  }

  /** What `get_executable` builds: an executable class and the `path` argument it passes to it. */
  datatype Request = Request(kind: Kind, path: Option<string>)

  datatype Error =
    | ExtensionNotRecognized  // "Extension not recognized."
    | PathOrScriptRequired
    | ConstructionFailed(cause: Executables.Error)

  /**
   * The dispatch decision of `get_executable`. A truthy `path` always wins,
   * even when a script file is given too: its base name selects a registered
   * class, or the generic one. Otherwise the script file's extension selects
   * a registered class, which is given the falsy `path` and so searches for
   * its executable. With neither, or an unknown extension, it fails.
   */
  function Resolve(executables: map<string, Kind>, extensions: map<string, Kind>,
                   path: Option<string>, scriptFile: Option<string>): (r: Result<Request, Error>)
    ensures Truthy(path) ==> r.Success? && r.value.path == path
    ensures Truthy(path) && Basename(path.value) in executables ==> r.value.kind == executables[Basename(path.value)]
    ensures Truthy(path) && Basename(path.value) !in executables ==> r.value.kind == Generic
    ensures !Truthy(path) && !Truthy(scriptFile) ==> r == Failure(PathOrScriptRequired)
    ensures !Truthy(path) && Truthy(scriptFile) ==>
      var ext := SplitExt(scriptFile.value).1;
      && (ext in extensions ==> r == Success(Request(extensions[ext], path)))
      && (ext !in extensions ==> r == Failure(ExtensionNotRecognized))
  {
    if Truthy(path) then
      var programName := Basename(path.value);
      if programName in executables then Success(Request(executables[programName], path))
      else Success(Request(Generic, path))
    else if Truthy(scriptFile) then
      var ext := SplitExt(scriptFile.value).1;
      if ext in extensions then Success(Request(extensions[ext], path))
      else Failure(ExtensionNotRecognized)
    else
      Failure(PathOrScriptRequired)
  }

  const BuiltinProgramNames: map<string, Kind> := map["NEURON" := Neuron, "Python" := Python, "NEST" := Nest]
  const BuiltinExecutables: map<string, Kind> := map["nrniv" := Neuron, "python" := Python, "nest" := Nest]
  const BuiltinExtensions: map<string, Kind> := map[".hoc" := Neuron, ".oc" := Neuron, ".py" := Python, ".sli" := Nest]

  /** The module-level tables `registered_program_names`, `registered_executables`, `registered_extensions`. */
  class ProgramRegistry {
    var programNames: map<string, Kind>
    var executables: map<string, Kind>
    var extensions: map<string, Kind>

    /** The tables as the module leaves them after registering NEURON, Python and NEST. */
    constructor ()
      ensures programNames == BuiltinProgramNames
      ensures executables == BuiltinExecutables
      ensures extensions == BuiltinExtensions
    {
      programNames, executables, extensions := map[], map[], map[];
      new;
      Register(Neuron, "NEURON", "nrniv", [".hoc", ".oc"]);
      OverwriteTwo(map[], ".hoc", ".oc", Neuron);
      Register(Python, "Python", "python", [".py"]);
      OverwriteOne(map[".hoc" := Neuron, ".oc" := Neuron], ".py", Python);
      Register(Nest, "NEST", "nest", [".sli"]);
      OverwriteOne(map[".hoc" := Neuron, ".oc" := Neuron, ".py" := Python], ".sli", Nest);
    }

    /**
     * `register_executable(cls, name, executable, extensions)`: bind `kind`
     * under the name, the executable's file name and each extension,
     * replacing earlier bindings of those keys and no others.
     */
    method Register(kind: Kind, name: string, executable: string, exts: seq<string>)
      modifies this
      ensures programNames == old(programNames)[name := kind]
      ensures executables == old(executables)[executable := kind]
      ensures extensions == Overwrite(old(extensions), exts, kind)
    {
      var table := extensions;
      var i := 0;
      while i < |exts|
        invariant 0 <= i <= |exts|
        invariant table == Overwrite(extensions, exts[..i], kind)
        modifies {}
      {
        OverwritePrefix(extensions, exts, i, kind);
        table := table[exts[i] := kind];
        i := i + 1;
      }
      assert exts[..i] == exts;
      programNames := programNames[name := kind];
      executables := executables[executable := kind];
      extensions := table;
    }

    /**
     * `get_executable(path, script_file)`: decide the class as `Resolve`
     * does, then build the handle with the chosen `path` argument.
     */
    method GetExecutable(path: Option<string>, scriptFile: Option<string>, env: Environment)
      returns (r: Result<Executable, Error>, events: seq<Event>)
      ensures var d := Resolve(executables, extensions, path, scriptFile);
        && (d.Failure? ==> r == Failure(d.error) && events == [])
        && (d.Success? && r.Success? ==> r.value.kind == d.value.kind)
      ensures Truthy(path) ==> r.Success? && r.value.path == path.value && ReadSearchPath !in events
      ensures !Truthy(path) && r.Success? ==> events != [] && events[0] == ReadSearchPath
      ensures r.Success? ==> r.value.version == ExtractVersion(env.versionOutput(r.value.path))
      ensures var d := Resolve(executables, extensions, path, scriptFile);
        d.Success? && !Truthy(path) && d.value.kind != Generic && env.pathVariable.Some? ==>
          var exe := DefaultExecutableName(d.value.kind).value;
          var found := Found(Split(env.pathVariable.value, PathListSep), env.files, exe);
          && (found != [] ==> r.Success? && r.value.path == Join(found[0], exe))
          && (found == [] ==> r == Failure(ConstructionFailed(NotFound(ClassName(d.value.kind).value, exe))))
      ensures var d := Resolve(executables, extensions, path, scriptFile);
        d.Success? && !Truthy(path) ==>
          && (env.pathVariable.None? ==> r == Failure(ConstructionFailed(SearchPathUnset)))
          && (env.pathVariable.Some? && d.value.kind == Generic ==> r == Failure(ConstructionFailed(NoDefaultExecutableName)))
      ensures r.Success? && r.value.kind != Generic ==> r.value.name == ClassName(r.value.kind).value
      ensures r.Success? && r.value.kind == Generic ==> Truthy(path) && r.value.name == Basename(path.value)
    {
      var d := Resolve(executables, extensions, path, scriptFile);
      if d.Failure? {
        return Failure(d.error), [];
      }
      var built;
      built, events := NewExecutable(d.value.kind, d.value.path, None, env);
      if built.Failure? {
        return Failure(ConstructionFailed(built.error)), events;
      }
      r := Success(built.value);
    }
  }

  /** After registering `kind` for the executable file name `exe`, any path naming that file resolves to `kind`. */
  lemma ResolveRegisteredExecutable(executables: map<string, Kind>, extensions: map<string, Kind>,
                                    kind: Kind, exe: string, dir: string, scriptFile: Option<string>)
    requires exe != [] && Sep !in exe
    ensures Resolve(executables[exe := kind], extensions, Some(Join(dir, exe)), scriptFile)
         == Success(Request(kind, Some(Join(dir, exe))))
  {
    BasenameOfJoin(dir, exe);
  }

  /**
   * After registering `kind` for the extensions `exts`, a script whose
   * extension is one of them resolves to `kind`, built with no path.
   */
  lemma ResolveRegisteredExtension(executables: map<string, Kind>, extensions: map<string, Kind>,
                                   kind: Kind, exts: seq<string>, stem: string, ext: string)
    requires ext in exts
    requires |ext| >= 1 && ext[0] == ExtSep && Sep !in ext && ExtSep !in ext[1..]
    requires HasNonDot(stem, RFind(stem, Sep) + 1, |stem|)
    ensures Resolve(executables, Overwrite(extensions, exts, kind), None, Some(stem + ext))
         == Success(Request(kind, None))
  {
    SplitExtOfName(stem, ext);
  }

  /** A script whose extension is registered nowhere is refused with "Extension not recognized.". */
  lemma ResolveUnknownExtension(executables: map<string, Kind>, extensions: map<string, Kind>,
                                stem: string, ext: string)
    requires ext !in extensions
    requires |ext| >= 1 && ext[0] == ExtSep && Sep !in ext && ExtSep !in ext[1..]
    requires HasNonDot(stem, RFind(stem, Sep) + 1, |stem|)
    ensures Resolve(executables, extensions, None, Some(stem + ext)) == Failure(ExtensionNotRecognized)
  {
    SplitExtOfName(stem, ext);
  }

  /** With the built-in tables, `.hoc` scripts run under NEURON, which searches for its executable. */
  lemma BuiltinHocScript()
    ensures Resolve(BuiltinExecutables, BuiltinExtensions, None, Some("model.hoc")) == Success(Request(Neuron, None))
  {
    assert "model" + ".hoc" == "model.hoc" && ExtSep !in "model" && ExtSep !in ".hoc"[1..];
    BuiltinScript("model", ".hoc");
  }

  /** With the built-in tables, `.oc` scripts run under NEURON too. */
  lemma BuiltinOcScript()
    ensures Resolve(BuiltinExecutables, BuiltinExtensions, None, Some("init.oc")) == Success(Request(Neuron, None))
  {
    assert "init" + ".oc" == "init.oc" && ExtSep !in "init" && ExtSep !in ".oc"[1..];
    BuiltinScript("init", ".oc");
  }

  /** With the built-in tables, `.py` scripts run under Python. */
  lemma BuiltinPythonScript()
    ensures Resolve(BuiltinExecutables, BuiltinExtensions, None, Some("run.py")) == Success(Request(Python, None))
  {
    assert "run" + ".py" == "run.py" && ExtSep !in "run" && ExtSep !in ".py"[1..];
    BuiltinScript("run", ".py");
  }

  /** With the built-in tables, `.sli` scripts run under NEST. */
  lemma BuiltinNestScript()
    ensures Resolve(BuiltinExecutables, BuiltinExtensions, None, Some("network.sli")) == Success(Request(Nest, None))
  {
    assert "network" + ".sli" == "network.sli" && ExtSep !in "network" && ExtSep !in ".sli"[1..];
    BuiltinScript("network", ".sli");
  }

  /** With the built-in tables, a `.csv` file is refused with "Extension not recognized.". */
  lemma BuiltinUnknownScript()
    ensures Resolve(BuiltinExecutables, BuiltinExtensions, None, Some("data.csv")) == Failure(ExtensionNotRecognized)
  {
    assert "data" + ".csv" == "data.csv" && ExtSep !in "data" && ExtSep !in ".csv"[1..];
    assert ".csv" !in BuiltinExtensions;
    BuiltinScript("data", ".csv");
  }

  /** A plain file name `stem + ext` (no separator, no dot in the stem) dispatches on `ext`. */
  lemma BuiltinScript(stem: string, ext: string)
    requires |stem| >= 1 && Sep !in stem && ExtSep !in stem
    requires |ext| >= 1 && ext[0] == ExtSep && Sep !in ext && ExtSep !in ext[1..]
    ensures ext in BuiltinExtensions ==>
      Resolve(BuiltinExecutables, BuiltinExtensions, None, Some(stem + ext)) == Success(Request(BuiltinExtensions[ext], None))
    ensures ext !in BuiltinExtensions ==>
      Resolve(BuiltinExecutables, BuiltinExtensions, None, Some(stem + ext)) == Failure(ExtensionNotRecognized)
  {
    assert RFind(stem, Sep) == -1;
    assert stem[0] != ExtSep;
    SplitExtOfName(stem, ext);
  }
}
