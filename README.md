# Program identification and versioning in Sumatra, in Dafny

This project models `src/programs.py` of Sumatra, a tool that records
simulation runs so that they can be reproduced. That file:

- finds which simulator or interpreter executable is installed;
- reads its version from what it prints for `--version`;
- maps program names, executable file names and script extensions to the
  class that handles them;
- binds simulation scripts to a version-control repository, with a revision
  pinned the first time the code is updated.

Modules, one per component of the file:

- `Wrappers` (`wrappers.dfy`): `Option`, `Result`, `Outcome`, Python truthiness of
  an optional string, and `%s` of an optional string (`None` prints as "None").
- `PosixPath` (`posix_path.dfy`): `os.path.basename`, `os.path.join`,
  `os.path.splitext` and `str.split`, written after CPython's POSIX
  definitions as of Python 2.6 and later, with round-trip lemmas. In those
  versions `splitext` skips a file name's leading dots, so `.hoc` has no
  extension.
- `Version` (`version.dfy`): a hand-written scanner equivalent to `search` with the
  pattern `(?P<version>\d\S*)\s`. Lemmas tie it to a literal reading of the
  pattern (leftmost match; the group is the whole non-whitespace run).
- `Executables` (`executables.dfy`): the executable classes (generic, NEURON,
  Python, NEST) and the handle as an immutable datatype. `FindExecutable` is
  the `PATH` search loop. `NewExecutable` is the constructor: it returns the
  handle, or the error the source raises, plus a list of events. The events
  are reading `PATH`, the notice that is printed, and the `--version` query
  that is started.
- `Registry` (`registry.dfy`): a class `ProgramRegistry` holding the three last-wins tables,
  filled with the built-ins by its constructor. `Register` updates the tables.
  `Resolve` is the dispatch decision of `get_executable` and
  `ProgramRegistry.GetExecutable` the whole call.
- `Scripts` (`scripts.dfy`): the `Script` class with its nullable repository and
  lazily pinned revision. `Repository` is a small class standing for the
  version-control collaborator.

The process environment is a parameter (`Executables.Environment`). It holds:

- the value of `PATH`, absent when the variable is unset;
- the set of existing file paths;
- the text `<path> --version` prints, as a function of the path.

`get_repository(url)` is not modelled: constructors and `ChangeRepository`
take the repository it would return, or null when there is none.

Behaviour of the code that the model keeps:

- `__str__` prints `None` for an unknown version.
- `get_executable` with both a path and a script file takes the path branch.
- An unregistered extension is refused with the fixed message "Extension not
  recognized.", which does not name the extension.
- `update_code` and `has_changed` on a script without a repository fail. In
  Python this is an `AttributeError`.
- `update_code` also fails when nothing is pinned and the repository has no
  working copy.
- `change_repository` keeps the pinned revision.
- Constructing the generic `Executable` without a path fails, because the
  class has no `default_executable_name`.

## Model

| member | source | states |
|---|---|---|
| PosixPath.Basename | src/programs.py:19 | the result is the suffix of the path after its last `/` and contains no `/` |
| PosixPath.Join | src/programs.py:33 | an absolute second component replaces the first |
| PosixPath.BasenameOfJoin | src/programs.py:28-33 | the base name of `join(dir, name)` is `name` for any directory, so a discovered path names the executable searched for |
| PosixPath.SplitExt | src/programs.py:137 | root + extension is the whole name; the extension is empty or one dot followed by neither `/` nor `.`; a name made only of leading dots has no extension |
| PosixPath.SplitExtOfName | src/programs.py:137 | splitting `stem + ".ext"` gives back the stem and `.ext` when the stem's last component has a non-dot character |
| PosixPath.Split | src/programs.py:27 | `PATH.split(':')` gives at least one piece and no piece holds `:` |
| PosixPath.JoinSplit | src/programs.py:27 | joining the pieces of `split(':')` with `:` gives the text back |
| PosixPath.SplitJoin | src/programs.py:27 | splitting the `:`-join of colon-free pieces gives the pieces back |
| Version.PatternAtIsRun | src/programs.py:6 | the pattern matches at `i` with group length `n` exactly when `i` is a digit whose non-whitespace run ends before the end of text and `n` is that run's length |
| Version.FirstMatchFrom | src/programs.py:43 | the position found is a match start and no earlier position is one; none is found only when no position matches |
| Version.ExtractVersion | src/programs.py:40-48 | no version exactly when no position matches; a version is non-empty, starts with a digit and holds no whitespace |
| Version.ExtractVersionIsLeftmostMatch | src/programs.py:43-45 | the version is the group of the leftmost match of the pattern |
| Version.ExtractVersionNone | src/programs.py:46-47 | when the pattern matches nowhere the version is `None` |
| Version.TrailingTokenIgnored | src/programs.py:6 | a final token with no whitespace after it is not a version |
| Version.PythonBanner | src/programs.py:40-48 | `Python 2.7.3\n` gives `2.7.3` |
| Version.DigitInsideWord | src/programs.py:6 | a digit inside a word starts the token: `nest v2.0.0 rc1\n` gives `2.0.0` |
| Version.UnterminatedBanner | src/programs.py:43-47 | `nest 2` with no newline after the version, and empty output, give `None` |
| Executables.ClassName | src/programs.py:18-19 | only the generic class lacks a class-level `name` |
| Executables.DefaultExecutableName | src/programs.py:54-70 | only the generic class lacks `default_executable_name`; the others are non-empty file names without `/` |
| Executables.Found | src/programs.py:26-29 | `found` holds exactly the `PATH` directories that contain the executable |
| Executables.FoundStartsWithFirstMatch | src/programs.py:33 | `found[0]` is the first directory in `PATH` order that contains the executable |
| Executables.FoundEmptyIffNoMatch | src/programs.py:30-31 | `found` is empty exactly when no directory contains the executable |
| Executables.CollectFound | src/programs.py:26-29 | the loop appends exactly the matching directories, in order |
| Executables.FindExecutable | src/programs.py:25-38 | unset `PATH` and the generic class fail; no match fails with the class name and file name; otherwise the path is `join(found[0], name)`, announced as a single match or an ambiguous one |
| Executables.FindSucceedsIffPresent | src/programs.py:30-33 | discovery succeeds exactly when some `PATH` directory holds the executable |
| Executables.NewExecutable | src/programs.py:15-20 | a truthy path is kept and causes no search; a truthy version is kept and causes no version query; a falsy path is discovered, failing with the class name and file name when no `PATH` directory holds it, with `SearchPathUnset` when `PATH` is unset and with `NoDefaultExecutableName` for the generic class; a falsy version is read from the query output; the name is the class's or the base name of the `path` argument |
| Executables.Describe | src/programs.py:22-23 | the text starts with the name, ends with the path, and shows the version (`None` when unknown) between them |
| Registry.Overwrite | src/programs.py:116-117 | every listed extension maps to the class; other keys keep their binding |
| Registry.ProgramRegistry.Register | src/programs.py:112-117 | the name, executable and each extension map to the class; earlier values at those keys are replaced; no other key changes |
| Registry.ProgramRegistry.constructor | src/programs.py:108-121 | the tables hold exactly the NEURON, Python and NEST registrations |
| Registry.Resolve | src/programs.py:130-143 | a truthy path wins even with a script file, giving its registered class or the generic one; otherwise the extension's class with the falsy path; an unknown extension or no argument fails |
| Registry.ProgramRegistry.GetExecutable | src/programs.py:123-145 | dispatch failures are returned without side effects; the handle has the dispatched class; an explicit path is kept and not searched; a script's class searches `PATH`, giving `join(found[0], name)` when some directory holds its executable and `NotFound(class name, file name)` when none does, and failing with `SearchPathUnset` when `PATH` is unset or `NoDefaultExecutableName` when the extension's class is the generic one; a generic handle comes only from an explicit path and is named by its `basename`, any other by its class name; the version is the one read from the query output |
| Registry.ResolveRegisteredExecutable | src/programs.py:115 | after registering a class for an executable name, any path naming that file resolves to the class |
| Registry.ResolveRegisteredExtension | src/programs.py:117 | after registering a class for extensions, a script with one of them resolves to the class with no path |
| Registry.ResolveUnknownExtension | src/programs.py:140-141 | a script whose extension is not registered is refused with "Extension not recognized." |
| Registry.BuiltinScript | src/programs.py:119-121 | with the built-in tables a plain script name dispatches on its extension |
| Registry.BuiltinHocScript | src/programs.py:119 | `model.hoc` resolves to NEURON with no path |
| Registry.BuiltinOcScript | src/programs.py:119 | `init.oc` resolves to NEURON with no path |
| Registry.BuiltinPythonScript | src/programs.py:120 | `run.py` resolves to Python with no path |
| Registry.BuiltinNestScript | src/programs.py:121 | `network.sli` resolves to NEST with no path |
| Registry.BuiltinUnknownScript | src/programs.py:140-141 | `data.csv` is refused with "Extension not recognized." |
| Scripts.Script.State | src/programs.py:82 | the script has no repository, tracks the working copy, or has a pinned revision, and the pinned state carries the recorded revision |
| Scripts.Script.constructor | src/programs.py:77-82 | the repository and main file are stored and no revision is pinned |
| Scripts.Script.Describe | src/programs.py:84-88 | with a repository the text starts with it and the pinned revision; without one it is the main file followed by "(no repository)" |
| Scripts.Script.Checkout | src/programs.py:90-92 | a working copy is created at the head revision, clean, only when a repository exists without one; an existing working copy is left alone |
| Scripts.Script.ChangeRepository | src/programs.py:94-95 | only the repository changes; revision and main file are kept |
| Scripts.Script.CurrentVersion | src/programs.py:97-98 | the working copy's revision, or an error without repository or working copy |
| Scripts.Script.HasChanged | src/programs.py:100-101 | the repository's answer, or an error without repository |
| Scripts.Script.UpdateCode | src/programs.py:103-106 | the first success pins the working copy's revision; a pinned revision never changes; every success switches the working copy to the pinned revision and leaves it clean |
| Scripts.UpdateCodeTwice | src/programs.py:103-106 | a second update re-applies the first one's pin even after the working copy moved |

## Left out

- `src/web/views.py`: Django views, forms and database queries. It is web and persistence plumbing, not part of this model.
- Running `<path> --version` in a subprocess. The captured output is the function `Environment.versionOutput`. The exit code is not inspected, as in the source.
- `os.getenv` and `os.path.exists`. They are the `pathVariable` and `files` fields of `Environment`.
- Console output of `_find_executable`. It becomes the `Announced` events.
- `PythonExecutable.write_parameters`: a call into the parameter object's `save`, which is not shown.
- `get_repository`, the concrete repositories and their working copies are not part of this model. `Repository` keeps only the state `Script` reads and changes. Its `Checkout` and `UseVersion` assume that checkout gives the head revision and that `use_version` leaves a clean working copy at the revision.
- `assert issubclass(cls, Executable)` in `register_executable` always holds, because every `Kind` is an executable class.
- Python's dynamic typing is not modelled. Arguments that are not strings, and user-defined subclasses beyond the closed set of four classes, are out of scope.
- PosixPath.Join: its contract states only the absolute-component case. Its other cases are proved through `BasenameOfJoin`.
- Scripts.Script.Describe: its contract gives the text's prefix and suffix with a repository. It does not give the middle "(main file is ...)" part.
- Executables.NewExecutable: it does not state the exact event list on the discovery path. It states the first event, and that a version query runs exactly when the version is falsy and construction succeeds, as the last event. `FindExecutable` states the full discovery list.
