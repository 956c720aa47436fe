/**
 * Script handles: simulation code kept under version control. A script has
 * an optional main file, an optional repository (absent when the script is
 * not under version control) and a revision that is pinned the first time the
 * code is brought up to date.
 *
 * The repository and its working copy belong to the version-control layer,
 * which is not part of this model; `Repository` below keeps only the state
 * that the script handle reads and changes through them.
 */
module Scripts {
  import opened Wrappers

  /**
   * The version-control collaborator as the script handle sees it: whether a
   * working copy exists, the revision it is at, the revision a fresh checkout
   * gets, whether its files differ from its revision, and (for the proofs)
   * every revision it has been asked to switch to.
   */
  class Repository {
    const url: string
    var hasWorkingCopy: bool
    var current: string
    var head: string
    var modified: bool
    ghost var used: seq<string>

    constructor (url: string, head: string)
      ensures this.url == url && this.head == head
      ensures !hasWorkingCopy && !modified && used == []
    {
      this.url := url;
      this.head := head;
      hasWorkingCopy := false;
      current := head;
      modified := false;
      used := [];
    }

    /** `str(repository)`. */
    function Display(): string {
      url
    }

    /** `checkout()`: materialise a working copy at the head revision. */
    method Checkout()
      modifies this
      ensures hasWorkingCopy && current == head && !modified
      ensures head == old(head) && used == old(used)
    {
      hasWorkingCopy := true;
      current := head;
      modified := false;
    }

    /** `use_version(v)`: bring the working copy to revision `v`. */
    method UseVersion(v: string)
      modifies this
      ensures hasWorkingCopy && current == v && !modified
      ensures head == old(head) && used == old(used) + [v]
    {
      hasWorkingCopy := true;
      current := v;
      modified := false;
      used := used + [v];
    }
  }

  datatype Error =
    | Unbound        // the script has no repository (`None` has no such attribute)
    | NoWorkingCopy  // the repository has no working copy to read a revision from

  /** The three states of a script handle. */
  datatype Phase = NoRepository | Tracking | Pinned(revision: string)

  class Script {
    var mainFile: Option<string>
    var repository: Repository?
    var version: Option<string>

    /** The state the handle is in. */
    function State(): (p: Phase)
      reads this
      ensures p.NoRepository? <==> repository == null
      ensures p.Pinned? <==> repository != null && version.Some?
      ensures p.Pinned? ==> p.revision == version.value
    {
      if repository == null then NoRepository
      else if version.None? then Tracking
      else Pinned(version.value)
    }

    /**
     * `Script(repository_url, main_file)`, given the repository that
     * `get_repository(repository_url)` resolved (null for none): no revision
     * is pinned yet.
     */
    constructor (repository: Repository?, mainFile: Option<string>)
      ensures this.repository == repository && this.mainFile == mainFile
      ensures version == None
      ensures State() == if repository == null then NoRepository else Tracking
    {
      this.mainFile := mainFile;
      this.repository := repository;
      version := None;
    }

    /** `__str__`: repository, pinned revision and main file, or the main file and "(no repository)". */
    function Describe(): (r: string)
      reads this, repository
      ensures repository == null ==> |r| >= 16 && r[|r| - 16..] == " (no repository)" && r[..|r| - 16] == ShowOption(mainFile)
      ensures repository != null ==>
        var prefix := repository.Display() + " r" + ShowOption(version);
        |r| > |prefix| && r[..|prefix|] == prefix && r[|r| - 1] == ')'
    {
      if repository != null then
        repository.Display() + " r" + ShowOption(version) + " (main file is " + ShowOption(mainFile) + ")"
      else
        ShowOption(mainFile) + " (no repository)"
    }

    /**
     * `checkout()`: create a working copy when there is a repository and it
     * has none; an existing working copy is never replaced.
     */
    method Checkout()
      modifies repository
      ensures repository != null && !old(repository.hasWorkingCopy) ==>
        && repository.hasWorkingCopy && repository.current == repository.head && repository.used == old(repository.used)
        && repository.head == old(repository.head) && !repository.modified
      ensures repository != null && old(repository.hasWorkingCopy) ==> unchanged(repository)
    {
      if repository != null && !repository.hasWorkingCopy {
        repository.Checkout();
      }
    }

    /**
     * `change_repository(repository_url)`, given the newly resolved
     * repository: only the repository changes; the pinned revision and the
     * main file stay, even though the revision named the old repository's history.
     */
    method ChangeRepository(repository: Repository?)
      modifies this`repository
      ensures this.repository == repository
      ensures version == old(version) && mainFile == old(mainFile)
    {
      this.repository := repository;
    }

    /** `_get_current_version()`: the revision of the repository's working copy. */
    method CurrentVersion() returns (r: Result<string, Error>)
      ensures repository == null ==> r == Failure(Unbound)
      ensures repository != null && !repository.hasWorkingCopy ==> r == Failure(NoWorkingCopy)
      ensures repository != null && repository.hasWorkingCopy ==> r == Success(repository.current)
    {
      if repository == null {
        return Failure(Unbound);
      }
      if !repository.hasWorkingCopy {
        return Failure(NoWorkingCopy);
      }
      r := Success(repository.current);
    }

    /** `has_changed()`: whether the working copy differs from its revision; a script without repository cannot tell. */
    method HasChanged() returns (r: Result<bool, Error>)
      ensures repository == null ==> r == Failure(Unbound)
      ensures repository != null ==> r == Success(repository.modified)
    {
      if repository == null {
        return Failure(Unbound);
      }
      r := Success(repository.modified);
    }

    /**
     * `update_code()`: pin the working copy's revision if nothing is pinned
     * yet, then switch the working copy to the pinned revision. Once pinned,
     * the revision never changes.
     */
    method UpdateCode() returns (o: Outcome<Error>)
      modifies this`version, repository
      ensures repository == old(repository) && mainFile == old(mainFile)
      ensures old(version).Some? ==> version == old(version)
      ensures o.Pass? <==> repository != null && (old(version).Some? || old(repository.hasWorkingCopy))
      ensures repository == null ==> o == Fail(Unbound) && version == old(version)
      ensures repository != null && old(version).None? && !old(repository.hasWorkingCopy) ==>
        o == Fail(NoWorkingCopy) && version == None && unchanged(repository)
      ensures o.Pass? ==> version == (if old(version).None? then Some(old(repository.current)) else old(version))
      ensures o.Pass? ==> State() == Pinned(version.value)
      ensures o.Pass? ==> repository.current == version.value && repository.used == old(repository.used) + [version.value]
      ensures o.Pass? ==> repository.hasWorkingCopy && !repository.modified && repository.head == old(repository.head)
    {
      if version.None? {
        var current := CurrentVersion();
        if current.Failure? {
          return Fail(current.error);
        }
        version := Some(current.value);
      }
      if repository == null {
        return Fail(Unbound);
      }
      repository.UseVersion(version.value);
      o := Pass;
    }
  }

  /**
   * Bringing the code up to date twice, with the working copy moved to some
   * other revision in between, ends at the revision the first call pinned:
   * that is, the revision the working copy had before the first call, or the
   * one pinned earlier.
   */
  method UpdateCodeTwice(s: Script, drift: string) returns (first: Outcome<Error>, second: Outcome<Error>)
    requires s.repository != null
    modifies s, s.repository
    ensures s.repository == old(s.repository) && s.mainFile == old(s.mainFile)
    ensures first.Pass? ==> second.Pass?
    ensures first.Pass? ==> s.version.Some? && s.repository.current == s.version.value
    ensures first.Pass? && old(s.version).Some? ==> s.version == old(s.version)
    ensures first.Pass? && old(s.version).None? ==> s.version == Some(old(s.repository.current))
  {
    first := s.UpdateCode();
    if first.Pass? {
      s.repository.UseVersion(drift);
    }
    second := s.UpdateCode();
  }
}
