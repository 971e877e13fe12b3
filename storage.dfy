/**
 * The repository store of gitmesh/storage.py: a folder of bare Git
 * repositories, one directory `<name>.git` per repository. The folder's
 * contents are the `Disk` value: the relative paths of the directories and of
 * the other entries below the root. `Storage` holds it and changes it the
 * way `os.mkdir` and `shutil.rmtree` do.
 */
module RepoStore {
  import opened Wrappers
  import opened Text
  import opened Process

  /** `posixpath.join(a, b)`: an absolute `b` replaces `a`; otherwise one `/` goes between them unless `a` is empty or already ends with one. */
  function PathJoin(a: string, b: string): (r: string)
    ensures |b| > 0 && b[0] == '/' ==> r == b
    ensures !(|b| > 0 && b[0] == '/') ==> StartsWith(r, a) && |b| <= |r| && r[|r| - |b|..] == b
  {
    if |b| > 0 && b[0] == '/' then b
    else if a == [] || a[|a| - 1] == '/' then a + b
    else a + "/" + b
  }

  /** The entry a repository occupies below the root: `name.git` when bare, `name` otherwise. */
  function Entry(name: string, bare: bool): string {
    if bare then name + ".git" else name
  }

  /** `Storage._repo_path`. */
  function RepoPath(root: string, name: string, bare: bool): string {
    PathJoin(root, Entry(name, bare))
  }

  datatype Repository = Repository(name: string, path: string, bare: bool)

  /** Joining a relative name onto a folder that does not end in `/` puts one `/` between them. */
  lemma JoinRelative(a: string, b: string)
    requires a != [] && a[|a| - 1] != '/'
    requires b == [] || b[0] != '/'
    ensures PathJoin(a, b) == a + "/" + b
  {
  }

  /** A store folder that does not end in `/` puts a repository at `<root>/<name>.git`, or `<root>/<name>` for a working copy. */
  lemma RepoPathShape(root: string, name: string, bare: bool)
    requires root != [] && root[|root| - 1] != '/'
    requires name == [] || name[0] != '/'
    ensures RepoPath(root, name, bare) == if bare then root + "/" + name + ".git" else root + "/" + name
  {
    var e := Entry(name, bare);
    assert e == [] || e[0] != '/' by {
      if bare && name == [] {
        assert e == ".git";
      }
    }
    JoinRelative(root, e);
    if bare {
      assert root + "/" + (name + ".git") == root + "/" + name + ".git";
    }
  }

  /** The file `install_hook` makes executable: `hooks/<hook>` inside a bare repository, `.git/hooks/<hook>` inside a working copy. */
  function HookPath(repo: Repository, hook: string): string {
    if repo.bare then PathJoin(PathJoin(repo.path, "hooks"), hook)
    else PathJoin(PathJoin(PathJoin(repo.path, ".git"), "hooks"), hook)
  }

  lemma HookPathShape(repo: Repository, hook: string)
    requires repo.path != [] && repo.path[|repo.path| - 1] != '/'
    requires hook == [] || hook[0] != '/'
    ensures HookPath(repo, hook) == if repo.bare then repo.path + "/hooks/" + hook else repo.path + "/.git/hooks/" + hook
  {
    if repo.bare {
      BareHookPath(repo.path, hook);
    } else {
      WorkingCopyHookPath(repo.path, hook);
    }
  }

  lemma BareHookPath(p: string, hook: string)
    requires p != [] && p[|p| - 1] != '/'
    requires hook == [] || hook[0] != '/'
    ensures PathJoin(PathJoin(p, "hooks"), hook) == p + "/hooks/" + hook
  {
    var h := PathJoin(p, "hooks");
    assert h == p + "/hooks" by { JoinRelative(p, "hooks"); }
    assert PathJoin(h, hook) == h + "/" + hook by { JoinRelative(h, hook); }
    assert h + "/" + hook == p + "/hooks/" + hook;
  }

  lemma WorkingCopyHookPath(p: string, hook: string)
    requires p != [] && p[|p| - 1] != '/'
    requires hook == [] || hook[0] != '/'
    ensures PathJoin(PathJoin(PathJoin(p, ".git"), "hooks"), hook) == p + "/.git/hooks/" + hook
  {
    var h := PathJoin(PathJoin(p, ".git"), "hooks");
    assert h == p + "/.git/hooks" by { GitHooksFolder(p); }
    assert PathJoin(h, hook) == h + "/" + hook by { JoinRelative(h, hook); }
    assert h + "/" + hook == p + "/.git/hooks/" + hook;
  }

  lemma GitHooksFolder(p: string)
    requires p != [] && p[|p| - 1] != '/'
    ensures PathJoin(PathJoin(p, ".git"), "hooks") == p + "/.git/hooks"
  {
    var g := PathJoin(p, ".git");
    assert g == p + "/.git" by { JoinRelative(p, ".git"); }
    JoinRelative(g, "hooks");
    assert g + "/" + "hooks" == p + "/.git/hooks";
  }

  /** `Repository.edit`: the file it opens for writing is named relative to the repository. */
  function EditTarget(repo: Repository, path: string): string {
    PathJoin(repo.path, path)
  }

  /** The path `install_hook` opens for writing, as written: the hook path it computed goes through `edit`, which joins it to the repository path once more. */
  function InstallHookOpened(repo: Repository, hook: string): string {
    EditTarget(repo, HookPath(repo, hook))
  }

  /**
   * With a relative repository path (the server's store is `Storage('.')`)
   * the path opened lies inside a nested copy of the repository path, not
   * the hook path. That nested folder does not exist after
   * `git init --bare`, so `open` raises `FileNotFoundError`: no hook is
   * written and the `chmod` that follows never runs.
   */
  lemma {:induction false} InstallHookMissesRelativeRepository(repo: Repository, hook: string)
    requires repo.path != [] && repo.path[0] != '/' && repo.path[|repo.path| - 1] != '/'
    requires hook == [] || hook[0] != '/'
    ensures InstallHookOpened(repo, hook) == repo.path + "/" + HookPath(repo, hook)
    ensures InstallHookOpened(repo, hook) != HookPath(repo, hook)
  {
    var git := PathJoin(repo.path, ".git");
    var inner := if repo.bare then PathJoin(repo.path, "hooks") else PathJoin(git, "hooks");
    assert inner[0] == repo.path[0] by {
      if !repo.bare {
        assert git[0] == repo.path[0];
      }
    }
    var h := HookPath(repo, hook);
    assert h == PathJoin(inner, hook);
    assert h[0] == repo.path[0];
  }

  /** The same path, with an absolute repository path: `edit` gives the absolute hook path back unchanged, so the hook file itself is opened. */
  lemma InstallHookAbsoluteRepository(repo: Repository, hook: string)
    requires repo.path != [] && repo.path[0] == '/'
    ensures InstallHookOpened(repo, hook) == HookPath(repo, hook)
  {
    var git := PathJoin(repo.path, ".git");
    var inner := if repo.bare then PathJoin(repo.path, "hooks") else PathJoin(git, "hooks");
    assert inner[0] == '/' by {
      if !repo.bare {
        assert git[0] == '/';
      }
    }
    assert HookPath(repo, hook) == PathJoin(inner, hook);
  }

  /** `install_hook` with the hook path used for both the write and the permission change. */
  function InstallHookTarget(repo: Repository, hook: string): string {
    HookPath(repo, hook)
  }

  /** The corrected target is the hook file inside the repository, and for an absolute repository path it is the path opened today. */
  lemma InstallHookTargetShape(repo: Repository, hook: string)
    requires repo.path != [] && repo.path[|repo.path| - 1] != '/'
    requires hook == [] || hook[0] != '/'
    ensures InstallHookTarget(repo, hook) == if repo.bare then repo.path + "/hooks/" + hook else repo.path + "/.git/hooks/" + hook
    ensures repo.path[0] == '/' ==> InstallHookTarget(repo, hook) == InstallHookOpened(repo, hook)
  {
    HookPathShape(repo, hook);
    if repo.path[0] == '/' {
      InstallHookAbsoluteRepository(repo, hook);
    }
  }

  // ---- The store folder ----

  /** The entries below the root, as relative paths: directories and everything else. */
  datatype Disk = Disk(dirs: set<string>, files: set<string>)
  {
    /** A path is either a directory or another entry, and the folder holding it is a directory (or the root). */
    ghost predicate Wellformed() {
      && dirs !! files
      && "" !in dirs && "" !in files
      && (forall p :: p in dirs ==> Parent(p) == "" || Parent(p) in dirs)
      && (forall p :: p in files ==> Parent(p) == "" || Parent(p) in dirs)
    }
  }

  /** The folder holding `p`: everything before its last `/`, or the root. */
  function Parent(p: string): (r: string)
    ensures r != "" ==> |r| < |p| && p[..|r|] == r && p[|r|] == '/'
    ensures r == "" || '/' in p
  {
    match LastIndexOf(p, '/')
    case None => ""
    case Some(k) => p[..k]
  }

  /** `q` lies inside the directory `p`. */
  predicate Below(q: string, p: string) {
    StartsWith(q, p + "/")
  }

  datatype OsError = FileExistsError | FileNotFoundError

  /** `os.mkdir`: refuses a path that is taken, or whose folder is not a directory. */
  function Mkdir(d: Disk, p: string): (r: Result<Disk, OsError>)
    ensures r == Failure(FileExistsError) <==> p in d.dirs || p in d.files
    ensures r.Success? ==> r.value == Disk(d.dirs + {p}, d.files)
  {
    if p in d.dirs || p in d.files then Failure(FileExistsError)
    else if Parent(p) != "" && Parent(p) !in d.dirs then Failure(FileNotFoundError)
    else Success(Disk(d.dirs + {p}, d.files))
  }

  /** `shutil.rmtree`: the directory and everything inside it go. */
  function Rmtree(d: Disk, p: string): (r: Disk)
    ensures forall q :: q in r.dirs <==> q in d.dirs && q != p && !Below(q, p)
    ensures forall q :: q in r.files <==> q in d.files && q != p && !Below(q, p)
  {
    Disk(set q | q in d.dirs && q != p && !Below(q, p), set q | q in d.files && q != p && !Below(q, p))
  }

  /** `os.listdir(root)` filtered to the directories whose names do not start with `.`. */
  function Visible(d: Disk): (r: set<string>)
    ensures forall e :: e in r <==> e in d.dirs && '/' !in e && !StartsWith(e, ".")
  {
    set e | e in d.dirs && '/' !in e && !StartsWith(e, ".")
  }

  /** `repository_exists`: the bare path is a directory. */
  predicate Exists(d: Disk, name: string) {
    Entry(name, true) in d.dirs
  }

  lemma MkdirWellformed(d: Disk, p: string)
    requires d.Wellformed() && p != ""
    requires Mkdir(d, p).Success?
    ensures Mkdir(d, p).value.Wellformed()
  {
  }

  /** An entry inside a removed directory is removed with it, so no survivor is left in a folder that has gone. */
  lemma {:induction false} RmtreeWellformed(d: Disk, p: string)
    requires d.Wellformed()
    ensures Rmtree(d, p).Wellformed()
  {
    var r := Rmtree(d, p);
    forall q | q in r.dirs + r.files && Parent(q) != ""
      ensures Parent(q) in r.dirs
    {
      var up := Parent(q);
      assert up in d.dirs;
      if up == p || Below(up, p) {
        BelowThroughParent(q, p);
        assert false;
      }
    }
  }

  /** A path whose folder is `p` or inside `p` is itself inside `p`. */
  lemma BelowThroughParent(q: string, p: string)
    requires Parent(q) != "" && (Parent(q) == p || Below(Parent(q), p))
    ensures Below(q, p)
  {
    var up := Parent(q);
    assert q[..|up|] == up;
    if up != p {
      assert q[..|p + "/"|] == up[..|p + "/"|];
    }
  }

  /** Nothing can lie inside a directory that is absent: its folder chain would pass through it. */
  lemma {:induction false} NothingBelowAbsent(d: Disk, p: string, q: string)
    requires d.Wellformed() && p != "" && p !in d.dirs
    requires q in d.dirs || q in d.files
    ensures !Below(q, p)
    decreases |q|
  {
    if Below(q, p) {
      var up := Parent(q);
      assert q[|p|] == '/' && q[..|p|] == p;
      SlashBeforeLast(q, |p|);
      assert up != "";
      assert up in d.dirs;
      if up == p {
        assert false;
      } else {
        assert |p| < |up|;
        assert up[..|p + "/"|] == q[..|p + "/"|];
        NothingBelowAbsent(d, p, up);
        assert false;
      }
    }
  }

  /** A `/` in a path is at or before the one that ends its folder. */
  lemma SlashBeforeLast(q: string, i: nat)
    requires i < |q| && q[i] == '/'
    ensures |Parent(q)| >= i && (i > 0 ==> Parent(q) != "")
  {
    match LastIndexOf(q, '/')
    case None =>
    case Some(k) =>
  }

  /** Creating a repository and deleting it again leaves the store as it was. */
  lemma CreateThenDeleteRestores(d: Disk, name: string)
    requires d.Wellformed()
    requires Mkdir(d, Entry(name, true)).Success?
    ensures Rmtree(Mkdir(d, Entry(name, true)).value, Entry(name, true)) == d
  {
    var p := Entry(name, true);
    var r := Rmtree(Mkdir(d, p).value, p);
    forall q | q in d.dirs + d.files ensures !Below(q, p) {
      NothingBelowAbsent(d, p, q);
    }
    assert r.dirs == d.dirs;
    assert r.files == d.files;
  }

  /** Deleting one repository leaves every other top-level repository where it was. */
  lemma DeleteKeepsOthers(d: Disk, name: string, other: string)
    requires name != other && '/' !in other
    ensures Exists(Rmtree(d, Entry(name, true)), other) == Exists(d, other)
  {
    var p, q := Entry(name, true), Entry(other, true);
    assert q[..|other|] == other && p[..|name|] == name;
    assert q == p ==> other == name;
    EntryHasNoSlash(other);
    NotBelowWithoutSlash(q, p);
  }

  /** A path with no `/` lies inside no directory. */
  lemma NotBelowWithoutSlash(q: string, p: string)
    requires '/' !in q
    ensures !Below(q, p)
  {
    if |p| + 1 <= |q| {
      assert q[..|p| + 1][|p|] == q[|p|];
    }
  }

  /** A name without `/` stays a single top-level entry once `.git` is added. */
  lemma EntryHasNoSlash(name: string)
    requires '/' !in name
    ensures '/' !in Entry(name, true)
  {
    var e := Entry(name, true);
    forall i | 0 <= i < |e| ensures e[i] != '/' {
      if i < |name| { assert e[i] == name[i]; } else { assert e[i] == ".git"[i - |name|]; }
    }
  }

  /** A visible top-level repository shows up in the listing under its own name. */
  lemma ListedName(name: string)
    ensures DropLast(Entry(name, true), 4) == name
  {
    var e := Entry(name, true);
    assert e == name + ".git";
    assert |e| == |name| + 4;
    assert e[..|name|] == name;
  }

  /** What the listing shows for a fresh store in which one repository was created. */
  lemma CreateIsListed(d: Disk, name: string)
    requires Mkdir(d, Entry(name, true)).Success?
    requires name != [] && '/' !in name && name[0] != '.'
    ensures Entry(name, true) in Visible(Mkdir(d, Entry(name, true)).value)
  {
    var p := Entry(name, true);
    EntryHasNoSlash(name);
    assert p[0] == name[0];
  }

  // ---- Operations ----

  datatype StoreError =
    | RepositoryExists
    | UnknownRepository
    | OSError(os: OsError)
    | ProcessFailed(process: ProcessError)
    | IndexError

  /** The outcome of `create_repo` once `mkdir` has succeeded: `git init --bare` runs inside the new directory. */
  function InitResult(root: string, name: string, init: Exit): (r: Result<Repository, StoreError>)
    ensures r.Success? <==> CheckOutput(ShellLine("git init --bare"), false, false, init).Success?
    ensures r.Success? ==> r.value == Repository(name, RepoPath(root, name, true), true)
  {
    match CheckOutput(ShellLine("git init --bare"), false, false, init)
    case Failure(e) => Failure(ProcessFailed(e))
    case Success(_) => Success(Repository(name, RepoPath(root, name, true), true))
  }

  /** The name `clone` gives the copy: the last `/`-separated segment of the link minus its last four characters. */
  function CloneName(link: string): (r: Result<string, StoreError>)
    ensures r == Failure(IndexError) <==> '/' !in link
  {
    var parts := RSplitOnce(link, '/');
    if |parts| < 2 then Failure(IndexError) else Success(DropLast(parts[1], 4))
  }

  /** Cloning a store's own repository by its path yields a copy named like the original. */
  lemma CloneNameOfRepoPath(root: string, name: string)
    requires root != [] && '/' !in name
    ensures CloneName(RepoPath(root, name, true)) == Success(name)
  {
    var e := Entry(name, true);
    var link := RepoPath(root, name, true);
    EntryHasNoSlash(name);
    var head := if root[|root| - 1] == '/' then root[..|root| - 1] else root;
    assert link == head + "/" + e;
    assert '/' in link by { assert link[|head|] == '/'; }
    RSplitOnceAt(head, '/', e);
    ListedName(name);
  }

  /** The folder `git clone` makes for a link: the link's last `/`-separated segment, without a trailing `.git`. */
  function CloneFolder(link: string): (r: string)
    ensures '/' !in r
  {
    var parts := RSplitOnce(link, '/');
    var segment := parts[|parts| - 1];
    if |segment| >= 4 && segment[|segment| - 4..] == ".git" then segment[..|segment| - 4] else segment
  }

  /** The store once `git clone` has made `folder` in the root; a folder that is already there is reused. */
  function Cloned(d: Disk, folder: string): (r: Disk)
    ensures r.files == d.files
    ensures forall q :: q in r.dirs <==> q in d.dirs || (q == folder && folder != "" && folder !in d.files)
  {
    if folder != "" && folder !in d.files then Disk(d.dirs + {folder}, d.files) else d
  }

  lemma ClonedWellformed(d: Disk, folder: string)
    requires d.Wellformed() && '/' !in folder
    ensures Cloned(d, folder).Wellformed()
  {
    if folder != "" && folder !in d.files {
      assert Parent(folder) == "";
    }
  }

  /** A clone whose folder does not start with `.` shows up in the store's listing. */
  lemma CloneIsListed(d: Disk, link: string)
    requires CloneFolder(link) != [] && CloneFolder(link)[0] != '.' && CloneFolder(link) !in d.files
    ensures CloneFolder(link) in Visible(Cloned(d, CloneFolder(link)))
  {
  }

  /** For a link ending in `.git`, the working copy `clone` reports is the folder git made. */
  lemma {:induction false} CloneFolderIsName(link: string)
    requires '/' in link && |link| >= 4 && link[|link| - 4..] == ".git"
    ensures CloneName(link) == Success(CloneFolder(link))
  {
    var parts := RSplitOnce(link, '/');
    var segment := parts[1];
    assert link == parts[0] + ['/'] + segment;
    assert segment[|segment| - 4..] == link[|link| - 4..];
  }

  /** For a link without `.git`, `clone` reports a working copy four characters short of the folder git made. */
  lemma CloneWithoutGitSuffix()
    ensures CloneName("https://host/project") == Success("pro")
    ensures CloneFolder("https://host/project") == "project"
  {
    var link := "https://host/project";
    assert link == "https://host" + ['/'] + "project";
    RSplitOnceAt("https://host", '/', "project");
    assert DropLast("project", 4) == "pro";
  }

  /**
   * The repository store of one folder. `root` is the folder's own path, and
   * `disk` what is inside it.
   */
  class Storage {
    const root: string
    var disk: Disk

    ghost predicate Valid()
      reads this
    {
      disk.Wellformed()
    }

    constructor (root: string, disk: Disk)
      requires disk.Wellformed()
      ensures Valid() && this.root == root && this.disk == disk
    {
      this.root := root;
      this.disk := disk;
    }

    /**
     * `create_repo`: `mkdir` is the only existence check; the new directory
     * stays even when `git init --bare` fails inside it.
     */
    method CreateRepo(name: string, init: Exit) returns (r: Result<Repository, StoreError>)
      requires Valid()
      modifies this
      ensures Valid()
      ensures var made := Mkdir(old(disk), Entry(name, true));
        && (made == Failure(FileExistsError) ==> r == Failure(RepositoryExists) && disk == old(disk))
        && (made == Failure(FileNotFoundError) ==> r == Failure(OSError(FileNotFoundError)) && disk == old(disk))
        && (made.Success? ==> disk == made.value && r == InitResult(root, name, init))
    {
      var p := Entry(name, true);
      var made := Mkdir(disk, p);
      match made
      case Failure(FileExistsError) =>
        r := Failure(RepositoryExists);
      case Failure(e) =>
        r := Failure(OSError(e));
      case Success(next) =>
        MkdirWellformed(disk, p);
        disk := next;
        r := InitResult(root, name, init);
    }

    /** `repository_exists`. */
    method HasRepository(name: string) returns (b: bool)
      ensures b == Exists(disk, name)
    {
      b := Entry(name, true) in disk.dirs;
    }

    /** `delete_repo`: only a directory at the bare path can be deleted, and it goes with all it holds. */
    method DeleteRepo(name: string) returns (r: Result<(), StoreError>)
      requires Valid()
      modifies this
      ensures Valid()
      ensures r.Failure? <==> !Exists(old(disk), name)
      ensures r.Failure? ==> r.error == UnknownRepository && disk == old(disk)
      ensures r.Success? ==> disk == Rmtree(old(disk), Entry(name, true)) && !Exists(disk, name)
    {
      var p := Entry(name, true);
      if p !in disk.dirs {
        r := Failure(UnknownRepository);
      } else {
        RmtreeWellformed(disk, p);
        disk := Rmtree(disk, p);
        r := Success(());
      }
    }

    /**
     * `list_repositories`: one name per visible directory of the root, in
     * the order the directory listing gives (`order`), each with its last
     * four characters dropped whether or not they are `.git`.
     */
    method ListRepositories() returns (names: seq<string>, order: seq<string>)
      ensures |names| == |order|
      ensures forall i :: 0 <= i < |order| ==> names[i] == DropLast(order[i], 4)
      ensures forall e :: e in order <==> e in Visible(disk)
      ensures forall i, j :: 0 <= i < j < |order| ==> order[i] != order[j]
    {
      var left := Visible(disk);
      names, order := [], [];
      while left != {}
        invariant |names| == |order|
        invariant forall i :: 0 <= i < |order| ==> names[i] == DropLast(order[i], 4)
        invariant forall e :: e in Visible(disk) <==> e in order || e in left
        invariant forall e :: e in order ==> e !in left
        invariant forall i, j :: 0 <= i < j < |order| ==> order[i] != order[j]
        decreases |left|
      {
        var e :| e in left;
        names, order := names + [DropLast(e, 4)], order + [e];
        left := left - {e};
      }
    }

    /** `open_repo`: the path only; the folder is not consulted. */
    function OpenRepo(name: string, bare: bool): (r: Repository)
      ensures r.name == name && r.bare == bare
      ensures r.path == RepoPath(root, name, bare)
    {
      Repository(name, RepoPath(root, name, bare), bare)
    }

    /**
     * `clone`: the copy's name comes from the link before anything runs;
     * `git clone <link>` runs in the root and, when it exits with status 0,
     * has made its working copy there, even if its output then fails to
     * decode; the result names the working copy `<root>/<name>`.
     */
    method Clone(link: string, run: Exit) returns (r: Result<Repository, StoreError>)
      requires Valid()
      modifies this
      ensures Valid()
      ensures '/' !in link ==> r == Failure(IndexError)
      ensures r.Success? ==> CloneName(link).Success? && r.value == Repository(CloneName(link).value, RepoPath(root, CloneName(link).value, false), false)
      ensures '/' in link ==> (r.Success? <==> CheckOutput(ShellLine("git clone " + link), false, false, run).Success?)
      ensures disk == if '/' in link && run.status == 0 then Cloned(old(disk), CloneFolder(link)) else old(disk)
    {
      match CloneName(link)
      case Failure(e) =>
        r := Failure(e);
      case Success(name) =>
        if run.status == 0 {
          ClonedWellformed(disk, CloneFolder(link));
          disk := Cloned(disk, CloneFolder(link));
        }
        match CheckOutput(ShellLine("git clone " + link), false, false, run)
        case Failure(e) =>
          r := Failure(ProcessFailed(e));
        case Success(_) =>
          r := Success(Repository(name, RepoPath(root, name, false), false));
    }
  }
}
