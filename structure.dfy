/** src/analyzer/structure.ts: one project per `package.json`, typed by the
    directory names in its path. */
module Structure {
  import opened Seqs
  import opened Strings
  import opened Paths
  import opened Types

  /** A file whose basename is exactly `package.json`. */
  predicate IsPackageFile(f: FileEntry) {
    BaseName(f.path) == "package.json"
  }

  /** The naive type test on a project directory: `apps/` or `services/`
      makes an app, else `packages/` or `libs/` a library. */
  function Classify(dir: string): (r: ProjectType)
    ensures r == App <==> Contains(dir, "apps/") || Contains(dir, "services/")
    ensures r == Library <==>
      !Contains(dir, "apps/") && !Contains(dir, "services/")
      && (Contains(dir, "packages/") || Contains(dir, "libs/"))
    ensures r != Package && r != Service
  {
    if Contains(dir, "apps/") || Contains(dir, "services/") then App
    else if Contains(dir, "packages/") || Contains(dir, "libs/") then Library
    else UnknownType
  }

  /** The record pushed for one `package.json` path. */
  function ProjectFor(pkgPath: string): Project {
    var dir := DirName(pkgPath);
    Project(dir, Classify(dir), BaseName(dir))
  }

  /** The record pushed for one `package.json` file. */
  function ProjectOfFile(f: FileEntry): Project {
    ProjectFor(f.path)
  }

  /** The project paths other than ".", in project order. */
  function Boundaries(projects: seq<Project>): (r: seq<string>)
    ensures |r| <= |projects|
  {
    if projects == [] then []
    else
      var r := Boundaries(projects[..|projects| - 1]);
      var last := projects[|projects| - 1];
      if last.path != "." then r + [last.path] else r
  }

  /** The boundaries are exactly the project paths other than ".". */
  lemma {:induction false} BoundariesExactly(projects: seq<Project>)
    ensures "." !in Boundaries(projects)
    ensures forall b :: b in Boundaries(projects) ==> exists k :: 0 <= k < |projects| && projects[k].path == b
    ensures forall k :: 0 <= k < |projects| && projects[k].path != "." ==> projects[k].path in Boundaries(projects)
    decreases |projects|
  {
    if projects != [] {
      var p := projects[..|projects| - 1];
      BoundariesExactly(p);
      assert forall k :: 0 <= k < |p| ==> projects[k] == p[k];
    }
  }

  /** What `inferStructure` returns for a file list. */
  function StructureOf(files: seq<FileEntry>): ProjectStructure {
    var projects := Map(Filter(files, IsPackageFile), ProjectOfFile);
    ProjectStructure(projects, Boundaries(projects), [])
  }

  /** `inferStructure`: keep the `package.json` files and run the loop of
      `PushProjects` over them with the record `ProjectOfFile` builds. */
  method InferStructure(snapshot: RepoSnapshot) returns (s: ProjectStructure)
    ensures s == StructureOf(snapshot.files)
  {
    var packageJsons := Filter(snapshot.files, IsPackageFile);
    var projects, boundaries := PushProjects(packageJsons, ProjectOfFile);
    s := ProjectStructure(projects, boundaries, []);
  }

  /** The `for` loop of `inferStructure`: each file pushes its project and,
      unless the project directory is ".", that directory as a boundary. */
  method PushProjects(packageJsons: seq<FileEntry>, projectOf: FileEntry -> Project)
    returns (projects: seq<Project>, boundaries: seq<string>)
    ensures projects == Map(packageJsons, projectOf)
    ensures boundaries == Boundaries(projects)
  {
    projects := [];
    boundaries := [];
    for i := 0 to |packageJsons|
      invariant projects == Map(packageJsons[..i], projectOf)
      invariant boundaries == Boundaries(projects)
    {
      var project := projectOf(packageJsons[i]);
      MapPrefixSnoc(packageJsons, projectOf, i);
      BoundariesSnoc(projects, project);
      projects := projects + [project];
      if project.path != "." {
        boundaries := boundaries + [project.path];
      }
    }
    assert packageJsons[..|packageJsons|] == packageJsons;
  }

  /** One more project pushes its path as a boundary unless it is ".". */
  lemma BoundariesSnoc(projects: seq<Project>, p: Project)
    ensures Boundaries(projects + [p]) == Boundaries(projects) + (if p.path != "." then [p.path] else [])
  {
    assert (projects + [p])[..|projects|] == projects;
  }

  // ---- properties ------------------------------------------------------------

  /** The projects of a concatenation are those of each part, in order; a
      single file gives a project exactly when it is a `package.json`. So
      there is one project per `package.json`, in file-list order. */
  lemma ProjectsAppend(a: seq<FileEntry>, b: seq<FileEntry>)
    ensures StructureOf(a + b).projects == StructureOf(a).projects + StructureOf(b).projects
  {
    FilterAppend(a, b, IsPackageFile);
    MapAppend(Filter(a, IsPackageFile), Filter(b, IsPackageFile), ProjectOfFile);
  }

  lemma ProjectsOfOne(f: FileEntry)
    ensures StructureOf([f]).projects == if IsPackageFile(f) then [ProjectOfFile(f)] else []
  {
    assert [f][..0] == [];
  }

  /** A project is found for every `package.json` and for nothing else. */
  lemma {:induction false} ProjectsExactly(files: seq<FileEntry>)
    ensures |StructureOf(files).projects| == |Filter(files, IsPackageFile)|
    ensures forall f :: f in files && IsPackageFile(f) ==> ProjectOfFile(f) in StructureOf(files).projects
    ensures forall p :: p in StructureOf(files).projects ==>
      exists f :: f in files && IsPackageFile(f) && p == ProjectOfFile(f)
  {
    SelectedImages(files, IsPackageFile, ProjectOfFile);
  }

  /** The images of the kept elements: one per kept element, and each the
      image of a kept element. */
  lemma SelectedImages<A, B>(s: seq<A>, keep: A -> bool, f: A -> B)
    ensures |Map(Filter(s, keep), f)| == |Filter(s, keep)|
    ensures forall x :: x in s && keep(x) ==> f(x) in Map(Filter(s, keep), f)
    ensures forall y :: y in Map(Filter(s, keep), f) ==> exists x :: x in s && keep(x) && y == f(x)
  {
    var kept := Filter(s, keep);
    var ys := Map(kept, f);
    forall x | x in s && keep(x) ensures f(x) in ys {
      FilterKeeps(s, keep, x);
      var k :| 0 <= k < |kept| && kept[k] == x;
      MapAt(kept, f, k);
    }
    forall y | y in ys ensures exists x :: x in s && keep(x) && y == f(x) {
      var k :| 0 <= k < |ys| && ys[k] == y;
      MapAt(kept, f, k);
      FilterMembers(s, keep, kept[k]);
    }
  }

  /** The boundaries are the project paths with "." removed, in order. */
  lemma BoundariesAppend(a: seq<Project>, b: seq<Project>)
    ensures Boundaries(a + b) == Boundaries(a) + Boundaries(b)
    decreases |b|
  {
    if b == [] {
      assert a + b == a;
    } else {
      var b' := b[..|b| - 1];
      assert (a + b)[..|a + b| - 1] == a + b';
      BoundariesAppend(a, b');
    }
  }

  /** A `package.json` directly inside directory `d` makes the project `d`,
      named after the last segment of `d`. */
  lemma ProjectOfPackagePath(d: string)
    requires d != [] && d[|d| - 1] != '/'
    ensures IsPackageFile(FileEntry(d + "/package.json", 0))
    ensures ProjectFor(d + "/package.json") == Project(d, Classify(d), BaseName(d))
  {
    assert d + "/package.json" == d + "/" + "package.json";
    DirAndBaseOfJoin(d, "package.json");
  }

  /** The root `package.json` makes the project "." of unknown type, which
      is not a boundary. */
  lemma RootPackage(size: nat)
    ensures IsPackageFile(FileEntry("package.json", size))
    ensures StructureOf([FileEntry("package.json", size)])
         == ProjectStructure([Project(".", UnknownType, ".")], [], [])
  {
    RootProject();
    LoneRootProject(FileEntry("package.json", size), Project(".", UnknownType, "."));
  }

  /** A list of one `package.json` whose project is "." has that project and
      no boundary. */
  lemma LoneRootProject(f: FileEntry, root: Project)
    requires IsPackageFile(f) && ProjectOfFile(f) == root && root.path == "."
    ensures StructureOf([f]) == ProjectStructure([root], [], [])
  {
    ProjectsOfOne(f);
    BoundariesSnoc([], root);
    assert [] + [root] == [root];
  }

  lemma RootProject()
    ensures BaseName("package.json") == "package.json"
    ensures ProjectFor("package.json") == Project(".", UnknownType, ".")
  {
    RootPaths();
    RootUnknown();
  }

  lemma RootPaths()
    ensures DirName("package.json") == "." && BaseName("package.json") == "package.json"
    ensures BaseName(".") == "."
  {
    DirAndBaseOfName("package.json");
    DotName();
  }

  lemma DotName()
    ensures BaseName(".") == "."
  {
    DirAndBaseOfName(".");
  }

  lemma RootUnknown()
    ensures Classify(".") == UnknownType
  {
    assert !Contains(".", "apps/") && !Contains(".", "services/");
    assert !Contains(".", "packages/") && !Contains(".", "libs/");
  }
}
