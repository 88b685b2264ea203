/**
 * The project manifest of a Noir package: its package section and its
 * dependencies, each fetched from GitHub or taken from a local path.
 */
module NargoProject {
  import opened Wrappers

  /** Where a dependency's source comes from. */
  datatype Dependency = Github(git: string, tag: string) | Path(path: string)

  datatype Package = Package(
    authors: seq<string>,
    compilerVersion: Option<string>,
    backend: Option<string>,
    license: Option<string>)

  datatype Config = Config(package: Package, dependencies: map<string, Dependency>)

  /** A fresh package: no authors, compiler version "0.1", no backend, no license. */
  function NewPackage(): (p: Package)
    ensures p.authors == [] && p.compilerVersion == Some("0.1")
    ensures p.backend == None && p.license == None
  {
    Package([], Some("0.1"), None, None)
  }

  /** Some dependency is taken from a local path. */
  predicate HasPathDependency(c: Config)
  {
    exists name :: name in c.dependencies && c.dependencies[name].Path?
  }

  /** A fresh configuration: the fresh package and no dependencies, so no local path. */
  function NewConfig(): (c: Config)
    ensures c.package == NewPackage() && c.dependencies == map[]
    ensures !HasPathDependency(c)
  {
    Config(NewPackage(), map[])
  }

  /** Looks through the dependencies and stops at the first local path. */
  method HasLocalPath(c: Config) returns (r: bool)
    ensures r == HasPathDependency(c)
  {
    r := false;
    var remaining := c.dependencies.Keys;
    while remaining != {}
      invariant remaining <= c.dependencies.Keys
      invariant forall name :: name in c.dependencies && name !in remaining ==> !c.dependencies[name].Path?
      decreases remaining
    {
      var name :| name in remaining;
      if c.dependencies[name].Path? {
        r := true;
        break;
      }
      remaining := remaining - {name};
    }
  }

  /** Dependencies that all come from GitHub never count as a local path. */
  lemma AllGithubHasNoLocalPath(c: Config)
    requires forall name :: name in c.dependencies ==> c.dependencies[name].Github?
    ensures !HasPathDependency(c)
  {
  }

  /** Adding a path dependency makes the configuration have a local path. */
  lemma AddingPathGivesLocalPath(c: Config, name: string, path: string)
    ensures HasPathDependency(c.(dependencies := c.dependencies[name := Path(path)]))
  {
    var d := c.dependencies[name := Path(path)];
    assert name in d && d[name].Path?;
  }
}
