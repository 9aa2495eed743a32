/**
 * `os.path.join` for two components, as Python's POSIX implementation does it:
 * a component that starts with `/` replaces what came before, otherwise a single
 * `/` is put between the two unless the first is empty or already ends in one.
 */
module PosixPath {
  import opened PyStr

  function PathJoin(dir: string, name: string): (r: string)
    ensures name != [] && name[0] == '/' ==> r == name
    ensures name == [] || name[0] != '/' ==> r == DirPrefix(dir) + name
  {
    if name != [] && name[0] == '/' then name
    else if dir == [] || dir[|dir| - 1] == '/' then dir + name
    else dir + "/" + name
  }

  /**
   * The directory part that `PathJoin` puts in front of a relative name: the
   * directory itself when it is empty or ends in `/`, else the directory and a `/`.
   */
  function DirPrefix(dir: string): (p: string)
    ensures p == [] || p[|p| - 1] == '/'
    ensures p == dir || p == dir + "/"
  {
    if dir == [] || dir[|dir| - 1] == '/' then dir else dir + "/"
  }

  /**
   * The base name (`os.path.basename`, which is the last `/`-segment) of a
   * directory joined with a slash-free name is that name, and the path is the
   * directory part followed by the name.
   */
  lemma PathJoinBasename(dir: string, name: string)
    requires '/' !in name
    ensures PathJoin(dir, name) == DirPrefix(dir) + name
    ensures LastSegment(PathJoin(dir, name), '/') == name
  {
    assert name != [] ==> name[0] in name;
    LastSegmentUnique(PathJoin(dir, name), '/', DirPrefix(dir), name);
  }

  /** Within one directory, slash-free names give the same path exactly when they are equal. */
  lemma PathJoinInjective(dir: string, n1: string, n2: string)
    requires '/' !in n1 && '/' !in n2
    ensures PathJoin(dir, n1) == PathJoin(dir, n2) <==> n1 == n2
  {
    PathJoinBasename(dir, n1);
    PathJoinBasename(dir, n2);
  }

  /** Joining a directory that does not end in `/` and a relative name puts one `/` between them. */
  lemma PathJoinRelative(dir: string, name: string)
    requires dir != [] && dir[|dir| - 1] != '/' && name != [] && name[0] != '/'
    ensures PathJoin(dir, name) == dir + "/" + name
  {
  }
}
