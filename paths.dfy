/**
 * UTF-8 paths as the sequence of components Rust's `Path::components`
 * yields. All path arithmetic the archiver performs (`file_name`, `parent`,
 * `join`, `strip_prefix`) is defined on components, so the model works on
 * them directly.
 */
module Paths {
  import opened Results

  datatype Component = RootDir | CurDir | ParentDir | Normal(name: string)

  type Path = seq<Component>

  /** A path is absolute (on Unix) when it starts at the root directory. */
  predicate IsAbsolute(p: Path) {
    |p| > 0 && p[0] == RootDir
  }

  /** `Path::file_name`: the last component, if it is a plain name. */
  function FileName(p: Path): (r: Option<string>)
    ensures r.Some? <==> |p| > 0 && p[|p| - 1].Normal?
    ensures r.Some? ==> r.value == p[|p| - 1].name
  {
    if |p| > 0 && p[|p| - 1].Normal? then Some(p[|p| - 1].name) else None
  }

  /**
   * `Path::parent`: the path without its last component, unless the path is
   * empty or ends at the root (the root has no parent).
   */
  function Parent(p: Path): (r: Option<Path>)
    ensures r.Some? <==> |p| > 0 && p[|p| - 1] != RootDir
    ensures r.Some? ==> r.value + [p[|p| - 1]] == p
  {
    if |p| > 0 && p[|p| - 1] != RootDir then Some(p[..|p| - 1]) else None
  }

  /** `PathBuf::push` / `Path::join`: an absolute path replaces the base. */
  function Join(base: Path, p: Path): (r: Path)
    ensures IsAbsolute(p) ==> r == p
    ensures !IsAbsolute(p) ==> r == base + p
  {
    if IsAbsolute(p) then p else base + p
  }

  /** `Path::strip_prefix`: the remaining components, if `base` is a component-wise prefix. */
  function StripPrefix(p: Path, base: Path): (r: Option<Path>)
    ensures r.Some? <==> base <= p
    ensures r.Some? ==> base + r.value == p
  {
    if base <= p then Some(p[|base|..]) else None
  }
}
