/** What the core consumes from its surroundings, kept uninterpreted:
    environment variables, the home directory, `path/filepath`, and the
    records produced by skill discovery. */
module Platform {
  import opened Wrappers

  /** The operating-system facilities the resolver calls.
      - `skillaPath`: the value of `os.Getenv("SKILLA_PATH")` ("" when unset);
      - `home`: the outcome of `os.UserHomeDir()`;
      - `join`, `abs`, `base`: `filepath.Join`, `filepath.Abs` and `filepath.Base`,
        whose exact semantics are not part of this model. */
  datatype Env = Env(
    skillaPath: string,
    home: Result<string, string>,
    join: (string, string) -> string,
    abs: string -> Result<string, string>,
    base: string -> string)

  /** A discovered skill (finder.go): the directory holding SKILL.md and its
      path relative to the source root, "" for a skill at the root. */
  datatype Found = Found(rootDir: string, skillDir: string, relPath: string)

  /** The result of resolving a source identifier. */
  datatype Resolved = Resolved(localDir: string, remote: bool, name: string)
}
