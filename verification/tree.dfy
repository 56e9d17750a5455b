/** The filesystem as seen by the directory scanner: a finite, immutable tree
    of directory entries. Reading a directory yields its entries in the order
    the platform returns them; `readable == false` stands for either the open
    or the read of that directory failing. */
module Tree {

  /** One directory entry. `Dir` is an entry whose IsDir bit is set; every
      other kind of entry (regular file, symbolic link, device, socket) is a
      `NonDir`, since the scanner only ever asks whether an entry is a
      directory. */
  datatype Entry =
    | Dir(name: string, readable: bool, entries: seq<Entry>)
    | NonDir(name: string)

  /** The suffix that marks a Go source file. */
  const SourceSuffix: string := ".go"

  /** The subdirectory of every root that is walked. */
  const RootSubdir: string := "src"

  predicate HasPrefix(s: string, prefix: string) {
    |prefix| <= |s| && s[..|prefix|] == prefix
  }

  predicate HasSuffix(s: string, suffix: string) {
    |suffix| <= |s| && s[|s| - |suffix|..] == suffix
  }

  /** A non-directory entry whose name ends in ".go": its presence makes the
      enclosing directory a candidate. */
  predicate IsGoFile(e: Entry) {
    e.NonDir? && HasSuffix(e.name, SourceSuffix)
  }

  /** A directory entry that the walk descends into: any directory whose name
      does not start with a dot. */
  predicate IsSubdir(e: Entry) {
    e.Dir? && !HasPrefix(e.name, ".")
  }

  /** Opening and reading the entry as a directory succeeds. */
  predicate IsReadableDir(e: Entry) {
    e.Dir? && e.readable
  }

  /** Path construction, abstracted as plain concatenation with a separator
      (the cleaning done by the path library is not modelled). */
  function JoinPath(dir: string, name: string): string {
    dir + "/" + name
  }

  /** Number of entries in a tree, counting the entry itself. */
  function Size(e: Entry): nat
    decreases e
  {
    match e
    case NonDir(_) => 1
    case Dir(_, _, es) => 1 + SizeAll(es)
  }

  function SizeAll(es: seq<Entry>): nat
    decreases es
  {
    if es == [] then 0 else SizeAll(es[..|es| - 1]) + Size(es[|es| - 1])
  }
}
