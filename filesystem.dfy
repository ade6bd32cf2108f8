/** The snapshot of the current directory that a run observes, and the program's notion of a source file. */
module FileSystems {
  import opened Text

  datatype FileSystem = FileSystem(
    files: map<string, string>,  // paths that open()/read() succeed on, as passed to open(), with their text
    existing: set<string>,       // paths for which os.path.exists holds
    dirs: set<string>,           // paths for which os.path.isdir holds
    listing: seq<string>)        // os.listdir('.'), in the order the system returns it

  /** A name is a source file name by its extension alone. */
  predicate IsSourceName(name: string) {
    EndsWith(name, ".cpp") || EndsWith(name, ".cxx") || EndsWith(name, ".c++") ||
    EndsWith(name, ".cc") || EndsWith(name, ".c")
  }

  /** The extensions that make the whole project C++ (`.cc` is not among them). */
  predicate IsCppSourceName(name: string) {
    EndsWith(name, ".cpp") || EndsWith(name, ".cxx") || EndsWith(name, ".c++")
  }

  /** A directory entry that is not a directory and has a source extension. */
  predicate IsSource(fs: FileSystem, name: string) {
    name !in fs.dirs && IsSourceName(name)
  }
}
