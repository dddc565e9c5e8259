/** The temporary directory each Jest validator works in
    (`fs.mkdtempSync`, `fs.writeFileSync`, `fs.existsSync` + `fs.rmSync`).
    Its files are a map from file name to contents; `log` records, for the
    proofs only, what was done to it and when Jest ran. */
module Workspaces {

  datatype Event =
    | Created
    | Wrote(name: string, contents: string)
    | RanJest(files: map<string, string>)
    | Removed

  class Workspace {
    var present: bool
    var files: map<string, string>
    ghost var log: seq<Event>

    /** Only a directory that is present holds files. */
    predicate Valid()
      reads this
    {
      !present ==> files == map[]
    }

    /** A place for a directory that has not been made yet. */
    constructor ()
      ensures Valid() && !present && files == map[] && log == []
    {
      present := false;
      files := map[];
      log := [];
    }

    /** `fs.mkdtempSync`: a fresh, empty directory. */
    method Create()
      requires Valid()
      requires !present
      modifies this
      ensures Valid()
      ensures present && files == map[]
      ensures log == old(log) + [Created]
    {
      present := true;
      files := map[];
      log := log + [Created];
    }

    /** Writing a file into the directory: it now holds `contents`. */
    method Write(name: string, contents: string)
      requires Valid()
      requires present
      modifies this
      ensures Valid()
      ensures present && files == old(files)[name := contents]
      ensures log == old(log) + [Wrote(name, contents)]
    {
      files := files[name := contents];
      log := log + [Wrote(name, contents)];
    }

    /** `jest.runCLI` over the directory: Jest sees the files as they are
        now; what it writes back is part of its outcome. */
    method RunJest<O>(run: map<string, string> -> O) returns (o: O)
      requires Valid()
      requires present
      modifies this
      ensures Valid()
      ensures o == run(old(files))
      ensures present && files == old(files)
      ensures log == old(log) + [RanJest(old(files))]
    {
      o := run(files);
      log := log + [RanJest(files)];
    }

    /** The `finally` block: the directory is removed if it exists. */
    method Teardown()
      requires Valid()
      modifies this
      ensures Valid()
      ensures !present && files == map[]
      ensures log == old(log) + (if old(present) then [Removed] else [])
    {
      if present {
        present := false;
        files := map[];
        log := log + [Removed];
      }
    }
  }

  /** No event of a log is a run of Jest. */
  predicate NoJestRun(log: seq<Event>) {
    forall i :: 0 <= i < |log| ==> !log[i].RanJest?
  }
}
