/** The file system as the rollback code sees it: whole-file reads and writes, renames and
    removals, each of which may fail, and a record of every state in between. */
module Disks {
  import opened Wrappers

  newtype byte = x: int | 0 <= x < 256

  type Bytes = seq<byte>

  /** A path as its components. */
  type Path = seq<string>

  type Files = map<Path, Bytes>

  /** `p` lies below the directory `dir`. */
  predicate Within(dir: Path, p: Path) {
    |dir| < |p| && p[..|dir|] == dir
  }

  /** No file lies below another file. */
  ghost predicate Tree(files: Files) {
    forall p, q | p in files && q in files :: !Within(p, q)
  }

  predicate IsDir(files: Files, p: Path) {
    exists q | q in files :: Within(p, q)
  }

  /** Names of the entries of a directory. */
  function Names(files: Files, dir: Path): set<string> {
    set p | p in files && Within(dir, p) :: p[|dir|]
  }

  /** Two states agree at `p`: the same content, or no file in either. */
  ghost predicate Same(a: Files, b: Files, p: Path) {
    (p in a <==> p in b) && (p in a ==> a[p] == b[p])
  }

  ghost predicate SameBut(a: Files, b: Files, x: Path, y: Path) {
    forall p | p != x && p != y :: Same(a, b, p)
  }

  datatype Reading = Content(bytes: Bytes) | NoFile | Unreadable

  datatype Removal = Removed | Missing | Refused

  class Disk {
    var files: Files
    /** Every state the disk has been in, oldest first, including half-written ones. */
    ghost var history: seq<Files>
    /** How many operations have failed. */
    ghost var faults: nat

    ghost predicate Valid()
      reads this`files, this`history
    {
      Tree(files) && history != [] && history[|history| - 1] == files
    }

    method Read(p: Path) returns (r: Reading)
      modifies this`faults
      ensures r.Content? ==> p in files && r.bytes == files[p] && faults == old(faults)
      ensures r.NoFile? ==> p !in files && faults == old(faults)
      ensures r.Unreadable? ==> faults > old(faults)
    {
      var works: bool := *;
      if !works || IsDir(files, p) {
        faults := faults + 1;
        return Unreadable;
      }
      r := if p in files then Content(files[p]) else NoFile;
    }

    /** `None` is an error other than "not found", which lists nothing. */
    method List(dir: Path) returns (r: Option<set<string>>)
      modifies this`faults
      ensures r.Some? ==> r.value == Names(files, dir) && faults == old(faults)
      ensures r.None? ==> faults > old(faults)
    {
      var works: bool := *;
      if !works {
        faults := faults + 1;
        return None;
      }
      r := Some(Names(files, dir));
    }

    method CreateDirs(dir: Path) returns (ok: bool)
      modifies this`faults
      ensures ok ==> faults == old(faults)
      ensures !ok ==> faults > old(faults)
    {
      ok := *;
      if !ok {
        faults := faults + 1;
      }
    }

    /** Not atomic: a crash may leave anything at `p`, and so may a failure. */
    method Write(p: Path, bytes: Bytes) returns (ok: bool)
      requires Valid()
      modifies this
      ensures Valid()
      ensures ok ==> files == old(files)[p := bytes] && faults == old(faults)
      ensures !ok ==> faults > old(faults) && SameBut(files, old(files), p, p)
      ensures |old(history)| <= |history| && history[..|old(history)|] == old(history)
      ensures forall i | |old(history)| <= i < |history| :: SameBut(history[i], old(files), p, p)
    {
      var works: bool := *;
      if IsDir(files, p) || exists q | q in files :: Within(q, p) {
        works := false;
      } else {
        var partial: Bytes := *;
        files := files[p := partial];
        history := history + [files];
      }
      if works {
        files := files[p := bytes];
        history := history + [files];
      } else {
        faults := faults + 1;
      }
      ok := works;
    }

    /** Atomic: the target holds either what it held or what the source held. */
    method Rename(from: Path, to: Path) returns (ok: bool)
      requires Valid() && from in files && from != to
      modifies this
      ensures Valid()
      ensures ok ==> files == (old(files) - {from})[to := old(files)[from]] && faults == old(faults)
      ensures !ok ==> faults > old(faults) && files == old(files)
      ensures history == old(history) || history == old(history) + [files]
    {
      ok := *;
      if IsDir(files, to) || exists q | q in files :: Within(q, to) {
        ok := false;
      }
      if ok {
        files := (files - {from})[to := files[from]];
        history := history + [files];
      } else {
        faults := faults + 1;
      }
    }

    method Remove(p: Path) returns (r: Removal)
      requires Valid()
      modifies this
      ensures Valid()
      ensures r.Removed? ==> p in old(files) && files == old(files) - {p} && faults == old(faults)
      ensures r.Missing? ==> p !in old(files) && files == old(files) && faults == old(faults)
      ensures r.Refused? ==> files == old(files) && faults > old(faults)
      ensures history == old(history) || history == old(history) + [files]
    {
      var works: bool := *;
      if p !in files {
        return Missing;
      }
      if works {
        files := files - {p};
        history := history + [files];
        return Removed;
      }
      faults := faults + 1;
      r := Refused;
    }
  }
}
