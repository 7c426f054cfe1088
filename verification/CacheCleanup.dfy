/** Model cache cleanup: lembed_cleanup_model_cache of include/libembedding/downloader.h.

    The cache directory maps entry names to entries; a directory is the list of the sizes
    of its regular files. Whether the cache can be listed, which directories cannot be read,
    which removals fail and what they leave behind, is given.
 */
module CacheCleanup {
  import opened Options

  datatype Entry = Directory(files: seq<nat>) | File(size: nat)

  datatype Status = Ok | InvalidArgument | IoError

  type Listing = map<string, Entry>

  datatype Disk = Disk(listable: bool, unreadable: set<string>, stuck: Listing)

  function Sum(sizes: seq<nat>): nat {
    if sizes == [] then 0 else sizes[0] + Sum(sizes[1..])
  }

  function Size(e: Entry): nat {
    match e
    case Directory(files) => Sum(files)
    case File(size) => size
  }

  predicate IsModelDir(name: string, e: Entry) {
    e.Directory? && |name| >= 8 && name[..8] == "models--"
  }

  function Flat(c: char): char { if c == '/' then '-' else c }

  /** repo_to_dirname: every '/' becomes '-'. */
  function Flatten(model: string): (s: string)
    ensures |s| == |model| && forall i :: 0 <= i < |model| ==> s[i] == Flat(model[i])
  {
    seq(|model|, i requires 0 <= i < |model| => Flat(model[i]))
  }

  /** The directory of a model. */
  function Slug(model: string): string { "models--" + Flatten(model) }

  predicate Kept(keep: seq<string>, name: string) { exists i :: 0 <= i < |keep| && Slug(keep[i]) == name }

  predicate IsVictim(keep: seq<string>, name: string, e: Entry) { IsModelDir(name, e) && !Kept(keep, name) }

  function Victims(entries: Listing, keep: seq<string>): set<string> {
    set name | name in entries && IsVictim(keep, name, entries[name])
  }

  /* ---- Bytes of a set of entries, in whatever order they are visited ---- */

  ghost function Bytes(entries: Listing, names: set<string>): nat
    requires names <= entries.Keys
  {
    if names == {} then 0
    else
      var n :| n in names;
      Size(entries[n]) + Bytes(entries, names - {n})
  }

  lemma {:induction false} BytesTakeOne(entries: Listing, names: set<string>, n: string)
    requires names <= entries.Keys && n in names
    ensures Bytes(entries, names) == Size(entries[n]) + Bytes(entries, names - {n})
    decreases names
  {
    var m :| m in names && Bytes(entries, names) == Size(entries[m]) + Bytes(entries, names - {m});
    if m != n {
      BytesTakeOne(entries, names - {m}, n);
      BytesTakeOne(entries, names - {n}, m);
      assert names - {m} - {n} == names - {n} - {m};
    }
  }

  lemma {:induction false} BytesSplit(entries: Listing, a: set<string>, b: set<string>)
    requires a + b <= entries.Keys && a !! b
    ensures Bytes(entries, a + b) == Bytes(entries, a) + Bytes(entries, b)
    decreases a
  {
    if a == {} {
      assert a + b == b;
    } else {
      var n :| n in a;
      BytesTakeOne(entries, a + b, n);
      BytesTakeOne(entries, a, n);
      assert (a + b) - {n} == (a - {n}) + b;
      BytesSplit(entries, a - {n}, b);
    }
  }

  lemma {:induction false} BytesSame(before: Listing, after: Listing, names: set<string>)
    requires names <= before.Keys && names <= after.Keys
    requires forall n :: n in names ==> Size(before[n]) == Size(after[n])
    ensures Bytes(before, names) == Bytes(after, names)
    decreases names
  {
    if names != {} {
      var n :| n in names;
      BytesTakeOne(before, names, n);
      BytesTakeOne(after, names, n);
      BytesSame(before, after, names - {n});
    }
  }

  lemma {:induction false} NoBytesIff(entries: Listing, names: set<string>)
    requires names <= entries.Keys
    ensures Bytes(entries, names) == 0 <==> forall n :: n in names ==> Size(entries[n]) == 0
    decreases names
  {
    if names != {} {
      var n :| n in names;
      BytesTakeOne(entries, names, n);
      NoBytesIff(entries, names - {n});
    }
  }

  /* ---- The cleanup ---- */

  /** What remains of a listing: victims go, unless their removal fails and leaves a rest. */
  function Cleaned(entries: Listing, keep: seq<string>, stuck: Listing): Listing {
    AfterRemoving(entries, Victims(entries, keep), stuck)
  }

  /** A failed removal leaves a directory behind. */
  predicate Leftovers(stuck: Listing) { forall name :: name in stuck ==> stuck[name].Directory? }

  /** Measuring the victims throws when one of them, or the cache itself, cannot be read. */
  predicate Measurable(entries: Listing, keep: seq<string>, disk: Disk) {
    disk.listable && Victims(entries, keep) !! disk.unreadable
  }

  method KeepDirs(keep: seq<string>) returns (dirs: set<string>)
    ensures forall name :: name in dirs <==> Kept(keep, name)
  {
    dirs := {};
    for i := 0 to |keep|
      invariant forall name :: name in dirs <==> exists j :: 0 <= j < i && Slug(keep[j]) == name
    {
      dirs := dirs + {Slug(keep[i])};
    }
  }

  lemma VisitVictim(entries: Listing, victims: set<string>, visited: set<string>, todo: set<string>, name: string)
    requires victims <= entries.Keys && name in victims && name !in todo && visited == victims - (todo + {name})
    ensures visited + {name} == victims - todo
    ensures Bytes(entries, visited + {name}) == Bytes(entries, visited) + Size(entries[name])
  {
    BytesTakeOne(entries, visited + {name}, name);
    assert (visited + {name}) - {name} == visited;
  }

  function AfterRemoving(entries: Listing, names: set<string>, stuck: Listing): Listing {
    map name | name in entries && (name !in names || name in stuck)
      :: if name in names then stuck[name] else entries[name]
  }

  lemma NothingRemoved(entries: Listing, stuck: Listing)
    ensures var none: set<string> := {};
            AfterRemoving(entries, none, stuck) == entries && |none - stuck.Keys| == 0
  {
    var none: set<string> := {};
    assert none - stuck.Keys == {};
  }

  lemma MoveOver(done: set<string>, rest: set<string>, name: string)
    requires done !! rest && name in rest
    ensures done + {name} !! rest - {name} && (done + {name}) + (rest - {name}) == done + rest
    ensures |rest - {name}| < |rest|
  {
  }

  lemma RemoveOneMore(entries: Listing, done: set<string>, stuck: Listing, name: string)
    requires done <= entries.Keys && name in entries && name !in done
    ensures name in stuck ==>
              && AfterRemoving(entries, done + {name}, stuck) == AfterRemoving(entries, done, stuck)[name := stuck[name]]
              && (done + {name}) - stuck.Keys == done - stuck.Keys
    ensures name !in stuck ==>
              && AfterRemoving(entries, done + {name}, stuck) == AfterRemoving(entries, done, stuck) - {name}
              && |(done + {name}) - stuck.Keys| == |done - stuck.Keys| + 1
  {
    CountOneMore(done, stuck.Keys, name);
    if name in stuck {
      LeaveRest(entries, done, stuck, name);
    } else {
      LeaveNothing(entries, done, stuck, name);
    }
  }

  lemma CountOneMore(done: set<string>, stuck: set<string>, name: string)
    requires name !in done
    ensures name in stuck ==> (done + {name}) - stuck == done - stuck
    ensures name !in stuck ==> |(done + {name}) - stuck| == |done - stuck| + 1
  {
    assert name !in stuck ==> (done + {name}) - stuck == (done - stuck) + {name};
  }

  lemma LeaveNothing(entries: Listing, done: set<string>, stuck: Listing, name: string)
    requires name !in stuck
    ensures AfterRemoving(entries, done + {name}, stuck) == AfterRemoving(entries, done, stuck) - {name}
  {
  }

  lemma LeaveRest(entries: Listing, done: set<string>, stuck: Listing, name: string)
    requires name in entries && name in stuck
    ensures AfterRemoving(entries, done + {name}, stuck) == AfterRemoving(entries, done, stuck)[name := stuck[name]]
  {
  }

  class ModelCache {
    var present: bool
    var entries: Listing

    constructor (entries: Listing)
      ensures present && this.entries == entries
    {
      present, this.entries := true, entries;
    }

    /** The directories to delete, and the bytes in them, counted before any removal; not ok
        when an iterator throws. */
    method Scan(keep: seq<string>, disk: Disk) returns (ok: bool, toDelete: set<string>, freed: nat)
      ensures ok <==> Measurable(entries, keep, disk)
      ensures ok ==> toDelete == Victims(entries, keep)
      ensures ok ==> freed == Bytes(entries, Victims(entries, keep))
    {
      if !disk.listable {
        return false, {}, 0;
      }
      var keepDirs := KeepDirs(keep);
      ghost var victims := Victims(entries, keep);
      ok, toDelete, freed := true, {}, 0;
      var todo := entries.Keys;
      while todo != {}
        invariant todo <= entries.Keys && toDelete == victims - todo && ok
        invariant toDelete !! disk.unreadable
        invariant freed == Bytes(entries, toDelete)
        decreases |todo|
      {
        var name :| name in todo;
        todo := todo - {name};
        var entry := entries[name];
        assert name in victims <==> IsModelDir(name, entry) && name !in keepDirs;
        if IsModelDir(name, entry) && name !in keepDirs {
          if name in disk.unreadable {
            return false, {}, 0;
          }
          VisitVictim(entries, victims, toDelete, todo, name);
          toDelete := toDelete + {name};
          freed := freed + Size(entry);
        }
      }
    }

    /** Removes directory trees one by one and counts those that went without an error. */
    method RemoveAll(victims: set<string>, stuck: Listing) returns (deleted: nat)
      requires victims <= entries.Keys
      modifies this`entries
      ensures deleted == |victims - stuck.Keys|
      ensures entries == AfterRemoving(old(entries), victims, stuck)
    {
      ghost var before := entries;
      ghost var done: set<string> := {};
      var toDelete := victims;
      deleted := 0;
      NothingRemoved(before, stuck);
      while toDelete != {}
        invariant done !! toDelete && done + toDelete == victims
        invariant deleted == |done - stuck.Keys|
        invariant entries == AfterRemoving(before, done, stuck)
        decreases |toDelete|
      {
        var name :| name in toDelete;
        RemoveOneMore(before, done, stuck, name);
        MoveOver(done, toDelete, name);
        toDelete := toDelete - {name};
        done := done + {name};
        if name in stuck {
          entries := entries[name := stuck[name]];
        } else {
          entries := entries - {name};
          deleted := deleted + 1;
        }
      }
      assert done == victims;
    }

    /** lembed_cleanup_model_cache. No keep list at all is an invalid argument; when the
        measuring throws, the counts are zero and nothing has been removed. */
    method Cleanup(keepModels: Option<seq<string>>, dryRun: bool, disk: Disk)
      returns (status: Status, deleted: nat, freed: nat)
      requires Leftovers(disk.stuck)
      modifies this`entries
      ensures status.InvalidArgument? <==> keepModels.None?
      ensures status.IoError? <==> keepModels.Some? && present && !Measurable(old(entries), keepModels.value, disk)
      ensures !status.Ok? || !present ==> entries == old(entries) && deleted == 0 && freed == 0
      ensures status.Ok? && present ==> freed == Bytes(old(entries), Victims(old(entries), keepModels.value))
      ensures status.Ok? && present && dryRun ==>
                entries == old(entries) && deleted == |Victims(old(entries), keepModels.value)|
      ensures status.Ok? && present && !dryRun ==>
                && entries == Cleaned(old(entries), keepModels.value, disk.stuck)
                && deleted == |Victims(old(entries), keepModels.value) - disk.stuck.Keys|
    {
      if keepModels.None? {
        return InvalidArgument, 0, 0;
      }
      if !present {
        return Ok, 0, 0;
      }
      var ok, toDelete;
      ok, toDelete, freed := Scan(keepModels.value, disk);
      if !ok {
        return IoError, 0, 0;
      }
      if dryRun {
        return Ok, |toDelete|, freed;
      }
      deleted := RemoveAll(toDelete, disk.stuck);
      status := Ok;
    }
  }

  /** Whatever happens to the removals, entries that are not model directories and the
      directories of kept models stay exactly as they were. */
  lemma OthersUntouched(entries: Listing, keep: seq<string>, stuck: Listing, name: string)
    requires name in entries && (!IsModelDir(name, entries[name]) || exists i :: 0 <= i < |keep| && name == Slug(keep[i]))
    ensures name in Cleaned(entries, keep, stuck) && Cleaned(entries, keep, stuck)[name] == entries[name]
  {
  }

  /** The reported bytes account for the difference exactly when every failed removal has
      left no bytes behind: freed is counted before anything is removed. */
  lemma BytesBalanceIff(entries: Listing, keep: seq<string>, stuck: Listing)
    requires Leftovers(stuck)
    ensures var after := Cleaned(entries, keep, stuck);
            var victims := Victims(entries, keep);
            && after.Keys <= entries.Keys
            && Bytes(entries, entries.Keys) + Bytes(after, victims * stuck.Keys)
               == Bytes(after, after.Keys) + Bytes(entries, victims)
            && (Bytes(entries, entries.Keys) == Bytes(after, after.Keys) + Bytes(entries, victims)
                <==> forall n :: n in victims && n in stuck ==> Size(stuck[n]) == 0)
  {
    var after, victims := Cleaned(entries, keep, stuck), Victims(entries, keep);
    var others := entries.Keys - victims;
    var left := victims * stuck.Keys;
    assert entries.Keys == victims + others;
    assert after.Keys == left + others;
    BytesSplit(entries, victims, others);
    BytesSplit(after, left, others);
    BytesSame(entries, after, others);
    NoBytesIff(after, left);
    assert forall n :: n in left ==> after[n] == stuck[n];
  }

  /** A dry run announces what a real run will report: the same bytes always (both count
      before removing), and the same number of directories exactly when no removal fails. */
  lemma DryRunCountIff(entries: Listing, keep: seq<string>, stuck: Listing)
    ensures |Victims(entries, keep) - stuck.Keys| == |Victims(entries, keep)|
            <==> Victims(entries, keep) !! stuck.Keys
  {
    var victims := Victims(entries, keep);
    if victims !! stuck.Keys {
      assert victims - stuck.Keys == victims;
    } else {
      assert victims == (victims - stuck.Keys) + (victims * stuck.Keys);
      var n :| n in victims * stuck.Keys;
      assert |victims * stuck.Keys| > 0;
    }
  }

  /** Once all removals have succeeded, a second cleanup finds nothing to delete or free. */
  lemma SecondCleanupFindsNothing(entries: Listing, keep: seq<string>)
    ensures var after := Cleaned(entries, keep, map[]);
            Victims(after, keep) == {} && Bytes(after, Victims(after, keep)) == 0
            && Cleaned(after, keep, map[]) == after
  {
    var after := Cleaned(entries, keep, map[]);
    assert Victims(after, keep) == {};
  }

  /** After failed removals, a second cleanup still sees exactly the directories left over. */
  lemma SecondCleanupSeesLeftovers(entries: Listing, keep: seq<string>, stuck: Listing)
    requires Leftovers(stuck)
    ensures Victims(Cleaned(entries, keep, stuck), keep) == Victims(entries, keep) * stuck.Keys
  {
    var after, victims := Cleaned(entries, keep, stuck), Victims(entries, keep);
    forall n ensures n in Victims(after, keep) <==> n in victims * stuck.Keys {
      if n in victims && n in stuck {
        assert n in after && after[n] == stuck[n];
      }
    }
  }

  /** Two models share a directory exactly when their codes differ in '/' against '-' only;
      then keeping one of them keeps the other. */
  lemma SharedDirectoryIff(a: string, b: string)
    ensures Slug(a) == Slug(b) <==>
              |a| == |b| && forall i :: 0 <= i < |a| ==> a[i] == b[i] || (IsSeparator(a[i]) && IsSeparator(b[i]))
  {
    assert Slug(a)[8..] == Flatten(a) && Slug(b)[8..] == Flatten(b);
    if |a| == |b| {
      forall i | 0 <= i < |a|
        ensures Flat(a[i]) == Flat(b[i]) <==> a[i] == b[i] || (IsSeparator(a[i]) && IsSeparator(b[i]))
      {
      }
      if Flatten(a) == Flatten(b) {
        forall i | 0 <= i < |a| ensures Flat(a[i]) == Flat(b[i]) {
          assert Flatten(a)[i] == Flatten(b)[i];
        }
      }
    }
  }

  predicate IsSeparator(c: char) { c == '/' || c == '-' }

  /** After a full cleanup an entry is still there exactly when it is no directory, or does not
      begin with models--, or a model to keep has this name with its slashes as dashes. */
  lemma SurvivorsAre(entries: Listing, keep: seq<string>, name: string)
    requires name in entries
    ensures name in Cleaned(entries, keep, map[]) <==>
              || entries[name].File? || |name| < 8 || name[..8] != "models--"
              || exists m :: 0 <= m < |keep| && Names(keep[m], name[8..])
    ensures name in Cleaned(entries, keep, map[]) ==> Cleaned(entries, keep, map[])[name] == entries[name]
  {
    forall m | 0 <= m < |keep| && |name| >= 8 && name[..8] == "models--"
      ensures Slug(keep[m]) == name <==> Names(keep[m], name[8..])
    {
      SlugNames(keep[m], name);
    }
    if i :| 0 <= i < |keep| && Slug(keep[i]) == name {
      assert |"models--"| == 8 && name[..8] == "models--";
    }
  }

  /** The directory name that stands for a model: its slashes are dashes. */
  predicate Names(model: string, dir: string) {
    |dir| == |model| && forall i :: 0 <= i < |dir| ==> dir[i] == if model[i] == '/' then '-' else model[i]
  }

  lemma SlugNames(model: string, name: string)
    requires |name| >= 8 && name[..8] == "models--"
    ensures Slug(model) == name <==> Names(model, name[8..])
  {
    assert |"models--"| == 8 && name == name[..8] + name[8..];
    assert Slug(model)[8..] == Flatten(model);
  }
}
