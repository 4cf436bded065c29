/** Restoring a backup archive: which files on the target disk are written, removed and left alone, and what can come
    of it when the orders in which maps are walked are not known. */
module BackupRestore {
  import opened Wrappers
  import opened ArchivePaths
  import opened BackupArchive

  /** A directory to restore: where it is, which of its files are removed first, the name it has in the archive, and
      which of the archived files are written (all of them without a filter). */
  datatype Place = Place(dir: string, ext: string, prefix: string, filter: Option<string>)

  /** Where in the directory an archived file goes, if it belongs to it.  Anything that merely starts with the
      directory's name belongs. */
  function RelOf(prefix: string, filter: Option<string>, name: string): Option<string> {
    if !HasPrefix(name, prefix) then None
    else
      var rel := TrimPrefix(TrimPrefix(name, prefix), "/");
      if rel == "" || (filter.Some? && !HasExt(rel, filter.value)) then None else Some(rel)
  }

  function Dest(pl: Place, name: string): Option<string> {
    match RelOf(pl.prefix, pl.filter, name) case None => None case Some(rel) => Some(Join(pl.dir, rel))
  }

  /** The archive's files are written in the order the map happens to give them. */
  function WriteTree(disk: Files, pl: Place, archive: Files, order: seq<string>): Files
    requires forall k :: k in order ==> k in archive
  {
    if order == [] then disk
    else var last := order[|order| - 1];
         var before := WriteTree(disk, pl, archive, order[..|order| - 1]);
         match Dest(pl, last)
         case None => before
         case Some(p) => before[p := archive[last]]
  }

  predicate TopLevel(dir: string, ext: string, path: string) {
    Beneath(dir, path) && '/' !in RelTo(dir, path) && HasExt(RelTo(dir, path), ext)
  }

  function Cleaned(disk: Files, dir: string, ext: string): Files {
    map p | p in disk && !TopLevel(dir, ext, p) :: disk[p]
  }

  /** One directory restored, if the archive includes it. */
  function Stage(included: bool, disk: Files, pl: Place, archive: Files, order: seq<string>): Files
    requires forall k :: k in order ==> k in archive
  {
    if included then WriteTree(Cleaned(disk, pl.dir, pl.ext), pl, archive, order) else disk
  }

  datatype Orders = Orders(extensions: seq<string>, moh: seq<string>, phonebook: seq<string>)

  ghost predicate OrdersOf(r: Orders, archive: Files) {
    Listing(r.extensions, archive) && Listing(r.moh, archive) && Listing(r.phonebook, archive)
  }

  function ExtensionsPlace(t: Layout, n: Names): Place { Place(t.extensionsDir, TOML, n.extensions, Some(TOML)) }

  function MohPlace(t: Layout, n: Names): Place { Place(t.mohDir, WAV, n.moh, None) }

  function PhonebookPlace(t: Layout, n: Names): Place { Place(t.phonebookDir, XML, n.phonebook, None) }

  predicate MohIncluded(m: Manifest) { m.included.moh && m.names.moh != "" }

  predicate PhonebookIncluded(m: Manifest) { m.included.phonebook && m.names.phonebook != "" }

  function Written(t: Layout, m: Manifest, archive: Files, disk: Files): Files
    requires m.names.config in archive && m.names.database in archive
  {
    disk[t.configPath := archive[m.names.config]][t.databasePath := archive[m.names.database]]
  }

  /** The disk after a restore; an archive that does not pass the check leaves it alone. */
  ghost function Restored(t: Layout, archive: Files, codec: Codec, disk: Files, r: Orders): Files
    requires OrdersOf(r, archive)
  {
    match Validated(archive, codec)
    case Err(_) => disk
    case Ok(m) =>
      var first := Stage(true, Written(t, m, archive, disk), ExtensionsPlace(t, m.names), archive, r.extensions);
      var second := Stage(MohIncluded(m), first, MohPlace(t, m.names), archive, r.moh);
      Stage(PhonebookIncluded(m), second, PhonebookPlace(t, m.names), archive, r.phonebook)
  }

  class Disk {
    var files: Files

    constructor (files: Files)
      ensures this.files == files
    {
      this.files := files;
    }

    method CleanDir(dir: string, ext: string)
      modifies this
      ensures files == Cleaned(old(files), dir, ext)
    {
      ghost var before := files;
      var entries := files.Keys;
      while entries != {}
        invariant entries <= before.Keys
        invariant files == map p | p in before && (p in entries || !TopLevel(dir, ext, p)) :: before[p]
      {
        var p :| p in entries;
        if TopLevel(dir, ext, p) { files := files - {p}; }
        entries := entries - {p};
      }
    }

    method WriteDir(pl: Place, archive: Files) returns (ghost order: seq<string>)
      modifies this
      ensures Listing(order, archive) && files == WriteTree(old(files), pl, archive, order)
    {
      order := [];
      var rest := archive.Keys;
      while rest != {}
        invariant rest <= archive.Keys
        invariant forall k :: k in order <==> k in archive && k !in rest
        invariant forall i, j :: 0 <= i < j < |order| ==> order[i] != order[j]
        invariant files == WriteTree(old(files), pl, archive, order)
      {
        var name :| name in rest;
        assert (order + [name])[..|order|] == order;
        rest, order := rest - {name}, order + [name];
        var dest := Dest(pl, name);
        if dest.Some? { files := files[dest.value := archive[name]]; }
      }
    }

    method RestoreDir(included: bool, pl: Place, archive: Files) returns (ghost order: seq<string>)
      modifies this
      ensures Listing(order, archive) && files == Stage(included, old(files), pl, archive, order)
    {
      if included {
        CleanDir(pl.dir, pl.ext);
        order := WriteDir(pl, archive);
      } else {
        order := SomeListing(archive);
      }
    }

    method Restore(t: Layout, archive: Files, codec: Codec) returns (err: Option<Error>, ghost r: Orders)
      modifies this
      ensures err == match Validated(archive, codec) { case Err(e) => Some(e) case Ok(_) => None }
      ensures OrdersOf(r, archive) && files == Restored(t, archive, codec, old(files), r)
    {
      var valid := ValidateArchive(archive, codec);
      if valid.Err? {
        ghost var any := SomeListing(archive);
        return Some(valid.error), Orders(any, any, any);
      }
      var m := valid.value;
      files := files[t.configPath := archive[m.names.config]];
      files := files[t.databasePath := archive[m.names.database]];
      ghost var first := RestoreDir(true, ExtensionsPlace(t, m.names), archive);
      ghost var second := RestoreDir(MohIncluded(m), MohPlace(t, m.names), archive);
      ghost var third := RestoreDir(PhonebookIncluded(m), PhonebookPlace(t, m.names), archive);
      return None, Orders(first, second, third);
    }
  }

  lemma SomeListing(archive: Files) returns (order: seq<string>)
    ensures Listing(order, archive)
  {
    order := [];
    var rest := archive.Keys;
    while rest != {}
      invariant rest <= archive.Keys
      invariant forall k :: k in order <==> k in archive && k !in rest
      invariant forall i, j :: 0 <= i < j < |order| ==> order[i] != order[j]
    {
      var name :| name in rest;
      rest, order := rest - {name}, order + [name];
    }
  }

  // ---- What can become of one path

  /** The contents of a path, or None. */
  type Cell = Option<Bytes>

  function CellAt(disk: Files, p: string): Cell { if p in disk then Some(disk[p]) else None }

  /** The archived names that restoring a directory writes to a path. */
  function Writers(pl: Place, archive: Files, p: string): set<string> {
    set name | name in archive && Dest(pl, name) == Some(p)
  }

  /** What a path can hold after a stage: one of its writers' contents; without one, nothing if it is cleaned away,
      and otherwise what it could hold before. */
  function StageCells(included: bool, pl: Place, archive: Files, p: string, before: set<Cell>): set<Cell> {
    if !included then before
    else if Writers(pl, archive, p) != {} then
      set name | name in archive && name in Writers(pl, archive, p) :: Some(archive[name])
    else if TopLevel(pl.dir, pl.ext, p) then {None}
    else before
  }

  /** Everything a path can hold after a restore, computed without restoring. */
  function Outcomes(t: Layout, m: Manifest, archive: Files, disk: Files, p: string): set<Cell>
    requires m.names.config in archive && m.names.database in archive
  {
    var first := StageCells(true, ExtensionsPlace(t, m.names), archive, p, {CellAt(Written(t, m, archive, disk), p)});
    var second := StageCells(MohIncluded(m), MohPlace(t, m.names), archive, p, first);
    StageCells(PhonebookIncluded(m), PhonebookPlace(t, m.names), archive, p, second)
  }

  lemma {:induction false} WriteTreeCell(disk: Files, pl: Place, archive: Files, order: seq<string>, p: string)
    requires forall k :: k in order ==> k in archive
    ensures var after := CellAt(WriteTree(disk, pl, archive, order), p);
            || ((forall k :: k in order ==> Dest(pl, k) != Some(p)) && after == CellAt(disk, p))
            || (exists k :: k in order && Dest(pl, k) == Some(p) && after == Some(archive[k]))
  {
    if order != [] {
      var front, last := order[..|order| - 1], order[|order| - 1];
      assert order == front + [last];
      WriteTreeCell(disk, pl, archive, front, p);
    }
  }

  lemma {:induction false} LastWriterWins(
      disk: Files, pl: Place, archive: Files, front: seq<string>, name: string, p: string)
    requires (forall k :: k in front + [name] ==> k in archive) && Dest(pl, name) == Some(p)
    ensures CellAt(WriteTree(disk, pl, archive, front + [name]), p) == Some(archive[name])
  {
    assert (front + [name])[..|front|] == front;
  }

  lemma StageOutcome(included: bool, disk: Files, pl: Place, archive: Files, order: seq<string>, p: string)
    requires Listing(order, archive)
    ensures CellAt(Stage(included, disk, pl, archive, order), p)
            in StageCells(included, pl, archive, p, {CellAt(disk, p)})
  {
    if included {
      var clean := Cleaned(disk, pl.dir, pl.ext);
      WriteTreeCell(clean, pl, archive, order, p);
      var after := CellAt(WriteTree(clean, pl, archive, order), p);
      if k :| k in order && Dest(pl, k) == Some(p) && after == Some(archive[k]) {
        assert k in Writers(pl, archive, p);
      }
    }
  }

  /** Any of the outcomes of a stage comes about in some order. */
  lemma StageReaches(
      included: bool, disk: Files, pl: Place, archive: Files, p: string, v: Cell) returns (order: seq<string>)
    requires v in StageCells(included, pl, archive, p, {CellAt(disk, p)})
    ensures Listing(order, archive) && CellAt(Stage(included, disk, pl, archive, order), p) == v
  {
    if included && Writers(pl, archive, p) != {} {
      var name :| name in archive && name in Writers(pl, archive, p) && v == Some(archive[name]);
      var front := SomeListing(archive - {name});
      order := front + [name];
      LastWriterWins(Cleaned(disk, pl.dir, pl.ext), pl, archive, front, name, p);
    } else {
      order := SomeListing(archive);
      StageOutcome(included, disk, pl, archive, order, p);
    }
  }

  lemma StageWithin(
      included: bool, disk: Files, pl: Place, archive: Files, order: seq<string>, p: string, before: set<Cell>)
    requires Listing(order, archive) && CellAt(disk, p) in before
    ensures CellAt(Stage(included, disk, pl, archive, order), p) in StageCells(included, pl, archive, p, before)
  {
    StageOutcome(included, disk, pl, archive, order, p);
  }

  lemma StageCellsComeFrom(included: bool, pl: Place, archive: Files, p: string, before: set<Cell>, v: Cell)
    returns (u: Cell)
    requires before != {} && v in StageCells(included, pl, archive, p, before)
    ensures u in before && v in StageCells(included, pl, archive, p, {u})
  {
    u :| u in before && (v in before ==> u == v);
  }

  lemma StageCellsNotEmpty(included: bool, pl: Place, archive: Files, p: string, before: set<Cell>)
    requires before != {}
    ensures StageCells(included, pl, archive, p, before) != {}
  {
    if included && Writers(pl, archive, p) != {} {
      var name :| name in Writers(pl, archive, p);
      assert Some(archive[name]) in StageCells(included, pl, archive, p, before);
    }
  }

  lemma OutcomesNotEmpty(t: Layout, m: Manifest, archive: Files, disk: Files, p: string)
    requires m.names.config in archive && m.names.database in archive
    ensures Outcomes(t, m, archive, disk, p) != {}
  {
    var zero := {CellAt(Written(t, m, archive, disk), p)};
    StageCellsNotEmpty(true, ExtensionsPlace(t, m.names), archive, p, zero);
    var first := StageCells(true, ExtensionsPlace(t, m.names), archive, p, zero);
    StageCellsNotEmpty(MohIncluded(m), MohPlace(t, m.names), archive, p, first);
    var second := StageCells(MohIncluded(m), MohPlace(t, m.names), archive, p, first);
    StageCellsNotEmpty(PhonebookIncluded(m), PhonebookPlace(t, m.names), archive, p, second);
  }

  /** Whatever the orders, a path holds one of its outcomes. */
  lemma OutcomeIsListed(t: Layout, archive: Files, codec: Codec, m: Manifest, disk: Files, r: Orders, p: string)
    requires Validated(archive, codec) == Ok(m) && OrdersOf(r, archive)
    ensures CellAt(Restored(t, archive, codec, disk, r), p) in Outcomes(t, m, archive, disk, p)
  {
    var e, w, x := ExtensionsPlace(t, m.names), MohPlace(t, m.names), PhonebookPlace(t, m.names);
    var d0 := Written(t, m, archive, disk);
    var d1 := Stage(true, d0, e, archive, r.extensions);
    var d2 := Stage(MohIncluded(m), d1, w, archive, r.moh);
    var c1 := StageCells(true, e, archive, p, {CellAt(d0, p)});
    var c2 := StageCells(MohIncluded(m), w, archive, p, c1);
    StageWithin(true, d0, e, archive, r.extensions, p, {CellAt(d0, p)});
    StageWithin(MohIncluded(m), d1, w, archive, r.moh, p, c1);
    StageWithin(PhonebookIncluded(m), d2, x, archive, r.phonebook, p, c2);
  }

  /** And each of its outcomes comes about in some orders. */
  lemma OutcomeOccurs(t: Layout, archive: Files, codec: Codec, m: Manifest, disk: Files, p: string, v: Cell)
    returns (r: Orders)
    requires Validated(archive, codec) == Ok(m) && v in Outcomes(t, m, archive, disk, p)
    ensures OrdersOf(r, archive) && CellAt(Restored(t, archive, codec, disk, r), p) == v
  {
    var e, w, x := ExtensionsPlace(t, m.names), MohPlace(t, m.names), PhonebookPlace(t, m.names);
    var d0 := Written(t, m, archive, disk);
    var c0 := {CellAt(d0, p)};
    var c1 := StageCells(true, e, archive, p, c0);
    var c2 := StageCells(MohIncluded(m), w, archive, p, c1);
    StageCellsNotEmpty(true, e, archive, p, c0);
    StageCellsNotEmpty(MohIncluded(m), w, archive, p, c1);
    var u2 := StageCellsComeFrom(PhonebookIncluded(m), x, archive, p, c2, v);
    var u1 := StageCellsComeFrom(MohIncluded(m), w, archive, p, c1, u2);
    var o1 := StageReaches(true, d0, e, archive, p, u1);
    var d1 := Stage(true, d0, e, archive, o1);
    var o2 := StageReaches(MohIncluded(m), d1, w, archive, p, u2);
    var d2 := Stage(MohIncluded(m), d1, w, archive, o2);
    var o3 := StageReaches(PhonebookIncluded(m), d2, x, archive, p, v);
    r := Orders(o1, o2, o3);
  }

  /** A path is certain to hold `v` exactly when that is its only outcome. */
  lemma CertainExactly(t: Layout, archive: Files, codec: Codec, m: Manifest, disk: Files, p: string, v: Cell)
    requires Validated(archive, codec) == Ok(m)
    ensures (forall r :: OrdersOf(r, archive) ==> CellAt(Restored(t, archive, codec, disk, r), p) == v)
            <==> Outcomes(t, m, archive, disk, p) == {v}
  {
    OutcomesNotEmpty(t, m, archive, disk, p);
    if Outcomes(t, m, archive, disk, p) == {v} {
      forall r | OrdersOf(r, archive) ensures CellAt(Restored(t, archive, codec, disk, r), p) == v {
        OutcomeIsListed(t, archive, codec, m, disk, r, p);
      }
    } else {
      var u :| u in Outcomes(t, m, archive, disk, p) && u != v;
      var r := OutcomeOccurs(t, archive, codec, m, disk, p, u);
    }
  }

  // ---- Outside a directory

  lemma DestIsBeneath(pl: Place, name: string)
    ensures var d := Dest(pl, name); d.Some? ==> Beneath(pl.dir, d.value)
  {}

  /** A stage touches nothing outside its directory. */
  lemma StageStaysInside(included: bool, pl: Place, archive: Files, p: string, before: set<Cell>)
    requires included ==> !Beneath(pl.dir, p)
    ensures StageCells(included, pl, archive, p, before) == before
  {
    forall name | name in archive ensures included ==> Dest(pl, name) != Some(p) { DestIsBeneath(pl, name); }
  }

  /** Restoring touches no path but the configuration, the database and those beneath the directories the archive
      includes, and nothing at all if the archive does not pass the check. */
  lemma RestStays(t: Layout, archive: Files, codec: Codec, target: Files, r: Orders, p: string)
    requires OrdersOf(r, archive)
    requires Validated(archive, codec).Ok? ==>
               var m := Validated(archive, codec).value;
               && p != t.configPath && p != t.databasePath && !Beneath(t.extensionsDir, p)
               && (m.included.moh && m.names.moh != "" ==> !Beneath(t.mohDir, p))
               && (m.included.phonebook && m.names.phonebook != "" ==> !Beneath(t.phonebookDir, p))
    ensures CellAt(Restored(t, archive, codec, target, r), p) == CellAt(target, p)
  {
    if Validated(archive, codec).Ok? {
      var m := Validated(archive, codec).value;
      var before := {CellAt(target, p)};
      OutcomeIsListed(t, archive, codec, m, target, r, p);
      StageStaysInside(true, ExtensionsPlace(t, m.names), archive, p, before);
      StageStaysInside(MohIncluded(m), MohPlace(t, m.names), archive, p, before);
      StageStaysInside(PhonebookIncluded(m), PhonebookPlace(t, m.names), archive, p, before);
    }
  }
}
