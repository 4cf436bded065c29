/** Backup archives: gathering the files of an installation, packing and unpacking them, and checking an archive
    against its manifest.  A disk is a map from paths to contents; how a manifest is written as bytes and how
    bytes are hashed is left to the codec. */
module BackupArchive {
  import opened Wrappers
  import opened ArchivePaths

  type Bytes = seq<bv8>

  type Files = map<string, Bytes>

  const TOML := ".toml"
  const WAV := ".wav"
  const XML := ".xml"
  const MANIFEST := "manifest.json"
  const FORMAT_VERSION := 1
  const MAX_ARCHIVE_BYTES := 500 * 1024 * 1024

  datatype Error =
    | Malformed | UnsupportedFormat | InvalidManifest | MissingFile | ChecksumMismatch | TooLarge | Unreadable

  datatype Result<+T> = Ok(value: T) | Err(error: Error)

  datatype FileEntry = FileEntry(path: string, hash: string, size: nat)

  datatype Options = Options(moh: bool, phonebook: bool)

  /** Where things are on disk, and the names they have in an archive. */
  datatype Layout = Layout(
    configPath: string, databasePath: string, extensionsDir: string, mohDir: string, phonebookDir: string, names: Names)

  datatype Names = Names(config: string, database: string, extensions: string, moh: string, phonebook: string)

  /** The server version that made the archive, and when. */
  datatype Stamp = Stamp(serverVersion: string, createdAt: string)

  datatype Manifest = Manifest(version: int, stamp: Stamp, names: Names, included: Options, files: seq<FileEntry>)

  datatype Codec = Codec(encode: Manifest -> Bytes, decode: Bytes -> Option<Manifest>, hash: Bytes -> string)

  // ---- Gathering

  ghost function AnyPath(disk: Files): (p: string)
    requires disk != map[]
    ensures p in disk
  {
    var p :| p in disk; p
  }

  /** What AddDir adds: the files with an extension anywhere beneath a directory, under their archive names. */
  ghost function Part(disk: Files, prefix: string, dir: string, ext: string): Files
    decreases |disk|
  {
    if disk == map[] then map[]
    else
      var p := AnyPath(disk);
      var rest := Part(disk - {p}, prefix, dir, ext);
      if Beneath(dir, p) && HasExt(Base(p), ext) then rest[Join(prefix, RelTo(dir, p)) := disk[p]] else rest
  }

  ghost function Extensions(l: Layout, disk: Files): Files { Part(disk, l.names.extensions, l.extensionsDir, TOML) }

  ghost function Moh(l: Layout, o: Options, disk: Files): Files {
    if o.moh then Part(disk, l.names.moh, l.mohDir, WAV) else map[]
  }

  ghost function Phonebook(l: Layout, o: Options, disk: Files): Files {
    if o.phonebook then Part(disk, l.names.phonebook, l.phonebookDir, XML) else map[]
  }

  /** What the database is saved from. */
  function Database(l: Layout, disk: Files, snapshot: Option<Bytes>): Option<Bytes> {
    if snapshot.Some? then snapshot else if l.databasePath in disk then Some(disk[l.databasePath]) else None
  }

  function Layered(
      config: string, c: Option<Bytes>, database: string, d: Option<Bytes>, e: Files, w: Files, x: Files): Files {
    var f1: Files := if c.Some? then map[config := c.value] else map[];
    var f2 := f1 + e;
    var f3 := if d.Some? then f2[database := d.value] else f2;
    f3 + w + x
  }

  function Config(l: Layout, disk: Files): Option<Bytes> {
    if l.configPath in disk then Some(disk[l.configPath]) else None
  }

  /** Everything that goes into the archive besides the manifest; a given snapshot stands for the database. */
  ghost function Gathered(l: Layout, o: Options, disk: Files, snapshot: Option<Bytes>): Files {
    Layered(l.names.config, Config(l, disk), l.names.database, Database(l, disk, snapshot),
            Extensions(l, disk), Moh(l, o, disk), Phonebook(l, o, disk))
  }

  /** The manifest lists every file once, in any order. */
  ghost predicate Describes(m: Manifest, l: Layout, o: Options, files: Files, hash: Bytes -> string) {
    && m.version == FORMAT_VERSION && m.names == l.names && m.included == o
    && (forall i :: 0 <= i < |m.files| ==>
          m.files[i].path in files
          && m.files[i].hash == hash(files[m.files[i].path]) && m.files[i].size == |files[m.files[i].path]|)
    && (forall p :: p in files ==> exists i :: 0 <= i < |m.files| && m.files[i].path == p)
    && (forall i, j :: 0 <= i < j < |m.files| ==> m.files[i].path != m.files[j].path)
  }

  /** A file beneath the directory and its archive name determine each other, and have the same extension. */
  lemma SameFile(prefix: string, dir: string, ext: string, p: string, name: string)
    requires '/' !in ext
    ensures Beneath(dir, p) && name == Join(prefix, RelTo(dir, p))
            <==> Beneath(prefix, name) && p == Join(dir, RelTo(prefix, name))
    ensures Beneath(dir, p) && name == Join(prefix, RelTo(dir, p)) ==> (HasExt(Base(p), ext) <==> HasExt(name, ext))
  {
    if Beneath(dir, p) {
      RelJoin(dir, p);
      JoinRel(prefix, RelTo(dir, p));
      ExtOfBase(p, ext);
      ExtAfterSlash(dir, RelTo(dir, p), ext);
      ExtAfterSlash(prefix, RelTo(dir, p), ext);
    }
    if Beneath(prefix, name) {
      RelJoin(prefix, name);
      JoinRel(dir, RelTo(prefix, name));
    }
  }

  /** What a directory contributes to the archive, by name, in whatever order it is walked. */
  lemma {:induction false} TreeInArchive(disk: Files, prefix: string, dir: string, ext: string, name: string)
    requires '/' !in ext
    ensures var part := Part(disk, prefix, dir, ext);
            && (name in part <==> Beneath(prefix, name) && Join(dir, RelTo(prefix, name)) in disk && HasExt(name, ext))
            && (name in part ==> part[name] == disk[Join(dir, RelTo(prefix, name))])
    decreases |disk|
  {
    if disk != map[] {
      var p := AnyPath(disk);
      TreeInArchive(disk - {p}, prefix, dir, ext, name);
      SameFile(prefix, dir, ext, p, name);
    }
  }

  // ---- Packing and unpacking

  datatype Entry = Entry(name: string, regular: bool, data: Bytes)

  ghost predicate Listing(names: seq<string>, files: Files) {
    && (forall k :: k in names <==> k in files)
    && (forall i, j :: 0 <= i < j < |names| ==> names[i] != names[j])
  }

  function Packed(names: seq<string>, files: Files): seq<Entry>
    requires forall k :: k in names ==> k in files
  {
    if names == [] then []
    else var last := names[|names| - 1]; Packed(names[..|names| - 1], files) + [Entry(last, true, files[last])]
  }

  datatype Unpacking = Unpacking(files: Files, total: nat)

  function TakeEntry(u: Unpacking, e: Entry, max: nat): Result<Unpacking> {
    if !e.regular then Ok(u)
    else if Contains(e.name, "..") then Err(InvalidManifest)
    else if u.total + |e.data| > max then Err(TooLarge)
    else Ok(Unpacking(u.files[e.name := e.data], u.total + |e.data|))
  }

  function Unpacked(entries: seq<Entry>, max: nat): Result<Unpacking> {
    if entries == [] then Ok(Unpacking(map[], 0))
    else match Unpacked(entries[..|entries| - 1], max)
         case Ok(u) => TakeEntry(u, entries[|entries| - 1], max)
         case Err(e) => Err(e)
  }

  function Limit(maxBytes: int): nat { if maxBytes <= 0 then MAX_ARCHIVE_BYTES else maxBytes }

  /** `entries` are those that could be read, and `broken` says that reading then failed. */
  function UnpackResult(entries: seq<Entry>, broken: bool, maxBytes: int, compressed: nat): Result<Files> {
    match Unpacked(entries, Limit(maxBytes))
    case Ok(u) =>
      if broken then Err(Unreadable) else if compressed > Limit(maxBytes) then Err(TooLarge) else Ok(u.files)
    case Err(e) => Err(e)
  }

  lemma {:induction false} FailureSticks(entries: seq<Entry>, i: nat, max: nat)
    requires i <= |entries| && Unpacked(entries[..i], max).Err?
    ensures Unpacked(entries, max) == Unpacked(entries[..i], max)
    decreases |entries| - i
  {
    if i < |entries| {
      assert entries[..i + 1][..i] == entries[..i];
      FailureSticks(entries, i + 1, max);
    } else {
      assert entries[..i] == entries;
    }
  }

  /** `compressed` is the size of the archive as it arrived. */
  method Unpack(entries: seq<Entry>, broken: bool, maxBytes: int, compressed: nat) returns (r: Result<Files>)
    ensures r == UnpackResult(entries, broken, maxBytes, compressed)
  {
    var max := if maxBytes <= 0 then MAX_ARCHIVE_BYTES else maxBytes;
    var files: Files := map[];
    var total: nat := 0;
    for i := 0 to |entries|
      invariant Unpacked(entries[..i], max) == Ok(Unpacking(files, total))
    {
      assert entries[..i + 1][..i] == entries[..i];
      var e := entries[i];
      if !e.regular { continue; }
      if Contains(e.name, "..") {
        FailureSticks(entries, i + 1, max);
        return Err(InvalidManifest);
      }
      total := total + |e.data|;
      if total > max {
        FailureSticks(entries, i + 1, max);
        return Err(TooLarge);
      }
      files := files[e.name := e.data];
    }
    assert entries[..|entries|] == entries;
    if broken { return Err(Unreadable); }
    if compressed > max { return Err(TooLarge); }
    return Ok(files);
  }

  function Size(names: seq<string>, files: Files): nat
    requires forall k :: k in names ==> k in files
  {
    if names == [] then 0 else Size(names[..|names| - 1], files) + |files[names[|names| - 1]]|
  }

  /** The size is that of each file, added up. */
  lemma {:induction false} SizeAdds(a: seq<string>, b: seq<string>, files: Files)
    requires forall k :: k in a + b ==> k in files
    ensures (forall k :: k in a ==> k in files) && (forall k :: k in b ==> k in files)
    ensures Size(a + b, files) == Size(a, files) + Size(b, files)
    ensures |b| == 1 ==> Size(b, files) == |files[b[0]]|
    decreases |b|
  {
    assert forall k :: k in a ==> k in a + b;
    assert forall k :: k in b ==> k in a + b;
    if b == [] {
      assert a + b == a;
    } else {
      var front := b[..|b| - 1];
      assert (a + b)[..|a + b| - 1] == a + front;
      assert forall k :: k in a + front ==> k in a + b;
      SizeAdds(a, front, files);
    }
  }

  /** What the regular entries hold in all. */
  function RegularBytes(entries: seq<Entry>): nat {
    if entries == [] then 0
    else
      RegularBytes(entries[..|entries| - 1])
      + if entries[|entries| - 1].regular then |entries[|entries| - 1].data| else 0
  }

  lemma {:induction false} UnpackedInAll(entries: seq<Entry>, max: nat)
    ensures Unpacked(entries, max).Ok? <==>
              (forall i :: 0 <= i < |entries| && entries[i].regular ==> !Contains(entries[i].name, ".."))
              && RegularBytes(entries) <= max
    ensures Unpacked(entries, max).Ok? ==> Unpacked(entries, max).value.total == RegularBytes(entries)
  {
    if entries != [] { UnpackedInAll(entries[..|entries| - 1], max); }
  }

  /** A stream is taken exactly when no regular entry has ".." in its name and they are not too large together; each
      name then has the data of its last regular entry, and other entries are passed over. */
  lemma {:induction false} UnpackedExactly(entries: seq<Entry>, max: nat)
    ensures Unpacked(entries, max).Ok? <==>
              (forall i :: 0 <= i < |entries| && entries[i].regular ==> !Contains(entries[i].name, ".."))
              && RegularBytes(entries) <= max
    ensures var r := Unpacked(entries, max);
            r.Ok? ==>
              && (forall name :: name in r.value.files ==>
                    exists i :: 0 <= i < |entries| && entries[i].regular && entries[i].name == name)
              && (forall i :: 0 <= i < |entries| && entries[i].regular ==> entries[i].name in r.value.files)
              && (forall i :: 0 <= i < |entries| && entries[i].regular
                              && (forall j :: i < j < |entries| && entries[j].regular
                                    ==> entries[j].name != entries[i].name)
                    ==> r.value.files[entries[i].name] == entries[i].data)
  {
    UnpackedInAll(entries, max);
    if entries != [] && Unpacked(entries, max).Ok? {
      var front, last := entries[..|entries| - 1], entries[|entries| - 1];
      UnpackedExactly(front, max);
      assert forall i :: 0 <= i < |front| ==> front[i] == entries[i];
    }
  }

  /** The first entry that goes wrong decides the error, then a stream cut short, then the archive's own size. */
  lemma UnpackVerdict(entries: seq<Entry>, broken: bool, maxBytes: int, compressed: nat, i: nat)
    requires i <= |entries|
    requires forall j :: 0 <= j < i && entries[j].regular ==> !Contains(entries[j].name, "..")
    requires RegularBytes(entries[..i]) <= if maxBytes <= 0 then 524_288_000 else maxBytes
    ensures var limit := if maxBytes <= 0 then 524_288_000 else maxBytes;
            var r := UnpackResult(entries, broken, maxBytes, compressed);
            && (i < |entries| && entries[i].regular && Contains(entries[i].name, "..") ==> r == Err(InvalidManifest))
            && ((&& i < |entries| && entries[i].regular && !Contains(entries[i].name, "..")
                 && RegularBytes(entries[..i]) + |entries[i].data| > limit) ==> r == Err(TooLarge))
            && (i == |entries| && broken ==> r == Err(Unreadable))
            && (i == |entries| && !broken ==> if compressed > limit then r == Err(TooLarge) else r.Ok?)
  {
    var max := if maxBytes <= 0 then 524_288_000 else maxBytes;
    UnpackedInAll(entries[..i], max);
    if i < |entries| {
      assert entries[..i + 1][..i] == entries[..i];
      if Unpacked(entries[..i + 1], max).Err? { FailureSticks(entries, i + 1, max); }
    } else {
      assert entries[..i] == entries;
    }
  }

  lemma {:induction false} UnpackOfPacked(names: seq<string>, files: Files, max: nat)
    requires forall k :: k in names ==> k in files
    ensures (forall k :: k in names ==> !Contains(k, "..")) && Size(names, files) <= max
            <==> Unpacked(Packed(names, files), max).Ok?
    ensures var r := Unpacked(Packed(names, files), max);
            r.Ok? ==> r.value == Unpacking(map k | k in names :: files[k], Size(names, files))
  {
    if names != [] {
      var front, last := names[..|names| - 1], names[|names| - 1];
      assert names == front + [last];
      UnpackOfPacked(front, files, max);
      assert Packed(names, files)[..|Packed(front, files)|] == Packed(front, files);
    }
  }

  /** Packing and unpacking gives the files back, in whatever order they were packed, exactly when the archive can be
      read to its end, no name holds ".." and both sizes are within the limit. */
  lemma {:induction false} PackRoundTrip(names: seq<string>, files: Files, broken: bool, maxBytes: int, compressed: nat)
    requires Listing(names, files)
    ensures var r := UnpackResult(Packed(names, files), broken, maxBytes, compressed);
            && (r == Ok(files) <==>
                  && !broken && (forall k :: k in files ==> !Contains(k, ".."))
                  && Size(names, files) <= (if maxBytes <= 0 then 524_288_000 else maxBytes)
                  && compressed <= (if maxBytes <= 0 then 524_288_000 else maxBytes))
            && (r.Ok? ==> r == Ok(files))
  {
    UnpackOfPacked(names, files, Limit(maxBytes));
    assert (map k | k in names :: files[k]) == files;
  }

  // ---- Validation

  function Parsed(codec: Codec, raw: Bytes): Result<Manifest> {
    match codec.decode(raw)
    case None => Err(Malformed)
    case Some(m) =>
      if m.version != FORMAT_VERSION then Err(UnsupportedFormat)
      else if m.names.config == "" || m.names.database == "" || m.names.extensions == "" then Err(InvalidManifest)
      else Ok(m)
  }

  /** The first listed file that is missing or altered. */
  function FirstFault(list: seq<FileEntry>, files: Files, hash: Bytes -> string): Option<Error> {
    if list == [] then None
    else if list[0].path !in files then Some(MissingFile)
    else if hash(files[list[0].path]) != list[0].hash then Some(ChecksumMismatch)
    else FirstFault(list[1..], files, hash)
  }

  function Validated(files: Files, codec: Codec): Result<Manifest> {
    if MANIFEST !in files then Err(InvalidManifest)
    else match Parsed(codec, files[MANIFEST])
         case Err(e) => Err(e)
         case Ok(m) =>
           match FirstFault(m.files, files, codec.hash)
           case Some(e) => Err(e)
           case None => if m.names.config !in files || m.names.database !in files then Err(MissingFile) else Ok(m)
  }

  method ValidateArchive(files: Files, codec: Codec) returns (r: Result<Manifest>)
    ensures r == Validated(files, codec)
  {
    if MANIFEST !in files { return Err(InvalidManifest); }
    var parsed := Parsed(codec, files[MANIFEST]);
    if parsed.Err? { return parsed; }
    var m := parsed.value;
    for i := 0 to |m.files|
      invariant FirstFault(m.files, files, codec.hash) == FirstFault(m.files[i..], files, codec.hash)
    {
      if m.files[i].path !in files { return Err(MissingFile); }
      if codec.hash(files[m.files[i].path]) != m.files[i].hash { return Err(ChecksumMismatch); }
    }
    if m.names.config !in files { return Err(MissingFile); }
    if m.names.database !in files { return Err(MissingFile); }
    return Ok(m);
  }

  lemma {:induction false} NoFault(list: seq<FileEntry>, files: Files, hash: Bytes -> string)
    ensures FirstFault(list, files, hash) == None
            <==> forall i :: 0 <= i < |list| ==> list[i].path in files && hash(files[list[i].path]) == list[i].hash
  {
    if list != [] {
      NoFault(list[1..], files, hash);
      if FirstFault(list, files, hash) == None {
        forall i | 0 <= i < |list| ensures list[i].path in files && hash(files[list[i].path]) == list[i].hash {
          assert i > 0 ==> list[i] == list[1..][i - 1];
        }
      }
    }
  }

  /** The first entry that is missing or altered decides what is wrong. */
  lemma {:induction false} FirstFaultAt(list: seq<FileEntry>, files: Files, hash: Bytes -> string, k: nat)
    requires k < |list|
    requires forall i :: 0 <= i < k ==> list[i].path in files && hash(files[list[i].path]) == list[i].hash
    requires list[k].path !in files || hash(files[list[k].path]) != list[k].hash
    ensures FirstFault(list, files, hash) == Some(if list[k].path in files then ChecksumMismatch else MissingFile)
    decreases k
  {
    if k > 0 { FirstFaultAt(list[1..], files, hash, k - 1); }
  }

  /** Which archives are accepted, and which fault is reported of the others. */
  lemma VerdictExactly(files: Files, codec: Codec, m: Manifest)
    requires "manifest.json" in files && codec.decode(files["manifest.json"]) == Some(m)
    ensures m.version != 1 ==> Validated(files, codec) == Err(UnsupportedFormat)
    ensures var unnamed := m.names.config == "" || m.names.database == "" || m.names.extensions == "";
            && (m.version == 1 && unnamed ==> Validated(files, codec) == Err(InvalidManifest))
            && (m.version == 1 && !unnamed ==>
                  && (forall k :: 0 <= k < |m.files|
                        && (forall i :: 0 <= i < k ==>
                              m.files[i].path in files && codec.hash(files[m.files[i].path]) == m.files[i].hash)
                        && (m.files[k].path !in files || codec.hash(files[m.files[k].path]) != m.files[k].hash)
                        ==> Validated(files, codec)
                            == Err(if m.files[k].path in files then ChecksumMismatch else MissingFile))
                  && ((forall i :: 0 <= i < |m.files| ==>
                         m.files[i].path in files && codec.hash(files[m.files[i].path]) == m.files[i].hash)
                      ==> Validated(files, codec)
                          == if m.names.config in files && m.names.database in files then Ok(m)
                             else Err(MissingFile)))
  {
    NoFault(m.files, files, codec.hash);
    forall k | 0 <= k < |m.files|
      && (forall i :: 0 <= i < k ==>
            m.files[i].path in files && codec.hash(files[m.files[i].path]) == m.files[i].hash)
      && (m.files[k].path !in files || codec.hash(files[m.files[k].path]) != m.files[k].hash)
      ensures FirstFault(m.files, files, codec.hash)
              == Some(if m.files[k].path in files then ChecksumMismatch else MissingFile)
    {
      FirstFaultAt(m.files, files, codec.hash, k);
    }
  }

  lemma NoManifest(files: Files, codec: Codec)
    ensures "manifest.json" !in files ==> Validated(files, codec) == Err(InvalidManifest)
    ensures "manifest.json" in files && codec.decode(files["manifest.json"]) == None
            ==> Validated(files, codec) == Err(Malformed)
  {}

  ghost predicate HashSeparates(codec: Codec, files: Files) {
    forall p, data :: p in files && codec.hash(data) == codec.hash(files[p]) ==> data == files[p]
  }

  /** An archive that still carries an export's manifest and passes the check holds every exported file unaltered,
      as far as the hash can tell. */
  lemma AcceptedIsUnaltered(
      archive: Files, m: Manifest, l: Layout, o: Options, exported: Files, codec: Codec, p: string)
    requires Describes(m, l, o, exported, codec.hash) && Validated(archive, codec) == Ok(m)
    requires HashSeparates(codec, exported) && p in exported
    ensures p in archive && archive[p] == exported[p]
  {
    NoFault(m.files, archive, codec.hash);
    var i :| 0 <= i < |m.files| && m.files[i].path == p;
  }

  /** A fresh archive passes exactly when its names are not empty and it has a configuration and a database. */
  lemma ExportValidates(m: Manifest, l: Layout, o: Options, exported: Files, codec: Codec)
    requires Describes(m, l, o, exported, codec.hash) && codec.decode(codec.encode(m)) == Some(m)
    requires MANIFEST !in exported && MANIFEST !in {l.names.config, l.names.database}
    ensures var archive := exported[MANIFEST := codec.encode(m)];
            && (Validated(archive, codec) == Ok(m) <==>
                  && l.names.config != "" && l.names.database != "" && l.names.extensions != ""
                  && l.names.config in exported && l.names.database in exported)
            && (Validated(archive, codec).Ok? ==> Validated(archive, codec) == Ok(m))
  {
    var archive := exported[MANIFEST := codec.encode(m)];
    NoFault(m.files, archive, codec.hash);
  }

  // ---- Export

  lemma GrownName(disk: Files, p: string, data: Bytes, prefix: string, dir: string, ext: string, name: string)
    requires '/' !in ext && p !in disk
    ensures var was, now := Part(disk, prefix, dir, ext), Part(disk[p := data], prefix, dir, ext);
            var taken := Beneath(dir, p) && HasExt(Base(p), ext) && name == Join(prefix, RelTo(dir, p));
            && (name in now <==> name in was || taken)
            && (name in now ==> now[name] == if taken then data else was[name])
  {
    TreeInArchive(disk, prefix, dir, ext, name);
    TreeInArchive(disk[p := data], prefix, dir, ext, name);
    SameFile(prefix, dir, ext, p, name);
  }

  lemma OneMore(files: Files, was: Files, now: Files, taken: bool, key: string, data: Bytes)
    requires forall name :: name in now <==> name in was || (taken && name == key)
    requires forall name :: name in now ==> now[name] == if taken && name == key then data else was[name]
    ensures files + now == if taken then (files + was)[key := data] else files + was
  {}

  lemma {:induction false} PartStep(
      files: Files, disk: Files, rest: set<string>, p: string, prefix: string, dir: string, ext: string)
    requires '/' !in ext && p in disk && p in rest
    ensures files + Part(disk - (rest - {p}), prefix, dir, ext)
            == if Beneath(dir, p) && HasExt(Base(p), ext)
               then (files + Part(disk - rest, prefix, dir, ext))[Join(prefix, RelTo(dir, p)) := disk[p]]
               else files + Part(disk - rest, prefix, dir, ext)
  {
    var was, now := Part(disk - rest, prefix, dir, ext), Part(disk - (rest - {p}), prefix, dir, ext);
    var taken := Beneath(dir, p) && HasExt(Base(p), ext);
    var key := if taken then Join(prefix, RelTo(dir, p)) else "";
    assert disk - (rest - {p}) == (disk - rest)[p := disk[p]];
    forall name
      ensures name in now <==> name in was || (taken && name == key)
      ensures name in now ==> now[name] == if taken && name == key then disk[p] else was[name]
    {
      GrownName(disk - rest, p, disk[p], prefix, dir, ext, name);
    }
    OneMore(files, was, now, taken, key, disk[p]);
  }

  method AddDir(files: Files, prefix: string, disk: Files, dir: string, ext: string) returns (out: Files)
    requires '/' !in ext
    ensures out == files + Part(disk, prefix, dir, ext)
  {
    out := files;
    var rest := disk.Keys;
    assert disk - rest == map[];
    while rest != {}
      invariant rest <= disk.Keys
      invariant out == files + Part(disk - rest, prefix, dir, ext)
    {
      var p :| p in rest;
      PartStep(files, disk, rest, p, prefix, dir, ext);
      if Beneath(dir, p) && HasExt(Base(p), ext) { out := out[Join(prefix, RelTo(dir, p)) := disk[p]]; }
      rest := rest - {p};
    }
    assert disk - rest == disk;
  }

  method NewManifest(l: Layout, o: Options, files: Files, hash: Bytes -> string, stamp: Stamp) returns (m: Manifest)
    ensures Describes(m, l, o, files, hash) && m.stamp == stamp
  {
    var list: seq<FileEntry> := [];
    var rest := files.Keys;
    while rest != {}
      invariant rest <= files.Keys
      invariant forall p :: p in files ==> (p !in rest <==> exists i :: 0 <= i < |list| && list[i].path == p)
      invariant forall i :: 0 <= i < |list| ==>
                  (list[i].path in files
                   && list[i].hash == hash(files[list[i].path]) && list[i].size == |files[list[i].path]|)
      invariant forall i, j :: 0 <= i < j < |list| ==> list[i].path != list[j].path
    {
      var p :| p in rest;
      ghost var before := list;
      list := list + [FileEntry(p, hash(files[p]), |files[p]|)];
      rest := rest - {p};
      forall q | q in files ensures q !in rest <==> exists i :: 0 <= i < |list| && list[i].path == q {
        if exists i :: 0 <= i < |before| && before[i].path == q {
          var i :| 0 <= i < |before| && before[i].path == q;
          assert list[i].path == q;
        }
        assert list[|before|].path == p;
      }
    }
    return Manifest(FORMAT_VERSION, stamp, l.names, o, list);
  }

  method AddOptionalDir(
      included: bool, files: Files, prefix: string, disk: Files, dir: string, ext: string) returns (out: Files)
    requires '/' !in ext
    ensures out == files + if included then Part(disk, prefix, dir, ext) else map[]
  {
    out := files;
    if included { out := AddDir(files, prefix, disk, dir, ext); }
  }

  /** A file that is not there is passed over. */
  method AddFile(files: Files, name: string, disk: Files, path: string) returns (out: Files)
    ensures out == if path in disk then files[name := disk[path]] else files
  {
    if path in disk { return files[name := disk[path]]; }
    return files;
  }

  method Gather(l: Layout, o: Options, disk: Files, snapshot: Option<Bytes>) returns (files: Files)
    ensures files == Gathered(l, o, disk, snapshot)
    ensures !Beneath(l.names.moh, l.names.database) && !Beneath(l.names.phonebook, l.names.database) ==>
              && (snapshot.Some? ==> l.names.database in files && files[l.names.database] == snapshot.value)
              && (snapshot.None? && l.databasePath in disk ==>
                    l.names.database in files && files[l.names.database] == disk[l.databasePath])
  {
    TreeInArchive(disk, l.names.moh, l.mohDir, WAV, l.names.database);
    TreeInArchive(disk, l.names.phonebook, l.phonebookDir, XML, l.names.database);
    files := AddFile(map[], l.names.config, disk, l.configPath);
    files := AddDir(files, l.names.extensions, disk, l.extensionsDir, TOML);
    if snapshot.Some? {
      files := files[l.names.database := snapshot.value];
    } else {
      files := AddFile(files, l.names.database, disk, l.databasePath);
    }
    files := AddOptionalDir(o.moh, files, l.names.moh, disk, l.mohDir, WAV);
    files := AddOptionalDir(o.phonebook, files, l.names.phonebook, disk, l.phonebookDir, XML);
  }

  method Export(l: Layout, o: Options, disk: Files, snapshot: Option<Bytes>, codec: Codec, stamp: Stamp)
    returns (archive: Files, m: Manifest)
    ensures Describes(m, l, o, Gathered(l, o, disk, snapshot), codec.hash) && m.stamp == stamp
    ensures archive == Gathered(l, o, disk, snapshot)[MANIFEST := codec.encode(m)]
    ensures l.names.database != MANIFEST
            && !Beneath(l.names.moh, l.names.database) && !Beneath(l.names.phonebook, l.names.database) ==>
              && (snapshot.Some? ==>
                    l.names.database in archive && archive[l.names.database] == snapshot.value)
              && (snapshot.None? && l.databasePath in disk ==>
                    l.names.database in archive && archive[l.names.database] == disk[l.databasePath])
  {
    var files := Gather(l, o, disk, snapshot);
    m := NewManifest(l, o, files, codec.hash, stamp);
    archive := files[MANIFEST := codec.encode(m)];
  }
}
