/** The backup round trip: what an export holds, and when restoring it brings the installation back. */
module BackupRoundTrip {
  import opened Wrappers
  import opened ArchivePaths
  import opened BackupArchive
  import opened BackupRestore

  // ---- What an export holds

  /** The configuration and the database have archive names of their own. */
  predicate NamesApart(n: Names, o: Options) {
    && n.config != "" && n.database != "" && n.extensions != "" && n.config != n.database
    && (forall x :: x in [n.config, n.database] ==>
          && x != MANIFEST && !(Beneath(n.extensions, x) && HasExt(x, TOML))
          && !(o.moh && Beneath(n.moh, x) && HasExt(x, WAV))
                && !(o.phonebook && Beneath(n.phonebook, x) && HasExt(x, XML)))
  }

  lemma OneExtension(name: string)
    ensures !(HasExt(name, TOML) && HasExt(name, WAV)) && !(HasExt(name, TOML) && HasExt(name, XML))
    ensures !(HasExt(name, WAV) && HasExt(name, XML))
    ensures !HasExt(MANIFEST, TOML) && !HasExt(MANIFEST, WAV) && !HasExt(MANIFEST, XML)
  {
    var low := SipText.Lower(name);
    assert TOML[|TOML| - 1] == 'l' && TOML[|TOML| - 4] == 't' && WAV[|WAV| - 1] == 'v' && XML[|XML| - 1] == 'l'
           && XML[|XML| - 4] == '.';
    assert SipText.Lower(MANIFEST)[|MANIFEST| - 1] == 'n';
    if HasExt(name, TOML) {
      assert low[|low| - |TOML|..][1] == low[|low| - 4] == 't' && low[|low| - |TOML|..][4] == low[|low| - 1];
    }
  }

  lemma PartNames(l: Layout, o: Options, disk: Files, name: string)
    ensures name in Extensions(l, disk) ==>
              HasExt(name, TOML) && Beneath(l.names.extensions, name)
              && Join(l.extensionsDir, RelTo(l.names.extensions, name)) in disk
    ensures name in Moh(l, o, disk) ==> HasExt(name, WAV) && Beneath(l.names.moh, name) && o.moh
    ensures name in Phonebook(l, o, disk) ==> HasExt(name, XML) && Beneath(l.names.phonebook, name) && o.phonebook
  {
    TreeInArchive(disk, l.names.extensions, l.extensionsDir, TOML, name);
    TreeInArchive(disk, l.names.moh, l.mohDir, WAV, name);
    TreeInArchive(disk, l.names.phonebook, l.phonebookDir, XML, name);
  }

  /** A name that occurs in one layer only has that layer's contents. */
  lemma OneLayer(
      config: string, c: Option<Bytes>, database: string, d: Option<Bytes>, e: Files, w: Files, x: Files, name: string)
    requires config != database
    requires name in {config, database} ==> name !in e && name !in w && name !in x
    requires name in e ==> name !in w && name !in x
    requires name in w ==> name !in x
    ensures var g := Layered(config, c, database, d, e, w, x);
            && (name == config ==> (name in g <==> c.Some?) && (name in g ==> g[name] == c.value))
            && (name == database ==> (name in g <==> d.Some?) && (name in g ==> g[name] == d.value))
            && (name in e ==> name in g && g[name] == e[name])
            && (name in w ==> name in g && g[name] == w[name])
            && (name in x ==> name in g && g[name] == x[name])
            && (name in g ==> name in {config, database} || name in e || name in w || name in x)
  {}

  lemma NamesOnce(l: Layout, o: Options, disk: Files, name: string)
    requires NamesApart(l.names, o)
    ensures name in {l.names.config, l.names.database, MANIFEST} ==>
              name !in Extensions(l, disk) && name !in Moh(l, o, disk) && name !in Phonebook(l, o, disk)
    ensures name in Extensions(l, disk) ==> name !in Moh(l, o, disk) && name !in Phonebook(l, o, disk)
    ensures name in Moh(l, o, disk) ==> name !in Phonebook(l, o, disk)
  {
    PartNames(l, o, disk, name);
    OneExtension(name);
    assert l.names.config in [l.names.config, l.names.database]
           && l.names.database in [l.names.config, l.names.database];
  }

  /** Each archived name comes from one place. */
  lemma GatheredName(l: Layout, o: Options, disk: Files, snapshot: Option<Bytes>, name: string)
    requires NamesApart(l.names, o)
    ensures var g := Gathered(l, o, disk, snapshot);
            && (name == l.names.config ==>
                  (name in g <==> l.configPath in disk) && (name in g ==> g[name] == disk[l.configPath]))
            && (name == l.names.database ==>
                  (name in g <==> snapshot.Some? || l.databasePath in disk)
                  && (name in g ==> g[name] == if snapshot.Some? then snapshot.value else disk[l.databasePath]))
            && (name in Extensions(l, disk) ==> name in g && g[name] == Extensions(l, disk)[name])
            && (name in Moh(l, o, disk) ==> name in g && g[name] == Moh(l, o, disk)[name])
            && (name in Phonebook(l, o, disk) ==> name in g && g[name] == Phonebook(l, o, disk)[name])
            && (name in g ==> name in {l.names.config, l.names.database}
                              || name in Extensions(l, disk) || name in Moh(l, o, disk)
                                  || name in Phonebook(l, o, disk))
            && (name in g ==> name != MANIFEST)
  {
    NamesOnce(l, o, disk, name);
    OneLayer(l.names.config, Config(l, disk), l.names.database, Database(l, disk, snapshot),
             Extensions(l, disk), Moh(l, o, disk), Phonebook(l, o, disk), name);
    assert l.names.config in [l.names.config, l.names.database]
           && l.names.database in [l.names.config, l.names.database];
  }

  lemma {:induction false} DirectoryHolds(disk: Files, prefix: string, dir: string, ext: string, rel: string)
    requires '/' !in ext
    ensures var part, name := Part(disk, prefix, dir, ext), prefix + "/" + rel;
            && (name in part <==> dir + "/" + rel in disk && HasSuffix(SipText.Lower(name), ext))
            && (name in part ==> part[name] == disk[dir + "/" + rel])
  {
    TreeInArchive(disk, prefix, dir, ext, prefix + "/" + rel);
    JoinRel(prefix, rel);
  }

  /** An export holds the configuration, the snapshot of the database or else the database, and every file with the
      right suffix beneath a directory that is included, each under the name that stands for its path. */
  lemma ExportHoldsExactly(l: Layout, o: Options, disk: Files, snapshot: Option<Bytes>, rel: string)
    requires NamesApart(l.names, o)
    ensures var g, n := Gathered(l, o, disk, snapshot), l.names;
            && (n.config in g <==> l.configPath in disk) && (n.config in g ==> g[n.config] == disk[l.configPath])
            && (n.database in g <==> snapshot.Some? || l.databasePath in disk)
            && (n.database in g ==>
                  g[n.database] == if snapshot.Some? then snapshot.value else disk[l.databasePath])
    ensures var g, name, path := Gathered(l, o, disk, snapshot), l.names.extensions + "/" + rel,
                                 l.extensionsDir + "/" + rel;
            HasSuffix(SipText.Lower(name), ".toml") ==>
              (name in g <==> path in disk) && (name in g ==> g[name] == disk[path])
    ensures var g, name, path := Gathered(l, o, disk, snapshot), l.names.moh + "/" + rel, l.mohDir + "/" + rel;
            HasSuffix(SipText.Lower(name), ".wav") && name !in {l.names.config, l.names.database} ==>
              (name in g <==> o.moh && path in disk) && (name in g ==> g[name] == disk[path])
    ensures var g, name, path := Gathered(l, o, disk, snapshot), l.names.phonebook + "/" + rel,
                                 l.phonebookDir + "/" + rel;
            HasSuffix(SipText.Lower(name), ".xml") && name !in {l.names.config, l.names.database} ==>
              (name in g <==> o.phonebook && path in disk) && (name in g ==> g[name] == disk[path])
  {
    GatheredName(l, o, disk, snapshot, l.names.config);
    GatheredName(l, o, disk, snapshot, l.names.database);
    ExtensionHeld(l, o, disk, snapshot, rel);
    MediaHeldExactly(l, o, disk, snapshot, rel);
  }

  lemma ExtensionHeld(l: Layout, o: Options, disk: Files, snapshot: Option<Bytes>, rel: string)
    requires NamesApart(l.names, o)
    ensures var g, name, path := Gathered(l, o, disk, snapshot), l.names.extensions + "/" + rel,
                                 l.extensionsDir + "/" + rel;
            HasSuffix(SipText.Lower(name), TOML) ==>
              (name in g <==> path in disk) && (name in g ==> g[name] == disk[path])
  {
    var name := l.names.extensions + "/" + rel;
    if HasSuffix(SipText.Lower(name), TOML) {
      DirectoryHolds(disk, l.names.extensions, l.extensionsDir, TOML, rel);
      GatheredName(l, o, disk, snapshot, name);
      PartNames(l, o, disk, name);
      OneExtension(name);
      assert name !in [l.names.config, l.names.database] by { JoinRel(l.names.extensions, rel); }
    }
  }

  lemma MediaHeldExactly(l: Layout, o: Options, disk: Files, snapshot: Option<Bytes>, rel: string)
    requires NamesApart(l.names, o)
    ensures var g, name, path := Gathered(l, o, disk, snapshot), l.names.moh + "/" + rel, l.mohDir + "/" + rel;
            HasSuffix(SipText.Lower(name), WAV) && name !in {l.names.config, l.names.database} ==>
              (name in g <==> o.moh && path in disk) && (name in g ==> g[name] == disk[path])
    ensures var g, name, path := Gathered(l, o, disk, snapshot), l.names.phonebook + "/" + rel,
                                 l.phonebookDir + "/" + rel;
            HasSuffix(SipText.Lower(name), XML) && name !in {l.names.config, l.names.database} ==>
              (name in g <==> o.phonebook && path in disk) && (name in g ==> g[name] == disk[path])
  {
    var a, b := l.names.moh + "/" + rel, l.names.phonebook + "/" + rel;
    DirectoryHolds(disk, l.names.moh, l.mohDir, WAV, rel);
    DirectoryHolds(disk, l.names.phonebook, l.phonebookDir, XML, rel);
    GatheredName(l, o, disk, snapshot, a);
    GatheredName(l, o, disk, snapshot, b);
    PartNames(l, o, disk, a);
    PartNames(l, o, disk, b);
    OneExtension(a);
    OneExtension(b);
  }

  ghost function Archive(l: Layout, o: Options, disk: Files, snapshot: Option<Bytes>, manifest: Bytes): Files {
    Gathered(l, o, disk, snapshot)[MANIFEST := manifest]
  }

  /** An export that can be restored: the configuration and a database exist, and the codec reads back its manifest. */
  ghost predicate Exported(
      l: Layout, o: Options, source: Files, snapshot: Option<Bytes>, codec: Codec, m: Manifest, archive: Files) {
    && NamesApart(l.names, o) && l.configPath in source && (snapshot.Some? || l.databasePath in source)
    && Describes(m, l, o, Gathered(l, o, source, snapshot), codec.hash) && codec.decode(codec.encode(m)) == Some(m)
    && archive == Archive(l, o, source, snapshot, codec.encode(m))
  }

  lemma ExportedIsAccepted(
      l: Layout, o: Options, source: Files, snapshot: Option<Bytes>, codec: Codec, m: Manifest, archive: Files)
    requires Exported(l, o, source, snapshot, codec, m, archive)
    ensures Validated(archive, codec) == Ok(m) && m.names == l.names && m.included == o
    ensures l.names.config in archive && archive[l.names.config] == source[l.configPath]
    ensures l.names.database in archive && (archive[l.names.database]
                                             == if snapshot.Some? then snapshot.value else source[l.databasePath])
  {
    GatheredName(l, o, source, snapshot, l.names.config);
    GatheredName(l, o, source, snapshot, l.names.database);
    GatheredName(l, o, source, snapshot, MANIFEST);
    assert l.names.config in [l.names.config, l.names.database]
           && l.names.database in [l.names.config, l.names.database];
    ExportValidates(m, l, o, Gathered(l, o, source, snapshot), codec);
  }

  // ---- The round trip, for any accepted archive

  /** The installation is back: its configuration, its database and every extension file byte for byte, and no other
      top-level extension file. */
  ghost predicate Reproduced(l: Layout, source: Files, config: Bytes, database: Bytes, t: Layout, after: Files) {
    && CellAt(after, t.configPath) == Some(config) && CellAt(after, t.databasePath) == Some(database)
    && (forall rel :: HasExt(rel, TOML) && Join(l.extensionsDir, rel) in source ==>
          CellAt(after, Join(t.extensionsDir, rel)) == Some(source[Join(l.extensionsDir, rel)]))
    && (forall rel :: HasExt(rel, TOML) && '/' !in rel && Join(l.extensionsDir, rel) !in source ==>
          CellAt(after, Join(t.extensionsDir, rel)) == None)
  }

  /** The same, read off the archive: each of these paths has one outcome. */
  ghost predicate Settled(
      l: Layout, source: Files, config: Bytes, database: Bytes, t: Layout, m: Manifest, archive: Files, disk: Files)
    requires m.names.config in archive && m.names.database in archive
  {
    && Outcomes(t, m, archive, disk, t.configPath) == {Some(config)}
    && Outcomes(t, m, archive, disk, t.databasePath) == {Some(database)}
    && (forall rel :: HasExt(rel, TOML) && Join(l.extensionsDir, rel) in source ==>
          Outcomes(t, m, archive, disk, Join(t.extensionsDir, rel)) == {Some(source[Join(l.extensionsDir, rel)])})
    && (forall rel :: HasExt(rel, TOML) && '/' !in rel && Join(l.extensionsDir, rel) !in source ==>
          Outcomes(t, m, archive, disk, Join(t.extensionsDir, rel)) == {None})
  }

  /** Restoring an accepted archive brings an installation back in every order exactly when its paths are settled. */
  lemma ReproducedExactly(
      l: Layout, source: Files, config: Bytes, database: Bytes, t: Layout, archive: Files, codec: Codec, m: Manifest,
      disk: Files)
    requires Validated(archive, codec) == Ok(m)
    ensures (forall r :: OrdersOf(r, archive) ==>
               Reproduced(l, source, config, database, t, Restored(t, archive, codec, disk, r)))
            <==> Settled(l, source, config, database, t, m, archive, disk)
  {
    if Settled(l, source, config, database, t, m, archive, disk) {
      forall r | OrdersOf(r, archive)
        ensures Reproduced(l, source, config, database, t, Restored(t, archive, codec, disk, r))
      {
        SettledReproduces(l, source, config, database, t, archive, codec, m, disk, r);
      }
    }
    if (forall r :: OrdersOf(r, archive) ==>
          Reproduced(l, source, config, database, t, Restored(t, archive, codec, disk, r)))
    {
      CertainExactly(t, archive, codec, m, disk, t.configPath, Some(config));
      CertainExactly(t, archive, codec, m, disk, t.databasePath, Some(database));
      forall rel | HasExt(rel, TOML) && Join(l.extensionsDir, rel) in source
        ensures Outcomes(t, m, archive, disk, Join(t.extensionsDir, rel)) == {Some(source[Join(l.extensionsDir, rel)])}
      {
        CertainExactly(t, archive, codec, m, disk, Join(t.extensionsDir, rel),
                       Some(source[Join(l.extensionsDir, rel)]));
      }
      forall rel | HasExt(rel, TOML) && '/' !in rel && Join(l.extensionsDir, rel) !in source
        ensures Outcomes(t, m, archive, disk, Join(t.extensionsDir, rel)) == {None}
      {
        CertainExactly(t, archive, codec, m, disk, Join(t.extensionsDir, rel), None);
      }
    }
  }

  lemma SettledReproduces(
      l: Layout, source: Files, config: Bytes, database: Bytes, t: Layout, archive: Files, codec: Codec, m: Manifest,
      disk: Files, r: Orders)
    requires Validated(archive, codec) == Ok(m) && OrdersOf(r, archive)
    requires Settled(l, source, config, database, t, m, archive, disk)
    ensures Reproduced(l, source, config, database, t, Restored(t, archive, codec, disk, r))
  {
    var after := Restored(t, archive, codec, disk, r);
    OutcomeIsListed(t, archive, codec, m, disk, r, t.configPath);
    OutcomeIsListed(t, archive, codec, m, disk, r, t.databasePath);
    forall rel | HasExt(rel, TOML) && Join(l.extensionsDir, rel) in source
      ensures CellAt(after, Join(t.extensionsDir, rel)) == Some(source[Join(l.extensionsDir, rel)])
    {
      OutcomeIsListed(t, archive, codec, m, disk, r, Join(t.extensionsDir, rel));
    }
    forall rel | HasExt(rel, TOML) && '/' !in rel && Join(l.extensionsDir, rel) !in source
      ensures CellAt(after, Join(t.extensionsDir, rel)) == None
    {
      OutcomeIsListed(t, archive, codec, m, disk, r, Join(t.extensionsDir, rel));
    }
  }

  // ---- Strays

  /** Where in the extensions directory an archived configuration or database strays, if its name starts with that
      directory's and ends like an extension file's. */
  function Stray(n: Names, x: string): Option<string> { RelOf(n.extensions, Some(TOML), x) }

  function StrayNames(n: Names, archive: Files, rel: string): set<string> {
    set x | x in {n.config, n.database} && x in archive && Stray(n, x) == Some(rel)
  }

  function Contents(archive: Files, names: set<string>): set<Cell> {
    set x | x in archive && x in names :: Some(archive[x])
  }

  /** The extension file at `rel`, if there is one. */
  predicate Exports(l: Layout, source: Files, rel: string) { HasExt(rel, TOML) && Join(l.extensionsDir, rel) in source }

  function OwnCells(l: Layout, source: Files, rel: string): set<Cell> {
    if Exports(l, source, rel) then {Some(source[Join(l.extensionsDir, rel)])} else {}
  }

  lemma DestIs(pl: Place, name: string, rel: string)
    ensures Dest(pl, name) == Some(Join(pl.dir, rel)) <==> RelOf(pl.prefix, pl.filter, name) == Some(rel)
  {
    var other := RelOf(pl.prefix, pl.filter, name);
    if other.Some? && Join(pl.dir, other.value) == Join(pl.dir, rel) { JoinInjective(pl.dir, other.value, rel); }
  }

  lemma RelOfJoin(prefix: string, filter: Option<string>, rel: string)
    requires rel != "" && (filter.Some? ==> HasExt(rel, filter.value))
    ensures RelOf(prefix, filter, Join(prefix, rel)) == Some(rel)
  {
    var name := Join(prefix, rel);
    assert name[..|prefix|] == prefix && name[|prefix|..] == "/" + rel;
    assert ("/" + rel)[..1] == "/" && ("/" + rel)[1..] == rel;
  }

  lemma RelKeepsExt(prefix: string, ext: string, name: string)
    requires RelOf(prefix, Some(ext), name).Some?
    ensures HasExt(name, ext) && HasExt(RelOf(prefix, Some(ext), name).value, ext)
  {}

  lemma {:induction false} RelPart(disk: Files, prefix: string, dir: string, ext: string, rel: string)
    requires '/' !in ext && HasExt(rel, ext) && Join(dir, rel) in disk
    ensures Join(prefix, rel) in Part(disk, prefix, dir, ext)
    ensures Part(disk, prefix, dir, ext)[Join(prefix, rel)] == disk[Join(dir, rel)]
  {
    JoinRel(prefix, rel);
    ExtAfterSlash(prefix, rel, ext);
    TreeInArchive(disk, prefix, dir, ext, Join(prefix, rel));
  }

  lemma OwnWriter(
      l: Layout, o: Options, source: Files, snapshot: Option<Bytes>, manifest: Bytes, archive: Files, rel: string)
    requires NamesApart(l.names, o) && archive == Archive(l, o, source, snapshot, manifest)
    requires Exports(l, source, rel)
    ensures var name := Join(l.names.extensions, rel);
            && name in archive && RelOf(l.names.extensions, Some(TOML), name) == Some(rel)
            && archive[name] == source[Join(l.extensionsDir, rel)]
  {
    var name := Join(l.names.extensions, rel);
    RelOfJoin(l.names.extensions, Some(TOML), rel);
    OwnPart(l, source, rel, Extensions(l, source));
    InArchive(l, o, source, snapshot, manifest, name, Extensions(l, source), Gathered(l, o, source, snapshot));
  }

  lemma OwnPart(l: Layout, source: Files, rel: string, part: Files)
    requires Exports(l, source, rel) && part == Extensions(l, source)
    ensures var name := Join(l.names.extensions, rel); name in part && part[name] == source[Join(l.extensionsDir, rel)]
  {
    RelPart(source, l.names.extensions, l.extensionsDir, TOML, rel);
  }

  lemma InArchive(
      l: Layout, o: Options, source: Files, snapshot: Option<Bytes>, manifest: Bytes, name: string, part: Files,
      g: Files)
    requires NamesApart(l.names, o) && part == Extensions(l, source) && name in part
    requires g == Gathered(l, o, source, snapshot)
    ensures name in g[MANIFEST := manifest] && g[MANIFEST := manifest][name] == part[name]
  {
    GatheredName(l, o, source, snapshot, name);
  }

  /** An archived name that ends like an extension file's is the configuration's, the database's or an extension
      file's own. */
  ghost predicate KnownToml(l: Layout, source: Files, name: string) {
    name in {l.names.config, l.names.database}
    || exists rel :: Exports(l, source, rel) && name == Join(l.names.extensions, rel)
  }

  lemma ArchivedToml(l: Layout, o: Options, source: Files, snapshot: Option<Bytes>, manifest: Bytes, name: string)
    requires NamesApart(l.names, o) && name in Archive(l, o, source, snapshot, manifest) && HasExt(name, TOML)
    ensures KnownToml(l, source, name)
  {
    OneExtension(name);
    PartNames(l, o, source, name);
    GatheredName(l, o, source, snapshot, name);
    if name in Extensions(l, source) { FileIsKnown(l, source, name); }
  }

  lemma FileIsKnown(l: Layout, source: Files, name: string)
    requires Beneath(l.names.extensions, name) && HasExt(name, TOML)
    requires Join(l.extensionsDir, RelTo(l.names.extensions, name)) in source
    ensures KnownToml(l, source, name)
  {
    RelJoin(l.names.extensions, name);
    ExtAfterSlash(l.names.extensions, RelTo(l.names.extensions, name), TOML);
    assert Exports(l, source, RelTo(l.names.extensions, name));
  }

  /** Restoring writes to `rel` of the extensions directory nothing but the extension file's own archived name and a
      configuration or database. */
  lemma WriterKind(l: Layout, source: Files, rel: string, name: string)
    requires KnownToml(l, source, name) && RelOf(l.names.extensions, Some(TOML), name) == Some(rel)
    ensures name in {l.names.config, l.names.database}
            || (Exports(l, source, rel) && name == Join(l.names.extensions, rel))
  {
    if own :| Exports(l, source, own) && name == Join(l.names.extensions, own) {
      RelOfJoin(l.names.extensions, Some(TOML), own);
    }
  }

  /** The directories restored lie apart, and the configuration and the database in none of them. */
  predicate TargetsApart(t: Layout, m: Manifest) {
    && t.configPath != t.databasePath
    && (forall x :: x in [t.configPath, t.databasePath] ==>
          && !Beneath(t.extensionsDir, x) && (MohIncluded(m) ==> !Beneath(t.mohDir, x))
          && (PhonebookIncluded(m) ==> !Beneath(t.phonebookDir, x)))
    && (MohIncluded(m) ==> Apart(t.extensionsDir, t.mohDir))
    && (PhonebookIncluded(m) ==> Apart(t.extensionsDir, t.phonebookDir))
    && (MohIncluded(m) && PhonebookIncluded(m) ==> Apart(t.mohDir, t.phonebookDir))
  }

  lemma MainOutcomes(t: Layout, m: Manifest, archive: Files, disk: Files)
    requires TargetsApart(t, m) && m.names.config in archive && m.names.database in archive
    ensures Outcomes(t, m, archive, disk, t.configPath) == {Some(archive[m.names.config])}
    ensures Outcomes(t, m, archive, disk, t.databasePath) == {Some(archive[m.names.database])}
  {
    assert t.configPath in [t.configPath, t.databasePath] && t.databasePath in [t.configPath, t.databasePath];
    forall p | p in [t.configPath, t.databasePath]
      ensures Outcomes(t, m, archive, disk, p) == {CellAt(Written(t, m, archive, disk), p)}
    {
      var before := {CellAt(Written(t, m, archive, disk), p)};
      StageStaysInside(true, ExtensionsPlace(t, m.names), archive, p, before);
      StageStaysInside(MohIncluded(m), MohPlace(t, m.names), archive, p, before);
      StageStaysInside(PhonebookIncluded(m), PhonebookPlace(t, m.names), archive, p, before);
    }
  }

  lemma InExtensionsDir(t: Layout, m: Manifest, p: string)
    requires TargetsApart(t, m) && Beneath(t.extensionsDir, p)
    ensures p != t.configPath && p != t.databasePath
    ensures (MohIncluded(m) ==> !Beneath(t.mohDir, p)) && (PhonebookIncluded(m) ==> !Beneath(t.phonebookDir, p))
  {
    assert t.configPath in [t.configPath, t.databasePath] && t.databasePath in [t.configPath, t.databasePath];
    if MohIncluded(m) { NothingBeneathBoth(t.extensionsDir, t.mohDir, p); }
    if PhonebookIncluded(m) { NothingBeneathBoth(t.extensionsDir, t.phonebookDir, p); }
  }

  lemma OutcomesOfExtensionsDir(t: Layout, m: Manifest, archive: Files, disk: Files, rel: string)
    requires TargetsApart(t, m) && m.names.config in archive && m.names.database in archive
    ensures var p := Join(t.extensionsDir, rel);
            Outcomes(t, m, archive, disk, p)
            == StageCells(true, ExtensionsPlace(t, m.names), archive, p, {CellAt(disk, p)})
  {
    var p := Join(t.extensionsDir, rel);
    JoinRel(t.extensionsDir, rel);
    InExtensionsDir(t, m, p);
    var first := StageCells(true, ExtensionsPlace(t, m.names), archive, p, {CellAt(disk, p)});
    StageStaysInside(MohIncluded(m), MohPlace(t, m.names), archive, p, first);
    StageStaysInside(PhonebookIncluded(m), PhonebookPlace(t, m.names), archive, p, first);
  }

  lemma ContentsOfTwo(archive: Files, writers: set<string>, own: set<Cell>, name: string, strays: set<string>)
    requires strays <= writers <= archive.Keys && forall w :: w in writers ==> w in strays || (own != {} && w == name)
    requires own != {} ==> name in writers && own == {Some(archive[name])}
    ensures Contents(archive, writers) == own + Contents(archive, strays)
  {}

  /** The contents that restoring writes to `rel`. */
  lemma WrittenCells(
      l: Layout, o: Options, source: Files, snapshot: Option<Bytes>, manifest: Bytes, archive: Files, t: Layout,
      rel: string)
    requires NamesApart(l.names, o) && archive == Archive(l, o, source, snapshot, manifest)
    ensures Contents(archive, Writers(ExtensionsPlace(t, l.names), archive, Join(t.extensionsDir, rel)))
            == OwnCells(l, source, rel) + Contents(archive, StrayNames(l.names, archive, rel))
  {
    var pl := ExtensionsPlace(t, l.names);
    var writers := Writers(pl, archive, Join(t.extensionsDir, rel));
    var own, strays := OwnCells(l, source, rel), StrayNames(l.names, archive, rel);
    forall name ensures name in writers <==> name in archive && RelOf(pl.prefix, pl.filter, name) == Some(rel) {
      DestIs(pl, name, rel);
    }
    forall w | w in writers ensures w in strays || (Exports(l, source, rel) && w == Join(l.names.extensions, rel)) {
      RelKeepsExt(l.names.extensions, TOML, w);
      ArchivedToml(l, o, source, snapshot, manifest, w);
      WriterKind(l, source, rel, w);
    }
    if Exports(l, source, rel) { OwnWriter(l, o, source, snapshot, manifest, archive, rel); }
    ContentsOfTwo(archive, writers, own, Join(l.names.extensions, rel), strays);
  }

  /** What `rel` of a restored extensions directory can hold, given what is written there. */
  function Expected(l: Layout, source: Files, t: Layout, archive: Files, disk: Files, rel: string): set<Cell> {
    var cells := OwnCells(l, source, rel) + Contents(archive, StrayNames(l.names, archive, rel));
    if cells != {} then cells
    else if '/' !in rel && HasExt(rel, TOML) then {None}
    else {CellAt(disk, Join(t.extensionsDir, rel))}
  }

  /** Everything `rel` of the restored extensions directory can hold: the exported file, if there is one, or what
      strays there; without either, nothing at the top level and what was there below it. */
  lemma ExtensionOutcomes(
      l: Layout, o: Options, source: Files, snapshot: Option<Bytes>, codec: Codec, m: Manifest, archive: Files,
      t: Layout, disk: Files, rel: string)
    requires Exported(l, o, source, snapshot, codec, m, archive) && TargetsApart(t, m)
    ensures m.names.config in archive && m.names.database in archive
    ensures Outcomes(t, m, archive, disk, Join(t.extensionsDir, rel)) == Expected(l, source, t, archive, disk, rel)
  {
    var pl, p := ExtensionsPlace(t, l.names), Join(t.extensionsDir, rel);
    ExportedIsAccepted(l, o, source, snapshot, codec, m, archive);
    OutcomesOfExtensionsDir(t, m, archive, disk, rel);
    WrittenCells(l, o, source, snapshot, codec.encode(m), archive, t, rel);
    JoinRel(t.extensionsDir, rel);
    CellsOfWriters(pl, archive, p, {CellAt(disk, p)});
  }

  lemma CellsOfWriters(pl: Place, archive: Files, p: string, before: set<Cell>)
    ensures var cells := Contents(archive, Writers(pl, archive, p));
            StageCells(true, pl, archive, p, before)
            == if cells != {} then cells else if TopLevel(pl.dir, pl.ext, p) then {None} else before
  {
    if name :| name in Writers(pl, archive, p) {
      assert Some(archive[name]) in Contents(archive, Writers(pl, archive, p));
    }
  }

  ghost predicate AsExpected(l: Layout, source: Files, t: Layout, m: Manifest, archive: Files, disk: Files)
    requires m.names.config in archive && m.names.database in archive
  {
    forall rel :: Outcomes(t, m, archive, disk, Join(t.extensionsDir, rel))
        == Expected(l, source, t, archive, disk, rel)
  }

  /** Nothing strays to harm: a configuration or database that goes to the extensions directory meets an extension
      file with the same contents, or lands below the top level where there is none. */
  ghost predicate StraysHarmless(l: Layout, source: Files, archive: Files) {
    forall x :: x in [l.names.config, l.names.database] && x in archive && Stray(l.names, x).Some? ==>
      var rel := Stray(l.names, x).value;
      if Join(l.extensionsDir, rel) in source then archive[x] == source[Join(l.extensionsDir, rel)] else '/' in rel
  }

  lemma HarmlessAt(l: Layout, source: Files, t: Layout, archive: Files, disk: Files, rel: string)
    requires StraysHarmless(l, source, archive) && HasExt(rel, TOML)
             && (Join(l.extensionsDir, rel) in source || '/' !in rel)
    ensures Expected(l, source, t, archive, disk, rel)
            == {if Join(l.extensionsDir, rel) in source then Some(source[Join(l.extensionsDir, rel)]) else None}
  {
    forall x | x in StrayNames(l.names, archive, rel)
      ensures Join(l.extensionsDir, rel) in source && archive[x] == source[Join(l.extensionsDir, rel)]
    {
      assert x in [l.names.config, l.names.database];
    }
  }

  lemma HarmlessSettles(
      l: Layout, source: Files, config: Bytes, database: Bytes, t: Layout, m: Manifest, archive: Files, disk: Files)
    requires m.names.config in archive && m.names.database in archive
    requires AsExpected(l, source, t, m, archive, disk) && StraysHarmless(l, source, archive)
    requires Outcomes(t, m, archive, disk, t.configPath) == {Some(config)}
    requires Outcomes(t, m, archive, disk, t.databasePath) == {Some(database)}
    ensures Settled(l, source, config, database, t, m, archive, disk)
  {
    forall rel | HasExt(rel, TOML) && (Join(l.extensionsDir, rel) in source || '/' !in rel)
      ensures Outcomes(t, m, archive, disk, Join(t.extensionsDir, rel))
              == {if Join(l.extensionsDir, rel) in source then Some(source[Join(l.extensionsDir, rel)]) else None}
    {
      HarmlessAt(l, source, t, archive, disk, rel);
    }
  }

  lemma SettledIsHarmless(
      l: Layout, source: Files, config: Bytes, database: Bytes, t: Layout, m: Manifest, archive: Files, disk: Files)
    requires m.names.config in archive && m.names.database in archive
    requires AsExpected(l, source, t, m, archive, disk) && Settled(l, source, config, database, t, m, archive, disk)
    ensures StraysHarmless(l, source, archive)
  {
    forall x | x in [l.names.config, l.names.database] && x in archive && Stray(l.names, x).Some?
      ensures var rel := Stray(l.names, x).value;
              if Join(l.extensionsDir, rel) in source
              then archive[x] == source[Join(l.extensionsDir, rel)] else '/' in rel
    {
      var rel := Stray(l.names, x).value;
      RelKeepsExt(l.names.extensions, TOML, x);
      assert Some(archive[x]) in Contents(archive, StrayNames(l.names, archive, rel));
      assert Some(archive[x]) in Outcomes(t, m, archive, disk, Join(t.extensionsDir, rel));
    }
  }

  /** With the directories apart, an export comes back in every order exactly when nothing strays to harm. */
  lemma StraysExactly(
      l: Layout, o: Options, source: Files, snapshot: Option<Bytes>, codec: Codec, m: Manifest, archive: Files,
      t: Layout, disk: Files)
    requires Exported(l, o, source, snapshot, codec, m, archive) && TargetsApart(t, m)
    ensures m.names.config in archive && m.names.database in archive
    ensures var database := if snapshot.Some? then snapshot.value else source[l.databasePath];
            Settled(l, source, source[l.configPath], database, t, m, archive, disk)
            <==> StraysHarmless(l, source, archive)
  {
    var config, database :=
      source[l.configPath], if snapshot.Some? then snapshot.value else source[l.databasePath];
    ExportedIsAccepted(l, o, source, snapshot, codec, m, archive);
    MainOutcomes(t, m, archive, disk);
    ExtensionsAsExpected(l, o, source, snapshot, codec, m, archive, t, disk);
    if StraysHarmless(l, source, archive) { HarmlessSettles(l, source, config, database, t, m, archive, disk); }
    if Settled(l, source, config, database, t, m, archive, disk) {
      SettledIsHarmless(l, source, config, database, t, m, archive, disk);
    }
  }

  lemma ExtensionsAsExpected(
      l: Layout, o: Options, source: Files, snapshot: Option<Bytes>, codec: Codec, m: Manifest, archive: Files,
      t: Layout, disk: Files)
    requires Exported(l, o, source, snapshot, codec, m, archive) && TargetsApart(t, m)
    ensures m.names.config in archive && m.names.database in archive && AsExpected(l, source, t, m, archive, disk)
  {
    ExportedIsAccepted(l, o, source, snapshot, codec, m, archive);
    forall rel
      ensures Outcomes(t, m, archive, disk, Join(t.extensionsDir, rel)) == Expected(l, source, t, archive, disk, rel)
    {
      ExtensionOutcomes(l, o, source, snapshot, codec, m, archive, t, disk, rel);
    }
  }

  /** Export, pack, unpack, check and restore.  The archive survives and passes; the installation comes back, whatever
      the orders the maps are walked in, exactly when the paths are settled, and with the directories apart exactly
      when nothing strays to harm. */
  lemma {:induction false} BackupRoundTrip(
      l: Layout, o: Options, source: Files, snapshot: Option<Bytes>, codec: Codec, m: Manifest, archive: Files,
      packing: seq<string>, maxBytes: int, compressed: nat, t: Layout, target: Files)
    requires Exported(l, o, source, snapshot, codec, m, archive) && Listing(packing, archive)
    requires (forall name :: name in archive ==> !Contains(name, ".."))
             && Size(packing, archive) <= (if maxBytes <= 0 then 524_288_000 else maxBytes)
             && compressed <= (if maxBytes <= 0 then 524_288_000 else maxBytes)
    ensures UnpackResult(Packed(packing, archive), false, maxBytes, compressed) == Ok(archive)
    ensures Validated(archive, codec) == Ok(m) && m.names.config in archive && m.names.database in archive
    ensures var config := source[l.configPath];
            var database := if snapshot.Some? then snapshot.value else source[l.databasePath];
            && ((forall r :: OrdersOf(r, archive) ==>
                   Reproduced(l, source, config, database, t, Restored(t, archive, codec, target, r)))
                <==> Settled(l, source, config, database, t, m, archive, target))
            && (TargetsApart(t, m) ==>
                  (Settled(l, source, config, database, t, m, archive, target) <==> StraysHarmless(l, source, archive)))
  {
    PackRoundTrip(packing, archive, false, maxBytes, compressed);
    ExportedIsAccepted(l, o, source, snapshot, codec, m, archive);
    var database := if snapshot.Some? then snapshot.value else source[l.databasePath];
    ReproducedExactly(l, source, source[l.configPath], database, t, archive, codec, m, target);
    if TargetsApart(t, m) { StraysExactly(l, o, source, snapshot, codec, m, archive, t, target); }
  }

  lemma OwnAloneExactly(l: Layout, source: Files, t: Layout, archive: Files, disk: Files, rel: string)
    requires HasExt(rel, TOML) && Join(l.extensionsDir, rel) in source
    ensures Expected(l, source, t, archive, disk, rel) != {Some(source[Join(l.extensionsDir, rel)])}
            <==> exists x :: x in StrayNames(l.names, archive, rel) && archive[x] != source[Join(l.extensionsDir, rel)]
  {
    if x :| x in StrayNames(l.names, archive, rel) && archive[x] != source[Join(l.extensionsDir, rel)] {
      assert Some(archive[x]) in Contents(archive, StrayNames(l.names, archive, rel));
    }
  }

  /** Some order restores wrong bytes over an exported extension file exactly when something strays onto it with other
      contents. */
  lemma WrongBytesExactly(
      l: Layout, o: Options, source: Files, snapshot: Option<Bytes>, codec: Codec, m: Manifest, archive: Files,
      t: Layout, target: Files, rel: string)
    requires Exported(l, o, source, snapshot, codec, m, archive) && TargetsApart(t, m)
    requires HasExt(rel, TOML) && Join(l.extensionsDir, rel) in source
    ensures var own := Some(source[Join(l.extensionsDir, rel)]);
            (exists r :: OrdersOf(r, archive)
                && CellAt(Restored(t, archive, codec, target, r), Join(t.extensionsDir, rel)) != own)
            <==> exists x :: x in StrayNames(l.names, archive, rel) && Some(archive[x]) != own
  {
    var own := Some(source[Join(l.extensionsDir, rel)]);
    ExportedIsAccepted(l, o, source, snapshot, codec, m, archive);
    ExtensionOutcomes(l, o, source, snapshot, codec, m, archive, t, target, rel);
    CertainExactly(t, archive, codec, m, target, Join(t.extensionsDir, rel), own);
    OwnAloneExactly(l, source, t, archive, target, rel);
  }

  /** An extension file the source does not have appears at the top level, in every order, exactly when something strays
      there. */
  lemma ExtraFileExactly(
      l: Layout, o: Options, source: Files, snapshot: Option<Bytes>, codec: Codec, m: Manifest, archive: Files,
      t: Layout, target: Files, r: Orders, rel: string)
    requires Exported(l, o, source, snapshot, codec, m, archive) && TargetsApart(t, m) && OrdersOf(r, archive)
    requires HasExt(rel, TOML) && '/' !in rel && Join(l.extensionsDir, rel) !in source
    ensures Join(t.extensionsDir, rel) in Restored(t, archive, codec, target, r)
            <==> StrayNames(l.names, archive, rel) != {}
  {
    ExportedIsAccepted(l, o, source, snapshot, codec, m, archive);
    ExtensionOutcomes(l, o, source, snapshot, codec, m, archive, t, target, rel);
    OutcomeIsListed(t, archive, codec, m, target, r, Join(t.extensionsDir, rel));
    PresentIfStray(l, source, t, archive, target, rel,
                   CellAt(Restored(t, archive, codec, target, r), Join(t.extensionsDir, rel)));
  }

  lemma PresentIfStray(l: Layout, source: Files, t: Layout, archive: Files, disk: Files, rel: string, v: Cell)
    requires HasExt(rel, TOML) && '/' !in rel && Join(l.extensionsDir, rel) !in source
    requires v in Expected(l, source, t, archive, disk, rel)
    ensures v.Some? <==> StrayNames(l.names, archive, rel) != {}
  {
    if x :| x in StrayNames(l.names, archive, rel) {
      assert Some(archive[x]) in Contents(archive, StrayNames(l.names, archive, rel));
    }
  }

  // ---- One directory at a time

  /** What `rel` of a restored directory should hold: the exported file, nothing for another top-level file with the
      extension, and what was there otherwise. */
  function Rebuilt(source: Files, dir: string, ext: string, rel: string, before: Cell): Cell {
    if HasExt(rel, ext) && Join(dir, rel) in source then Some(source[Join(dir, rel)])
    else if '/' !in rel && HasExt(rel, ext) then None
    else before
  }

  /** Every extension file that nothing strays onto comes back, every other top-level one goes, and anything else
      stays. */
  lemma ExtensionsReturn(
      l: Layout, o: Options, source: Files, snapshot: Option<Bytes>, codec: Codec, m: Manifest, archive: Files,
      t: Layout, target: Files, r: Orders, rel: string)
    requires Exported(l, o, source, snapshot, codec, m, archive) && TargetsApart(t, m) && OrdersOf(r, archive)
    requires StrayNames(l.names, archive, rel) == {}
    ensures var p := Join(t.extensionsDir, rel);
            CellAt(Restored(t, archive, codec, target, r), p)
            == Rebuilt(source, l.extensionsDir, TOML, rel, CellAt(target, p))
  {
    ExportedIsAccepted(l, o, source, snapshot, codec, m, archive);
    ExtensionOutcomes(l, o, source, snapshot, codec, m, archive, t, target, rel);
    OutcomeIsListed(t, archive, codec, m, target, r, Join(t.extensionsDir, rel));
    ExpectedWithoutStrays(l, source, t, archive, target, rel);
  }

  lemma ExpectedWithoutStrays(l: Layout, source: Files, t: Layout, archive: Files, disk: Files, rel: string)
    requires StrayNames(l.names, archive, rel) == {}
    ensures Expected(l, source, t, archive, disk, rel)
            == {Rebuilt(source, l.extensionsDir, TOML, rel, CellAt(disk, Join(t.extensionsDir, rel)))}
  {}

  /** An archive has all of a directory's files. */
  ghost predicate Holds(archive: Files, source: Files, prefix: string, dir: string, ext: string) {
    forall rel :: HasExt(rel, ext) && Join(dir, rel) in source ==>
      Join(prefix, rel) in archive && archive[Join(prefix, rel)] == source[Join(dir, rel)]
  }

  /** No other archived name starts with the directory's. */
  ghost predicate Alone(archive: Files, source: Files, prefix: string, dir: string, ext: string) {
    forall name :: name in archive && RelOf(prefix, None, name).Some? ==>
      exists rel :: HasExt(rel, ext) && Join(dir, rel) in source && name == Join(prefix, rel)
  }

  lemma MediaWriters(archive: Files, source: Files, pl: Place, dir: string, rel: string)
    requires pl.filter == None && pl.ext != ""
    requires Holds(archive, source, pl.prefix, dir, pl.ext) && Alone(archive, source, pl.prefix, dir, pl.ext)
    ensures Writers(pl, archive, Join(pl.dir, rel))
            == if HasExt(rel, pl.ext) && Join(dir, rel) in source then {Join(pl.prefix, rel)} else {}
  {
    forall name ensures name in Writers(pl, archive, Join(pl.dir, rel))
                        <==> HasExt(rel, pl.ext) && Join(dir, rel) in source && name == Join(pl.prefix, rel)
    {
      DestIs(pl, name, rel);
      if HasExt(rel, pl.ext) { RelOfJoin(pl.prefix, None, rel); }
      if name in archive && RelOf(pl.prefix, None, name) == Some(rel) {
        var own :| HasExt(own, pl.ext) && Join(dir, own) in source && name == Join(pl.prefix, own);
        RelOfJoin(pl.prefix, None, own);
      }
    }
  }

  lemma MediaCells(archive: Files, source: Files, pl: Place, dir: string, rel: string, before: Cell)
    requires pl.filter == None && pl.ext != ""
    requires Holds(archive, source, pl.prefix, dir, pl.ext) && Alone(archive, source, pl.prefix, dir, pl.ext)
    ensures StageCells(true, pl, archive, Join(pl.dir, rel), {before}) == {Rebuilt(source, dir, pl.ext, rel, before)}
  {
    MediaWriters(archive, source, pl, dir, rel);
    CellsOfWriters(pl, archive, Join(pl.dir, rel), {before});
    JoinRel(pl.dir, rel);
  }

  /** A file of a directory, in the archive. */
  lemma {:induction false} PartHeld(source: Files, prefix: string, dir: string, ext: string, rel: string, part: Files)
    requires '/' !in ext && HasExt(rel, ext) && Join(dir, rel) in source && part == Part(source, prefix, dir, ext)
    ensures Join(prefix, rel) in part && part[Join(prefix, rel)] == source[Join(dir, rel)]
  {
    RelPart(source, prefix, dir, ext, rel);
  }

  lemma MohInArchive(
      l: Layout, o: Options, source: Files, snapshot: Option<Bytes>, manifest: Bytes, name: string, part: Files,
      g: Files)
    requires NamesApart(l.names, o) && g == Gathered(l, o, source, snapshot) && part == Moh(l, o, source)
             && name in part
    ensures name in g[MANIFEST := manifest] && g[MANIFEST := manifest][name] == part[name]
  {
    GatheredName(l, o, source, snapshot, name);
  }

  lemma PhonebookInArchive(
      l: Layout, o: Options, source: Files, snapshot: Option<Bytes>, manifest: Bytes, name: string, part: Files,
      g: Files)
    requires NamesApart(l.names, o) && g == Gathered(l, o, source, snapshot)
    requires part == Phonebook(l, o, source) && name in part
    ensures name in g[MANIFEST := manifest] && g[MANIFEST := manifest][name] == part[name]
  {
    GatheredName(l, o, source, snapshot, name);
  }

  /** An export has all of the music on hold and of the phone books it includes. */
  lemma MediaHeld(
      l: Layout, o: Options, source: Files, snapshot: Option<Bytes>, manifest: Bytes, archive: Files)
    requires NamesApart(l.names, o) && archive == Archive(l, o, source, snapshot, manifest)
    ensures o.moh ==> Holds(archive, source, l.names.moh, l.mohDir, WAV)
    ensures o.phonebook ==> Holds(archive, source, l.names.phonebook, l.phonebookDir, XML)
  {
    var g := Gathered(l, o, source, snapshot);
    forall rel | o.moh && HasExt(rel, WAV) && Join(l.mohDir, rel) in source
      ensures Join(l.names.moh, rel) in archive && archive[Join(l.names.moh, rel)] == source[Join(l.mohDir, rel)]
    {
      PartHeld(source, l.names.moh, l.mohDir, WAV, rel, Moh(l, o, source));
      MohInArchive(l, o, source, snapshot, manifest, Join(l.names.moh, rel), Moh(l, o, source), g);
    }
    forall rel | o.phonebook && HasExt(rel, XML) && Join(l.phonebookDir, rel) in source
      ensures Join(l.names.phonebook, rel) in archive
              && archive[Join(l.names.phonebook, rel)] == source[Join(l.phonebookDir, rel)]
    {
      PartHeld(source, l.names.phonebook, l.phonebookDir, XML, rel, Phonebook(l, o, source));
      PhonebookInArchive(l, o, source, snapshot, manifest, Join(l.names.phonebook, rel), Phonebook(l, o, source), g);
    }
  }

  lemma OutcomesOfMohDir(t: Layout, m: Manifest, archive: Files, disk: Files, rel: string)
    requires TargetsApart(t, m) && MohIncluded(m) && m.names.config in archive && m.names.database in archive
    ensures var p := Join(t.mohDir, rel);
            Outcomes(t, m, archive, disk, p) == StageCells(true, MohPlace(t, m.names), archive, p, {CellAt(disk, p)})
  {
    var p := Join(t.mohDir, rel);
    JoinRel(t.mohDir, rel);
    assert t.configPath in [t.configPath, t.databasePath] && t.databasePath in [t.configPath, t.databasePath];
    if Beneath(t.extensionsDir, p) { NothingBeneathBoth(t.extensionsDir, t.mohDir, p); }
    if PhonebookIncluded(m) { NothingBeneathBoth(t.mohDir, t.phonebookDir, p); }
    StageStaysInside(true, ExtensionsPlace(t, m.names), archive, p, {CellAt(disk, p)});
    var second := StageCells(true, MohPlace(t, m.names), archive, p, {CellAt(disk, p)});
    StageStaysInside(PhonebookIncluded(m), PhonebookPlace(t, m.names), archive, p, second);
  }

  lemma OutcomesOfPhonebookDir(t: Layout, m: Manifest, archive: Files, disk: Files, rel: string)
    requires TargetsApart(t, m) && PhonebookIncluded(m) && m.names.config in archive && m.names.database in archive
    ensures var p := Join(t.phonebookDir, rel);
            Outcomes(t, m, archive, disk, p)
                == StageCells(true, PhonebookPlace(t, m.names), archive, p, {CellAt(disk, p)})
  {
    var p := Join(t.phonebookDir, rel);
    JoinRel(t.phonebookDir, rel);
    assert t.configPath in [t.configPath, t.databasePath] && t.databasePath in [t.configPath, t.databasePath];
    if Beneath(t.extensionsDir, p) { NothingBeneathBoth(t.extensionsDir, t.phonebookDir, p); }
    if MohIncluded(m) && Beneath(t.mohDir, p) { NothingBeneathBoth(t.mohDir, t.phonebookDir, p); }
    StageStaysInside(true, ExtensionsPlace(t, m.names), archive, p, {CellAt(disk, p)});
    StageStaysInside(MohIncluded(m), MohPlace(t, m.names), archive, p, {CellAt(disk, p)});
  }

  /** Restoring rebuilds the music on hold in the same way. */
  lemma MohReturns(
      l: Layout, o: Options, source: Files, snapshot: Option<Bytes>, codec: Codec, m: Manifest, archive: Files,
      t: Layout, target: Files, r: Orders, rel: string)
    requires Exported(l, o, source, snapshot, codec, m, archive) && TargetsApart(t, m) && OrdersOf(r, archive)
    requires o.moh && l.names.moh != "" && Alone(archive, source, l.names.moh, l.mohDir, WAV)
    ensures var p := Join(t.mohDir, rel);
            CellAt(Restored(t, archive, codec, target, r), p) == Rebuilt(source, l.mohDir, WAV, rel, CellAt(target, p))
  {
    var p := Join(t.mohDir, rel);
    ExportedIsAccepted(l, o, source, snapshot, codec, m, archive);
    MediaHeld(l, o, source, snapshot, codec.encode(m), archive);
    MediaCells(archive, source, MohPlace(t, m.names), l.mohDir, rel, CellAt(target, p));
    OutcomesOfMohDir(t, m, archive, target, rel);
    OutcomeIsListed(t, archive, codec, m, target, r, p);
  }

  /** And the phone books. */
  lemma PhonebookReturns(
      l: Layout, o: Options, source: Files, snapshot: Option<Bytes>, codec: Codec, m: Manifest, archive: Files,
      t: Layout, target: Files, r: Orders, rel: string)
    requires Exported(l, o, source, snapshot, codec, m, archive) && TargetsApart(t, m) && OrdersOf(r, archive)
    requires o.phonebook && l.names.phonebook != ""
    requires Alone(archive, source, l.names.phonebook, l.phonebookDir, XML)
    ensures var p := Join(t.phonebookDir, rel);
            CellAt(Restored(t, archive, codec, target, r), p)
            == Rebuilt(source, l.phonebookDir, XML, rel, CellAt(target, p))
  {
    var p := Join(t.phonebookDir, rel);
    ExportedIsAccepted(l, o, source, snapshot, codec, m, archive);
    MediaHeld(l, o, source, snapshot, codec.encode(m), archive);
    MediaCells(archive, source, PhonebookPlace(t, m.names), l.phonebookDir, rel, CellAt(target, p));
    OutcomesOfPhonebookDir(t, m, archive, target, rel);
    OutcomeIsListed(t, archive, codec, m, target, r, p);
  }

  lemma ContentsOfOne(archive: Files, name: string)
    requires name in archive
    ensures Contents(archive, {name}) == {Some(archive[name])}
  {}

  /** A database kept among the music on hold, on disk and in the archive alike, is written twice with the same
      bytes. */
  lemma DatabaseAmongMusic(t: Layout, m: Manifest, archive: Files, disk: Files, rel: string)
    requires m.names.config in archive && m.names.database in archive && m.included.moh && m.names.moh != ""
    requires t.databasePath == Join(t.mohDir, rel) && m.names.database == Join(m.names.moh, rel) && rel != ""
    requires Writers(MohPlace(t, m.names), archive, t.databasePath) <= {m.names.database}
    requires PhonebookIncluded(m) ==> !Beneath(t.phonebookDir, t.databasePath)
    ensures Outcomes(t, m, archive, disk, t.databasePath) == {Some(archive[m.names.database])}
  {
    var p, pl := t.databasePath, MohPlace(t, m.names);
    var first := StageCells(true, ExtensionsPlace(t, m.names), archive, p, {CellAt(Written(t, m, archive, disk), p)});
    RelOfJoin(m.names.moh, None, rel);
    DestIs(pl, m.names.database, rel);
    assert Writers(pl, archive, p) == {m.names.database};
    CellsOfWriters(pl, archive, p, first);
    ContentsOfOne(archive, m.names.database);
    StageStaysInside(PhonebookIncluded(m), PhonebookPlace(t, m.names), archive, p,
                     StageCells(true, pl, archive, p, first));
  }

  /** With an extensions directory archived as "conf", the configuration file strays to "ig.toml". */
  lemma ConfigStraysIntoConf(n: Names)
    requires n.config == "config.toml" && n.extensions == "conf"
    ensures Stray(n, n.config) == Some("ig.toml") && '/' !in "ig.toml"
  {
    var name, rest := n.config, "ig.toml";
    assert name[..4] == "conf" && name[4..] == rest && rest[0] != '/';
    assert HasExt(rest, TOML) by { assert SipText.Lower(rest) == rest && rest[2..] == TOML; }
  }

  lemma Forked(root: string, a: string, b: string)
    requires |a| > 1 && |b| > 1 && a[1] != b[1]
    ensures Apart(root + a, root + b)
  {
    assert (root + a)[|root| + 1] == a[1] && (root + b)[|root| + 1] == b[1];
    assert (root + a + "/")[|root| + 1] == a[1] && (root + b + "/")[|root| + 1] == b[1];
  }

  /** The usual names and directories, wherever the server is installed, are apart in both ways, and nothing strays. */
  lemma UsualLayoutQualifies(root: string, m: Manifest)
    requires m.names == Names("config.toml", "data/pbx.db", "extensions", "assets/moh", "phonebook")
    ensures NamesApart(m.names, m.included)
            && Stray(m.names, m.names.config) == None == Stray(m.names, m.names.database)
    ensures TargetsApart(Layout(root + "/config.toml", root + "/data/pbx.db", root + "/extensions",
                                root + "/assets/moh", root + "/phonebook", m.names), m)
  {
    var c, d, e, a, p := "/config.toml", "/data/pbx.db", "/extensions", "/assets/moh", "/phonebook";
    Forked(root, c, d);
    Forked(root, e, c);
    Forked(root, e, d);
    Forked(root, a, c);
    Forked(root, a, d);
    Forked(root, p, c);
    Forked(root, p, d);
    Forked(root, e, a);
    Forked(root, e, p);
    Forked(root, a, p);
    UsualNames(m.included);
  }

  lemma UsualNames(o: Options)
    ensures NamesApart(Names("config.toml", "data/pbx.db", "extensions", "assets/moh", "phonebook"), o)
    ensures forall x :: x in ["config.toml", "data/pbx.db"] ==> !HasPrefix(x, "extensions")
  {
    forall x | x in ["config.toml", "data/pbx.db"]
      ensures !HasPrefix(x, "extensions") && !Beneath("extensions", x) && !Beneath("assets/moh", x)
              && !Beneath("phonebook", x)
    {
      assert x[0] == 'c' || x[0] == 'd';
      assert "extensions"[0] == ("extensions" + "/")[0] == 'e';
      assert ("assets/moh" + "/")[0] == 'a' && ("phonebook" + "/")[0] == 'p';
    }
  }
}
