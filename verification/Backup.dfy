/**
 Incremental encrypted backups (pkg/kvstore/badger_backup.go). The database is a log of versioned
 entries; a deletion is an entry without a value. JSON, base64, AES-256-GCM and the dump format
 are given as functions with the laws in `Lawful`.
 */
module Backup {
  import opened Results
  import opened GoStrings
  import opened PointEncoding

  const MAGIC: GoString := "MPCIUM_BACKUP"

  datatype Entry = Entry(key: string, version: nat, value: Option<string>)
  datatype Meta = Meta(nonce: GoString, since: nat, nextSince: nat)

  datatype Formats = Formats(
    printMeta: Meta -> GoString,
    readMeta: GoString -> Option<Meta>,
    seal: (GoString, GoString) -> GoString,
    open: (GoString, GoString) -> Option<GoString>,
    printDump: set<Entry> -> GoString,
    readDump: GoString -> Option<set<Entry>>)

  ghost predicate Lawful(k: Formats) {
    && (forall m :: k.readMeta(k.printMeta(m)) == Some(m))
    && (forall p, nonce :: k.open(k.seal(p, nonce), nonce) == Some(p))
    && (forall p, nonce, n | 0 <= n < |k.seal(p, nonce)| :: k.open(k.seal(p, nonce)[..n], nonce) == None)
    && (forall d :: k.readDump(k.printDump(d)) == Some(d))
    && k.printDump({}) == ""
  }

  // ---- the file format ----

  datatype Parsed = Parsed(meta: GoString, ciphertext: GoString)

  function Frame(meta: GoString, ciphertext: GoString): GoString {
    MAGIC + Padded(4, Bytes(|meta|)) + meta + ciphertext
  }

  /** The loader's reads: magic, four-byte big-endian length, metadata, the rest. */
  function Parse(file: GoString): Result<Parsed> {
    if |file| < 13 then Err("unexpected EOF")
    else if file[..13] != MAGIC then Err("bad magic")
    else if |file| < 17 then Err("unexpected EOF")
    else
      var n := FromBytes(file[13..17]);
      if |file| < 17 + n then Err("unexpected EOF")
      else Ok(Parsed(file[17..17 + n], file[17 + n..]))
  }

  lemma FrameParts(meta: GoString, ciphertext: GoString)
    requires Fits(|meta|, 4)
    ensures var f := Frame(meta, ciphertext);
            && |f| == 17 + |meta| + |ciphertext|
            && f[..13] == "MPCIUM_BACKUP" && f[17..17 + |meta|] == meta && f[17 + |meta|..] == ciphertext
            && FromBytes(f[13..17]) == |meta|
  {
    PaddedLength(|meta|, 4);
    ValueOfPadded(|meta|, 4);
    assert Frame(meta, ciphertext)[13..17] == Padded(4, Bytes(|meta|));
  }

  lemma ParseFrame(meta: GoString, ciphertext: GoString)
    requires Fits(|meta|, 4)
    ensures Parse(Frame(meta, ciphertext)) == Ok(Parsed(meta, ciphertext))
  {
    FrameParts(meta, ciphertext);
  }

  /** Whatever the loader parses is the frame of what it read. */
  lemma FrameOfParsed(file: GoString)
    requires Parse(file).Ok?
    ensures var p := Parse(file).value; Fits(|p.meta|, 4) && file == Frame(p.meta, p.ciphertext)
  {
    var size := file[13..17];
    BytesFit(size);
    PaddedOfValue(size);
    var n := FromBytes(size);
    FourPieces(file, n);
  }

  lemma FourPieces(file: GoString, n: nat)
    requires 17 + n <= |file|
    ensures file == file[..13] + file[13..17] + file[17..17 + n] + file[17 + n..]
  {}

  /** A frame cut short either fails to parse or loses only the end of its ciphertext. */
  lemma ParseOfPrefix(meta: GoString, ciphertext: GoString, n: nat)
    requires Fits(|meta|, 4) && n < |Frame(meta, ciphertext)|
    ensures var p := Parse(Frame(meta, ciphertext)[..n]);
            p.Err? || exists m | 0 <= m < |ciphertext| :: p == Ok(Parsed(meta, ciphertext[..m]))
  {
    var f := Frame(meta, ciphertext);
    var g := f[..n];
    FrameParts(meta, ciphertext);
    if n >= 17 + |meta| {
      assert g[..13] == f[..13] && g[13..17] == f[13..17];
      assert g[17..17 + |meta|] == meta;
      assert g[17 + |meta|..] == ciphertext[..n - 17 - |meta|];
    } else if n >= 17 {
      assert g[..13] == f[..13] && g[13..17] == f[13..17];
    }
  }

  /** `loadEncryptedBackup` up to the entries it hands to the database. */
  function LoadFile(k: Formats, file: GoString): Result<set<Entry>> {
    var parsed := Parse(file);
    if parsed.Err? then Err(parsed.error)
    else
      var meta := k.readMeta(parsed.value.meta);
      if meta.None? then Err("bad metadata")
      else
        var plain := k.open(parsed.value.ciphertext, meta.value.nonce);
        if plain.None? then Err("message authentication failed")
        else
          var dump := k.readDump(plain.value);
          if dump.None? then Err("bad dump") else Ok(dump.value)
  }

  function FileBytes(k: Formats, dump: set<Entry>, meta: Meta): GoString {
    Frame(k.printMeta(meta), k.seal(k.printDump(dump), meta.nonce))
  }

  lemma WrittenFileLoads(k: Formats, dump: set<Entry>, meta: Meta)
    requires Lawful(k) && Fits(|k.printMeta(meta)|, 4)
    ensures LoadFile(k, FileBytes(k, dump, meta)) == Ok(dump)
  {
    ParseFrame(k.printMeta(meta), k.seal(k.printDump(dump), meta.nonce));
  }

  /** A file cut short anywhere is refused. */
  lemma TornFileRefused(k: Formats, dump: set<Entry>, meta: Meta, n: nat)
    requires Lawful(k) && Fits(|k.printMeta(meta)|, 4) && n < |FileBytes(k, dump, meta)|
    ensures LoadFile(k, FileBytes(k, dump, meta)[..n]).Err?
  {
    ParseOfPrefix(k.printMeta(meta), k.seal(k.printDump(dump), meta.nonce), n);
  }

  // ---- the backup directory ----

  /** Files are named by the second they were started in and the version counter. */
  datatype FileName = FileName(second: int, counter: nat)

  /** The file `latest.version`; a torn write leaves it unreadable. */
  datatype VersionInfo = Absent | Latest(version: nat, since: nat) | Unreadable

  datatype Disk = Disk(files: map<FileName, GoString>, info: VersionInfo)

  /** What `DB.Backup` returned. */
  datatype Dump = Dump(entries: set<Entry>, nextSince: nat)

  datatype SaveOutcome = SaveDone | SaveFailed | SaveTorn

  /** What the environment decides during one `Execute`: the clock, the database's answer, the
      nonce, how many bytes of the file reach the disk (none if it cannot be created), and what
      happens to the version file. */
  datatype Attempt = Attempt(
    now: int, dump: Option<Dump>, nonce: GoString, written: Option<nat>, save: SaveOutcome)

  function Version(info: VersionInfo): nat {
    if info.Latest? then info.version else 0
  }

  function Since(info: VersionInfo): nat {
    if info.Latest? then info.since else 0
  }

  function MetaOf(d: Disk, a: Attempt): Meta
    requires a.dump.Some?
  {
    Meta(a.nonce, Since(d.info), a.dump.value.nextSince)
  }

  /** The attempt gets as far as creating a file. */
  predicate HasChanges(k: Formats, d: Disk, a: Attempt) {
    && !d.info.Unreadable? && a.dump.Some?
    && |k.printDump(a.dump.value.entries)| != 0 && a.dump.value.nextSince != Since(d.info)
  }

  /** The attempt writes its file completely, so that `Execute` reports a backup. */
  predicate Completes(k: Formats, d: Disk, a: Attempt) {
    && HasChanges(k, d, a) && a.written.Some?
    && Fits(|k.printMeta(MetaOf(d, a))|, 4)
    && a.written.value >= |FileBytes(k, a.dump.value.entries, MetaOf(d, a))|
  }

  function NameOf(d: Disk, a: Attempt): FileName {
    FileName(a.now, Version(d.info) + 1)
  }

  /** What a failed write leaves behind. */
  function TornBytes(k: Formats, d: Disk, a: Attempt): GoString
    requires HasChanges(k, d, a) && a.written.Some? && !Completes(k, d, a)
  {
    if Fits(|k.printMeta(MetaOf(d, a))|, 4)
    then FileBytes(k, a.dump.value.entries, MetaOf(d, a))[..a.written.value]
    else MAGIC[..if a.written.value < 13 then a.written.value else 13]
  }

  function SaveVersion(info: VersionInfo, version: nat, since: nat, save: SaveOutcome): VersionInfo {
    match save
    case SaveDone => Latest(version, since)
    case SaveFailed => info
    case SaveTorn => Unreadable
  }

  function AfterExecute(k: Formats, d: Disk, a: Attempt): Disk {
    if Completes(k, d, a) then
      Disk(d.files[NameOf(d, a) := FileBytes(k, a.dump.value.entries, MetaOf(d, a))],
           SaveVersion(d.info, Version(d.info) + 1, a.dump.value.nextSince, a.save))
    else if HasChanges(k, d, a) && a.written.Some? then
      d.(files := d.files[NameOf(d, a) := TornBytes(k, d, a)])
    else d
  }

  class BackupExecutor {
    var files: map<FileName, GoString>
    var info: VersionInfo

    constructor ()
      ensures View() == Disk(map[], Absent)
    {
      files, info := map[], Absent;
    }

    ghost function View(): Disk
      reads this
    {
      Disk(files, info)
    }

    /** An attempt reports success when it completes or finds nothing new. */
    method Execute(k: Formats, a: Attempt) returns (r: Result<()>)
      modifies this
      ensures View() == AfterExecute(k, old(View()), a)
      ensures r.Ok? <==> || Completes(k, old(View()), a)
                         || (!old(info).Unreadable? && a.dump.Some? && !HasChanges(k, old(View()), a))
    {
      if info.Unreadable? {
        return Err("failed to load version info");
      }
      var since := Since(info);
      var version := Version(info) + 1;
      if a.dump.None? {
        return Err("backup failed");
      }
      var plain := k.printDump(a.dump.value.entries);
      var nextSince := a.dump.value.nextSince;
      if |plain| == 0 || nextSince == since {
        return Ok(());
      }
      var name := FileName(a.now, version);
      var meta := Meta(a.nonce, since, nextSince);
      var metaText := k.printMeta(meta);
      var ciphertext := k.seal(plain, a.nonce);
      if a.written.None? {
        return Err("cannot create file");
      }
      DigitsOfLength(|metaText|);
      if |Bytes(|metaText|)| > 4 {
        files := files[name := MAGIC[..if a.written.value < 13 then a.written.value else 13]];
        return Err("metaJSON too large");
      }
      var bytes := Frame(metaText, ciphertext);
      if a.written.value < |bytes| {
        files := files[name := bytes[..a.written.value]];
        return Err("write failed");
      }
      files := files[name := bytes];
      info := SaveVersion(info, version, nextSince, a.save);
      return Ok(());
    }

    /** Loads the backups one by one into an empty database; the first bad file stops it. */
    method RestoreAll(k: Formats, order: seq<FileName>) returns (r: Result<set<Entry>>)
      requires forall n :: n in order <==> n in files
      ensures r.Ok? <==> AllLoad(k, files)
      ensures r.Ok? ==> r.value == Loaded(k, files)
    {
      var entries := {};
      for i := 0 to |order|
        invariant forall j | 0 <= j < i :: LoadFile(k, files[order[j]]).Ok?
        invariant forall e :: e in entries <==> exists j | 0 <= j < i :: InFile(k, files[order[j]], e)
      {
        var dump := LoadFile(k, files[order[i]]);
        if dump.Err? {
          return Err(dump.error);
        }
        entries := entries + dump.value;
      }
      r := Ok(entries);
      LoadedByOrder(k, files, order, entries);
    }
  }

  lemma DigitsOfLength(n: nat)
    ensures |Bytes(n)| <= 4 <==> Fits(n, 4)
  {
    PaddedLength(n, 4);
  }

  predicate InFile(k: Formats, file: GoString, e: Entry) {
    LoadFile(k, file).Ok? && e in LoadFile(k, file).value
  }

  predicate AllLoad(k: Formats, files: map<FileName, GoString>) {
    forall n | n in files :: LoadFile(k, files[n]).Ok?
  }

  /** The entries of all readable files: what a restored database holds, in any loading order. */
  ghost function Loaded(k: Formats, files: map<FileName, GoString>): (s: set<Entry>)
    ensures forall e :: e in s <==> exists n | n in files :: InFile(k, files[n], e)
  {
    set n, e | n in files && LoadFile(k, files[n]).Ok? && e in LoadFile(k, files[n]).value :: e
  }

  lemma LoadedByOrder(k: Formats, files: map<FileName, GoString>, order: seq<FileName>, entries: set<Entry>)
    requires forall n :: n in order <==> n in files
    requires forall e :: e in entries <==> exists j | 0 <= j < |order| :: InFile(k, files[order[j]], e)
    ensures entries == Loaded(k, files)
  {
    forall e | e in Loaded(k, files) ensures e in entries {
      var n :| n in files && InFile(k, files[n], e);
      var j :| 0 <= j < |order| && order[j] == n;
    }
  }

  // ---- runs ----

  /** The log, its newest commit version, the backup directory, and the highest watermark any
      completed backup returned. */
  datatype State = State(db: set<Entry>, clock: nat, disk: Disk, high: nat)

  /** `dump` answers for every entry of `entries` with that key. */
  predicate Covers(dump: set<Entry>, e: Entry) {
    exists e' | e' in dump :: e'.key == e.key && e'.version >= e.version
  }

  /** All that is assumed of `DB.Backup`: it covers every entry newer than `since`, dumps nothing
      older, and returns the newest version it dumped. */
  ghost predicate IsDump(db: set<Entry>, since: nat, dump: Dump) {
    && dump.entries <= db
    && (forall e | e in db && e.version > since :: Covers(dump.entries, e))
    && (forall e | e in dump.entries :: since <= e.version <= dump.nextSince)
    && (dump.entries != {} ==> exists e | e in dump.entries :: e.version == dump.nextSince)
  }

  function Commit(version: nat, writes: map<string, Option<string>>): set<Entry> {
    set key | key in writes :: Entry(key, version, writes[key])
  }

  /** Commits made while a backup runs are newer than its snapshot and touch no file, so they are
      the same as commits made after it. */
  datatype Step = Write(version: nat, writes: map<string, Option<string>>) | Execute(attempt: Attempt)

  ghost predicate Allowed(s: State, step: Step) {
    match step
    case Write(version, _) => version > s.clock
    case Execute(a) => a.dump.Some? ==> IsDump(s.db, Since(s.disk.info), a.dump.value)
  }

  function Next(k: Formats, s: State, step: Step): State {
    match step
    case Write(version, writes) => s.(db := s.db + Commit(version, writes), clock := version)
    case Execute(a) =>
      s.(disk := AfterExecute(k, s.disk, a),
         high := if Completes(k, s.disk, a) && a.dump.value.nextSince > s.high
                 then a.dump.value.nextSince else s.high)
  }

  function Initial(): State {
    State({}, 0, Disk(map[], Absent), 0)
  }

  function RunFrom(k: Formats, s: State, steps: seq<Step>): State {
    if |steps| == 0 then s
    else Next(k, RunFrom(k, s, steps[..|steps| - 1]), steps[|steps| - 1])
  }

  function Run(k: Formats, steps: seq<Step>): State {
    RunFrom(k, Initial(), steps)
  }

  ghost predicate AllowedRun(k: Formats, steps: seq<Step>) {
    |steps| > 0 ==>
      && AllowedRun(k, steps[..|steps| - 1])
      && Allowed(Run(k, steps[..|steps| - 1]), steps[|steps| - 1])
  }

  // ---- the invariant ----

  predicate CoveringFile(k: Formats, file: GoString, e: Entry) {
    LoadFile(k, file).Ok? && Covers(LoadFile(k, file).value, e)
  }

  ghost predicate CoveredUpTo(k: Formats, files: map<FileName, GoString>, counter: nat, e: Entry) {
    exists n :: n in files && n.counter <= counter && CoveringFile(k, files[n], e)
  }

  ghost predicate Covered(k: Formats, files: map<FileName, GoString>, e: Entry) {
    exists n :: n in files && CoveringFile(k, files[n], e)
  }

  ghost predicate LogInv(s: State) {
    && (forall e | e in s.db :: e.version <= s.clock)
    && (forall e, e' | e in s.db && e' in s.db && e.key == e'.key && e.version == e'.version :: e == e')
    && Since(s.disk.info) <= s.high <= s.clock
  }

  /** Files up to the saved counter, which are never written again, cover the saved watermark. */
  ghost predicate SavedInv(k: Formats, s: State) {
    !s.disk.info.Unreadable? ==>
      forall e | e in s.db && e.version <= Since(s.disk.info) ::
        CoveredUpTo(k, s.disk.files, Version(s.disk.info), e)
  }

  /** Unless a torn file shows, the readable files cover the highest watermark. */
  ghost predicate HighInv(k: Formats, s: State) {
    AllLoad(k, s.disk.files) ==>
      forall e | e in s.db && e.version <= s.high :: Covered(k, s.disk.files, e)
  }

  /** Whatever a file holds was committed no later than the given version. */
  ghost predicate FilesWithin(k: Formats, files: map<FileName, GoString>, db: set<Entry>, high: nat) {
    forall n, e | n in files && InFile(k, files[n], e) :: e in db && e.version <= high
  }

  ghost predicate Inv(k: Formats, s: State) {
    LogInv(s) && SavedInv(k, s) && HighInv(k, s) && FilesWithin(k, s.disk.files, s.db, s.high)
  }

  lemma WriteKeepsInv(k: Formats, s: State, version: nat, writes: map<string, Option<string>>)
    requires Inv(k, s) && version > s.clock
    ensures Inv(k, Next(k, s, Write(version, writes)))
  {}

  // A completed attempt leaves a file that loads as its dump.
  lemma CompletedFile(k: Formats, d: Disk, a: Attempt)
    requires Lawful(k) && Completes(k, d, a)
    ensures var d' := AfterExecute(k, d, a);
            && NameOf(d, a) in d'.files
            && LoadFile(k, d'.files[NameOf(d, a)]) == Ok(a.dump.value.entries)
  {
    WrittenFileLoads(k, a.dump.value.entries, MetaOf(d, a));
  }

  /** The file carries, readable without the key, the nonce, the watermark the dump started from
      and the one it reached. */
  lemma WrittenMeta(k: Formats, d: Disk, a: Attempt)
    requires Lawful(k) && Completes(k, d, a)
    ensures var file := AfterExecute(k, d, a).files[NameOf(d, a)];
            && Parse(file).Ok?
            && k.readMeta(Parse(file).value.meta)
               == Some(Meta(a.nonce, if d.info.Latest? then d.info.since else 0, a.dump.value.nextSince))
  {
    ParseFrame(k.printMeta(MetaOf(d, a)), k.seal(k.printDump(a.dump.value.entries), a.nonce));
  }

  /** Attempts started in different seconds never touch each other's files. */
  lemma OtherSecondsStay(k: Formats, d: Disk, a: Attempt, n: FileName)
    requires n.second != a.now
    ensures n in AfterExecute(k, d, a).files <==> n in d.files
    ensures n in d.files ==> AfterExecute(k, d, a).files[n] == d.files[n]
  {}

  lemma TornFile(k: Formats, d: Disk, a: Attempt)
    requires Lawful(k) && HasChanges(k, d, a) && a.written.Some? && !Completes(k, d, a)
    ensures LoadFile(k, TornBytes(k, d, a)).Err?
  {
    if Fits(|k.printMeta(MetaOf(d, a))|, 4) {
      TornFileRefused(k, a.dump.value.entries, MetaOf(d, a), a.written.value);
    }
  }

  /** A completed attempt overwrites at most a file of the counter being attempted. */
  lemma OlderFilesStay(k: Formats, d: Disk, a: Attempt, e: Entry)
    requires CoveredUpTo(k, d.files, Version(d.info), e)
    ensures CoveredUpTo(k, AfterExecute(k, d, a).files, Version(d.info), e)
  {
    var n :| n in d.files && n.counter <= Version(d.info) && CoveringFile(k, d.files[n], e);
    assert n != NameOf(d, a);
    assert n in AfterExecute(k, d, a).files && AfterExecute(k, d, a).files[n] == d.files[n];
  }

  /** After a completed attempt every entry of the snapshot is covered by a file that the next
      counter cannot overwrite. */
  lemma CompletedCovers(k: Formats, s: State, a: Attempt, e: Entry)
    requires Lawful(k) && SavedInv(k, s) && Allowed(s, Execute(a)) && Completes(k, s.disk, a) && e in s.db
    ensures CoveredUpTo(k, AfterExecute(k, s.disk, a).files, Version(s.disk.info) + 1, e)
  {
    var d := s.disk;
    CompletedFile(k, d, a);
    if e.version <= Since(d.info) {
      OlderFilesStay(k, d, a, e);
      var n :| && n in AfterExecute(k, d, a).files && n.counter <= Version(d.info)
               && CoveringFile(k, AfterExecute(k, d, a).files[n], e);
    } else {
      assert CoveringFile(k, AfterExecute(k, d, a).files[NameOf(d, a)], e);
    }
  }

  lemma SavedWatermarkCovered(k: Formats, s: State, a: Attempt, e: Entry)
    requires Lawful(k) && SavedInv(k, s) && Allowed(s, Execute(a)) && Completes(k, s.disk, a)
    requires var d := AfterExecute(k, s.disk, a);
             e in s.db && e.version <= Since(d.info) && !d.info.Unreadable?
    ensures var d := AfterExecute(k, s.disk, a); CoveredUpTo(k, d.files, Version(d.info), e)
  {
    if a.save.SaveDone? {
      CompletedCovers(k, s, a, e);
    } else {
      OlderFilesStay(k, s.disk, a, e);
    }
  }

  lemma CompletedKeepsSaved(k: Formats, s: State, a: Attempt)
    requires Lawful(k) && SavedInv(k, s) && Allowed(s, Execute(a)) && Completes(k, s.disk, a)
    ensures SavedInv(k, Next(k, s, Execute(a)))
  {
    var d := AfterExecute(k, s.disk, a);
    forall e | e in s.db && e.version <= Since(d.info) && !d.info.Unreadable?
      ensures CoveredUpTo(k, d.files, Version(d.info), e)
    {
      SavedWatermarkCovered(k, s, a, e);
    }
  }

  lemma CompletedKeepsHigh(k: Formats, s: State, a: Attempt)
    requires Lawful(k) && SavedInv(k, s) && Allowed(s, Execute(a)) && Completes(k, s.disk, a)
    ensures HighInv(k, Next(k, s, Execute(a)))
  {
    var files := AfterExecute(k, s.disk, a).files;
    forall e | e in s.db ensures Covered(k, files, e) {
      CompletedCovers(k, s, a, e);
      var n :| n in files && n.counter <= Version(s.disk.info) + 1 && CoveringFile(k, files[n], e);
    }
  }

  /** The watermark of a dump with changes moves forward, to a version that was committed. */
  lemma WatermarkAdvances(k: Formats, s: State, a: Attempt)
    requires Lawful(k) && LogInv(s) && Allowed(s, Execute(a)) && HasChanges(k, s.disk, a)
    ensures Since(s.disk.info) < a.dump.value.nextSince <= s.clock
  {
    assert a.dump.value.entries != {};
  }

  lemma PutKeepsWithin(
      k: Formats, files: map<FileName, GoString>, n: FileName, file: GoString, db: set<Entry>, high: nat, high': nat)
    requires FilesWithin(k, files, db, high) && high <= high'
    requires forall e :: InFile(k, file, e) ==> e in db && e.version <= high'
    ensures FilesWithin(k, files[n := file], db, high')
  {
    var files' := files[n := file];
    forall m, e | m in files' && InFile(k, files'[m], e) ensures e in db && e.version <= high' {
      assert files'[m] == if m == n then file else files[m];
    }
  }

  lemma CompletedKeepsFiles(k: Formats, s: State, a: Attempt)
    requires Lawful(k) && FilesWithin(k, s.disk.files, s.db, s.high)
    requires Allowed(s, Execute(a)) && Completes(k, s.disk, a)
    ensures var s' := Next(k, s, Execute(a)); FilesWithin(k, s'.disk.files, s'.db, s'.high)
  {
    CompletedFile(k, s.disk, a);
    var s' := Next(k, s, Execute(a));
    PutKeepsWithin(k, s.disk.files, NameOf(s.disk, a), s'.disk.files[NameOf(s.disk, a)], s.db, s.high, s'.high);
  }

  lemma TornKeepsSaved(k: Formats, s: State, a: Attempt)
    requires SavedInv(k, s) && !Completes(k, s.disk, a)
    ensures SavedInv(k, Next(k, s, Execute(a)))
  {
    var s' := Next(k, s, Execute(a));
    forall e | e in s'.db && e.version <= Since(s'.disk.info) && !s'.disk.info.Unreadable?
      ensures CoveredUpTo(k, s'.disk.files, Version(s'.disk.info), e)
    {
      OlderFilesStay(k, s.disk, a, e);
    }
  }

  lemma TornKeepsInv(k: Formats, s: State, a: Attempt)
    requires Lawful(k) && Inv(k, s) && HasChanges(k, s.disk, a) && a.written.Some? && !Completes(k, s.disk, a)
    ensures Inv(k, Next(k, s, Execute(a)))
    ensures !AllLoad(k, Next(k, s, Execute(a)).disk.files)
  {
    TornFile(k, s.disk, a);
    TornKeepsSaved(k, s, a);
    PutKeepsWithin(k, s.disk.files, NameOf(s.disk, a), TornBytes(k, s.disk, a), s.db, s.high, s.high);
    assert NameOf(s.disk, a) in Next(k, s, Execute(a)).disk.files;
  }

  lemma CompletedKeepsLog(k: Formats, s: State, a: Attempt)
    requires Lawful(k) && LogInv(s) && Allowed(s, Execute(a)) && Completes(k, s.disk, a)
    ensures LogInv(Next(k, s, Execute(a)))
  {
    WatermarkAdvances(k, s, a);
    var s' := Next(k, s, Execute(a));
    assert Since(s'.disk.info) <= s'.high <= s'.clock && s'.db == s.db;
  }

  lemma CompletedKeepsInv(k: Formats, s: State, a: Attempt)
    requires Lawful(k) && Inv(k, s) && Allowed(s, Execute(a)) && Completes(k, s.disk, a)
    ensures Inv(k, Next(k, s, Execute(a)))
  {
    CompletedKeepsLog(k, s, a);
    CompletedKeepsSaved(k, s, a);
    CompletedKeepsHigh(k, s, a);
    CompletedKeepsFiles(k, s, a);
  }

  lemma StepKeepsInv(k: Formats, s: State, step: Step)
    requires Lawful(k) && Inv(k, s) && Allowed(s, step)
    ensures Inv(k, Next(k, s, step))
  {
    match step
    case Write(version, writes) => WriteKeepsInv(k, s, version, writes);
    case Execute(a) =>
      if Completes(k, s.disk, a) {
        CompletedKeepsInv(k, s, a);
      } else if HasChanges(k, s.disk, a) && a.written.Some? {
        TornKeepsInv(k, s, a);
      } else {
        assert Next(k, s, step) == s;
      }
  }

  lemma {:induction false} RunKeepsInv(k: Formats, steps: seq<Step>)
    requires Lawful(k) && AllowedRun(k, steps)
    ensures Inv(k, Run(k, steps))
  {
    if |steps| > 0 {
      RunKeepsInv(k, steps[..|steps| - 1]);
      StepKeepsInv(k, Run(k, steps[..|steps| - 1]), steps[|steps| - 1]);
    }
  }

  // ---- what a restore yields ----

  /** What reading a key finds: its newest entry. */
  ghost predicate IsNewest(entries: set<Entry>, e: Entry) {
    e in entries && forall e' | e' in entries && e'.key == e.key :: e'.version <= e.version
  }

  function UpTo(db: set<Entry>, version: nat): set<Entry> {
    set e | e in db && e.version <= version
  }

  // Which files load.

  predicate WritesTo(k: Formats, d: Disk, a: Attempt, n: FileName) {
    HasChanges(k, d, a) && a.written.Some? && NameOf(d, a) == n
  }

  /** The last attempt of the run that wrote the file wrote all of it. */
  predicate LastWriteComplete(k: Formats, steps: seq<Step>, n: FileName) {
    |steps| > 0 &&
    var init, step := steps[..|steps| - 1], steps[|steps| - 1];
    var d := Run(k, init).disk;
    if step.Execute? && WritesTo(k, d, step.attempt, n) then Completes(k, d, step.attempt)
    else LastWriteComplete(k, init, n)
  }

  predicate LastWritesComplete(k: Formats, steps: seq<Step>) {
    forall n | n in Run(k, steps).disk.files :: LastWriteComplete(k, steps, n)
  }

  lemma FileAfterAttempt(k: Formats, d: Disk, a: Attempt, n: FileName)
    requires Lawful(k) && n in AfterExecute(k, d, a).files
    ensures WritesTo(k, d, a, n) ==> (LoadFile(k, AfterExecute(k, d, a).files[n]).Ok? <==> Completes(k, d, a))
    ensures !WritesTo(k, d, a, n) ==> n in d.files && AfterExecute(k, d, a).files[n] == d.files[n]
  {
    if Completes(k, d, a) {
      CompletedFile(k, d, a);
    } else if WritesTo(k, d, a, n) {
      TornFile(k, d, a);
    }
  }

  /** A file of the directory loads exactly when the last attempt that wrote it completed. */
  lemma {:induction false} FileLoadsIff(k: Formats, steps: seq<Step>, n: FileName)
    requires Lawful(k) && n in Run(k, steps).disk.files
    ensures LoadFile(k, Run(k, steps).disk.files[n]).Ok? <==> LastWriteComplete(k, steps, n)
  {
    var init, step := steps[..|steps| - 1], steps[|steps| - 1];
    var d := Run(k, init).disk;
    if step.Execute? {
      FileAfterAttempt(k, d, step.attempt, n);
    }
    if step.Write? || !WritesTo(k, d, step.attempt, n) {
      FileLoadsIff(k, init, n);
    }
  }

  /** In every run a restore succeeds exactly when each file's last write was complete, and then
      it reads exactly like the database as of the highest watermark a completed backup returned,
      whatever became of the version file and of earlier attempts in the same second. */
  lemma RestoreIsSnapshot(k: Formats, steps: seq<Step>, e: Entry)
    requires Lawful(k) && AllowedRun(k, steps)
    ensures AllLoad(k, Run(k, steps).disk.files) <==> LastWritesComplete(k, steps)
    ensures LastWritesComplete(k, steps) ==>
              var s := Run(k, steps);
              IsNewest(Loaded(k, s.disk.files), e) <==> IsNewest(UpTo(s.db, s.high), e)
  {
    RestoreSucceedsIff(k, steps);
    if LastWritesComplete(k, steps) {
      LoadedIsSnapshot(k, steps, e);
    }
  }

  lemma RestoreSucceedsIff(k: Formats, steps: seq<Step>)
    requires Lawful(k)
    ensures AllLoad(k, Run(k, steps).disk.files) <==> LastWritesComplete(k, steps)
  {
    forall n | n in Run(k, steps).disk.files
      ensures LoadFile(k, Run(k, steps).disk.files[n]).Ok? <==> LastWriteComplete(k, steps, n)
    {
      FileLoadsIff(k, steps, n);
    }
  }

  lemma LoadedIsSnapshot(k: Formats, steps: seq<Step>, e: Entry)
    requires Lawful(k) && AllowedRun(k, steps) && AllLoad(k, Run(k, steps).disk.files)
    ensures var s := Run(k, steps);
            IsNewest(Loaded(k, s.disk.files), e) <==> IsNewest(UpTo(s.db, s.high), e)
  {
    var s := Run(k, steps);
    RunKeepsInv(k, steps);
    LoadedIsCofinal(k, s);
    SameNewest(Loaded(k, s.disk.files), UpTo(s.db, s.high), e);
  }

  /** No attempt of the run left a file half written. Version files may be lost or torn, and
      attempts of one second may overwrite each other. */
  predicate Untorn(k: Formats, steps: seq<Step>) {
    |steps| > 0 ==>
      var init, step := steps[..|steps| - 1], steps[|steps| - 1];
      && Untorn(k, init)
      && (step.Execute? && HasChanges(k, Run(k, init).disk, step.attempt) && step.attempt.written.Some? ==>
            Completes(k, Run(k, init).disk, step.attempt))
  }

  lemma {:induction false} UntornWritesComplete(k: Formats, steps: seq<Step>, n: FileName)
    requires Untorn(k, steps) && n in Run(k, steps).disk.files
    ensures LastWriteComplete(k, steps, n)
  {
    var init, step := steps[..|steps| - 1], steps[|steps| - 1];
    if step.Write? || !WritesTo(k, Run(k, init).disk, step.attempt, n) {
      assert n in Run(k, init).disk.files;
      UntornWritesComplete(k, init, n);
    }
  }

  /** Lost watermarks and same-second retries alone never cost a restore anything. */
  lemma UntornRunRestores(k: Formats, steps: seq<Step>, e: Entry)
    requires Lawful(k) && AllowedRun(k, steps) && Untorn(k, steps)
    ensures var s := Run(k, steps);
            && AllLoad(k, s.disk.files)
            && (IsNewest(Loaded(k, s.disk.files), e) <==> IsNewest(UpTo(s.db, s.high), e))
  {
    forall n | n in Run(k, steps).disk.files ensures LastWriteComplete(k, steps, n) {
      UntornWritesComplete(k, steps, n);
    }
    RestoreIsSnapshot(k, steps, e);
  }

  lemma LoadedIsCofinal(k: Formats, s: State)
    requires Inv(k, s) && AllLoad(k, s.disk.files)
    ensures Loaded(k, s.disk.files) <= UpTo(s.db, s.high)
    ensures forall e | e in UpTo(s.db, s.high) :: Covers(Loaded(k, s.disk.files), e)
  {
    forall e | e in UpTo(s.db, s.high) ensures Covers(Loaded(k, s.disk.files), e) {
      var n :| n in s.disk.files && CoveringFile(k, s.disk.files[n], e);
      var e' :| e' in LoadFile(k, s.disk.files[n]).value && e'.key == e.key && e'.version >= e.version;
      assert InFile(k, s.disk.files[n], e');
    }
  }

  lemma SameNewest(some: set<Entry>, all: set<Entry>, e: Entry)
    requires some <= all && (forall x | x in all :: Covers(some, x))
    requires forall x, y | x in all && y in all && x.key == y.key && x.version == y.version :: x == y
    ensures IsNewest(some, e) <==> IsNewest(all, e)
  {
    if IsNewest(some, e) {
      forall x | x in all && x.key == e.key ensures x.version <= e.version {
        assert Covers(some, x);
      }
    }
    if IsNewest(all, e) {
      assert Covers(some, e);
      var x :| x in some && x.key == e.key && x.version >= e.version;
      assert x == e;
    }
  }

  /** When `Execute` reports success nothing in the database is newer than the highest watermark. */
  lemma SuccessIsUpToDate(k: Formats, s: State, a: Attempt)
    requires Lawful(k) && Inv(k, s) && Allowed(s, Execute(a)) && !s.disk.info.Unreadable? && a.dump.Some?
    requires Completes(k, s.disk, a) || !HasChanges(k, s.disk, a)
    ensures var s' := Next(k, s, Execute(a)); UpTo(s'.db, s'.high) == s'.db
  {
    var s' := Next(k, s, Execute(a));
    forall e | e in s.db ensures e.version <= s'.high {
      if e.version > Since(s.disk.info) {
        NewerEntryIsDumped(k, s, a, e);
      }
    }
  }

  lemma NewerEntryIsDumped(k: Formats, s: State, a: Attempt, e: Entry)
    requires Lawful(k) && !s.disk.info.Unreadable? && a.dump.Some?
    requires IsDump(s.db, Since(s.disk.info), a.dump.value)
    requires e in s.db && e.version > Since(s.disk.info)
    ensures e.version <= a.dump.value.nextSince && HasChanges(k, s.disk, a)
  {
    var dump := a.dump.value;
    var e' :| e' in dump.entries && e'.key == e.key && e'.version >= e.version;
    assert k.readDump(k.printDump({})) == Some({});
    assert k.readDump(k.printDump(dump.entries)) == Some(dump.entries);
  }

  // ---- the version file ----

  /** The last step of the run is a completed backup whose version file was handled so. */
  predicate EndsSaving(k: Formats, steps: seq<Step>, save: SaveOutcome) {
    |steps| > 0 && steps[|steps| - 1].Execute? && steps[|steps| - 1].attempt.save == save
    && Completes(k, Run(k, steps[..|steps| - 1]).disk, steps[|steps| - 1].attempt)
  }

  /** How many completed backups saved their version file. */
  function Saves(k: Formats, steps: seq<Step>): nat {
    if |steps| == 0 then 0
    else Saves(k, steps[..|steps| - 1]) + if EndsSaving(k, steps, SaveDone) then 1 else 0
  }

  /** The watermark of the last of them. */
  function SavedWatermark(k: Formats, steps: seq<Step>): nat {
    if |steps| == 0 then 0
    else if EndsSaving(k, steps, SaveDone) then steps[|steps| - 1].attempt.dump.value.nextSince
    else SavedWatermark(k, steps[..|steps| - 1])
  }

  /** Some completed backup tore the version file. */
  predicate TornSave(k: Formats, steps: seq<Step>) {
    |steps| > 0 && (EndsSaving(k, steps, SaveTorn) || TornSave(k, steps[..|steps| - 1]))
  }

  /** In every run the version file is unreadable once a save tore it, and otherwise holds the
      number of saved backups and the watermark of the last of them, from which the next dump
      starts. */
  lemma {:induction false} VersionFileTells(k: Formats, steps: seq<Step>)
    ensures var info := Run(k, steps).disk.info;
            && (info.Unreadable? <==> TornSave(k, steps))
            && (info.Absent? <==> !TornSave(k, steps) && Saves(k, steps) == 0)
            && (info.Latest? ==> info == Latest(Saves(k, steps), SavedWatermark(k, steps)))
  {
    if |steps| > 0 {
      VersionFileTells(k, steps[..|steps| - 1]);
    }
  }

  // ---- torn files ----

  predicate Torn(k: Formats, s: State, n: FileName) {
    n in s.disk.files && LoadFile(k, s.disk.files[n]).Err?
  }

  /** A torn file that no attempt will write again: its counter has been passed, or the version
      file cannot be read any more. */
  predicate Stuck(k: Formats, s: State, n: FileName) {
    Torn(k, s, n) && (s.disk.info.Unreadable? || n.counter <= Version(s.disk.info))
  }

  lemma StuckStep(k: Formats, s: State, step: Step, n: FileName)
    requires Stuck(k, s, n)
    ensures Stuck(k, Next(k, s, step), n)
  {
    assert step.Execute? && !s.disk.info.Unreadable? ==> n != NameOf(s.disk, step.attempt);
  }

  /** Whatever follows, such a file stays, and every later restore fails. */
  lemma {:induction false} PassedTornFileStays(k: Formats, s: State, more: seq<Step>, n: FileName)
    requires Stuck(k, s, n)
    ensures Stuck(k, RunFrom(k, s, more), n) && !AllLoad(k, RunFrom(k, s, more).disk.files)
  {
    if |more| > 0 {
      PassedTornFileStays(k, s, more[..|more| - 1], n);
      StuckStep(k, RunFrom(k, s, more[..|more| - 1]), more[|more| - 1], n);
    }
  }

  lemma {:induction false} CountersBounded(k: Formats, steps: seq<Step>, n: FileName)
    requires n in Run(k, steps).disk.files && !Run(k, steps).disk.info.Unreadable?
    ensures n.counter <= Version(Run(k, steps).disk.info) + 1
  {
    var init, step := steps[..|steps| - 1], steps[|steps| - 1];
    if n in Run(k, init).disk.files {
      CountersBounded(k, init, n);
    }
  }

  /** Any other torn file is repaired by the next attempt that completes in its second. */
  lemma RetryRepairs(k: Formats, steps: seq<Step>, n: FileName, a: Attempt)
    requires Lawful(k) && Torn(k, Run(k, steps), n) && !Stuck(k, Run(k, steps), n)
    requires Completes(k, Run(k, steps).disk, a) && a.now == n.second
    ensures !Torn(k, Next(k, Run(k, steps), Execute(a)), n)
  {
    CountersBounded(k, steps, n);
    CompletedFile(k, Run(k, steps).disk, a);
    assert NameOf(Run(k, steps).disk, a) == n;
  }

  /** Once the version file is torn, no later run changes the directory or the watermark. */
  lemma {:induction false} UnreadableVersionStops(k: Formats, s: State, more: seq<Step>)
    requires s.disk.info.Unreadable?
    ensures RunFrom(k, s, more).disk == s.disk && RunFrom(k, s, more).high == s.high
  {
    if |more| > 0 {
      UnreadableVersionStops(k, s, more[..|more| - 1]);
    }
  }

  const FIRST := Entry("a", 1, Some("x"))

  /** An attempt to back up that entry of which `written` bytes reach the disk. */
  function AttemptAt(second: int, written: nat): Attempt {
    Attempt(second, Some(Dump({FIRST}, 1)), "", Some(written), SaveDone)
  }

  /** One commit, an attempt of which nothing reaches the disk, and a retry a second later. */
  function TornRun(k: Formats): seq<Step> {
    [Write(1, map["a" := Some("x")]), Execute(AttemptAt(0, 0)),
     Execute(AttemptAt(1, |FileBytes(k, {FIRST}, Meta("", 0, 1))|))]
  }

  /** A run that ends with a successful backup and a directory that can never be restored: the
      torn file of the first second is left behind and its counter is passed. */
  lemma TornFileLeftExample(k: Formats, more: seq<Step>)
    requires Lawful(k) && Fits(|k.printMeta(Meta("", 0, 1))|, 4)
    ensures AllowedRun(k, TornRun(k)) && Run(k, TornRun(k)).disk.info == Latest(1, 1)
    ensures Stuck(k, Run(k, TornRun(k)), FileName(0, 1))
    ensures !AllLoad(k, RunFrom(k, Run(k, TornRun(k)), more).disk.files)
  {
    TornRunEnds(k);
    Retry(k);
    PassedTornFileStays(k, Run(k, TornRun(k)), more, FileName(0, 1));
  }

  lemma TornRunEnds(k: Formats)
    requires Lawful(k) && Fits(|k.printMeta(Meta("", 0, 1))|, 4)
    ensures AllowedRun(k, TornRun(k))
    ensures Run(k, TornRun(k)) == Next(k, AfterTornAttempt(), TornRun(k)[2])
  {
    FirstCommit(k);
    TornAttempt(k);
    var n := |FileBytes(k, {FIRST}, Meta("", 0, 1))|;
    AttemptAllowed(AfterCommit(), 0, 0);
    AttemptAllowed(AfterTornAttempt(), 1, n);
    ThreeSteps(k, Write(1, map["a" := Some("x")]), Execute(AttemptAt(0, 0)), Execute(AttemptAt(1, n)),
               AfterCommit(), AfterTornAttempt());
  }

  lemma AttemptAllowed(s: State, second: int, written: nat)
    requires s.db == {FIRST} && Since(s.disk.info) == 0
    ensures Allowed(s, Execute(AttemptAt(second, written)))
  {}

  lemma ThreeSteps(k: Formats, a: Step, b: Step, c: Step, s1: State, s2: State)
    requires Next(k, Initial(), a) == s1 && Next(k, s1, b) == s2
    requires Allowed(Initial(), a) && Allowed(s1, b) && Allowed(s2, c)
    ensures AllowedRun(k, [a, b, c]) && Run(k, [a, b, c]) == Next(k, s2, c)
  {
    RunSnoc(k, [], a);
    RunSnoc(k, [a], b);
    RunSnoc(k, [a, b], c);
    assert [] + [a] == [a] && [a] + [b] == [a, b] && [a, b] + [c] == [a, b, c];
  }

  lemma RunSnoc(k: Formats, steps: seq<Step>, step: Step)
    ensures Run(k, steps + [step]) == Next(k, Run(k, steps), step)
    ensures AllowedRun(k, steps) && Allowed(Run(k, steps), step) ==> AllowedRun(k, steps + [step])
  {
    assert (steps + [step])[..|steps|] == steps;
  }

  function AfterCommit(): State {
    State({FIRST}, 1, Disk(map[], Absent), 0)
  }

  function AfterTornAttempt(): State {
    AfterCommit().(disk := Disk(map[FileName(0, 1) := ""], Absent))
  }

  lemma FirstCommit(k: Formats)
    ensures Next(k, Initial(), Write(1, map["a" := Some("x")])) == AfterCommit()
  {
    var writes := map["a" := Some("x")];
    assert "a" in writes && Entry("a", 1, writes["a"]) == FIRST;
    assert Commit(1, writes) == {FIRST};
  }

  lemma HasFirst(k: Formats, d: Disk, second: int, written: nat)
    requires Lawful(k) && d.info == Absent
    ensures HasChanges(k, d, AttemptAt(second, written))
  {
    assert k.readDump(k.printDump({FIRST})) == Some({FIRST}) && k.readDump(k.printDump({})) == Some({});
  }

  lemma TornAttempt(k: Formats)
    requires Lawful(k) && Fits(|k.printMeta(Meta("", 0, 1))|, 4)
    ensures Next(k, AfterCommit(), Execute(AttemptAt(0, 0))) == AfterTornAttempt()
  {
    HasFirst(k, Disk(map[], Absent), 0, 0);
  }

  lemma Retry(k: Formats)
    requires Lawful(k) && Fits(|k.printMeta(Meta("", 0, 1))|, 4)
    ensures var s := Next(k, AfterTornAttempt(), Execute(AttemptAt(1, |FileBytes(k, {FIRST}, Meta("", 0, 1))|)));
            s.disk.info == Latest(1, 1) && Stuck(k, s, FileName(0, 1))
  {
    HasFirst(k, AfterTornAttempt().disk, 1, |FileBytes(k, {FIRST}, Meta("", 0, 1))|);
  }
}
