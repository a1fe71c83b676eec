/** The driver: the registry of datasets, `_is_installed`, `_save_as_tfrecord` and `main`,
    over a file store that maps the paths written so far to their contents. The data
    directory (`core.DATA_DIR`) is a parameter. */
module Driver {
  import opened Wrappers
  import opened Bytes
  import opened Datasets
  import opened Records
  import opened Paths
  import Loaders
  import Layout

  /** What a file in the store holds. */
  datatype Content = TextFile(text: string) | BinaryFile(data: seq<byte>) | RecordFile(records: seq<Record>)

  /** The progress lines of `main` that say what it did with a registry entry. */
  datatype Event = Skipped(name: string) | Preparing(name: string)

  /** A custom saver: given a split's data and `<name>-<split>`, the files it writes. */
  type Saver = (Payload, string) -> Result<seq<(Path, Content)>>

  /** A registry entry: the name, the loader (with whatever it reads bound in), the split
      names of its `checksums` in order, and the optional `is_installed` and `saver`. */
  datatype Config = Config(name: string, load: () -> Result<seq<Split>>, checksums: seq<string>,
                           isInstalled: Option<set<Path> -> bool>, saver: Option<Saver>)

  /** The files written so far and the directories created. */
  datatype Store = Store(files: map<Path, Content>, dirs: set<Path>)

  function Existing(st: Store): set<Path> {
    st.files.Keys + st.dirs
  }

  /** `<dataDir>/<name>-<split>.tfrecord` */
  function RecordPath(dataDir: Path, name: string, split: string): Path {
    Join(dataDir, name + "-" + split + ".tfrecord")
  }

  /** What `_is_installed(name, checksums)` decides: every split has its record file. */
  predicate Installed(existing: set<Path>, dataDir: Path, name: string, checksums: seq<string>) {
    forall k | 0 <= k < |checksums| :: RecordPath(dataDir, name, checksums[k]) in existing
  }

  /** The entry's own `is_installed` when it has one, `_is_installed` otherwise. */
  predicate InstalledBy(cfg: Config, existing: set<Path>, dataDir: Path) {
    if cfg.isInstalled.Some? then cfg.isInstalled.value(existing)
    else Installed(existing, dataDir, cfg.name, cfg.checksums)
  }

  /** The file `_save_as_tfrecord(data, filename)` writes: one record per image, in index
      order. Unequal lengths fail its assertion; data without images cannot be indexed. */
  function TfRecordWrite(dataDir: Path, data: Payload, filename: string): (r: Result<(Path, Content)>)
    ensures r.Ok? <==> data.Images? && |data.images| == |data.labels|
    ensures data.Images? && |data.images| != |data.labels| ==> r == Err(LengthMismatch)
    ensures r.Ok? ==> (r.value.0 == Join(dataDir, filename + ".tfrecord") && r.value.1.RecordFile? &&
      |r.value.1.records| == |data.images| &&
      forall x | 0 <= x < |data.images| :: r.value.1.records[x] == Record(data.images[x], data.labels[x]))
  {
    if !data.Images? then Err(WrongPayload(filename))
    else if |data.images| != |data.labels| then Err(LengthMismatch)
    else Ok((Join(dataDir, filename + ".tfrecord"), RecordFile(Zip(data.images, data.labels))))
  }

  /** The three-way dispatch of `main` on a split's name: `readme` is written as
      `<name>-readme.txt`, `files` as raw files under their own names, and every other split
      goes to the saver under `<name>-<split>`. */
  function SplitWrites(dataDir: Path, cfg: Config, split: Split): (r: Result<seq<(Path, Content)>>)
    ensures split.name == "readme" ==>
      (r.Ok? <==> split.data.Text?) &&
      (r.Ok? ==> r.value == [(Join(dataDir, cfg.name + "-" + "readme" + ".txt"), TextFile(split.data.text))])
    ensures split.name == "files" ==>
      (r.Ok? <==> split.data.Files?) &&
      (r.Ok? ==> (|r.value| == |split.data.files| &&
        forall k | 0 <= k < |r.value| ::
          r.value[k] == (Join(dataDir, split.data.files[k].filename), BinaryFile(split.data.files[k].data))))
    ensures split.name != "readme" && split.name != "files" && cfg.saver.Some? ==>
      r == cfg.saver.value(split.data, cfg.name + "-" + split.name)
    ensures split.name != "readme" && split.name != "files" && cfg.saver.None? ==>
      (r.Ok? <==> TfRecordWrite(dataDir, split.data, cfg.name + "-" + split.name).Ok?) &&
      (r.Ok? ==> (r.value == [TfRecordWrite(dataDir, split.data, cfg.name + "-" + split.name).value] &&
        r.value[0].0 == RecordPath(dataDir, cfg.name, split.name)))
  {
    if split.name == "readme" then
      if split.data.Text? then Ok([(Join(dataDir, cfg.name + "-" + "readme" + ".txt"), TextFile(split.data.text))])
      else Err(WrongPayload(split.name))
    else if split.name == "files" then
      if split.data.Files? then
        var fs := split.data.files;
        Ok(seq(|fs|, k requires 0 <= k < |fs| => (Join(dataDir, fs[k].filename), BinaryFile(fs[k].data))))
      else Err(WrongPayload(split.name))
    else if cfg.saver.Some? then cfg.saver.value(split.data, cfg.name + "-" + split.name)
    else
      match TfRecordWrite(dataDir, split.data, cfg.name + "-" + split.name)
      case Err(e) => Err(e)
      case Ok(w) => Ok([w])
  }

  /** No write from position `from` on goes to path p. */
  predicate Untouched(writes: seq<(Path, Content)>, from: nat, p: Path) {
    forall k | from <= k < |writes| :: writes[k].0 != p
  }

  /** Writes applied in order; a later write to the same path replaces an earlier one. */
  function ApplyWrites(files: map<Path, Content>, writes: seq<(Path, Content)>): (r: map<Path, Content>)
    ensures files.Keys <= r.Keys
    ensures forall k | 0 <= k < |writes| :: writes[k].0 in r
    ensures forall p | p in r && p !in files :: exists k | 0 <= k < |writes| :: writes[k].0 == p
    ensures forall p | p in files && Untouched(writes, 0, p) :: r[p] == files[p]
    ensures forall k | 0 <= k < |writes| && Untouched(writes, k + 1, writes[k].0) :: r[writes[k].0] == writes[k].1
    decreases |writes|
  {
    if |writes| == 0 then files
    else
      var rest := writes[1..];
      var r := ApplyWrites(files[writes[0].0 := writes[0].1], rest);
      assert forall k | 1 <= k < |writes| :: writes[k] == rest[k - 1];
      assert forall p, from: nat | 1 <= from && Untouched(writes, from, p) :: Untouched(rest, from - 1, p);
      r
  }

  /** The index of the first split whose writes cannot be made (|splits| when there is
      none): the split at which `main`'s saving loop raises. */
  function FirstFailure(dataDir: Path, cfg: Config, splits: seq<Split>): (k: nat)
    ensures k <= |splits|
    ensures forall j | 0 <= j < k :: SplitWrites(dataDir, cfg, splits[j]).Ok?
    ensures k < |splits| ==> SplitWrites(dataDir, cfg, splits[k]).Err?
    ensures k == |splits| <==> forall j | 0 <= j < |splits| :: SplitWrites(dataDir, cfg, splits[j]).Ok?
  {
    if |splits| == 0 then 0
    else if SplitWrites(dataDir, cfg, splits[0]).Err? then 0
    else 1 + FirstFailure(dataDir, cfg, splits[1..])
  }

  /** The splits of one loader saved in order, stopping at the first that fails: a failure
      carries the first failing split's error, and the files are those the splits before it
      wrote. */
  function SaveSplits(files: map<Path, Content>, dataDir: Path, cfg: Config, splits: seq<Split>):
    (r: (map<Path, Content>, Option<Error>))
    ensures files.Keys <= r.0.Keys
    ensures r.1.None? <==> FirstFailure(dataDir, cfg, splits) == |splits|
    ensures var k := FirstFailure(dataDir, cfg, splits);
      k < |splits| ==>
        r.1 == Some(SplitWrites(dataDir, cfg, splits[k]).error) &&
        r.0 == SaveSplits(files, dataDir, cfg, splits[..k]).0
    decreases |splits|
  {
    if |splits| == 0 then (files, None)
    else
      match SplitWrites(dataDir, cfg, splits[0])
      case Err(e) =>
        assert splits[..0] == [];
        (files, Some(e))
      case Ok(writes) =>
        var rest := splits[1..];
        var next := ApplyWrites(files, writes);
        var r := SaveSplits(next, dataDir, cfg, rest);
        assert forall j | 1 <= j < |splits| :: splits[j] == rest[j - 1];
        var k := FirstFailure(dataDir, cfg, rest);
        assert FirstFailure(dataDir, cfg, splits) == k + 1;
        if k < |rest| then
          var prefix := splits[..k + 1];
          assert prefix[0] == splits[0] && prefix[1..] == rest[..k];
          assert SaveSplits(files, dataDir, cfg, prefix).0 == r.0;
          assert splits[k + 1] == rest[k];
          r
        else
          r
  }

  /** The state of a run: the store, the progress lines so far, and the exception that ended
      it, if any. */
  datatype Outcome = Outcome(store: Store, events: seq<Event>, failure: Option<Error>)

  /** One iteration of `main`'s loop over the registry. */
  function Step(o: Outcome, dataDir: Path, cfg: Config, subset: set<string>): (r: Outcome)
    ensures cfg.name !in subset ==> r == o
    ensures cfg.name in subset && InstalledBy(cfg, Existing(o.store), dataDir) ==>
      r == o.(events := o.events + [Skipped(cfg.name)])
    ensures cfg.name in subset && !InstalledBy(cfg, Existing(o.store), dataDir) ==>
      r.events == o.events + [Preparing(cfg.name)] && r.store.dirs == o.store.dirs
    ensures cfg.name in subset && !InstalledBy(cfg, Existing(o.store), dataDir) && cfg.load().Err? ==>
      r.store == o.store && r.failure == Some(cfg.load().error)
    ensures cfg.name in subset && !InstalledBy(cfg, Existing(o.store), dataDir) && cfg.load().Ok? ==>
      (r.store.files, r.failure) == SaveSplits(o.store.files, dataDir, cfg, cfg.load().value)
  {
    if cfg.name !in subset then o
    else if InstalledBy(cfg, Existing(o.store), dataDir) then o.(events := o.events + [Skipped(cfg.name)])
    else
      var o1 := o.(events := o.events + [Preparing(cfg.name)]);
      match cfg.load()
      case Err(e) => o1.(failure := Some(e))
      case Ok(splits) =>
        var (files, failure) := SaveSplits(o.store.files, dataDir, cfg, splits);
        o1.(store := o.store.(files := files), failure := failure)
  }

  /** The registry entries processed in order; an exception ends the run. A run creates no
      directory beyond the data directory. */
  function RunConfigs(o: Outcome, dataDir: Path, reg: seq<Config>, subset: set<string>): (r: Outcome)
    ensures r.store.dirs == o.store.dirs
    ensures o.failure.Some? ==> r == o
    decreases |reg|
  {
    if |reg| == 0 || o.failure.Some? then o
    else RunConfigs(Step(o, dataDir, reg[0], subset), dataDir, reg[1..], subset)
  }

  function RegistryNames(reg: seq<Config>): set<string> {
    set k | 0 <= k < |reg| :: reg[k].name
  }

  /** The names asked for: the arguments after the program name, or every registry entry
      when there are none. */
  function Requested(argv: seq<string>, reg: seq<Config>): (r: set<string>)
    ensures |argv| <= 1 ==> r == RegistryNames(reg)
    ensures |argv| > 1 ==> forall a :: a in r <==> a in argv[1..]
  {
    if |argv| > 1 then set k | 1 <= k < |argv| :: argv[k] else RegistryNames(reg)
  }

  /** `main(argv)`: create the data directory, then run the registry on the requested names. */
  function MainSpec(st: Store, argv: seq<string>, dataDir: Path, reg: seq<Config>): (r: Outcome)
    ensures r.store.dirs == st.dirs + {dataDir}
  {
    RunConfigs(Outcome(Store(st.files, st.dirs + {dataDir}), [], None), dataDir, reg, Requested(argv, reg))
  }

  // What a run does

  /** The dataset named by each progress line, in order. */
  function Visited(events: seq<Event>): (r: seq<string>)
    ensures |r| == |events|
    ensures forall k | 0 <= k < |events| :: r[k] == events[k].name
  {
    seq(|events|, k requires 0 <= k < |events| => events[k].name)
  }

  /** The requested registry entries, in registry order. */
  function RequestedInOrder(reg: seq<Config>, subset: set<string>): (r: seq<string>)
    ensures forall k | 0 <= k < |r| :: r[k] in subset && r[k] in RegistryNames(reg)
  {
    if |reg| == 0 then []
    else
      var rest := RequestedInOrder(reg[1..], subset);
      assert forall k | 0 <= k < |rest| :: rest[k] in RegistryNames(reg) by {
        forall k | 0 <= k < |rest| ensures rest[k] in RegistryNames(reg) {
          var j :| 0 <= j < |reg[1..]| && reg[1..][j].name == rest[k];
          assert reg[j + 1].name == rest[k];
        }
      }
      if reg[0].name in subset then [reg[0].name] + rest else rest
  }

  /** `main` visits the requested entries in registry order, each once: the progress lines
      name a prefix of them, and all of them when no exception ends the run. */
  lemma {:induction false} RunVisitsInOrder(o: Outcome, dataDir: Path, reg: seq<Config>, subset: set<string>)
    requires o.failure.None?
    ensures var r := RunConfigs(o, dataDir, reg, subset);
      |o.events| <= |r.events| && r.events[..|o.events|] == o.events &&
      Visited(r.events[|o.events|..]) <= RequestedInOrder(reg, subset) &&
      (r.failure.None? ==> Visited(r.events[|o.events|..]) == RequestedInOrder(reg, subset))
    decreases |reg|
  {
    if |reg| > 0 {
      var o1 := Step(o, dataDir, reg[0], subset);
      var r := RunConfigs(o, dataDir, reg, subset);
      assert r == RunConfigs(o1, dataDir, reg[1..], subset);
      var added := if reg[0].name in subset then [reg[0].name] else [];
      assert |o1.events| == |o.events| + |added|;
      assert o1.events[..|o.events|] == o.events;
      assert Visited(o1.events[|o.events|..]) == added;
      if o1.failure.None? {
        RunVisitsInOrder(o1, dataDir, reg[1..], subset);
        assert r.events[..|o1.events|] == o1.events;
        assert r.events[|o.events|..] == o1.events[|o.events|..] + r.events[|o1.events|..];
        assert Visited(r.events[|o.events|..]) == added + Visited(r.events[|o1.events|..]);
      } else {
        assert r == o1;
      }
    }
  }

  /** Only requested names that are in the registry are ever skipped or prepared. */
  lemma OnlyRequestedProcessed(st: Store, argv: seq<string>, dataDir: Path, reg: seq<Config>, k: nat)
    requires k < |MainSpec(st, argv, dataDir, reg).events|
    ensures var name := MainSpec(st, argv, dataDir, reg).events[k].name;
      name in Requested(argv, reg) && name in RegistryNames(reg)
  {
    var o := Outcome(Store(st.files, st.dirs + {dataDir}), [], None);
    RunVisitsInOrder(o, dataDir, reg, Requested(argv, reg));
    var r := MainSpec(st, argv, dataDir, reg);
    assert r.events[|o.events|..] == r.events;
    assert Visited(r.events)[k] == RequestedInOrder(reg, Requested(argv, reg))[k];
  }

  /** A run never removes a file or a directory. */
  lemma {:induction false} RunKeepsFiles(o: Outcome, dataDir: Path, reg: seq<Config>, subset: set<string>)
    ensures Existing(o.store) <= Existing(RunConfigs(o, dataDir, reg, subset).store)
    decreases |reg|
  {
    if |reg| > 0 && o.failure.None? {
      RunKeepsFiles(Step(o, dataDir, reg[0], subset), dataDir, reg[1..], subset);
    }
  }

  /** Splits none of whose writes goes to p leave p's content as it was. */
  lemma {:induction false} SaveSplitsKeeps(files: map<Path, Content>, dataDir: Path, cfg: Config, splits: seq<Split>, p: Path)
    requires p in files
    requires forall j | 0 <= j < |splits| ::
      SplitWrites(dataDir, cfg, splits[j]).Ok? ==> Untouched(SplitWrites(dataDir, cfg, splits[j]).value, 0, p)
    ensures p in SaveSplits(files, dataDir, cfg, splits).0
    ensures SaveSplits(files, dataDir, cfg, splits).0[p] == files[p]
    decreases |splits|
  {
    if |splits| > 0 && SplitWrites(dataDir, cfg, splits[0]).Ok? {
      var writes := SplitWrites(dataDir, cfg, splits[0]).value;
      assert Untouched(writes, 0, p);
      assert forall j | 0 <= j < |splits[1..]| :: splits[1..][j] == splits[j + 1];
      SaveSplitsKeeps(ApplyWrites(files, writes), dataDir, cfg, splits[1..], p);
    }
  }

  /** Saving the splits without a custom saver and without a failure leaves, at the record
      path of a split other than `readme` and `files`, exactly the records `_save_as_tfrecord`
      builds for it, unless a later split writes that path again. */
  lemma {:induction false} SaveSplitsRecordContent(files: map<Path, Content>, dataDir: Path, cfg: Config, splits: seq<Split>, j: nat)
    requires cfg.saver.None?
    requires SaveSplits(files, dataDir, cfg, splits).1.None?
    requires j < |splits| && splits[j].name != "readme" && splits[j].name != "files"
    requires forall j' | j < j' < |splits| :: SplitWrites(dataDir, cfg, splits[j']).Ok? ==>
      Untouched(SplitWrites(dataDir, cfg, splits[j']).value, 0, RecordPath(dataDir, cfg.name, splits[j].name))
    ensures TfRecordWrite(dataDir, splits[j].data, cfg.name + "-" + splits[j].name).Ok?
    ensures RecordPath(dataDir, cfg.name, splits[j].name) in SaveSplits(files, dataDir, cfg, splits).0
    ensures SaveSplits(files, dataDir, cfg, splits).0[RecordPath(dataDir, cfg.name, splits[j].name)] ==
      TfRecordWrite(dataDir, splits[j].data, cfg.name + "-" + splits[j].name).value.1
    decreases j
  {
    var writes := SplitWrites(dataDir, cfg, splits[0]).value;
    var next := ApplyWrites(files, writes);
    assert forall j' | 0 <= j' < |splits[1..]| :: splits[1..][j'] == splits[j' + 1];
    if j == 0 {
      var path := RecordPath(dataDir, cfg.name, splits[0].name);
      assert writes[0].0 == path && |writes| == 1;
      assert next[path] == writes[0].1;
      SaveSplitsKeeps(next, dataDir, cfg, splits[1..], path);
    } else {
      SaveSplitsRecordContent(next, dataDir, cfg, splits[1..], j - 1);
    }
  }

  /** Saving every split without a custom saver leaves a record file for each split that is
      neither `readme` nor `files`. */
  lemma {:induction false} SaveSplitsRecords(files: map<Path, Content>, dataDir: Path, cfg: Config, splits: seq<Split>, j: nat)
    requires cfg.saver.None?
    requires SaveSplits(files, dataDir, cfg, splits).1.None?
    requires j < |splits| && splits[j].name != "readme" && splits[j].name != "files"
    ensures RecordPath(dataDir, cfg.name, splits[j].name) in SaveSplits(files, dataDir, cfg, splits).0
    decreases j
  {
    var writes := SplitWrites(dataDir, cfg, splits[0]).value;
    if j == 0 {
      assert writes[0].0 == RecordPath(dataDir, cfg.name, splits[0].name);
      assert writes[0].0 in ApplyWrites(files, writes);
    } else {
      SaveSplitsRecords(ApplyWrites(files, writes), dataDir, cfg, splits[1..], j - 1);
    }
  }

  /** An entry that uses the default installed check and saver, and whose loader returns a
      split (other than `readme` and `files`) for each of its checksum names. */
  predicate CoversChecksums(cfg: Config) {
    cfg.isInstalled.None? && cfg.saver.None? &&
    (cfg.load().Ok? ==>
      forall k | 0 <= k < |cfg.checksums| ::
        cfg.checksums[k] != "readme" && cfg.checksums[k] != "files" && cfg.checksums[k] in Names(cfg.load().value))
  }

  /** After a run that ends without an exception, every requested entry that covers its
      checksums is installed. */
  lemma {:induction false} RunInstalls(o: Outcome, dataDir: Path, reg: seq<Config>, subset: set<string>, i: nat)
    requires o.failure.None? && RunConfigs(o, dataDir, reg, subset).failure.None?
    requires i < |reg| && reg[i].name in subset && CoversChecksums(reg[i])
    ensures InstalledBy(reg[i], Existing(RunConfigs(o, dataDir, reg, subset).store), dataDir)
    decreases i
  {
    var o1 := Step(o, dataDir, reg[0], subset);
    var r := RunConfigs(o, dataDir, reg, subset);
    assert r == RunConfigs(o1, dataDir, reg[1..], subset);
    if i > 0 {
      RunInstalls(o1, dataDir, reg[1..], subset, i - 1);
    } else {
      StepInstalls(o, dataDir, reg[0], subset);
      RunKeepsFiles(o1, dataDir, reg[1..], subset);
    }
  }

  lemma StepInstalls(o: Outcome, dataDir: Path, cfg: Config, subset: set<string>)
    requires cfg.name in subset && CoversChecksums(cfg)
    requires Step(o, dataDir, cfg, subset).failure.None?
    ensures Installed(Existing(Step(o, dataDir, cfg, subset).store), dataDir, cfg.name, cfg.checksums)
  {
    if !InstalledBy(cfg, Existing(o.store), dataDir) {
      var splits := cfg.load().value;
      var files := SaveSplits(o.store.files, dataDir, cfg, splits).0;
      forall k | 0 <= k < |cfg.checksums|
        ensures RecordPath(dataDir, cfg.name, cfg.checksums[k]) in files
      {
        var j :| 0 <= j < |splits| && Names(splits)[j] == cfg.checksums[k];
        SaveSplitsRecords(o.store.files, dataDir, cfg, splits, j);
      }
    }
  }

  /** With only installed entries requested, a run skips every one of them and writes
      nothing. */
  lemma {:induction false} RunSkipsInstalled(o: Outcome, dataDir: Path, reg: seq<Config>, subset: set<string>)
    requires o.failure.None?
    requires forall i | 0 <= i < |reg| && reg[i].name in subset :: InstalledBy(reg[i], Existing(o.store), dataDir)
    ensures var r := RunConfigs(o, dataDir, reg, subset);
      r.store == o.store && r.failure.None? &&
      |o.events| <= |r.events| && r.events[..|o.events|] == o.events &&
      forall k | |o.events| <= k < |r.events| :: r.events[k].Skipped?
    decreases |reg|
  {
    if |reg| > 0 {
      var o1 := Step(o, dataDir, reg[0], subset);
      assert o1.store == o.store && o1.failure.None?;
      assert o1.events[..|o.events|] == o.events;
      assert forall k | |o.events| <= k < |o1.events| :: o1.events[k].Skipped?;
      assert forall i | 0 <= i < |reg[1..]| && reg[1..][i].name in subset ::
        InstalledBy(reg[1..][i], Existing(o1.store), dataDir) by {
        forall i | 0 <= i < |reg[1..]| && reg[1..][i].name in subset
          ensures InstalledBy(reg[1..][i], Existing(o1.store), dataDir) {
          assert reg[1..][i] == reg[i + 1];
        }
      }
      RunSkipsInstalled(o1, dataDir, reg[1..], subset);
    }
  }

  /** Running the script a second time with the same arguments, after a first run that ended
      without an exception, prepares nothing: every requested entry is skipped as installed. */
  lemma SecondRunSkipsAll(st: Store, argv: seq<string>, dataDir: Path, reg: seq<Config>)
    requires forall i | 0 <= i < |reg| :: CoversChecksums(reg[i])
    requires MainSpec(st, argv, dataDir, reg).failure.None?
    ensures var first := MainSpec(st, argv, dataDir, reg);
      var second := MainSpec(first.store, argv, dataDir, reg);
      second.failure.None? && second.store == first.store &&
      forall k | 0 <= k < |second.events| :: second.events[k].Skipped?
  {
    var subset := Requested(argv, reg);
    var first := MainSpec(st, argv, dataDir, reg);
    var o := Outcome(Store(st.files, st.dirs + {dataDir}), [], None);
    RunKeepsFiles(o, dataDir, reg, subset);
    var o2 := Outcome(Store(first.store.files, first.store.dirs + {dataDir}), [], None);
    assert Existing(o2.store) == Existing(first.store);
    forall i | 0 <= i < |reg| && reg[i].name in subset
      ensures InstalledBy(reg[i], Existing(o2.store), dataDir)
    {
      RunInstalls(o, dataDir, reg, subset, i);
    }
    RunSkipsInstalled(o2, dataDir, reg, subset);
    assert o2.store == first.store;
  }

  // The file store and the imperative driver

  class FileStore {
    var files: map<Path, Content>
    var dirs: set<Path>

    constructor(files: map<Path, Content>, dirs: set<Path>)
      ensures this.files == files && this.dirs == dirs
    {
      this.files := files;
      this.dirs := dirs;
    }

    function Snapshot(): Store
      reads this
    {
      Store(files, dirs)
    }

    /** `tf.io.gfile.exists(path)` */
    predicate Exists(path: Path)
      reads this
    {
      path in files || path in dirs
    }

    /** `_is_installed(name, checksums)`: false at the first split without its record file. */
    method IsInstalled(dataDir: Path, name: string, checksums: seq<string>) returns (installed: bool)
      ensures installed == Installed(Existing(Snapshot()), dataDir, name, checksums)
    {
      for k := 0 to |checksums|
        invariant forall j | 0 <= j < k :: RecordPath(dataDir, name, checksums[j]) in Existing(Snapshot())
      {
        var filename := Join(dataDir, name + "-" + checksums[k] + ".tfrecord");
        if !Exists(filename) {
          return false;
        }
      }
      return true;
    }

    /** `f.write(contents)` on a file opened for writing: the file now holds exactly that. */
    method WriteFile(path: Path, content: Content)
      modifies this
      ensures files == old(files)[path := content] && dirs == old(dirs)
    {
      files := files[path := content];
    }

    /** Writes applied one after another. */
    method WriteAll(writes: seq<(Path, Content)>)
      modifies this
      ensures files == ApplyWrites(old(files), writes) && dirs == old(dirs)
    {
      for j := 0 to |writes|
        invariant ApplyWrites(old(files), writes) == ApplyWrites(files, writes[j..])
        invariant dirs == old(dirs)
      {
        assert writes[j..][1..] == writes[j + 1..];
        WriteFile(writes[j].0, writes[j].1);
      }
    }

    /** `_save_as_tfrecord(data, filename)`: checks the lengths, then appends one record per
        image, in index order, to a new record file. */
    method SaveAsTfRecord(dataDir: Path, data: Payload, filename: string) returns (failure: Option<Error>)
      modifies this
      ensures TfRecordWrite(dataDir, data, filename).Err? ==>
        failure == Some(TfRecordWrite(dataDir, data, filename).error) && files == old(files)
      ensures TfRecordWrite(dataDir, data, filename).Ok? ==> (failure.None? &&
        files == old(files)[TfRecordWrite(dataDir, data, filename).value.0 := TfRecordWrite(dataDir, data, filename).value.1])
      ensures dirs == old(dirs)
    {
      if !data.Images? {
        return Some(WrongPayload(filename));
      }
      if |data.images| != |data.labels| {
        return Some(LengthMismatch);
      }
      var path := Join(dataDir, filename + ".tfrecord");
      var writer := new RecordWriter();
      for x := 0 to |data.images|
        invariant writer.records == Zip(data.images[..x], data.labels[..x])
        invariant files == old(files) && dirs == old(dirs)
      {
        ZipPrefix(data.images, data.labels, x);
        writer.Write(Record(data.images[x], data.labels[x]));
      }
      assert data.images[..|data.images|] == data.images && data.labels[..|data.labels|] == data.labels;
      WriteFile(path, RecordFile(writer.records));
      return None;
    }

    /** The inner loop of `main` over the splits a loader returned. */
    method SaveAll(dataDir: Path, cfg: Config, splits: seq<Split>) returns (failure: Option<Error>)
      modifies this
      ensures (files, failure) == SaveSplits(old(files), dataDir, cfg, splits)
      ensures dirs == old(dirs)
    {
      for k := 0 to |splits|
        invariant SaveSplits(old(files), dataDir, cfg, splits) == SaveSplits(files, dataDir, cfg, splits[k..])
        invariant dirs == old(dirs)
      {
        assert splits[k..][1..] == splits[k + 1..];
        ghost var before := files;
        var subName, data := splits[k].name, splits[k].data;
        if subName == "readme" {
          if !data.Text? {
            return Some(WrongPayload(subName));
          }
          var filename := Join(dataDir, cfg.name + "-" + subName + ".txt");
          WriteFile(filename, TextFile(data.text));
          assert files == ApplyWrites(before, SplitWrites(dataDir, cfg, splits[k]).value);
        } else if subName == "files" {
          if !data.Files? {
            return Some(WrongPayload(subName));
          }
          WriteAll(SplitWrites(dataDir, cfg, splits[k]).value);
        } else if cfg.saver.Some? {
          var writes := cfg.saver.value(data, cfg.name + "-" + subName);
          if writes.Err? {
            return Some(writes.error);
          }
          WriteAll(writes.value);
        } else {
          failure := SaveAsTfRecord(dataDir, data, cfg.name + "-" + subName);
          if failure.Some? {
            return;
          }
          assert files == ApplyWrites(before, SplitWrites(dataDir, cfg, splits[k]).value);
        }
      }
      return None;
    }

    /** `main(argv)` over the registry `reg`: the progress lines it prints about entries and
        the exception that ended it, if any. */
    method Run(argv: seq<string>, dataDir: Path, reg: seq<Config>) returns (events: seq<Event>, failure: Option<Error>)
      modifies this
      ensures Outcome(Snapshot(), events, failure) == MainSpec(old(Snapshot()), argv, dataDir, reg)
    {
      var subset := if |argv| > 1 then set k | 1 <= k < |argv| :: argv[k] else RegistryNames(reg);
      dirs := dirs + {dataDir};
      events, failure := [], None;
      for i := 0 to |reg|
        invariant failure.None?
        invariant RunConfigs(Outcome(Snapshot(), events, None), dataDir, reg[i..], subset) ==
          MainSpec(old(Snapshot()), argv, dataDir, reg)
      {
        assert reg[i..][1..] == reg[i + 1..];
        ghost var before := Outcome(Snapshot(), events, None);
        var cfg := reg[i];
        if cfg.name !in subset {
          continue;
        }
        var installed: bool;
        if cfg.isInstalled.Some? {
          installed := cfg.isInstalled.value(files.Keys + dirs);
        } else {
          installed := IsInstalled(dataDir, cfg.name, cfg.checksums);
        }
        if installed {
          events := events + [Skipped(cfg.name)];
          continue;
        }
        events := events + [Preparing(cfg.name)];
        var datas := cfg.load();
        if datas.Err? {
          failure := Some(datas.error);
          return;
        }
        failure := SaveAll(dataDir, cfg, datas.value);
        assert Outcome(Snapshot(), events, failure) == Step(before, dataDir, cfg, subset);
        if failure.Some? {
          return;
        }
      }
    }
  }

  // The active registry

  /** The one entry the registry enables: the retina folder dataset, with train and test
      checksums and the default installed check and saver. */
  function ActiveRegistry(root: Path, listing: map<Path, seq<string>>,
                          openResized: (Path, nat) -> Layout.Image, toPng: Layout.Image -> Blob): (reg: seq<Config>)
    ensures |reg| == 1 && reg[0].name == "voets" && reg[0].checksums == ["train", "test"]
    ensures CoversChecksums(reg[0])
  {
    var cfg := Config("voets", () => Loaders.LoadVoets(root, listing, openResized, toPng),
                      ["train", "test"], None, None);
    var loaded := Loaders.LoadVoets(root, listing, openResized, toPng);
    assert cfg.load() == loaded;
    TrainTestCovers(cfg);
    [cfg]
  }

  /** An entry with the default installed check and saver, checksums train and test, and a
      loader that returns splits train and test, covers its checksums. */
  lemma TrainTestCovers(cfg: Config)
    requires cfg.isInstalled.None? && cfg.saver.None? && cfg.checksums == ["train", "test"]
    requires cfg.load().Ok? ==> Names(cfg.load().value) == ["train", "test"]
    ensures CoversChecksums(cfg)
  {
    if cfg.load().Ok? {
      var names := Names(cfg.load().value);
      assert names[0] == "train" && names[1] == "test";
      assert "train" != "readme" && "train" != "files" && "test" != "readme" && "test" != "files";
    }
  }

  /** Asking only for datasets the registry does not hold processes nothing: the data
      directory is created and no file is written. */
  lemma UnknownNamesIgnored(st: Store, argv: seq<string>, dataDir: Path, reg: seq<Config>)
    requires |argv| > 1
    requires forall k | 1 <= k < |argv| :: argv[k] !in RegistryNames(reg)
    ensures var r := MainSpec(st, argv, dataDir, reg);
      r.events == [] && r.failure.None? && r == Outcome(Store(st.files, st.dirs + {dataDir}), [], None)
  {
    var o := Outcome(Store(st.files, st.dirs + {dataDir}), [], None);
    var subset := Requested(argv, reg);
    assert forall i | 0 <= i < |reg| :: reg[i].name !in subset by {
      forall i | 0 <= i < |reg| ensures reg[i].name !in subset {
        assert reg[i].name in RegistryNames(reg);
      }
    }
    RunNoneRequested(o, dataDir, reg, subset);
  }

  lemma {:induction false} RunNoneRequested(o: Outcome, dataDir: Path, reg: seq<Config>, subset: set<string>)
    requires forall i | 0 <= i < |reg| :: reg[i].name !in subset
    ensures RunConfigs(o, dataDir, reg, subset) == o
    decreases |reg|
  {
    if |reg| > 0 && o.failure.None? {
      assert forall i | 0 <= i < |reg[1..]| :: reg[1..][i].name !in subset by {
        forall i | 0 <= i < |reg[1..]| ensures reg[1..][i].name !in subset {
          assert reg[1..][i] == reg[i + 1];
        }
      }
      RunNoneRequested(o, dataDir, reg[1..], subset);
    }
  }
}
