/**
 * Silver layer: every JSON capture under `<bronze root>/<apt_id>/` is
 * flattened into one row of `sensor_readings`, written with INSERT OR
 * IGNORE under the unique key (apt_id, ts), so the first write of a key
 * wins. A file that cannot be read or decoded is logged and skipped.
 *
 * The table is the sequence of its rows in rowid order. Reading and
 * decoding a file is an injected function from path to outcome, and each
 * file gets its own reading of the UTC clock.
 */
module SilverTransform {
  import opened Common
  import BronzeIngest

  /** A JSON scalar, as far as Python's truthiness (`bool(x)`) is concerned. */
  datatype Json = JNull | JBool(b: bool) | JNumber(x: real) | JString(s: string) | JContainer(size: nat)

  /** Python's `bool(x)` for a decoded JSON value. */
  predicate Truthy(v: Json) {
    match v
    case JNull => false
    case JBool(b) => b
    case JNumber(x) => x != 0.0
    case JString(s) => s != ""
    case JContainer(n) => n > 0
  }

  /** The `energy` object of a capture; `kwh` is None when absent or null. */
  datatype Energy = Energy(kwh: Option<real>)
  /** The `presence` object of a capture; `detected` is None when absent. */
  datatype Presence = Presence(detected: Option<Json>)
  /** The `environment` object of a capture; each reading is None when absent or null. */
  datatype Environment = Environment(temperature: Option<real>, humidity: Option<real>, co2: Option<real>)

  /** The `timestamp` of a capture: no such key, a JSON `null`, or a string. */
  datatype Timestamp = Absent | Null | Stamp(value: string)

  /** A decoded capture; each object is None when its key is absent. */
  datatype Record = Record(
    timestamp: Timestamp,
    energy: Option<Energy>,
    presence: Option<Presence>,
    environment: Option<Environment>)

  /** What opening, decoding and flattening one file gives. */
  datatype Load =
    | Loaded(record: Record)   // a JSON object of the expected shape
    | DecodeError              // `json.JSONDecodeError`
    | ReadError                // `OSError` while opening or reading
    | OtherError               // any other exception: bad UTF-8, a non-object where an object is expected, ...

  /** One row of `sensor_readings`; None is SQL NULL. */
  datatype Reading = Reading(
    aptId: string,
    ts: string,
    energyKwh: Option<real>,
    presence: int,
    temperature: Option<real>,
    humidity: Option<real>,
    co2Ppm: Option<real>)

  /** The unique key of a row. */
  function Key(r: Reading): (string, string) {
    (r.aptId, r.ts)
  }

  /** `presence.detected` is present and truthy. */
  predicate Detected(record: Record) {
    record.presence.Some? && record.presence.value.detected.Some? && Truthy(record.presence.value.detected.value)
  }

  /**
   * The flat row for a capture of `aptId`; `now` is the clock's ISO time,
   * used only when the capture has no `timestamp` key. A `null` timestamp
   * gives a row whose `ts` is NULL, which the `NOT NULL` column refuses:
   * that row is None.
   */
  function Flatten(record: Record, aptId: string, now: string): (r: Option<Reading>)
    ensures r.None? <==> record.timestamp.Null?
    ensures r.Some? ==> r.value.aptId == aptId
    ensures r.Some? ==> r.value.ts == if record.timestamp.Stamp? then record.timestamp.value else now
    ensures r.Some? ==> (r.value.presence == 0 || r.value.presence == 1) && (r.value.presence == 1 <==> Detected(record))
    ensures r.Some? && record.energy.None? ==> r.value.energyKwh.None?
    ensures r.Some? && record.energy.Some? ==> r.value.energyKwh == record.energy.value.kwh
    ensures r.Some? && record.environment.None? ==> r.value.temperature.None? && r.value.humidity.None? && r.value.co2Ppm.None?
    ensures r.Some? && record.environment.Some? ==>
      r.value.temperature == record.environment.value.temperature &&
      r.value.humidity == record.environment.value.humidity &&
      r.value.co2Ppm == record.environment.value.co2
  {
    var env := record.environment.GetOr(Environment(None, None, None));
    match record.timestamp
    case Null => None
    case Absent => Some(Reading(aptId, now, record.energy.GetOr(Energy(None)).kwh,
                                if Detected(record) then 1 else 0, env.temperature, env.humidity, env.co2))
    case Stamp(t) => Some(Reading(aptId, t, record.energy.GetOr(Energy(None)).kwh,
                                  if Detected(record) then 1 else 0, env.temperature, env.humidity, env.co2))
  }

  /** A capture without `presence.detected` flattens to presence 0. */
  lemma FlattenPresenceDefault(record: Record, aptId: string, now: string)
    requires record.presence.None? || record.presence.value.detected.None?
    ensures Flatten(record, aptId, now).Some? ==> Flatten(record, aptId, now).value.presence == 0
  {
  }

  /** A stamped capture flattens to the same row whatever the clock says. */
  lemma FlattenIgnoresClock(record: Record, aptId: string, now: string, now': string)
    requires !record.timestamp.Absent?
    ensures Flatten(record, aptId, now) == Flatten(record, aptId, now')
  {
  }

  /**
   * `glob.glob("<root>/<apt_id>/**/*.json", recursive=True)` lists `path`:
   * it lies under the apartment's subtree, ends in `.json`, and no
   * component below the subtree is hidden (starts with a dot) or empty.
   */
  predicate MatchesGlob(root: string, aptId: string, path: string) {
    var prefix := BronzeIngest.PathJoin(BronzeIngest.PathJoin(root, aptId), "");
    StartsWith(path, prefix) && IsVisibleJson(path[|prefix|..])
  }

  /** `files` lists every matching path of the bronze tree once, in some order. */
  predicate GlobListing(root: string, bronze: set<string>, aptId: string, files: seq<string>) {
    (set p | p in files) == Matching(root, bronze, aptId) && Distinct(files)
  }

  /** The apartment's subtree, as a prefix: the root, the apartment id and one separator. */
  lemma SubtreePrefix(root: string, aptId: string)
    requires BronzeIngest.IsName(aptId)
    ensures BronzeIngest.PathJoin(BronzeIngest.PathJoin(root, aptId), "") == BronzeIngest.PathJoin(root, "") + aptId + "/"
  {
    BronzeIngest.PathJoinSplit(root, aptId);
    var dir := BronzeIngest.PathJoin(root, aptId);
    assert dir[|dir| - 1] == aptId[|aptId| - 1] != '/';
  }

  /** A date partition followed by a visible `.json` name is a visible `.json` path. */
  lemma DatedNameIsVisibleJson(date: string, f: string)
    requires |date| == 10 && forall i :: 0 <= i < 10 && i != 4 && i != 7 ==> '0' <= date[i] <= '9'
    requires '/' !in f && f != [] && f[0] != '.' && EndsWith(f, ".json")
    ensures IsVisibleJson(date + "/" + f)
  {
    var rest := date + "/" + f;
    assert rest[|rest| - |".json"|..] == f[|f| - |".json"|..];
    assert forall i :: 11 <= i < |rest| ==> rest[i] == f[i - 11];
  }

  /**
   * A capture the bronze stage archived for the apartment, under a visible
   * `.json` name, is one of the paths the silver glob lists.
   */
  lemma ArchivedCaptureIsListed(root: string, aptId: string, d: BronzeIngest.UtcDate, f: string, bronze: set<string>)
    requires BronzeIngest.IsName(aptId) && BronzeIngest.IsName(f) && f[0] != '.' && EndsWith(f, ".json")
    ensures MatchesGlob(root, aptId, BronzeIngest.DestPath(root, aptId, d, f))
    ensures BronzeIngest.DestPath(root, aptId, d, f) in bronze ==>
      BronzeIngest.DestPath(root, aptId, d, f) in Matching(root, bronze, aptId)
  {
    var path := BronzeIngest.DestPath(root, aptId, d, f);
    var date := BronzeIngest.DatePart(d);
    BronzeIngest.DestPathShape(root, aptId, d, f);
    SubtreePrefix(root, aptId);
    var prefix := BronzeIngest.PathJoin(root, "") + aptId + "/";
    assert path == prefix + (date + "/" + f);
    assert path[|prefix|..] == date + "/" + f;
    BronzeIngest.DatePartDigits(d);
    DatedNameIsVisibleJson(date, f);
  }

  /** The paths of the bronze tree the glob matches. */
  function Matching(root: string, bronze: set<string>, aptId: string): (ps: set<string>)
    ensures forall p :: p in ps <==> p in bronze && MatchesGlob(root, aptId, p)
  {
    set p | p in bronze && MatchesGlob(root, aptId, p)
  }

  /** No path occurs twice. */
  predicate Distinct(files: seq<string>) {
    files == [] || (files[0] !in files[1..] && Distinct(files[1..]))
  }

  /** A relative path whose components are non-empty and not hidden, ending in `.json`. */
  predicate IsVisibleJson(rest: string) {
    EndsWith(rest, ".json") &&
    forall i :: 0 <= i < |rest| && (i == 0 || rest[i - 1] == '/') ==> rest[i] != '.' && rest[i] != '/'
  }

  /** The table holds at most one row per (apt_id, ts). */
  predicate UniqueKeys(rows: seq<Reading>) {
    forall i, j :: 0 <= i < j < |rows| ==> Key(rows[i]) != Key(rows[j])
  }

  /** Some row of the table has key `k`. */
  predicate HasKey(rows: seq<Reading>, k: (string, string)) {
    exists i :: 0 <= i < |rows| && Key(rows[i]) == k
  }

  /**
   * INSERT OR IGNORE: the row is appended when its key is new, and the
   * table is left as it is otherwise.
   */
  function InsertIfAbsent(rows: seq<Reading>, r: Reading): (rows': seq<Reading>)
    ensures UniqueKeys(rows) ==> UniqueKeys(rows')
    ensures HasKey(rows', Key(r))
    ensures rows' == rows <==> HasKey(rows, Key(r))
    ensures rows <= rows' && |rows'| <= |rows| + 1
    ensures forall k :: HasKey(rows', k) <==> HasKey(rows, k) || k == Key(r)
  {
    if HasKey(rows, Key(r)) then rows
    else
      var rows' := rows + [r];
      assert Key(rows'[|rows|]) == Key(r);
      rows'
  }

  /**
   * INSERT OR IGNORE of a flattened row: a row with a NULL `ts` breaks the
   * `NOT NULL` constraint and is ignored, like a row whose key is taken.
   */
  function InsertRow(rows: seq<Reading>, row: Option<Reading>): (rows': seq<Reading>)
    ensures UniqueKeys(rows) ==> UniqueKeys(rows')
    ensures rows <= rows' && |rows'| <= |rows| + 1
    ensures row.None? ==> rows' == rows
    ensures row.Some? ==> HasKey(rows', Key(row.value)) && (rows' == rows <==> HasKey(rows, Key(row.value)))
    ensures forall i :: |rows| <= i < |rows'| ==> row == Some(rows'[i])
  {
    match row
    case None => rows
    case Some(r) => InsertIfAbsent(rows, r)
  }

  /** The outcome of processing one apartment's files. */
  datatype Run =
    | Committed(rows: seq<Reading>)   // the table afterwards
    | Aborted(path: string)           // the file whose exception escaped

  /** The file failed to read or decode: `process_bronze_files` logs it and goes on. */
  predicate Skipped(load: string -> Load, path: string) {
    load(path).DecodeError? || load(path).ReadError?
  }

  /** The files whose read or decode error is logged and skipped, in order. */
  function Failures(files: seq<string>, load: string -> Load): seq<string> {
    if files == [] then []
    else
      var last := files[|files| - 1];
      Failures(files[..|files| - 1], load) + (if Skipped(load, last) then [last] else [])
  }

  /**
   * A failed file is logged as often as the listing holds it, and no other
   * file is logged.
   */
  lemma {:induction false} FailuresCount(files: seq<string>, load: string -> Load)
    ensures |Failures(files, load)| <= |files|
    ensures forall p :: multiset(Failures(files, load))[p] == if Skipped(load, p) then multiset(files)[p] else 0
  {
    if files != [] {
      var init, last := files[..|files| - 1], files[|files| - 1];
      FailuresCount(init, load);
      assert files == init + [last];
      var logged := if Skipped(load, last) then [last] else [];
      assert multiset(files) == multiset(init) + multiset{last};
      assert multiset(Failures(files, load)) == multiset(Failures(init, load)) + multiset(logged);
    }
  }

  /** Exactly the listed files that failed to read or decode are logged. */
  lemma FailuresAreSkipped(files: seq<string>, load: string -> Load)
    ensures forall p :: p in Failures(files, load) <==> p in files && Skipped(load, p)
  {
    FailuresCount(files, load);
    forall p ensures p in Failures(files, load) <==> p in files && Skipped(load, p) {
      assert p in Failures(files, load) <==> multiset(Failures(files, load))[p] > 0;
      assert p in files <==> multiset(files)[p] > 0;
    }
  }

  /** A listing without repeats has no path with two occurrences. */
  lemma {:induction false} DistinctCounts(files: seq<string>)
    ensures Distinct(files) <==> forall p :: multiset(files)[p] <= 1
  {
    if files != [] {
      DistinctCounts(files[1..]);
      assert files == [files[0]] + files[1..];
      assert multiset(files) == multiset{files[0]} + multiset(files[1..]);
      if forall p :: multiset(files)[p] <= 1 {
        assert multiset(files)[files[0]] == multiset(files[1..])[files[0]] + 1;
        assert multiset(files)[files[0]] <= 1;
        forall p ensures multiset(files[1..])[p] <= 1 {
          assert multiset(files[1..])[p] <= multiset(files)[p];
        }
      }
    }
  }

  /** Since `glob` lists each path once, each failed file is logged once. */
  lemma FailuresLoggedOnce(files: seq<string>, load: string -> Load)
    requires Distinct(files)
    ensures Distinct(Failures(files, load))
  {
    FailuresCount(files, load);
    DistinctCounts(files);
    DistinctCounts(Failures(files, load));
  }

  /** The failure log of the first `i + 1` files is that of the first `i`, and file `i` if it was skipped. */
  lemma FailuresStep(files: seq<string>, load: string -> Load, i: nat)
    requires i < |files|
    ensures Failures(files[..i + 1], load) == Failures(files[..i], load) + (if Skipped(load, files[i]) then [files[i]] else [])
  {
    assert files[..i + 1][..i] == files[..i];
  }

  /** Some file raises an exception the loop does not catch. */
  predicate SomeUncaught(files: seq<string>, load: string -> Load) {
    exists j :: 0 <= j < |files| && load(files[j]).OtherError?
  }

  /** File `j` is the first, in glob order, that raises an exception the loop does not catch. */
  predicate FirstUncaught(files: seq<string>, load: string -> Load, j: int) {
    0 <= j < |files| && load(files[j]).OtherError? && forall k :: 0 <= k < j ==> !load(files[k]).OtherError?
  }

  /**
   * The loop of `process_bronze_files`: `files` in glob order, `clock[j]`
   * the clock's ISO time when file `j` is flattened, `rows` the table so
   * far. Files that fail to read or decode are skipped; the first other
   * exception ends the run.
   */
  function Ingest(rows: seq<Reading>, aptId: string, files: seq<string>, load: string -> Load, clock: seq<string>): (r: Run)
    requires |clock| == |files|
    ensures r.Aborted? <==> SomeUncaught(files, load)
    ensures r.Aborted? ==> r.path in files && load(r.path).OtherError?
    ensures r.Aborted? ==> exists j :: FirstUncaught(files, load, j) && files[j] == r.path
    decreases |files|
  {
    if files == [] then Committed(rows)
    else match load(files[0])
      case OtherError =>
        Aborted(files[0])
      case Loaded(record) =>
        SomeUncaughtTail(files, load);
        Ingest(InsertRow(rows, Flatten(record, aptId, clock[0])), aptId, files[1..], load, clock[1..])
      case DecodeError =>
        SomeUncaughtTail(files, load);
        Ingest(rows, aptId, files[1..], load, clock[1..])
      case ReadError =>
        SomeUncaughtTail(files, load);
        Ingest(rows, aptId, files[1..], load, clock[1..])
  }

  /** A committed run only appends to the table, and every row it adds belongs to the apartment processed. */
  lemma {:induction false} IngestAppends(rows: seq<Reading>, aptId: string, files: seq<string>, load: string -> Load, clock: seq<string>)
    requires |clock| == |files|
    requires Ingest(rows, aptId, files, load, clock).Committed?
    ensures var r := Ingest(rows, aptId, files, load, clock).rows;
      rows <= r && forall i :: |rows| <= i < |r| ==> r[i].aptId == aptId
    decreases |files|
  {
    if files != [] {
      match load(files[0])
      case Loaded(record) =>
        var rows1 := InsertRow(rows, Flatten(record, aptId, clock[0]));
        IngestAppends(rows1, aptId, files[1..], load, clock[1..]);
        assert forall i :: |rows| <= i < |rows1| ==> rows1[i].aptId == aptId;
      case DecodeError =>
        IngestAppends(rows, aptId, files[1..], load, clock[1..]);
      case ReadError =>
        IngestAppends(rows, aptId, files[1..], load, clock[1..]);
    }
  }

  /** A committed run keeps the key (apt_id, ts) unique. */
  lemma {:induction false} IngestKeepsKeysUnique(rows: seq<Reading>, aptId: string, files: seq<string>, load: string -> Load, clock: seq<string>)
    requires |clock| == |files| && UniqueKeys(rows)
    requires Ingest(rows, aptId, files, load, clock).Committed?
    ensures UniqueKeys(Ingest(rows, aptId, files, load, clock).rows)
    decreases |files|
  {
    if files != [] {
      match load(files[0])
      case Loaded(record) =>
        IngestKeepsKeysUnique(InsertRow(rows, Flatten(record, aptId, clock[0])), aptId, files[1..], load, clock[1..]);
      case DecodeError =>
        IngestKeepsKeysUnique(rows, aptId, files[1..], load, clock[1..]);
      case ReadError =>
        IngestKeepsKeysUnique(rows, aptId, files[1..], load, clock[1..]);
    }
  }

  /** A file that does not raise leaves the question of an uncaught exception to the rest of the files. */
  lemma SomeUncaughtTail(files: seq<string>, load: string -> Load)
    requires files != [] && !load(files[0]).OtherError?
    ensures SomeUncaught(files, load) <==> SomeUncaught(files[1..], load)
    ensures forall j :: FirstUncaught(files[1..], load, j) ==> FirstUncaught(files, load, j + 1) && files[j + 1] == files[1..][j]
  {
    if SomeUncaught(files, load) {
      var j :| 0 <= j < |files| && load(files[j]).OtherError?;
      assert files[j] == files[1..][j - 1];
    }
    if SomeUncaught(files[1..], load) {
      var j :| 0 <= j < |files[1..]| && load(files[1..][j]).OtherError?;
      assert files[1..][j] == files[j + 1];
    }
  }

  /** A key present in a table stays present in every extension of it. */
  lemma HasKeyExtended(rows: seq<Reading>, rows': seq<Reading>, k: (string, string))
    requires rows <= rows' && HasKey(rows, k)
    ensures HasKey(rows', k)
  {
    var i :| 0 <= i < |rows| && Key(rows[i]) == k;
    assert rows'[i] == rows[i];
  }

  /** When `outcome` is a capture whose row can be stored, its key is in `rows`. */
  predicate KeyStored(rows: seq<Reading>, outcome: Load, aptId: string, now: string) {
    outcome.Loaded? && Flatten(outcome.record, aptId, now).Some? ==>
      HasKey(rows, Key(Flatten(outcome.record, aptId, now).value))
  }

  /**
   * A decode or read error on one file does not stop the others: after a
   * committed run, the key of every file that loaded is in the table,
   * unless its timestamp was `null`.
   */
  lemma {:induction false} IngestComplete(rows: seq<Reading>, aptId: string, files: seq<string>, load: string -> Load, clock: seq<string>)
    requires |clock| == |files|
    requires Ingest(rows, aptId, files, load, clock).Committed?
    ensures forall j :: 0 <= j < |files| ==> KeyStored(Ingest(rows, aptId, files, load, clock).rows, load(files[j]), aptId, clock[j])
    decreases |files|
  {
    if files != [] {
      var result := Ingest(rows, aptId, files, load, clock).rows;
      var rows1 := if load(files[0]).Loaded? then InsertRow(rows, Flatten(load(files[0]).record, aptId, clock[0])) else rows;
      assert result == Ingest(rows1, aptId, files[1..], load, clock[1..]).rows;
      IngestComplete(rows1, aptId, files[1..], load, clock[1..]);
      IngestAppends(rows1, aptId, files[1..], load, clock[1..]);
      if KeyStored(rows1, load(files[0]), aptId, clock[0]) && load(files[0]).Loaded? && Flatten(load(files[0]).record, aptId, clock[0]).Some? {
        HasKeyExtended(rows1, result, Key(Flatten(load(files[0]).record, aptId, clock[0]).value));
      }
      forall j | 1 <= j < |files| ensures KeyStored(result, load(files[j]), aptId, clock[j]) {
        assert files[1..][j - 1] == files[j] && clock[1..][j - 1] == clock[j];
      }
    }
  }

  /** `row` is the flattening of some file of the run that loaded. */
  predicate FlattenedFrom(row: Reading, aptId: string, files: seq<string>, load: string -> Load, clock: seq<string>)
    requires |clock| == |files|
  {
    exists j :: 0 <= j < |files| && load(files[j]).Loaded? && Flatten(load(files[j]).record, aptId, clock[j]) == Some(row)
  }

  /** A row flattened from a later file is flattened from a file of the whole run. */
  lemma FlattenedFromTail(row: Reading, aptId: string, files: seq<string>, load: string -> Load, clock: seq<string>)
    requires |clock| == |files| && files != []
    requires FlattenedFrom(row, aptId, files[1..], load, clock[1..])
    ensures FlattenedFrom(row, aptId, files, load, clock)
  {
    var j :| 0 <= j < |files[1..]| && load(files[1..][j]).Loaded? && Flatten(load(files[1..][j]).record, aptId, clock[1..][j]) == Some(row);
    assert files[1..][j] == files[j + 1] && clock[1..][j] == clock[j + 1];
  }

  /** Every row a committed run adds is the flattening of a file that loaded. */
  lemma {:induction false} IngestSound(rows: seq<Reading>, aptId: string, files: seq<string>, load: string -> Load, clock: seq<string>)
    requires |clock| == |files|
    requires Ingest(rows, aptId, files, load, clock).Committed?
    ensures var r := Ingest(rows, aptId, files, load, clock).rows;
      forall i :: |rows| <= i < |r| ==> FlattenedFrom(r[i], aptId, files, load, clock)
    decreases |files|
  {
    if files != [] {
      var r := Ingest(rows, aptId, files, load, clock).rows;
      match load(files[0])
      case Loaded(record) =>
        var row := Flatten(record, aptId, clock[0]);
        var rows1 := InsertRow(rows, row);
        IngestSound(rows1, aptId, files[1..], load, clock[1..]);
        IngestAppends(rows1, aptId, files[1..], load, clock[1..]);
        forall i | |rows| <= i < |r| ensures FlattenedFrom(r[i], aptId, files, load, clock) {
          if i < |rows1| {
            assert r[i] == rows1[i] && row == Some(r[i]);
            assert Flatten(load(files[0]).record, aptId, clock[0]) == Some(r[i]);
          } else {
            FlattenedFromTail(r[i], aptId, files, load, clock);
          }
        }
      case DecodeError =>
        IngestSound(rows, aptId, files[1..], load, clock[1..]);
        forall i | |rows| <= i < |r| ensures FlattenedFrom(r[i], aptId, files, load, clock) {
          FlattenedFromTail(r[i], aptId, files, load, clock);
        }
      case ReadError =>
        IngestSound(rows, aptId, files[1..], load, clock[1..]);
        forall i | |rows| <= i < |r| ensures FlattenedFrom(r[i], aptId, files, load, clock) {
          FlattenedFromTail(r[i], aptId, files, load, clock);
        }
    }
  }

  /** A run whose every stored key is already in the table adds no row. */
  lemma {:induction false} IngestNothingNew(rows: seq<Reading>, aptId: string, files: seq<string>, load: string -> Load, clock: seq<string>)
    requires |clock| == |files|
    requires forall j :: 0 <= j < |files| ==> KeyStored(rows, load(files[j]), aptId, clock[j])
    requires Ingest(rows, aptId, files, load, clock).Committed?
    ensures Ingest(rows, aptId, files, load, clock).rows == rows
    decreases |files|
  {
    if files != [] {
      forall j | 0 <= j < |files[1..]| ensures KeyStored(rows, load(files[1..][j]), aptId, clock[1..][j]) {
        assert files[1..][j] == files[j + 1] && clock[1..][j] == clock[j + 1];
      }
      assert KeyStored(rows, load(files[0]), aptId, clock[0]);
      IngestNothingNew(rows, aptId, files[1..], load, clock[1..]);
    }
  }

  /**
   * Re-running over the files of an unchanged bronze tree, listed in any
   * order and any number of times, leaves the table as the first run left
   * it, whatever the clock says the second time, provided every capture
   * has a `timestamp` key.
   */
  lemma IngestIdempotent(rows: seq<Reading>, aptId: string, files: seq<string>, load: string -> Load, clock: seq<string>,
                         files': seq<string>, clock': seq<string>)
    requires |clock| == |files| && |clock'| == |files'|
    requires forall p :: p in files' ==> p in files
    requires forall j :: 0 <= j < |files| && load(files[j]).Loaded? ==> !load(files[j]).record.timestamp.Absent?
    requires Ingest(rows, aptId, files, load, clock).Committed?
    ensures var once := Ingest(rows, aptId, files, load, clock);
      Ingest(once.rows, aptId, files', load, clock') == once
  {
    var once := Ingest(rows, aptId, files, load, clock);
    IngestComplete(rows, aptId, files, load, clock);
    forall j' | 0 <= j' < |files'| ensures KeyStored(once.rows, load(files'[j']), aptId, clock'[j']) && !load(files'[j']).OtherError? {
      assert files'[j'] in files;
      var j :| 0 <= j < |files| && files[j] == files'[j'];
      assert KeyStored(once.rows, load(files[j]), aptId, clock[j]);
      if load(files[j]).Loaded? {
        FlattenIgnoresClock(load(files[j]).record, aptId, clock[j], clock'[j']);
      }
    }
    assert !SomeUncaught(files', load);
    IngestNothingNew(once.rows, aptId, files', load, clock');
  }

  /** One turn of the loop of `process_bronze_files`, on the files from `i` on. */
  lemma IngestStep(rows: seq<Reading>, aptId: string, files: seq<string>, load: string -> Load, clock: seq<string>, i: nat)
    requires |clock| == |files| && i < |files|
    ensures Ingest(rows, aptId, files[i..], load, clock[i..]) ==
      if load(files[i]).Loaded? then
        Ingest(InsertRow(rows, Flatten(load(files[i]).record, aptId, clock[i])), aptId, files[i + 1..], load, clock[i + 1..])
      else if load(files[i]).OtherError? then Aborted(files[i])
      else Ingest(rows, aptId, files[i + 1..], load, clock[i + 1..])
  {
    assert files[i..][1..] == files[i + 1..] && clock[i..][1..] == clock[i + 1..];
    assert files[i..][0] == files[i] && clock[i..][0] == clock[i];
  }

  /** The apartments the silver stage transforms, in order. */
  const Apartments: seq<string> := ["apt1", "apt2"]

  /** The silver database, changed in place by the transformer. */
  class SilverDb {
    var created: bool                // `sensor_readings` exists
    var readings: seq<Reading>       // its rows, in rowid order

    /** The unique key (apt_id, ts) holds, and a missing table has no rows. */
    ghost predicate Valid()
      reads this
    {
      UniqueKeys(readings) && (!created ==> readings == [])
    }

    constructor ()
      ensures Valid() && !created && readings == []
    {
      created := false;
      readings := [];
    }

    /** `CREATE TABLE IF NOT EXISTS`: creates the table once and keeps its rows afterwards. */
    method EnsureDb()
      requires Valid()
      modifies this
      ensures Valid() && created && readings == old(readings)
    {
      created := true;
    }

    /** One INSERT OR IGNORE of a flattened row: ignored when its `ts` is NULL or its key is taken. */
    method InsertOrIgnore(row: Option<Reading>)
      requires Valid() && created
      modifies this
      ensures Valid() && created
      ensures readings == InsertRow(old(readings), row)
    {
      if row.Some? && !HasKey(readings, Key(row.value)) {
        readings := readings + [row.value];
      }
    }

    /**
     * The `try` block for one file: opens, decodes, flattens and inserts it,
     * or reports that a read or decode error made it skip the file.
     */
    method ProcessFile(aptId: string, path: string, load: string -> Load, now: string) returns (skipped: bool)
      requires Valid() && created && !load(path).OtherError?
      modifies this
      ensures Valid() && created
      ensures skipped == Skipped(load, path)
      ensures readings == if load(path).Loaded? then InsertRow(old(readings), Flatten(load(path).record, aptId, now)) else old(readings)
    {
      if load(path).Loaded? {
        InsertOrIgnore(Flatten(load(path).record, aptId, now));
        skipped := false;
      } else {
        skipped := true;
      }
    }

    /**
     * Flattens and inserts every file `glob` lists for `aptId`, in the
     * order it lists them; returns the files logged as failed, or the file
     * whose exception escaped, in which case the run's inserts are rolled
     * back.
     */
    method ProcessBronzeFiles(root: string, bronze: set<string>, aptId: string, files: seq<string>, load: string -> Load, clock: seq<string>)
      returns (failed: seq<string>, uncaught: Option<string>)
      requires Valid() && created
      requires GlobListing(root, bronze, aptId, files)
      requires |clock| == |files|
      modifies this
      ensures Valid() && created
      ensures var run := Ingest(old(readings), aptId, files, load, clock);
        if run.Committed? then readings == run.rows && failed == Failures(files, load) && uncaught == None
        else
          && readings == old(readings) && uncaught == Some(run.path)
          && exists j :: FirstUncaught(files, load, j) && files[j] == run.path && failed == Failures(files[..j], load)
    {
      var snapshot := readings;
      failed := [];
      var i := 0;
      assert files[i..] == files && clock[i..] == clock && files[..i] == [];
      while i < |files|
        invariant 0 <= i <= |files|
        invariant Valid() && created
        invariant Ingest(readings, aptId, files[i..], load, clock[i..]) == Ingest(snapshot, aptId, files, load, clock)
        invariant failed == Failures(files[..i], load)
        invariant forall k :: 0 <= k < i ==> !load(files[k]).OtherError?
      {
        IngestStep(readings, aptId, files, load, clock, i);
        FailuresStep(files, load, i);
        if load(files[i]).OtherError? {
          readings := snapshot;
          assert FirstUncaught(files, load, i);
          return failed, Some(files[i]);
        }
        var skipped := ProcessFile(aptId, files[i], load, clock[i]);
        if skipped {
          failed := failed + [files[i]];
        }
        i := i + 1;
      }
      assert files[..i] == files;
      uncaught := None;
    }

    /**
     * Creates the table, then transforms `apt1` and then `apt2`; an escaping
     * exception stops the run after rolling back that apartment's inserts.
     */
    method Transform(root: string, bronze: set<string>, load: string -> Load,
                     files1: seq<string>, clock1: seq<string>, files2: seq<string>, clock2: seq<string>)
      returns (uncaught: Option<string>)
      requires Valid()
      requires GlobListing(root, bronze, Apartments[0], files1) && GlobListing(root, bronze, Apartments[1], files2)
      requires |clock1| == |files1| && |clock2| == |files2|
      modifies this
      ensures Valid() && created
      ensures var run1 := Ingest(old(readings), Apartments[0], files1, load, clock1);
        if run1.Aborted? then readings == old(readings) && uncaught == Some(run1.path)
        else
          var run2 := Ingest(run1.rows, Apartments[1], files2, load, clock2);
          if run2.Aborted? then readings == run1.rows && uncaught == Some(run2.path)
          else readings == run2.rows && uncaught == None
    {
      EnsureDb();
      var failed;
      failed, uncaught := ProcessBronzeFiles(root, bronze, Apartments[0], files1, load, clock1);
      if uncaught.Some? {
        return;
      }
      failed, uncaught := ProcessBronzeFiles(root, bronze, Apartments[1], files2, load, clock2);
    }
  }
}
