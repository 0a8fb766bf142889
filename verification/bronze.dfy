/**
 * Bronze layer: moving every regular file of a source's landing directory
 * into the date-partitioned bronze archive
 * `<bronze root>/<source>/YYYY/MM/DD/<filename>`.
 *
 * The filesystem is two finite maps: the landing area, keyed by
 * (source, filename), and the bronze archive, keyed by full path. The UTC
 * clock is an injected date.
 */
module BronzeIngest {
  import opened Common

  type Bytes = seq<bv8>

  /** An entry of a landing directory: a regular file with its bytes, or anything else (a sub-directory, a socket, ...). */
  datatype Entry = RegularFile(data: Bytes) | Other

  /** A UTC calendar date, as the clock reports it. */
  datatype UtcDate = UtcDate(year: nat, month: nat, day: nat)

  /** The range `datetime` accepts for year, month and day. */
  predicate IsCalendarDate(d: UtcDate) {
    1 <= d.year <= 9999 && 1 <= d.month <= 12 && 1 <= d.day <= 31
  }

  /** A single path component: a source name, or a name `os.listdir` returns. */
  predicate IsName(s: string) {
    s != "" && '/' !in s
  }

  /** The sources the bronze stage archives, in the order it archives them. */
  const Sources: seq<string> := ["apt1", "apt2", "weather"]

  /** The default bronze root. */
  const DefaultBronzeRoot: string := "data/bronze"

  /** `os.path.join(a, b)` for a relative `b`: a separator is added unless `a` is empty or already ends in one. */
  function PathJoin(a: string, b: string): string {
    if a == [] then b
    else if a[|a| - 1] == '/' then a + b
    else a + "/" + b
  }

  /** Joining puts `b` after a prefix that depends on `a` alone. */
  lemma PathJoinSplit(a: string, b: string)
    ensures PathJoin(a, b) == PathJoin(a, "") + b
  {
    if a != [] {
      assert a + [] == a;
    }
  }

  /** `strftime("%Y/%m/%d")` of the date: the zero-padded year, month and day, separated by `/`. */
  function DatePart(d: UtcDate): (s: string)
    ensures |s| == 10 && s[4] == '/' && s[7] == '/' && s[9] != '/'
    ensures s[..4] == ZeroPad(d.year, 4) && s[5..7] == ZeroPad(d.month, 2) && s[8..] == ZeroPad(d.day, 2)
  {
    var y, m, dd := ZeroPad(d.year, 4), ZeroPad(d.month, 2), ZeroPad(d.day, 2);
    assert dd[1] == DigitChar(d.day % 10);
    var s := y + "/" + m + "/" + dd;
    assert s[..4] == y && s[5..7] == m && s[8..] == dd;
    s
  }

  /** The date part is digits apart from its two separators, so none of its components is hidden. */
  lemma DatePartDigits(d: UtcDate)
    ensures forall i :: 0 <= i < 10 && i != 4 && i != 7 ==> '0' <= DatePart(d)[i] <= '9'
  {
    var s := DatePart(d);
    ZeroPadDigits(d.year, 4);
    ZeroPadDigits(d.month, 2);
    ZeroPadDigits(d.day, 2);
    assert forall i :: 0 <= i < 4 ==> s[i] == s[..4][i];
    assert forall i :: 5 <= i < 7 ==> s[i] == s[5..7][i - 5];
    assert forall i :: 8 <= i < 10 ==> s[i] == s[8..][i - 8];
  }

  /** The partition directory `<root>/<source>/YYYY/MM/DD` for a date. */
  function DestDir(root: string, source: string, d: UtcDate): string {
    PathJoin(PathJoin(root, source), DatePart(d))
  }

  /** Where a landing file of `source` named `filename` is archived on date `d`. */
  function DestPath(root: string, source: string, d: UtcDate, filename: string): string {
    PathJoin(DestDir(root, source, d), filename)
  }

  /**
   * The partition path is `<root>/<source>/YYYY/MM/DD/<filename>`: the root,
   * the source, the date part and the unchanged filename, one separator
   * between each.
   */
  lemma DestPathShape(root: string, source: string, d: UtcDate, filename: string)
    requires IsName(source)
    ensures DestPath(root, source, d, filename) == PathJoin(root, "") + source + "/" + DatePart(d) + "/" + filename
  {
    var a := PathJoin(root, source);
    PathJoinSplit(root, source);
    assert a != [] && a[|a| - 1] == source[|source| - 1] != '/';
    var dir := DestDir(root, source, d);
    assert dir == a + "/" + DatePart(d);
    assert dir != [] && dir[|dir| - 1] == DatePart(d)[9] != '/';
  }

  /** The partition of 2024-03-05 is `2024/03/05`. */
  lemma DatePartExample()
    ensures DatePart(UtcDate(2024, 3, 5)) == "2024/03/05"
  {
    var date := DatePart(UtcDate(2024, 3, 5));
    assert 2024 / 10 == 202 && 2024 % 10 == 4;
    assert ZeroPad(2024, 4) == ZeroPad(202, 3) + [DigitChar(4)];
    assert ZeroPad(202, 3) == ZeroPad(20, 2) + [DigitChar(2)];
    assert ZeroPad(20, 2) == ZeroPad(2, 1) + [DigitChar(0)];
    assert ZeroPad(3, 2) == ZeroPad(0, 1) + [DigitChar(3)];
    assert ZeroPad(5, 2) == ZeroPad(0, 1) + [DigitChar(5)];
    assert date[..4] == "2024" && date[5..7] == "03" && date[8..] == "05";
  }

  /** Archiving `reading.json` of `apt1` on 2024-03-05 gives `data/bronze/apt1/2024/03/05/reading.json`. */
  lemma DestPathExample()
    ensures DestPath(DefaultBronzeRoot, "apt1", UtcDate(2024, 3, 5), "reading.json") == "data/bronze/apt1/2024/03/05/reading.json"
  {
    DatePartExample();
    DestPathShape(DefaultBronzeRoot, "apt1", UtcDate(2024, 3, 5), "reading.json");
    ExamplePieces(PathJoin(DefaultBronzeRoot, ""), DatePart(UtcDate(2024, 3, 5)));
  }

  /** The pieces of the example path, put together. */
  lemma ExamplePieces(pre: string, date: string)
    requires pre == "data/bronze/" && date == "2024/03/05"
    ensures pre + "apt1" + "/" + date + "/" + "reading.json" == "data/bronze/apt1/2024/03/05/reading.json"
  {
  }

  /** The position of the first separator in `s`, or `|s|` when there is none. */
  function SepIndex(s: string): (i: nat)
    ensures i <= |s|
  {
    if s == [] || s[0] == '/' then 0 else 1 + SepIndex(s[1..])
  }

  /** In a name followed by a separator, the first separator sits right after the name. */
  lemma {:induction false} SepIndexAfterName(x: string, y: string)
    requires '/' !in x
    ensures SepIndex(x + "/" + y) == |x|
  {
    if x != [] {
      assert (x + "/" + y)[1..] == x[1..] + "/" + y;
      SepIndexAfterName(x[1..], y);
    }
  }

  /** A name followed by a separator: the first separator splits the string back into both halves. */
  lemma SplitAtSeparator(x: string, y: string, x': string, y': string)
    requires '/' !in x && '/' !in x'
    requires x + "/" + y == x' + "/" + y'
    ensures x == x' && y == y'
  {
    SepIndexAfterName(x, y);
    SepIndexAfterName(x', y');
    var s := x + "/" + y;
    assert x == s[..|x|] == x';
    assert y == s[|x| + 1..] == y';
  }

  /** Two strings of one length followed by others: equal concatenations have equal halves. */
  lemma SplitAtLength(x: string, y: string, x': string, y': string)
    requires |x| == |x'|
    requires x + y == x' + y'
    ensures x == x' && y == y'
  {
    var s := x + y;
    assert x == s[..|x|] == x';
    assert y == s[|x|..] == y';
  }

  /** Distinct calendar dates give distinct partition directories. */
  lemma DatePartInjective(d: UtcDate, d': UtcDate)
    requires IsCalendarDate(d) && IsCalendarDate(d')
    requires DatePart(d) == DatePart(d')
    ensures d == d'
  {
    assert Pow10(4) == 10000 && Pow10(2) == 100;
    ZeroPadInjective(d.year, d'.year, 4);
    ZeroPadInjective(d.month, d'.month, 2);
    ZeroPadInjective(d.day, d'.day, 2);
  }

  /** Paths `<pre><source>/<date>/<filename>` with ten-character dates determine their source, date and filename. */
  lemma PartitionPathInjective(pre: string, s: string, date: string, f: string, s': string, date': string, f': string)
    requires '/' !in s && '/' !in s' && |date| == 10 && |date'| == 10
    requires pre + s + "/" + date + "/" + f == pre + s' + "/" + date' + "/" + f'
    ensures s == s' && date == date' && f == f'
  {
    Regroup(pre, s, date, f);
    Regroup(pre, s', date', f');
    SplitAtLength(pre, s + "/" + (date + "/" + f), pre, s' + "/" + (date' + "/" + f'));
    SplitAtSeparator(s, date + "/" + f, s', date' + "/" + f');
    assert date + "/" + f == date + ("/" + f);
    assert date' + "/" + f' == date' + ("/" + f');
    SplitAtLength(date, "/" + f, date', "/" + f');
    assert f == ("/" + f)[1..] && f' == ("/" + f')[1..];
  }

  /**
   * No two archived files share a bronze path: the path determines the
   * source, the date and the filename.
   */
  lemma DestPathInjective(root: string, s: string, d: UtcDate, f: string, s': string, d': UtcDate, f': string)
    requires IsName(s) && IsName(s') && IsCalendarDate(d) && IsCalendarDate(d')
    requires DestPath(root, s, d, f) == DestPath(root, s', d', f')
    ensures s == s' && d == d' && f == f'
  {
    DestPathShape(root, s, d, f);
    DestPathShape(root, s', d', f');
    PartitionPathInjective(PathJoin(root, ""), s, DatePart(d), f, s', DatePart(d'), f');
    DatePartInjective(d, d');
  }

  /** Concatenation regrouped to the right. */
  lemma Regroup(pre: string, s: string, date: string, f: string)
    ensures pre + s + "/" + date + "/" + f == pre + (s + "/" + (date + "/" + f))
  {
  }

  /** For one source and date, distinct filenames get distinct bronze paths. */
  lemma DestPathInjectiveInName(root: string, source: string, d: UtcDate, f: string, f': string)
    requires DestPath(root, source, d, f) == DestPath(root, source, d, f')
    ensures f == f'
  {
    var dir := DestDir(root, source, d);
    PathJoinSplit(dir, f);
    PathJoinSplit(dir, f');
    SplitAtLength(PathJoin(dir, ""), f, PathJoin(dir, ""), f');
  }

  /** The whole filesystem the bronze stage sees. */
  datatype Disk = Disk(
    landingDirs: set<string>,                 // sources whose landing directory exists
    landing: map<(string, string), Entry>,    // (source, filename) -> directory entry
    bronze: map<string, Bytes>)               // full path -> archived bytes

  /** The names `os.listdir` returns for a landing directory. */
  function ListDir(landing: map<(string, string), Entry>, source: string): (names: set<string>)
    ensures forall f :: f in names <==> (source, f) in landing
  {
    set k | k in landing && k.0 == source :: k.1
  }

  /** `f` is a regular file of the landing directory of `source`. */
  predicate IsArchivable(landing: map<(string, string), Entry>, source: string, f: string) {
    (source, f) in landing && landing[(source, f)].RegularFile?
  }

  /** The bronze entries the regular files among `names` are moved to. */
  function Moved(landing: map<(string, string), Entry>, root: string, source: string, d: UtcDate, names: set<string>): (m: map<string, Bytes>)
    ensures forall f :: f in names && IsArchivable(landing, source, f) ==>
      DestPath(root, source, d, f) in m && m[DestPath(root, source, d, f)] == landing[(source, f)].data
    ensures forall p :: p in m ==> exists f :: f in names && IsArchivable(landing, source, f) && p == DestPath(root, source, d, f)
  {
    var keys := set f | f in names && IsArchivable(landing, source, f);
    assert forall f, f' :: f in keys && f' in keys && DestPath(root, source, d, f) == DestPath(root, source, d, f') ==> f == f' by {
      forall f, f' | f in keys && f' in keys && DestPath(root, source, d, f) == DestPath(root, source, d, f') {
        DestPathInjectiveInName(root, source, d, f, f');
      }
    }
    map f | f in keys :: DestPath(root, source, d, f) := landing[(source, f)].data
  }

  /** The landing entries left once the regular files among `names` have been moved out. */
  function Remaining(landing: map<(string, string), Entry>, source: string, names: set<string>): map<(string, string), Entry> {
    map k | k in landing && !(k.0 == source && k.1 in names && landing[k].RegularFile?) :: landing[k]
  }

  /** The disk after the regular files among `names` have been moved from landing to bronze. */
  function MoveFiles(disk: Disk, root: string, source: string, d: UtcDate, names: set<string>): Disk {
    Disk(disk.landingDirs, Remaining(disk.landing, source, names), disk.bronze + Moved(disk.landing, root, source, d, names))
  }

  /**
   * The effect of archiving one source on date `d`: nothing when its landing
   * directory is missing, otherwise every regular file in it moves to its
   * partition path.
   */
  function Archive(disk: Disk, root: string, source: string, d: UtcDate): Disk {
    if source !in disk.landingDirs then disk
    else MoveFiles(disk, root, source, d, ListDir(disk.landing, source))
  }

  /**
   * What archiving does: a missing landing directory changes nothing;
   * otherwise every regular file leaves landing and appears at its
   * destination with the same bytes, every other landing entry stays, and
   * bronze gains exactly the destinations of the moved files.
   */
  lemma ArchiveEffect(disk: Disk, root: string, source: string, d: UtcDate)
    ensures var r := Archive(disk, root, source, d);
      && r.landingDirs == disk.landingDirs
      && (source !in disk.landingDirs ==> r == disk)
      && (source in disk.landingDirs ==>
            forall f :: IsArchivable(disk.landing, source, f) ==>
              (source, f) !in r.landing && DestPath(root, source, d, f) in r.bronze &&
              r.bronze[DestPath(root, source, d, f)] == disk.landing[(source, f)].data)
      && (forall k :: k in disk.landing && (k.0 != source || !disk.landing[k].RegularFile?) ==>
            k in r.landing && r.landing[k] == disk.landing[k])
      && (forall k :: k in r.landing ==> k in disk.landing)
      && (forall p :: p in r.bronze ==>
            p in disk.bronze || exists f :: IsArchivable(disk.landing, source, f) && p == DestPath(root, source, d, f))
      && (forall p :: p in disk.bronze ==>
            p in r.bronze &&
            (r.bronze[p] == disk.bronze[p] || exists f :: IsArchivable(disk.landing, source, f) && p == DestPath(root, source, d, f)))
  {
  }

  /** Moving no regular file changes nothing. */
  lemma MoveFilesNothing(disk: Disk, root: string, source: string, d: UtcDate, names: set<string>)
    requires forall f :: f in names ==> !IsArchivable(disk.landing, source, f)
    ensures MoveFiles(disk, root, source, d, names) == disk
  {
    assert Moved(disk.landing, root, source, d, names) == map[];
    assert Remaining(disk.landing, source, names) == disk.landing;
  }

  /**
   * A second run with no new landing files moves nothing, on whatever date
   * it runs: archiving is idempotent.
   */
  lemma {:induction false} ArchiveIdempotent(disk: Disk, root: string, source: string, d: UtcDate, d': UtcDate)
    ensures Archive(Archive(disk, root, source, d), root, source, d') == Archive(disk, root, source, d)
  {
    var once := Archive(disk, root, source, d);
    ArchiveEffect(disk, root, source, d);
    if source in disk.landingDirs {
      forall f | f in ListDir(once.landing, source) ensures !IsArchivable(once.landing, source, f) {
        assert (source, f) in disk.landing;
        assert !disk.landing[(source, f)].RegularFile?;
      }
      MoveFilesNothing(once, root, source, d', ListDir(once.landing, source));
    }
  }

  /** Removing the regular files among `a`, then those among `b`, removes those among both. */
  lemma RemainingTwice(landing: map<(string, string), Entry>, source: string, a: set<string>, b: set<string>)
    ensures Remaining(Remaining(landing, source, a), source, b) == Remaining(landing, source, a + b)
  {
  }

  /** A file still in landing after the regular files among `a` left is a regular file not among `a`. */
  lemma ArchivableLeft(landing: map<(string, string), Entry>, source: string, a: set<string>, g: string)
    ensures IsArchivable(Remaining(landing, source, a), source, g) <==> IsArchivable(landing, source, g) && g !in a
    ensures IsArchivable(Remaining(landing, source, a), source, g) ==> Remaining(landing, source, a)[(source, g)] == landing[(source, g)]
  {
    if IsArchivable(landing, source, g) && g !in a {
      assert (source, g) in Remaining(landing, source, a);
    }
  }

  /** A path the second move writes, the combined move writes with the same bytes. */
  lemma MovedSecond(landing: map<(string, string), Entry>, root: string, source: string, d: UtcDate, a: set<string>, b: set<string>, p: string)
    requires p in Moved(Remaining(landing, source, a), root, source, d, b)
    ensures p in Moved(landing, root, source, d, a + b)
    ensures Moved(Remaining(landing, source, a), root, source, d, b)[p] == Moved(landing, root, source, d, a + b)[p]
  {
    var g :| g in b && IsArchivable(Remaining(landing, source, a), source, g) && p == DestPath(root, source, d, g);
    ArchivableLeft(landing, source, a, g);
  }

  /** A path the first move writes, the combined move writes with the same bytes. */
  lemma MovedFirst(landing: map<(string, string), Entry>, root: string, source: string, d: UtcDate, a: set<string>, b: set<string>, p: string)
    requires p in Moved(landing, root, source, d, a)
    ensures p in Moved(landing, root, source, d, a + b)
    ensures Moved(landing, root, source, d, a)[p] == Moved(landing, root, source, d, a + b)[p]
  {
    var g :| g in a && IsArchivable(landing, source, g) && p == DestPath(root, source, d, g);
  }

  /** A path the combined move writes, one of the two moves writes. */
  lemma MovedEither(landing: map<(string, string), Entry>, root: string, source: string, d: UtcDate, a: set<string>, b: set<string>, p: string)
    requires p in Moved(landing, root, source, d, a + b)
    ensures p in Moved(landing, root, source, d, a) || p in Moved(Remaining(landing, source, a), root, source, d, b)
  {
    var g :| g in a + b && IsArchivable(landing, source, g) && p == DestPath(root, source, d, g);
    ArchivableLeft(landing, source, a, g);
  }

  /** Two updates that agree with a third, and together cover it, have the same effect on any map. */
  lemma UpdateTwice<K, V>(base: map<K, V>, first: map<K, V>, second: map<K, V>, all: map<K, V>)
    requires forall p :: p in first ==> p in all && first[p] == all[p]
    requires forall p :: p in second ==> p in all && second[p] == all[p]
    requires forall p :: p in all ==> p in first || p in second
    ensures base + first + second == base + all
  {
  }

  /** Moving the files among `a`, then those among `b`, moves the files among both. */
  lemma MoveFilesTwice(disk: Disk, root: string, source: string, d: UtcDate, a: set<string>, b: set<string>)
    ensures MoveFiles(MoveFiles(disk, root, source, d, a), root, source, d, b) == MoveFiles(disk, root, source, d, a + b)
  {
    RemainingTwice(disk.landing, source, a, b);
    var first := Moved(disk.landing, root, source, d, a);
    var second := Moved(Remaining(disk.landing, source, a), root, source, d, b);
    var all := Moved(disk.landing, root, source, d, a + b);
    forall p | p in first ensures p in all && first[p] == all[p] {
      MovedFirst(disk.landing, root, source, d, a, b, p);
    }
    forall p | p in second ensures p in all && second[p] == all[p] {
      MovedSecond(disk.landing, root, source, d, a, b, p);
    }
    forall p | p in all ensures p in first || p in second {
      MovedEither(disk.landing, root, source, d, a, b, p);
    }
    UpdateTwice(disk.bronze, first, second, all);
  }

  /**
   * A run that stopped part way, after moving the files among `done`
   * (a failed `makedirs` or `move`), is completed by running again: the
   * second run leaves the disk as one uninterrupted run would have.
   */
  lemma ArchiveResumes(disk: Disk, root: string, source: string, d: UtcDate, done: set<string>)
    requires source in disk.landingDirs && done <= ListDir(disk.landing, source)
    ensures Archive(MoveFiles(disk, root, source, d, done), root, source, d) == Archive(disk, root, source, d)
  {
    var partial := MoveFiles(disk, root, source, d, done);
    var rest := ListDir(partial.landing, source);
    MoveFilesTwice(disk, root, source, d, done, rest);
    forall f | f in ListDir(disk.landing, source) ensures f in done + rest {
      if f !in done {
        assert (source, f) in partial.landing;
      }
    }
    assert done + rest == ListDir(disk.landing, source);
  }

  /**
   * Archiving two different sources never writes the same bronze path, so
   * neither overwrites a file the other archived.
   */
  lemma SourcesDoNotCollide(root: string, s: string, s': string, d: UtcDate, f: string, f': string)
    requires IsName(s) && IsName(s') && s != s' && IsCalendarDate(d)
    ensures DestPath(root, s, d, f) != DestPath(root, s', d, f')
  {
    if DestPath(root, s, d, f) == DestPath(root, s', d, f') {
      DestPathInjective(root, s, d, f, s', d, f');
    }
  }

  /** One more name for the landing side of the move. */
  lemma RemainingStep(landing: map<(string, string), Entry>, source: string, done: set<string>, f: string)
    requires f !in done
    ensures IsArchivable(Remaining(landing, source, done), source, f) == IsArchivable(landing, source, f)
    ensures IsArchivable(landing, source, f) ==> Remaining(landing, source, done)[(source, f)] == landing[(source, f)]
    ensures Remaining(landing, source, done + {f}) ==
      if IsArchivable(landing, source, f) then Remaining(landing, source, done) - {(source, f)}
      else Remaining(landing, source, done)
  {
    var r := Remaining(landing, source, done);
    if (source, f) in landing {
      assert (source, f) in r;
    }
    if IsArchivable(landing, source, f) {
      assert Remaining(landing, source, done + {f}) == r - {(source, f)};
    } else {
      assert Remaining(landing, source, done + {f}) == r;
    }
  }

  /** One more name for the bronze side of the move. */
  lemma MovedStep(landing: map<(string, string), Entry>, root: string, source: string, d: UtcDate, done: set<string>, f: string)
    requires f !in done
    ensures Moved(landing, root, source, d, done + {f}) ==
      if IsArchivable(landing, source, f)
      then Moved(landing, root, source, d, done)[DestPath(root, source, d, f) := landing[(source, f)].data]
      else Moved(landing, root, source, d, done)
  {
    var before := Moved(landing, root, source, d, done);
    var after := Moved(landing, root, source, d, done + {f});
    if IsArchivable(landing, source, f) {
      var dest := DestPath(root, source, d, f);
      var expected := before[dest := landing[(source, f)].data];
      forall p | p in after ensures p in expected && after[p] == expected[p] {
        var g :| g in done + {f} && IsArchivable(landing, source, g) && p == DestPath(root, source, d, g);
        if g != f {
          assert p in before;
          if p == dest {
            DestPathInjectiveInName(root, source, d, g, f);
          }
        }
      }
      forall p | p in expected ensures p in after {
        if p != dest {
          var g :| g in done && IsArchivable(landing, source, g) && p == DestPath(root, source, d, g);
        }
      }
      assert after == expected;
    } else {
      forall p | p in after ensures p in before && after[p] == before[p] {
        var g :| g in done + {f} && IsArchivable(landing, source, g) && p == DestPath(root, source, d, g);
      }
      forall p | p in before ensures p in after {
        var g :| g in done && IsArchivable(landing, source, g) && p == DestPath(root, source, d, g);
      }
      assert after == before;
    }
  }

  /** One step of the archive loop: moving one more name, if it is a regular file. */
  lemma MoveFilesStep(disk: Disk, root: string, source: string, d: UtcDate, done: set<string>, f: string)
    requires f !in done
    ensures var m := MoveFiles(disk, root, source, d, done);
      MoveFiles(disk, root, source, d, done + {f}) ==
        if IsArchivable(m.landing, source, f)
        then Disk(m.landingDirs, m.landing - {(source, f)}, m.bronze[DestPath(root, source, d, f) := m.landing[(source, f)].data])
        else m
  {
    RemainingStep(disk.landing, source, done, f);
    MovedStep(disk.landing, root, source, d, done, f);
    if IsArchivable(disk.landing, source, f) {
      UpdateAfterUnion(disk.bronze, Moved(disk.landing, root, source, d, done), DestPath(root, source, d, f), disk.landing[(source, f)].data);
    }
  }

  /** The landing and bronze storage, changed in place by the archiver. */
  class FileSystem {
    const bronzeRoot: string
    var landingDirs: set<string>
    var landing: map<(string, string), Entry>
    var bronze: map<string, Bytes>

    /** The current contents of the filesystem, as a value. */
    function State(): Disk
      reads this
    {
      Disk(landingDirs, landing, bronze)
    }

    constructor (bronzeRoot: string, disk: Disk)
      ensures this.bronzeRoot == bronzeRoot && State() == disk
    {
      this.bronzeRoot := bronzeRoot;
      landingDirs := disk.landingDirs;
      landing := disk.landing;
      bronze := disk.bronze;
    }

    /**
     * Moves every regular file of `source`'s landing directory to its
     * partition path for `today`; returns at once when the landing
     * directory does not exist.
     */
    method ArchiveLandingFiles(source: string, today: UtcDate)
      modifies this
      ensures State() == Archive(old(State()), bronzeRoot, source, today)
    {
      if source !in landingDirs {
        return;
      }
      ghost var disk0 := State();
      var pending := ListDir(landing, source);
      ghost var done: set<string> := {};
      MoveFilesNothing(disk0, bronzeRoot, source, today, done);
      while pending != {}
        invariant pending !! done && pending + done == ListDir(disk0.landing, source)
        invariant State() == MoveFiles(disk0, bronzeRoot, source, today, done)
        decreases pending
      {
        var f :| f in pending;
        MoveFilesStep(disk0, bronzeRoot, source, today, done, f);
        if (source, f) in landing && landing[(source, f)].RegularFile? {
          var dest := DestPath(bronzeRoot, source, today, f);
          bronze := bronze[dest := landing[(source, f)].data];
          landing := landing - {(source, f)};
        }
        pending := pending - {f};
        done := done + {f};
      }
    }

    /** Archives `apt1`, `apt2` and `weather`, in that order. */
    method ArchiveAllSources(today: UtcDate)
      modifies this
      ensures State() == Archive(Archive(Archive(old(State()), bronzeRoot, Sources[0], today),
                                         bronzeRoot, Sources[1], today), bronzeRoot, Sources[2], today)
    {
      for i := 0 to |Sources|
        invariant State() == ArchiveEach(old(State()), bronzeRoot, Sources[..i], today)
      {
        assert Sources[..i + 1] == Sources[..i] + [Sources[i]];
        ArchiveEachSnoc(old(State()), bronzeRoot, Sources[..i], Sources[i], today);
        ArchiveLandingFiles(Sources[i], today);
      }
      assert Sources[..3] == Sources;
      assert Sources[..2] == [Sources[0], Sources[1]];
      assert Sources[..1] == [Sources[0]];
      ArchiveEachSnoc(old(State()), bronzeRoot, [Sources[0], Sources[1]], Sources[2], today);
      ArchiveEachSnoc(old(State()), bronzeRoot, [Sources[0]], Sources[1], today);
      ArchiveEachSnoc(old(State()), bronzeRoot, [], Sources[0], today);
    }
  }

  /** Archiving a list of sources one after another. */
  function ArchiveEach(disk: Disk, root: string, sources: seq<string>, d: UtcDate): Disk
    decreases |sources|
  {
    if sources == [] then disk
    else ArchiveEach(Archive(disk, root, sources[0], d), root, sources[1..], d)
  }

  /** Archiving one more source after a list. */
  lemma {:induction false} ArchiveEachSnoc(disk: Disk, root: string, sources: seq<string>, s: string, d: UtcDate)
    ensures ArchiveEach(disk, root, sources + [s], d) == Archive(ArchiveEach(disk, root, sources, d), root, s, d)
    decreases |sources|
  {
    if sources != [] {
      assert (sources + [s])[1..] == sources[1..] + [s];
      ArchiveEachSnoc(Archive(disk, root, sources[0], d), root, sources[1..], s, d);
    }
  }
}
