/**
 * Gold layer: three GROUP BY queries over the silver rows, keyed by
 * (apt_id, time bucket), whose results are written with INSERT OR REPLACE
 * into the fact tables. Aggregates follow SQL: NULL inputs are skipped, and
 * an aggregate over no non-NULL input is NULL.
 */
module GoldAggregate {
  import opened Common
  import opened SilverTransform

  /** `strftime('%Y-%m-%dT%H', ts)` keeps the first 13 characters of an ISO timestamp. */
  const HourWidth: nat := 13
  /** `strftime('%Y-%m-%d', ts)` keeps the first 10 characters of an ISO timestamp. */
  const DateWidth: nat := 10

  /** A composite primary key of a fact table: (apt_id, hour) or (apt_id, date). */
  type GroupKey = (string, string)

  /** The group a silver row falls into when timestamps are cut to `width` characters. */
  function GroupOf(r: Reading, width: nat): GroupKey {
    (r.aptId, Take(r.ts, width))
  }

  /** Some silver row falls into group `k`. */
  predicate Occurs(silver: seq<Reading>, k: GroupKey, width: nat) {
    exists i :: 0 <= i < |silver| && GroupOf(silver[i], width) == k
  }

  /** The distinct groups of the silver rows, in order of first appearance. */
  function GroupKeys(silver: seq<Reading>, width: nat): (keys: seq<GroupKey>)
    ensures forall i, j :: 0 <= i < j < |keys| ==> keys[i] != keys[j]
    ensures forall k :: k in keys <==> Occurs(silver, k, width)
  {
    if silver == [] then []
    else
      var init := silver[..|silver| - 1];
      var k := GroupOf(silver[|silver| - 1], width);
      var keys := GroupKeys(init, width);
      assert forall k' :: Occurs(silver, k', width) <==> Occurs(init, k', width) || k' == k by {
        forall k' | Occurs(silver, k', width) && k' != k ensures Occurs(init, k', width) {
          var i :| 0 <= i < |silver| && GroupOf(silver[i], width) == k';
          assert init[i] == silver[i];
        }
        forall k' | Occurs(init, k', width) ensures Occurs(silver, k', width) {
          var i :| 0 <= i < |init| && GroupOf(init[i], width) == k';
          assert silver[i] == init[i];
        }
      }
      if k in keys then keys else keys + [k]
  }

  /** The silver rows of group `k`, in table order. */
  function Members(silver: seq<Reading>, k: GroupKey, width: nat): (group: seq<Reading>)
    ensures forall r :: r in group <==> r in silver && GroupOf(r, width) == k
    ensures Occurs(silver, k, width) ==> group != []
  {
    if silver == [] then []
    else
      var rest := Members(silver[1..], k, width);
      assert forall r :: r in silver <==> r == silver[0] || r in silver[1..];
      assert Occurs(silver, k, width) ==> GroupOf(silver[0], width) == k || Occurs(silver[1..], k, width) by {
        if Occurs(silver, k, width) && GroupOf(silver[0], width) != k {
          var i :| 0 <= i < |silver| && GroupOf(silver[i], width) == k;
          assert silver[1..][i - 1] == silver[i];
        }
      }
      if GroupOf(silver[0], width) == k then [silver[0]] + rest else rest
  }

  /**
   * A GROUP BY query: one result row per distinct group, in order of first
   * appearance, holding the aggregate of that group's rows.
   */
  function Query<V>(silver: seq<Reading>, width: nat, aggregate: seq<Reading> -> V): (result: seq<(GroupKey, V)>)
    ensures forall i, j :: 0 <= i < j < |result| ==> result[i].0 != result[j].0
    ensures forall k :: (exists i :: 0 <= i < |result| && result[i].0 == k) <==> Occurs(silver, k, width)
    ensures forall i :: 0 <= i < |result| ==> result[i].1 == aggregate(Members(silver, result[i].0, width))
  {
    var keys := GroupKeys(silver, width);
    var result := seq(|keys|, i requires 0 <= i < |keys| => (keys[i], aggregate(Members(silver, keys[i], width))));
    assert forall k :: (exists i :: 0 <= i < |result| && result[i].0 == k) <==> k in keys by {
      forall k | k in keys ensures exists i :: 0 <= i < |result| && result[i].0 == k {
        var i :| 0 <= i < |keys| && keys[i] == k;
        assert result[i].0 == k;
      }
    }
    result
  }

  /** SQL `SUM`: the sum of the non-NULL values, or NULL when there is none. */
  function SqlSum(xs: seq<Option<real>>): (r: Option<real>)
    ensures r.None? <==> NonNull(xs) == []
  {
    var values := NonNull(xs);
    if values == [] then None else Some(Sum(values))
  }

  /**
   * One more non-NULL value adds to the sum, starting from 0 when there was
   * none; with `SqlSum([]) == None` and `NullSkipped` this fixes SUM on every
   * column.
   */
  lemma SqlSumSnoc(xs: seq<Option<real>>, x: real)
    ensures SqlSum(xs + [Some(x)]) == Some(SqlSum(xs).GetOr(0.0) + x)
  {
    NonNullAppend(xs, [Some(x)]);
    assert NonNull([Some(x)]) == [x] by {
      assert [Some(x)][1..] == [];
    }
    SumSnoc(NonNull(xs), x);
  }

  /** SQL `AVG`: the mean of the non-NULL values, dividing by their count only, or NULL when there is none. */
  function SqlAvg(xs: seq<Option<real>>): (r: Option<real>)
    ensures r.None? <==> NonNull(xs) == []
    ensures r.Some? ==> r.value * |NonNull(xs)| as real == Sum(NonNull(xs))
  {
    var values := NonNull(xs);
    if values == [] then None else Some(Sum(values) / |values| as real)
  }

  /** A NULL input changes neither SUM nor AVG: NULLs are skipped, not read as zero. */
  lemma NullSkipped(xs: seq<Option<real>>, ys: seq<Option<real>>)
    ensures SqlSum(xs + [None] + ys) == SqlSum(xs + ys)
    ensures SqlAvg(xs + [None] + ys) == SqlAvg(xs + ys)
  {
    NonNullAppend(xs, [None] + ys);
    NonNullAppend(xs, ys);
    assert xs + [None] + ys == xs + ([None] + ys);
    assert NonNull([None] + ys) == NonNull(ys) by {
      assert ([None] + ys)[1..] == ys;
    }
    assert NonNull(xs + [None] + ys) == NonNull(xs + ys);
  }

  /** An average of values within [lo, hi] lies within [lo, hi]. */
  lemma AvgBounds(xs: seq<Option<real>>, lo: real, hi: real)
    requires forall i :: 0 <= i < |xs| && xs[i].Some? ==> lo <= xs[i].value <= hi
    ensures SqlAvg(xs).Some? ==> lo <= SqlAvg(xs).value <= hi
  {
    var values := NonNull(xs);
    NonNullBounds(xs, lo, hi);
    if values != [] {
      MeanBounds(values, lo, hi);
    }
  }

  /** One column of a group of silver rows. */
  function Column(group: seq<Reading>, column: Reading -> Option<real>): (xs: seq<Option<real>>)
    ensures |xs| == |group| && forall i :: 0 <= i < |group| ==> xs[i] == column(group[i])
  {
    seq(|group|, i requires 0 <= i < |group| => column(group[i]))
  }

  /** A row of `fact_energy_hourly` without its key. */
  datatype EnergyHourly = EnergyHourly(totalKwh: Option<real>, avgKwh: Option<real>)
  /** A row of `fact_presence_daily` without its key. */
  datatype PresenceDaily = PresenceDaily(presenceRatio: Option<real>)
  /** A row of `fact_environment_daily` without its key. */
  datatype EnvironmentDaily = EnvironmentDaily(avgTemperature: Option<real>, avgHumidity: Option<real>, avgCo2Ppm: Option<real>)

  /** The `energy_kwh` column. */
  function Kwh(r: Reading): Option<real> { r.energyKwh }
  /** The `presence` column, which is never NULL. */
  function PresenceValue(r: Reading): Option<real> { Some(r.presence as real) }
  /** The `temperature` column. */
  function Temperature(r: Reading): Option<real> { r.temperature }
  /** The `humidity` column. */
  function Humidity(r: Reading): Option<real> { r.humidity }
  /** The `co2_ppm` column. */
  function Co2Ppm(r: Reading): Option<real> { r.co2Ppm }

  /** A column has no non-NULL value exactly when every one of its values is NULL. */
  lemma AllNull(xs: seq<Option<real>>)
    ensures NonNull(xs) == [] <==> forall i :: 0 <= i < |xs| ==> xs[i].None?
  {
    var ys := NonNull(xs);
    if ys != [] {
      assert ys[0] in ys;
    }
    forall i | 0 <= i < |xs| && xs[i].Some? ensures ys != [] {
      assert xs[i].value in ys;
    }
  }

  /**
   * `SUM(energy_kwh), AVG(energy_kwh)` of one group: both are NULL exactly
   * when every reading's energy is NULL.
   */
  function EnergyOf(group: seq<Reading>): (r: EnergyHourly)
    ensures r.totalKwh.None? <==> forall i :: 0 <= i < |group| ==> group[i].energyKwh.None?
    ensures r.avgKwh.None? <==> r.totalKwh.None?
  {
    var kwh := Column(group, Kwh);
    AllNull(kwh);
    EnergyHourly(SqlSum(kwh), SqlAvg(kwh))
  }

  /** `AVG(presence)` of one group: never NULL for a group that has a reading, since presence is never NULL. */
  function PresenceOf(group: seq<Reading>): (r: PresenceDaily)
    ensures r.presenceRatio.Some? <==> group != []
  {
    var xs := Column(group, PresenceValue);
    AllNull(xs);
    assert group != [] ==> xs[0].Some?;
    PresenceDaily(SqlAvg(xs))
  }

  /** `AVG(temperature), AVG(humidity), AVG(co2_ppm)` of one group: each is NULL exactly when that column is NULL in every reading. */
  function EnvironmentOf(group: seq<Reading>): (r: EnvironmentDaily)
    ensures r.avgTemperature.None? <==> forall i :: 0 <= i < |group| ==> group[i].temperature.None?
    ensures r.avgHumidity.None? <==> forall i :: 0 <= i < |group| ==> group[i].humidity.None?
    ensures r.avgCo2Ppm.None? <==> forall i :: 0 <= i < |group| ==> group[i].co2Ppm.None?
  {
    var t, h, c := Column(group, Temperature), Column(group, Humidity), Column(group, Co2Ppm);
    AllNull(t);
    AllNull(h);
    AllNull(c);
    EnvironmentDaily(SqlAvg(t), SqlAvg(h), SqlAvg(c))
  }

  /** The hourly energy query: one row per (apartment, hour) of silver, holding the energy aggregates of that hour's readings. */
  function EnergyHourlyQuery(silver: seq<Reading>): (result: seq<(GroupKey, EnergyHourly)>)
    ensures forall i, j :: 0 <= i < j < |result| ==> result[i].0 != result[j].0
    ensures forall k :: (exists i :: 0 <= i < |result| && result[i].0 == k) <==> Occurs(silver, k, HourWidth)
    ensures forall i :: 0 <= i < |result| ==> result[i].1 == EnergyOf(Members(silver, result[i].0, HourWidth))
  {
    Query(silver, HourWidth, EnergyOf)
  }

  /** The daily presence query: one row per (apartment, day) of silver, holding the presence ratio of that day's readings. */
  function PresenceDailyQuery(silver: seq<Reading>): (result: seq<(GroupKey, PresenceDaily)>)
    ensures forall i, j :: 0 <= i < j < |result| ==> result[i].0 != result[j].0
    ensures forall k :: (exists i :: 0 <= i < |result| && result[i].0 == k) <==> Occurs(silver, k, DateWidth)
    ensures forall i :: 0 <= i < |result| ==> result[i].1 == PresenceOf(Members(silver, result[i].0, DateWidth))
  {
    Query(silver, DateWidth, PresenceOf)
  }

  /** The daily environment query: one row per (apartment, day) of silver, holding the averages of that day's readings. */
  function EnvironmentDailyQuery(silver: seq<Reading>): (result: seq<(GroupKey, EnvironmentDaily)>)
    ensures forall i, j :: 0 <= i < j < |result| ==> result[i].0 != result[j].0
    ensures forall k :: (exists i :: 0 <= i < |result| && result[i].0 == k) <==> Occurs(silver, k, DateWidth)
    ensures forall i :: 0 <= i < |result| ==> result[i].1 == EnvironmentOf(Members(silver, result[i].0, DateWidth))
  {
    Query(silver, DateWidth, EnvironmentOf)
  }

  /**
   * The presence ratio of a day is the fraction of its readings with
   * presence detected: it is never NULL and lies in [0, 1], because every
   * flattened presence value is 0 or 1.
   */
  lemma PresenceRatioBounded(silver: seq<Reading>)
    requires forall r :: r in silver ==> r.presence == 0 || r.presence == 1
    ensures forall i :: 0 <= i < |PresenceDailyQuery(silver)| ==>
      PresenceDailyQuery(silver)[i].1.presenceRatio.Some? &&
      0.0 <= PresenceDailyQuery(silver)[i].1.presenceRatio.value <= 1.0
  {
    var result := PresenceDailyQuery(silver);
    forall i | 0 <= i < |result|
      ensures result[i].1.presenceRatio.Some? && 0.0 <= result[i].1.presenceRatio.value <= 1.0
    {
      var group := Members(silver, result[i].0, DateWidth);
      var xs := Column(group, PresenceValue);
      assert Occurs(silver, result[i].0, DateWidth);
      assert group != [] && Some(group[0].presence as real) in xs;
      AvgBounds(xs, 0.0, 1.0);
    }
  }

  /** INSERT OR REPLACE of each result row in turn. */
  function Upsert<V>(table: map<GroupKey, V>, rows: seq<(GroupKey, V)>): map<GroupKey, V>
    decreases |rows|
  {
    if rows == [] then table
    else Upsert(table, rows[..|rows| - 1])[rows[|rows| - 1].0 := rows[|rows| - 1].1]
  }

  /** Upserting overrides the table with the rows written: keys not written keep their old rows. */
  lemma {:induction false} UpsertOverrides<V>(table: map<GroupKey, V>, rows: seq<(GroupKey, V)>)
    ensures Upsert(table, rows) == table + Upsert(map[], rows)
    decreases |rows|
  {
    if rows != [] {
      var init := rows[..|rows| - 1];
      UpsertOverrides(table, init);
      UpdateAfterUnion(table, Upsert(map[], init), rows[|rows| - 1].0, rows[|rows| - 1].1);
    }
  }

  /** The rows written, as a map: with distinct keys, each key gets its row's value. */
  lemma {:induction false} UpsertWrites<V>(rows: seq<(GroupKey, V)>)
    requires forall i, j :: 0 <= i < j < |rows| ==> rows[i].0 != rows[j].0
    ensures forall k :: k in Upsert(map[], rows) <==> exists i :: 0 <= i < |rows| && rows[i].0 == k
    ensures forall i :: 0 <= i < |rows| ==> Upsert(map[], rows)[rows[i].0] == rows[i].1
    decreases |rows|
  {
    if rows != [] {
      var init := rows[..|rows| - 1];
      UpsertWrites(init);
      forall k | k in Upsert(map[], rows) && k != rows[|rows| - 1].0 ensures exists i :: 0 <= i < |rows| && rows[i].0 == k {
        var i :| 0 <= i < |init| && init[i].0 == k;
        assert rows[i] == init[i];
      }
      forall i | 0 <= i < |rows| ensures Upsert(map[], rows)[rows[i].0] == rows[i].1 {
        if i < |rows| - 1 {
          assert rows[i] == init[i];
        }
      }
    }
  }

  /** Writing the same result twice gives what writing it once gives. */
  lemma UpsertIdempotent<V>(table: map<GroupKey, V>, rows: seq<(GroupKey, V)>)
    ensures Upsert(Upsert(table, rows), rows) == Upsert(table, rows)
  {
    UpsertOverrides(table, rows);
    UpsertOverrides(Upsert(table, rows), rows);
    var w := Upsert(map[], rows);
    assert (table + w) + w == table + w;
  }

  /**
   * When every key of the table is among the keys written, upserting gives
   * exactly the rows written: the old values are all replaced.
   */
  lemma UpsertCovering<V>(table: map<GroupKey, V>, rows: seq<(GroupKey, V)>)
    requires forall k :: k in table ==> k in Upsert(map[], rows)
    ensures Upsert(table, rows) == Upsert(map[], rows)
  {
    UpsertOverrides(table, rows);
  }

  /**
   * After upserting a query result, a group present in silver holds the
   * aggregate of exactly its silver rows, every other key keeps its old row,
   * and no other key appears.
   */
  lemma UpsertQuery<V>(table: map<GroupKey, V>, silver: seq<Reading>, width: nat, aggregate: seq<Reading> -> V)
    ensures forall k :: k in Upsert(table, Query(silver, width, aggregate)) <==> k in table || Occurs(silver, k, width)
    ensures forall k :: Occurs(silver, k, width) ==>
      Upsert(table, Query(silver, width, aggregate))[k] == aggregate(Members(silver, k, width))
    ensures forall k :: k in table && !Occurs(silver, k, width) ==>
      Upsert(table, Query(silver, width, aggregate))[k] == table[k]
  {
    var q := Query(silver, width, aggregate);
    UpsertOverrides(table, q);
    UpsertWrites(q);
    forall k | Occurs(silver, k, width)
      ensures Upsert(table, q)[k] == aggregate(Members(silver, k, width))
    {
      var i :| 0 <= i < |q| && q[i].0 == k;
    }
  }

  /** `executemany` of INSERT OR REPLACE over a fact table. */
  method ExecuteMany<V>(table: map<GroupKey, V>, rows: seq<(GroupKey, V)>) returns (table': map<GroupKey, V>)
    ensures table' == Upsert(table, rows)
  {
    table' := table;
    for i := 0 to |rows|
      invariant table' == Upsert(table, rows[..i])
    {
      assert rows[..i + 1][..i] == rows[..i];
      table' := table'[rows[i].0 := rows[i].1];
    }
    assert rows[..|rows|] == rows;
  }

  /** Groups of a silver table are still groups of every extension of it. */
  lemma OccursExtended(silver: seq<Reading>, silver': seq<Reading>, k: GroupKey, width: nat)
    requires silver <= silver' && Occurs(silver, k, width)
    ensures Occurs(silver', k, width)
  {
    var i :| 0 <= i < |silver| && GroupOf(silver[i], width) == k;
    assert silver'[i] == silver[i];
  }

  /**
   * Rerunning one query after silver has only gained rows replaces every
   * row the earlier run wrote: the table is what a single run on the
   * current silver rows gives.
   */
  lemma RerunReplaces<V>(table: map<GroupKey, V>, silver: seq<Reading>, silver': seq<Reading>, width: nat, aggregate: seq<Reading> -> V)
    requires silver <= silver'
    ensures Upsert(Upsert(table, Query(silver, width, aggregate)), Query(silver', width, aggregate))
         == Upsert(table, Query(silver', width, aggregate))
  {
    var q, q' := Query(silver, width, aggregate), Query(silver', width, aggregate);
    UpsertOverrides(table, q);
    UpsertOverrides(Upsert(table, q), q');
    UpsertOverrides(table, q');
    UpsertWrites(q);
    UpsertWrites(q');
    var w, w' := Upsert(map[], q), Upsert(map[], q');
    forall k | k in w ensures k in w' {
      OccursExtended(silver, silver', k, width);
    }
    UnionAbsorbed(table, w, w');
  }

  /** A later union that covers every key of an earlier one hides it completely. */
  lemma UnionAbsorbed<K, V>(a: map<K, V>, w: map<K, V>, w': map<K, V>)
    requires w.Keys <= w'.Keys
    ensures (a + w) + w' == a + w'
  {
  }

  /** The fact tables of the gold database. */
  datatype FactTable = FactEnergyHourly | FactPresenceDaily | FactEnvironmentDaily

  /** The gold database as a value. */
  datatype Gold = Gold(
    tables: set<FactTable>,
    energyHourly: map<GroupKey, EnergyHourly>,
    presenceDaily: map<GroupKey, PresenceDaily>,
    environmentDaily: map<GroupKey, EnvironmentDaily>)

  /** Every fact table. */
  const AllFactTables: set<FactTable> := {FactEnergyHourly, FactPresenceDaily, FactEnvironmentDaily}

  /** One aggregator run: create the missing tables, then upsert the three query results. */
  function Aggregate(gold: Gold, silver: seq<Reading>): Gold {
    Gold(AllFactTables,
         Upsert(gold.energyHourly, EnergyHourlyQuery(silver)),
         Upsert(gold.presenceDaily, PresenceDailyQuery(silver)),
         Upsert(gold.environmentDaily, EnvironmentDailyQuery(silver)))
  }

  /** Running the aggregator twice on unchanged silver gives the same gold tables as running it once. */
  lemma AggregateIdempotent(gold: Gold, silver: seq<Reading>)
    ensures Aggregate(Aggregate(gold, silver), silver) == Aggregate(gold, silver)
  {
    UpsertIdempotent(gold.energyHourly, EnergyHourlyQuery(silver));
    UpsertIdempotent(gold.presenceDaily, PresenceDailyQuery(silver));
    UpsertIdempotent(gold.environmentDaily, EnvironmentDailyQuery(silver));
  }

  /**
   * Silver only ever gains rows, so a rerun after new rows arrive gives the
   * same gold tables as a single run on the current silver rows.
   */
  lemma AggregateRerun(gold: Gold, silver: seq<Reading>, silver': seq<Reading>)
    requires silver <= silver'
    ensures Aggregate(Aggregate(gold, silver), silver') == Aggregate(gold, silver')
  {
    RerunReplaces(gold.energyHourly, silver, silver', HourWidth, EnergyOf);
    RerunReplaces(gold.presenceDaily, silver, silver', DateWidth, PresenceOf);
    RerunReplaces(gold.environmentDaily, silver, silver', DateWidth, EnvironmentOf);
  }

  /** Empty silver upserts nothing: the gold rows stay as they were. */
  lemma AggregateEmpty(gold: Gold)
    ensures var g := Aggregate(gold, []);
      g.energyHourly == gold.energyHourly && g.presenceDaily == gold.presenceDaily &&
      g.environmentDaily == gold.environmentDaily
  {
    assert EnergyHourlyQuery([]) == [];
    assert PresenceDailyQuery([]) == [];
    assert EnvironmentDailyQuery([]) == [];
  }

  /** Rows of several groups split into the rows of each part. */
  lemma {:induction false} MembersAppend(a: seq<Reading>, b: seq<Reading>, k: GroupKey, width: nat)
    ensures Members(a + b, k, width) == Members(a, k, width) + Members(b, k, width)
  {
    if a == [] {
      assert a + b == b;
    } else {
      assert (a + b)[0] == a[0] && (a + b)[1..] == a[1..] + b;
      MembersAppend(a[1..], b, k, width);
    }
  }

  /** The members of a one-row table. */
  lemma MembersSingle(r: Reading, k: GroupKey, width: nat)
    ensures Members([r], k, width) == if GroupOf(r, width) == k then [r] else []
  {
    assert [r][1..] == [];
  }

  /** The groups of a table built from two parts are the groups of either part. */
  lemma OccursAppend(a: seq<Reading>, b: seq<Reading>, k: GroupKey, width: nat)
    ensures Occurs(a + b, k, width) <==> Occurs(a, k, width) || Occurs(b, k, width)
  {
    if Occurs(a + b, k, width) {
      var i :| 0 <= i < |a + b| && GroupOf((a + b)[i], width) == k;
      if i >= |a| {
        assert b[i - |a|] == (a + b)[i];
      }
    }
    if Occurs(b, k, width) {
      var i :| 0 <= i < |b| && GroupOf(b[i], width) == k;
      assert (a + b)[|a| + i] == b[i];
    }
    if Occurs(a, k, width) {
      var i :| 0 <= i < |a| && GroupOf(a[i], width) == k;
      assert (a + b)[i] == a[i];
    }
  }

  /** The only group of a one-row table is that row's group. */
  lemma OccursSingle(r: Reading, k: GroupKey, width: nat)
    ensures Occurs([r], k, width) <==> GroupOf(r, width) == k
  {
    if GroupOf(r, width) == k {
      assert [r][0] == r;
    }
  }

  /** A silver row carrying only an energy reading. */
  function EnergyRow(aptId: string, ts: string, kwh: Option<real>): Reading {
    Reading(aptId, ts, kwh, 0, None, None, None)
  }

  /** The hours of the example timestamps. */
  lemma ExampleHours()
    ensures Take("2024-01-01T09:00:00", HourWidth) == "2024-01-01T09"
    ensures Take("2024-01-01T09:30:00", HourWidth) == "2024-01-01T09"
    ensures Take("2024-01-01T10:00:00", HourWidth) == "2024-01-01T10"
  {
    assert "2024-01-01T09:00:00"[..13] == "2024-01-01T09";
    assert "2024-01-01T09:30:00"[..13] == "2024-01-01T09";
    assert "2024-01-01T10:00:00"[..13] == "2024-01-01T10";
  }

  /** The energy aggregate of two readings. */
  lemma EnergyOfPair(r1: Reading, r2: Reading, x: real, y: real)
    requires r1.energyKwh == Some(x) && r2.energyKwh == Some(y)
    ensures EnergyOf([r1, r2]) == EnergyHourly(Some(x + y), Some((x + y) / 2.0))
  {
    var xs := Column([r1, r2], Kwh);
    assert xs == [Some(x), Some(y)];
    assert xs[1..] == [Some(y)] && xs[1..][1..] == [];
    var values := NonNull(xs);
    assert values == [x, y];
    assert values[1..] == [y] && values[1..][1..] == [];
    assert Sum(values[1..][1..]) == 0.0;
    assert Sum(values[1..]) == y;
    assert Sum(values) == x + y;
    assert |values| as real == 2.0;
    assert SqlSum(xs) == Some(x + y);
    assert SqlAvg(xs) == Some((x + y) / 2.0);
  }

  /** The energy aggregate of a reading and a NULL. */
  lemma EnergyOfWithNull(r1: Reading, r2: Reading, x: real)
    requires r1.energyKwh == Some(x) && r2.energyKwh == None
    ensures EnergyOf([r1, r2]) == EnergyHourly(Some(x), Some(x))
  {
    var xs := Column([r1, r2], Kwh);
    assert xs == [Some(x), None];
    assert xs[1..] == [None] && xs[1..][1..] == [];
    assert NonNull(xs) == [x];
    assert [x][1..] == [] && Sum([x]) == x;
  }

  /** The energy aggregate of one reading. */
  lemma EnergyOfOne(r: Reading, x: real)
    requires r.energyKwh == Some(x)
    ensures EnergyOf([r]) == EnergyHourly(Some(x), Some(x))
  {
    var xs := Column([r], Kwh);
    assert xs == [Some(x)];
    assert xs[1..] == [];
    assert NonNull(xs) == [x];
    assert [x][1..] == [] && Sum([x]) == x;
  }

  /** The groups and members of a three-row table whose first two rows share a group. */
  lemma GroupsOfThree(r1: Reading, r2: Reading, r3: Reading, ka: GroupKey, kb: GroupKey, width: nat)
    requires ka != kb && GroupOf(r1, width) == ka && GroupOf(r2, width) == ka && GroupOf(r3, width) == kb
    ensures forall k :: Occurs([r1, r2, r3], k, width) <==> k == ka || k == kb
    ensures Members([r1, r2, r3], ka, width) == [r1, r2]
    ensures Members([r1, r2, r3], kb, width) == [r3]
  {
    var silver := [r1, r2, r3];
    assert silver == [r1] + [r2] + [r3];
    forall k ensures Occurs(silver, k, width) <==> k == ka || k == kb {
      OccursAppend([r1] + [r2], [r3], k, width);
      OccursAppend([r1], [r2], k, width);
      OccursSingle(r1, k, width);
      OccursSingle(r2, k, width);
      OccursSingle(r3, k, width);
    }
    MembersAppend([r1] + [r2], [r3], ka, width);
    MembersAppend([r1], [r2], ka, width);
    MembersAppend([r1] + [r2], [r3], kb, width);
    MembersAppend([r1], [r2], kb, width);
    MembersSingle(r1, ka, width);
    MembersSingle(r2, ka, width);
    MembersSingle(r3, ka, width);
    MembersSingle(r1, kb, width);
    MembersSingle(r2, kb, width);
    MembersSingle(r3, kb, width);
  }

  /** Three readings, the first two in one group and the third in another, roll up into two rows. */
  lemma RollupOfThree(r1: Reading, r2: Reading, r3: Reading, ka: GroupKey, kb: GroupKey, x: real, y: real, z: real)
    requires ka != kb && GroupOf(r1, HourWidth) == ka && GroupOf(r2, HourWidth) == ka && GroupOf(r3, HourWidth) == kb
    requires r1.energyKwh == Some(x) && r2.energyKwh == Some(y) && r3.energyKwh == Some(z)
    ensures Upsert(map[], EnergyHourlyQuery([r1, r2, r3]))
      == map[ka := EnergyHourly(Some(x + y), Some((x + y) / 2.0)), kb := EnergyHourly(Some(z), Some(z))]
  {
    var silver := [r1, r2, r3];
    GroupsOfThree(r1, r2, r3, ka, kb, HourWidth);
    EnergyOfPair(r1, r2, x, y);
    EnergyOfOne(r3, z);
    UpsertQuery(map[], silver, HourWidth, EnergyOf);
    var table := Upsert(map[], EnergyHourlyQuery(silver));
    assert table[ka] == EnergyHourly(Some(x + y), Some((x + y) / 2.0));
    assert table[kb] == EnergyHourly(Some(z), Some(z));
    forall k ensures k in table <==> k == ka || k == kb {
      assert k in table <==> Occurs(silver, k, HourWidth);
    }
    MapOfTwo(table, ka, kb);
  }

  /** A map whose only keys are `a` and `b`. */
  lemma MapOfTwo<K, V>(m: map<K, V>, a: K, b: K)
    requires forall k :: k in m <==> k == a || k == b
    ensures m == map[a := m[a], b := m[b]]
  {
  }

  /** Two readings in one group, the second NULL, roll up into one row that ignores the NULL. */
  lemma RollupWithNull(r1: Reading, r2: Reading, k: GroupKey, x: real)
    requires GroupOf(r1, HourWidth) == k && GroupOf(r2, HourWidth) == k
    requires r1.energyKwh == Some(x) && r2.energyKwh == None
    ensures Upsert(map[], EnergyHourlyQuery([r1, r2])) == map[k := EnergyHourly(Some(x), Some(x))]
  {
    var silver := [r1, r2];
    assert silver == [r1] + [r2];
    forall k' ensures Occurs(silver, k', HourWidth) <==> k' == k {
      OccursAppend([r1], [r2], k', HourWidth);
      OccursSingle(r1, k', HourWidth);
      OccursSingle(r2, k', HourWidth);
    }
    MembersAppend([r1], [r2], k, HourWidth);
    MembersSingle(r1, k, HourWidth);
    MembersSingle(r2, k, HourWidth);
    EnergyOfWithNull(r1, r2, x);
    UpsertQuery(map[], silver, HourWidth, EnergyOf);
  }

  /**
   * Two readings in the same hour are summed and averaged together; a
   * reading in the next hour forms a group of its own.
   */
  lemma HourlyRollupExample()
    ensures Aggregate(Gold({}, map[], map[], map[]),
                      [EnergyRow("apt1", "2024-01-01T09:00:00", Some(2.0)),
                       EnergyRow("apt1", "2024-01-01T09:30:00", Some(4.0)),
                       EnergyRow("apt1", "2024-01-01T10:00:00", Some(1.0))]).energyHourly
        == map[("apt1", "2024-01-01T09") := EnergyHourly(Some(6.0), Some(3.0)),
               ("apt1", "2024-01-01T10") := EnergyHourly(Some(1.0), Some(1.0))]
  {
    ExampleHours();
    RollupOfThree(EnergyRow("apt1", "2024-01-01T09:00:00", Some(2.0)),
                  EnergyRow("apt1", "2024-01-01T09:30:00", Some(4.0)),
                  EnergyRow("apt1", "2024-01-01T10:00:00", Some(1.0)),
                  ("apt1", "2024-01-01T09"), ("apt1", "2024-01-01T10"), 2.0, 4.0, 1.0);
  }

  /** A NULL energy reading is skipped: it counts neither in the sum nor in the divisor of the average. */
  lemma NullEnergyExample()
    ensures Aggregate(Gold({}, map[], map[], map[]),
                      [EnergyRow("apt1", "2024-01-01T09:00:00", Some(10.0)),
                       EnergyRow("apt1", "2024-01-01T09:30:00", None)]).energyHourly
        == map[("apt1", "2024-01-01T09") := EnergyHourly(Some(10.0), Some(10.0))]
  {
    ExampleHours();
    RollupWithNull(EnergyRow("apt1", "2024-01-01T09:00:00", Some(10.0)),
                   EnergyRow("apt1", "2024-01-01T09:30:00", None),
                   ("apt1", "2024-01-01T09"), 10.0);
  }

  /** The gold database, changed in place by the aggregator. */
  class GoldDb {
    var tables: set<FactTable>
    var energyHourly: map<GroupKey, EnergyHourly>
    var presenceDaily: map<GroupKey, PresenceDaily>
    var environmentDaily: map<GroupKey, EnvironmentDaily>

    /** The current contents, as a value. */
    function State(): Gold
      reads this
    {
      Gold(tables, energyHourly, presenceDaily, environmentDaily)
    }

    /** A table that does not exist has no rows. */
    ghost predicate Valid()
      reads this
    {
      (FactEnergyHourly !in tables ==> energyHourly == map[]) &&
      (FactPresenceDaily !in tables ==> presenceDaily == map[]) &&
      (FactEnvironmentDaily !in tables ==> environmentDaily == map[])
    }

    constructor ()
      ensures Valid() && State() == Gold({}, map[], map[], map[])
    {
      tables := {};
      energyHourly, presenceDaily, environmentDaily := map[], map[], map[];
    }

    /** `CREATE TABLE IF NOT EXISTS` for each fact table: creating them again changes nothing. */
    method EnsureGoldTables()
      requires Valid()
      modifies this
      ensures Valid() && State() == old(State()).(tables := AllFactTables)
    {
      tables := AllFactTables;
    }

    /** Upserts the hourly energy rollup of `silver`; returns the number of rows written. */
    method BuildEnergyHourly(silver: seq<Reading>) returns (upserted: nat)
      requires Valid() && FactEnergyHourly in tables
      modifies this
      ensures Valid() && State() == old(State()).(energyHourly := Upsert(old(energyHourly), EnergyHourlyQuery(silver)))
      ensures upserted == |GroupKeys(silver, HourWidth)|
    {
      var rows := EnergyHourlyQuery(silver);
      energyHourly := ExecuteMany(energyHourly, rows);
      upserted := |rows|;
    }

    /** Upserts the daily presence rollup of `silver`; returns the number of rows written. */
    method BuildPresenceDaily(silver: seq<Reading>) returns (upserted: nat)
      requires Valid() && FactPresenceDaily in tables
      modifies this
      ensures Valid() && State() == old(State()).(presenceDaily := Upsert(old(presenceDaily), PresenceDailyQuery(silver)))
      ensures upserted == |GroupKeys(silver, DateWidth)|
    {
      var rows := PresenceDailyQuery(silver);
      presenceDaily := ExecuteMany(presenceDaily, rows);
      upserted := |rows|;
    }

    /** Upserts the daily environment rollup of `silver`; returns the number of rows written. */
    method BuildEnvironmentDaily(silver: seq<Reading>) returns (upserted: nat)
      requires Valid() && FactEnvironmentDaily in tables
      modifies this
      ensures Valid() && State() == old(State()).(environmentDaily := Upsert(old(environmentDaily), EnvironmentDailyQuery(silver)))
      ensures upserted == |GroupKeys(silver, DateWidth)|
    {
      var rows := EnvironmentDailyQuery(silver);
      environmentDaily := ExecuteMany(environmentDaily, rows);
      upserted := |rows|;
    }

    /** One aggregator run over the current silver rows. */
    method AggregateAll(silver: seq<Reading>)
      requires Valid()
      modifies this
      ensures Valid() && State() == Aggregate(old(State()), silver)
    {
      EnsureGoldTables();
      var n := BuildEnergyHourly(silver);
      n := BuildPresenceDaily(silver);
      n := BuildEnvironmentDaily(silver);
    }
  }
}
