/**
 * Forecast baselines: a rolling mean over the most recent non-NULL values of
 * a gold series, 24 hourly energy totals or 7 daily presence ratios.
 */
module Forecast {
  import opened Common

  /** The energy model averages at most the last 24 hours. */
  const EnergyHorizon: nat := 24
  /** The presence model averages at most the last 7 days. */
  const PresenceHorizon: nat := 7

  /** A series as loaded from a gold table: (hour or date, value) pairs in key order. */
  type Series = seq<(string, Option<real>)>

  /** A trained model: the empty dictionary, or a rolling mean with the window it used. */
  datatype Model = EmptyModel | RollingMean(window: nat, value: real)

  /** The smaller of two numbers. */
  function Min(a: nat, b: nat): nat {
    if a <= b then a else b
  }

  /** The non-NULL values of a series, in order. */
  function Values(series: Series): (values: seq<real>)
    ensures |values| <= |series|
    ensures forall v :: v in values <==> exists i :: 0 <= i < |series| && series[i].1 == Some(v)
  {
    var column := seq(|series|, i requires 0 <= i < |series| => series[i].1);
    assert forall v :: Some(v) in column <==> exists i :: 0 <= i < |series| && series[i].1 == Some(v) by {
      forall v | exists i :: 0 <= i < |series| && series[i].1 == Some(v) ensures Some(v) in column {
        var i :| 0 <= i < |series| && series[i].1 == Some(v);
        assert column[i] == Some(v);
      }
    }
    NonNull(column)
  }

  /** The values of a series built from two parts are the values of each part. */
  lemma ValuesAppend(a: Series, b: Series)
    ensures Values(a + b) == Values(a) + Values(b)
  {
    var ca := seq(|a|, i requires 0 <= i < |a| => a[i].1);
    var cb := seq(|b|, i requires 0 <= i < |b| => b[i].1);
    var cab := seq(|a + b|, i requires 0 <= i < |a + b| => (a + b)[i].1);
    assert cab == ca + cb;
    NonNullAppend(ca, cb);
  }

  /** The last `n` values, for `n` at most the length. */
  function Last(values: seq<real>, n: nat): (suffix: seq<real>)
    requires n <= |values|
    ensures |suffix| == n && values == values[..|values| - n] + suffix
  {
    values[|values| - n..]
  }

  /**
   * Drops NULLs, then averages the last `min(horizon, n)` of the `n` values
   * left; with no value left the model is empty.
   */
  function TrainRollingMean(series: Series, horizon: nat): (m: Model)
    requires horizon >= 1
    ensures m.EmptyModel? <==> Values(series) == []
    ensures m.RollingMean? ==> 1 <= m.window <= horizon && m.window <= |Values(series)|
    ensures m.RollingMean? ==> m.window == horizon || m.window == |Values(series)|
  {
    var values := Values(series);
    if values == [] then EmptyModel
    else
      var window := Min(horizon, |values|);
      RollingMean(window, Sum(Last(values, window)) / window as real)
  }

  /** `v` added `n` times. */
  function Times(v: real, n: nat): real {
    if n == 0 then 0.0 else Times(v, n - 1) + v
  }

  /** Adding `v` to itself `n` times is multiplying it by `n`. */
  lemma {:induction false} TimesIsProduct(v: real, n: nat)
    ensures Times(v, n) == v * n as real
  {
    if n > 0 {
      TimesIsProduct(v, n - 1);
    }
  }

  /**
   * The value of the model is the mean of the last `window` values: taken
   * `window` times, it adds up to their sum.
   */
  lemma {:induction false} RollingMeanIsMean(series: Series, horizon: nat)
    requires horizon >= 1
    ensures var m := TrainRollingMean(series, horizon);
      m.RollingMean? ==> Times(m.value, m.window) == Sum(Last(Values(series), m.window))
  {
    var m := TrainRollingMean(series, horizon);
    if m.RollingMean? {
      ValueOfModel(series, horizon);
      TimesDivided(Sum(Last(Values(series), m.window)), m.window);
    }
  }

  /** The value of a trained model is the sum of its window divided by the window. */
  lemma ValueOfModel(series: Series, horizon: nat)
    requires horizon >= 1
    ensures var m := TrainRollingMean(series, horizon);
      m.RollingMean? ==> m.value == Sum(Last(Values(series), m.window)) / m.window as real
  {
  }

  /** A total divided by `n`, taken `n` times, is the total. */
  lemma TimesDivided(total: real, n: nat)
    requires n >= 1
    ensures Times(total / n as real, n) == total
  {
    TimesIsProduct(total / n as real, n);
  }

  /** `train_energy_model`: a rolling mean over at most the last 24 non-NULL hourly totals. */
  function TrainEnergyModel(series: Series): (m: Model)
    ensures m.EmptyModel? <==> Values(series) == []
    ensures m.RollingMean? ==> m.window == Min(EnergyHorizon, |Values(series)|) && m.window >= 1
  {
    TrainRollingMean(series, EnergyHorizon)
  }

  /** `train_presence_model`: a rolling mean over at most the last 7 non-NULL daily ratios. */
  function TrainPresenceModel(series: Series): (m: Model)
    ensures m.EmptyModel? <==> Values(series) == []
    ensures m.RollingMean? ==> m.window == Min(PresenceHorizon, |Values(series)|) && m.window >= 1
  {
    TrainRollingMean(series, PresenceHorizon)
  }

  /** `main` saves a model exactly when training did not return the empty one. */
  predicate Saved(m: Model) {
    m.RollingMean?
  }

  /** When the series has no non-NULL value, nothing is saved. */
  lemma NothingSavedForEmptySeries(series: Series)
    requires forall i :: 0 <= i < |series| ==> series[i].1.None?
    ensures !Saved(TrainEnergyModel(series)) && !Saved(TrainPresenceModel(series))
  {
    FirstIsMember(Values(series));
  }

  /** A non-empty sequence has its first element as a member. */
  lemma FirstIsMember<T>(s: seq<T>)
    ensures s != [] ==> s[0] in s
  {
  }

  /** A NULL anywhere in the series changes nothing: NULLs are dropped before the window is taken. */
  lemma NullIgnored(a: Series, key: string, b: Series, horizon: nat)
    requires horizon >= 1
    ensures TrainRollingMean(a + [(key, None)] + b, horizon) == TrainRollingMean(a + b, horizon)
  {
    ValuesAppend(a + [(key, None)], b);
    ValuesAppend(a, [(key, None)]);
    ValuesAppend(a, b);
    ValuesSingle((key, None));
    assert Values(a + [(key, None)] + b) == Values(a + b);
    SameValuesSameModel(a + [(key, None)] + b, a + b, horizon);
  }

  /** Training only looks at the values of a series. */
  lemma SameValuesSameModel(s: Series, s': Series, horizon: nat)
    requires horizon >= 1 && Values(s) == Values(s')
    ensures TrainRollingMean(s, horizon) == TrainRollingMean(s', horizon)
  {
  }

  /** The values of a one-entry series. */
  lemma ValuesSingle(entry: (string, Option<real>))
    ensures Values([entry]) == if entry.1.Some? then [entry.1.value] else []
  {
    var column := seq(1, i requires 0 <= i < 1 => [entry][i].1);
    assert column == [entry.1];
    assert column[1..] == [];
  }

  /** The model only looks at the recent past: older values are ignored once `horizon` newer ones exist. */
  lemma OnlyRecentValuesCount(older: Series, recent: Series, horizon: nat)
    requires horizon >= 1 && |Values(recent)| >= horizon
    ensures TrainRollingMean(older + recent, horizon) == TrainRollingMean(recent, horizon)
  {
    ValuesAppend(older, recent);
    var vs, vr := Values(older + recent), Values(recent);
    assert Last(vs, horizon) == Last(vr, horizon);
  }

  /** The mean lies between the smallest and the largest value of the series. */
  lemma MeanWithinBounds(series: Series, horizon: nat, lo: real, hi: real)
    requires horizon >= 1
    requires forall i :: 0 <= i < |series| && series[i].1.Some? ==> lo <= series[i].1.value <= hi
    ensures TrainRollingMean(series, horizon).RollingMean? ==> lo <= TrainRollingMean(series, horizon).value <= hi
  {
    var values := Values(series);
    if values != [] {
      var window := Min(horizon, |values|);
      var recent := Last(values, window);
      forall j | 0 <= j < |recent| ensures lo <= recent[j] <= hi {
        assert recent[j] in values;
      }
      MeanBounds(recent, lo, hi);
    }
  }

  /** Presence ratios lie in [0, 1], so the presence forecast does too. */
  lemma PresenceForecastIsRatio(series: Series)
    requires forall i :: 0 <= i < |series| && series[i].1.Some? ==> 0.0 <= series[i].1.value <= 1.0
    ensures TrainPresenceModel(series).RollingMean? ==> 0.0 <= TrainPresenceModel(series).value <= 1.0
  {
    MeanWithinBounds(series, PresenceHorizon, 0.0, 1.0);
  }

  /** A constant series is forecast as that constant. */
  lemma ConstantSeries(series: Series, c: real, horizon: nat)
    requires horizon >= 1
    requires forall i :: 0 <= i < |series| ==> series[i].1 == Some(c)
    ensures series != [] ==> TrainRollingMean(series, horizon) == RollingMean(Min(horizon, |series|), c)
  {
    MeanWithinBounds(series, horizon, c, c);
    if series != [] {
      assert series[0].1 == Some(c);
      ValuesOfTotal(series);
    }
  }

  /** A series without NULLs keeps all its values. */
  lemma {:induction false} ValuesOfTotal(series: Series)
    requires forall i :: 0 <= i < |series| ==> series[i].1.Some?
    ensures |Values(series)| == |series|
  {
    if series != [] {
      var init := series[..|series| - 1];
      ValuesOfTotal(init);
      ValuesAppend(init, [series[|series| - 1]]);
      assert init + [series[|series| - 1]] == series;
      ValuesSingle(series[|series| - 1]);
    }
  }
}
