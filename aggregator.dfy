/** The pass over all combos: each lands in one of three lists (failed,
    new alerts, no alerts), the distinct new alerts of each combo feed a
    counter, and each list is split by default versus other encoder. */
module Aggregator {
  import opened Wrappers
  import opened Text
  import opened Errors
  import opened Identity
  import opened ExecutionLog
  import opened Classifier

  /** The three lists of combo names and the counter of new alerts. */
  datatype Tally = Tally(
    failed: seq<string>,
    newAlerts: seq<string>,
    noAlerts: seq<string>,
    totalNewAlerts: multiset<string>)

  datatype Kind = FailedKind | NewAlertsKind | NoAlertsKind

  function KindOf(o: Outcome): Kind {
    match o
    case Failed => FailedKind
    case NewAlerts(_) => NewAlertsKind
    case NoAlerts => NoAlertsKind
  }

  /** The names of the combos, in order. */
  function Names(cs: seq<Combo>): (names: seq<string>)
    ensures |names| == |cs|
  {
    if cs == [] then [] else Names(cs[..|cs| - 1]) + [cs[|cs| - 1].name]
  }

  // ---------------------------------------------------------------------
  // Specification of the pass
  // ---------------------------------------------------------------------

  /** The result of classifying each combo on its own. */
  function Results(cs: seq<Combo>, blocks: seq<string>, ignore: seq<string>): (rs: seq<Result<Outcome, Abort>>)
    ensures |rs| == |cs|
    ensures forall i :: 0 <= i < |cs| ==> rs[i] == ClassifyCombo(cs[i], blocks, ignore)
  {
    seq(|cs|, i requires 0 <= i < |cs| => ClassifyCombo(cs[i], blocks, ignore))
  }

  /** Runs through the results in order: all the values when every one
      succeeds, else the error of the first that fails. */
  function Collect<T, E>(rs: seq<Result<T, E>>): (r: Result<seq<T>, E>)
    ensures r.Success? <==> forall i :: 0 <= i < |rs| ==> rs[i].Success?
    ensures r.Success? ==> |r.value| == |rs|
    ensures r.Success? ==> forall i :: 0 <= i < |rs| ==> rs[i] == Success(r.value[i])
  {
    if rs == [] then Success([])
    else
      var n := |rs| - 1;
      var vs :- Collect(rs[..n]);
      var v :- rs[n];
      Success(vs + [v])
  }

  /** The outcome of every combo, in order, or the stop caused by the first
      combo that stops the run. */
  function Classified(cs: seq<Combo>, blocks: seq<string>, ignore: seq<string>): (r: Result<seq<Outcome>, Abort>)
    ensures r.Success? <==> forall i :: 0 <= i < |cs| ==> ClassifyCombo(cs[i], blocks, ignore).Success?
    ensures r.Success? ==> |r.value| == |cs|
    ensures r.Success? ==>
      forall i :: 0 <= i < |cs| ==> ClassifyCombo(cs[i], blocks, ignore) == Success(r.value[i])
  {
    Collect(Results(cs, blocks, ignore))
  }

  /** When the collection stops, it stops with the error of the first result
      that fails; every result before it succeeded. */
  lemma {:induction false} CollectStops<T, E>(rs: seq<Result<T, E>>)
    requires Collect(rs).Failure?
    ensures exists i ::
              && 0 <= i < |rs|
              && rs[i] == Failure(Collect(rs).error)
              && forall j :: 0 <= j < i ==> rs[j].Success?
  {
    var n := |rs| - 1;
    var pre := Collect(rs[..n]);
    if pre.Failure? {
      CollectStops(rs[..n]);
      var i :| 0 <= i < n && rs[..n][i] == Failure(pre.error)
        && forall j :: 0 <= j < i ==> rs[..n][j].Success?;
      assert forall j :: 0 <= j <= i ==> rs[..n][j] == rs[j];
    } else {
      assert forall j :: 0 <= j < n ==> rs[..n][j] == rs[j];
    }
  }

  /** A successful prefix followed by one more success collects both. */
  lemma CollectGrows<T, E>(rs: seq<Result<T, E>>, i: nat, vs: seq<T>, v: T)
    requires i < |rs| && Collect(rs[..i]) == Success(vs) && rs[i] == Success(v)
    ensures Collect(rs[..i + 1]) == Success(vs + [v])
  {
    assert rs[..i + 1][..i] == rs[..i];
  }

  /** A successful prefix followed by a failure stops with that failure. */
  lemma {:induction false} CollectStopsAt<T, E>(rs: seq<Result<T, E>>, i: nat)
    requires i < |rs| && Collect(rs[..i]).Success? && rs[i].Failure?
    ensures Collect(rs) == Failure(rs[i].error)
  {
    CollectStops(rs);
    var i' :| 0 <= i' < |rs| && rs[i'] == Failure(Collect(rs).error)
      && forall j :: 0 <= j < i' ==> rs[j].Success?;
  }

  /** The run stops at the first combo that cannot be classified, with that
      combo's error, whatever the combos after it hold. */
  lemma RunStopsAtFirstBadCombo(cs: seq<Combo>, blocks: seq<string>, ignore: seq<string>, i: nat)
    requires i < |cs|
    requires forall j :: 0 <= j < i ==> ClassifyCombo(cs[j], blocks, ignore).Success?
    requires ClassifyCombo(cs[i], blocks, ignore).Failure?
    ensures Classified(cs, blocks, ignore) == Failure(ClassifyCombo(cs[i], blocks, ignore).error)
  {
    var rs := Results(cs, blocks, ignore);
    assert forall j :: 0 <= j < i ==> rs[..i][j] == rs[j];
    CollectStopsAt(rs, i);
  }

  /** Appends a combo to the list of its outcome; a combo with new alerts
      also adds each of its distinct new alerts once to the counter. */
  function Record(t: Tally, name: string, o: Outcome): (r: Tally)
    ensures r.failed == t.failed + (if KindOf(o) == FailedKind then [name] else [])
    ensures r.newAlerts == t.newAlerts + (if KindOf(o) == NewAlertsKind then [name] else [])
    ensures r.noAlerts == t.noAlerts + (if KindOf(o) == NoAlertsKind then [name] else [])
    ensures forall a ::
      r.totalNewAlerts[a] == t.totalNewAlerts[a] + (if o.NewAlerts? && a in o.alerts then 1 else 0)
  {
    match o
    case Failed => t.(failed := t.failed + [name])
    case NoAlerts => t.(noAlerts := t.noAlerts + [name])
    case NewAlerts(alerts) =>
      t.(newAlerts := t.newAlerts + [name], totalNewAlerts := t.totalNewAlerts + multiset(alerts))
  }

  /** How many combos have `a` among their new alerts. */
  function Carriers(os: seq<Outcome>, a: string): (n: nat)
    ensures n <= |os|
  {
    if os == [] then 0
    else
      var m := |os| - 1;
      Carriers(os[..m], a) + (if os[m].NewAlerts? && a in os[m].alerts then 1 else 0)
  }

  /** The lists and counter after recording every combo, in order. */
  function Aggregate(cs: seq<Combo>, os: seq<Outcome>): (t: Tally)
    requires |cs| == |os|
    ensures forall a :: t.totalNewAlerts[a] == Carriers(os, a)
  {
    if cs == [] then Tally([], [], [], multiset{})
    else
      var n := |cs| - 1;
      Record(Aggregate(cs[..n], os[..n]), cs[n].name, os[n])
  }

  /** The names of the combos whose outcome is of kind `k`, in order. */
  function Bucket(cs: seq<Combo>, os: seq<Outcome>, k: Kind): (names: seq<string>)
    requires |cs| == |os|
  {
    if cs == [] then []
    else
      var n := |cs| - 1;
      Bucket(cs[..n], os[..n], k) + (if KindOf(os[n]) == k then [cs[n].name] else [])
  }

  // ---------------------------------------------------------------------
  // What the pass guarantees
  // ---------------------------------------------------------------------

  /** Each list holds exactly the combos whose outcome is of its kind, in
      the order the combos were processed. */
  lemma {:induction false} AggregateBuckets(cs: seq<Combo>, os: seq<Outcome>)
    requires |cs| == |os|
    ensures Aggregate(cs, os).failed == Bucket(cs, os, FailedKind)
    ensures Aggregate(cs, os).newAlerts == Bucket(cs, os, NewAlertsKind)
    ensures Aggregate(cs, os).noAlerts == Bucket(cs, os, NoAlertsKind)
  {
    if cs != [] {
      var n := |cs| - 1;
      AggregateBuckets(cs[..n], os[..n]);
    }
  }

  /** A bucket grows by the last combo exactly when its outcome is of the
      bucket's kind. */
  lemma BucketStep(cs: seq<Combo>, os: seq<Outcome>, k: Kind)
    requires |cs| == |os| && cs != []
    ensures var n := |cs| - 1;
      multiset(Bucket(cs, os, k)) == multiset(Bucket(cs[..n], os[..n], k))
        + (if KindOf(os[n]) == k then multiset{cs[n].name} else multiset{})
  {
  }

  /** The three buckets partition the combos: together they hold every
      combo name exactly as often as the combos do. */
  lemma {:induction false} BucketsPartition(cs: seq<Combo>, os: seq<Outcome>)
    requires |cs| == |os|
    ensures multiset(Bucket(cs, os, FailedKind)) + multiset(Bucket(cs, os, NewAlertsKind))
      + multiset(Bucket(cs, os, NoAlertsKind)) == multiset(Names(cs))
  {
    if cs != [] {
      var n := |cs| - 1;
      var pre, last := cs[..n], cs[n].name;
      BucketsPartition(pre, os[..n]);
      var mf := multiset(Bucket(pre, os[..n], FailedKind));
      var ma := multiset(Bucket(pre, os[..n], NewAlertsKind));
      var mz := multiset(Bucket(pre, os[..n], NoAlertsKind));
      assert multiset(Names(cs)) == mf + ma + mz + multiset{last} by {
        assert Names(cs) == Names(pre) + [last];
      }
      BucketStep(cs, os, FailedKind);
      BucketStep(cs, os, NewAlertsKind);
      BucketStep(cs, os, NoAlertsKind);
    }
  }

  /** Hence the sizes of the three buckets sum to the number of combos. */
  lemma BucketSizes(cs: seq<Combo>, os: seq<Outcome>)
    requires |cs| == |os|
    ensures |Bucket(cs, os, FailedKind)| + |Bucket(cs, os, NewAlertsKind)|
      + |Bucket(cs, os, NoAlertsKind)| == |cs|
  {
    BucketsPartition(cs, os);
    var f, a, z := Bucket(cs, os, FailedKind), Bucket(cs, os, NewAlertsKind), Bucket(cs, os, NoAlertsKind);
    assert |multiset(f) + multiset(a) + multiset(z)| == |f| + |a| + |z|;
  }

  /** No alert is counted more often than there are combos with new alerts. */
  lemma {:induction false} FrequencyBounded(cs: seq<Combo>, os: seq<Outcome>, a: string)
    requires |cs| == |os|
    ensures Aggregate(cs, os).totalNewAlerts[a] <= |Aggregate(cs, os).newAlerts|
  {
    if cs != [] {
      var n := |cs| - 1;
      FrequencyBounded(cs[..n], os[..n], a);
    }
  }

  /** The script's closing check, that the three lists together are as long
      as the list of all combos. */
  predicate CountsConsistent(t: Tally, total: nat) {
    |t.newAlerts| + |t.noAlerts| + |t.failed| == total
  }

  /** The check never fails: whenever the pass completes, every combo has
      been counted exactly once. */
  lemma {:induction false} CountsAlwaysConsistent(cs: seq<Combo>, blocks: seq<string>, ignore: seq<string>)
    requires Classified(cs, blocks, ignore).Success?
    ensures CountsConsistent(Aggregate(cs, Classified(cs, blocks, ignore).value), |cs|)
  {
    var os := Classified(cs, blocks, ignore).value;
    AggregateBuckets(cs, os);
    BucketSizes(cs, os);
  }

  // ---------------------------------------------------------------------
  // The pass itself
  // ---------------------------------------------------------------------

  /** The loop collecting a combo's alerts that are not on the ignore list,
      in order, repeats kept. */
  method NewAlertsOf(alerts: seq<string>, ignore: seq<string>) returns (novel: seq<string>)
    ensures novel == NotIgnored(alerts, ignore)
    ensures forall a :: a in novel <==> a in alerts && a !in ignore
  {
    novel := [];
    for j := 0 to |alerts|
      invariant novel == NotIgnored(alerts[..j], ignore)
    {
      assert alerts[..j + 1][..j] == alerts[..j];
      if alerts[j] !in ignore {
        novel := novel + [alerts[j]];
      }
    }
    assert alerts[..|alerts|] == alerts;
  }

  /** The body of the script's loop for one combo: find its execution-log
      block, decide whether it failed, and otherwise gather its new alerts. */
  method ClassifyOne(combo: Combo, blocks: seq<string>, ignore: seq<string>) returns (r: Result<Outcome, Abort>)
    ensures r == ClassifyCombo(combo, blocks, ignore)
  {
    var parsed := Parse(combo.name);
    if parsed.Failure? {
      return Failure(parsed.error);
    }
    var found := Lookup(parsed.value, blocks);
    if found.Failure? {
      return Failure(found.error);
    }
    var block := found.value;
    if IsFailed(block) {
      return Success(Failed);
    } else if Contains(block, FailureMarker) {
      return Failure(MarkerWithoutFailure(combo.name, block));
    } else if Contains(block, FailedColon) {
      return Failure(FailureWithoutMarker(combo.name, block));
    }
    var novel := NewAlertsOf(Alerts(combo.text), ignore);
    if novel != [] {
      r := Success(NewAlerts(set a | a in novel));
    } else {
      r := Success(NoAlerts);
    }
  }

  /** Recording one more combo extends the aggregate of the ones before. */
  lemma AggregateStep(cs: seq<Combo>, os: seq<Outcome>, i: nat, o: Outcome)
    requires i < |cs| && |os| == i
    ensures Aggregate(cs[..i + 1], os + [o]) == Record(Aggregate(cs[..i], os), cs[i].name, o)
  {
    assert cs[..i + 1][..i] == cs[..i];
    assert (os + [o])[..i] == os;
  }

  /** Walks the combos in order, appending each to the list of its outcome,
      and stops at the first combo whose name, execution-log block or
      failure markers are inconsistent. */
  method ClassifyBatch(combos: seq<Combo>, blocks: seq<string>, ignore: seq<string>) returns (r: Result<Tally, Abort>)
    ensures r.Failure? <==> Classified(combos, blocks, ignore).Failure?
    ensures r.Failure? ==> r.error == Classified(combos, blocks, ignore).error
    ensures r.Success? ==> r.value == Aggregate(combos, Classified(combos, blocks, ignore).value)
  {
    ghost var rs := Results(combos, blocks, ignore);
    var failed: seq<string> := [];
    var newAlerts: seq<string> := [];
    var noAlerts: seq<string> := [];
    var totalNewAlerts: multiset<string> := multiset{};
    ghost var os: seq<Outcome> := [];
    for i := 0 to |combos|
      invariant Collect(rs[..i]) == Success(os)
      invariant Tally(failed, newAlerts, noAlerts, totalNewAlerts) == Aggregate(combos[..i], os)
    {
      var combo := combos[i];
      var outcome := ClassifyOne(combo, blocks, ignore);
      if outcome.Failure? {
        CollectStopsAt(rs, i);
        return Failure(outcome.error);
      }
      ghost var before := Tally(failed, newAlerts, noAlerts, totalNewAlerts);
      match outcome.value {
        case Failed =>
          failed := failed + [combo.name];
        case NewAlerts(unique) =>
          newAlerts := newAlerts + [combo.name];
          totalNewAlerts := totalNewAlerts + multiset(unique);
        case NoAlerts =>
          noAlerts := noAlerts + [combo.name];
      }
      assert Tally(failed, newAlerts, noAlerts, totalNewAlerts) == Record(before, combo.name, outcome.value);
      CollectGrows(rs, i, os, outcome.value);
      AggregateStep(combos, os, i, outcome.value);
      os := os + [outcome.value];
    }
    assert rs[..|combos|] == rs;
    assert combos[..|combos|] == combos;
    r := Success(Tally(failed, newAlerts, noAlerts, totalNewAlerts));
  }

  // ---------------------------------------------------------------------
  // Default versus other encoder
  // ---------------------------------------------------------------------

  const DefaultEncoderMarker: string := "---generic-none"

  /** The script's default-encoder test: a substring test on the name. */
  predicate UsesDefaultEncoder(name: string): (used: bool)
    ensures '/' !in name && Parse(name).Success? && Parse(name).value.encoder == "generic/none" ==> used
  {
    assert '/' !in name && Parse(name).Success? && Parse(name).value.encoder == "generic/none"
      ==> Contains(name, DefaultEncoderMarker) by {
      if '/' !in name && Parse(name).Success? && Parse(name).value.encoder == "generic/none" {
        DefaultEncoderNamePasses(name);
      }
    }
    Contains(name, DefaultEncoderMarker)
  }

  function DefaultCount(names: seq<string>): nat {
    if names == [] then 0
    else
      var n := |names| - 1;
      DefaultCount(names[..n]) + (if UsesDefaultEncoder(names[n]) then 1 else 0)
  }

  function OtherCount(names: seq<string>): nat {
    if names == [] then 0
    else
      var n := |names| - 1;
      OtherCount(names[..n]) + (if UsesDefaultEncoder(names[n]) then 0 else 1)
  }

  /** Every name is counted under exactly one of the two encoder kinds. */
  lemma {:induction false} DefaultPlusOther(names: seq<string>)
    ensures DefaultCount(names) + OtherCount(names) == |names|
  {
    if names != [] {
      DefaultPlusOther(names[..|names| - 1]);
    }
  }

  /** Counting a concatenation counts each part. */
  lemma {:induction false} CountsOfConcat(xs: seq<string>, ys: seq<string>)
    ensures DefaultCount(xs + ys) == DefaultCount(xs) + DefaultCount(ys)
    ensures OtherCount(xs + ys) == OtherCount(xs) + OtherCount(ys)
    decreases |ys|
  {
    if ys == [] {
      assert xs + ys == xs;
    } else {
      var n := |ys| - 1;
      var zs := xs + ys;
      assert zs[..|zs| - 1] == xs + ys[..n];
      assert zs[|zs| - 1] == ys[n];
      CountsOfConcat(xs, ys[..n]);
    }
  }

  /** One of the script's counting loops: how many names use the default
      encoder and how many another one. */
  method CountByEncoder(names: seq<string>) returns (defaultCount: nat, otherCount: nat)
    ensures defaultCount == DefaultCount(names) && otherCount == OtherCount(names)
    ensures defaultCount + otherCount == |names|
  {
    defaultCount, otherCount := 0, 0;
    for i := 0 to |names|
      invariant defaultCount == DefaultCount(names[..i])
      invariant otherCount == OtherCount(names[..i])
      invariant defaultCount + otherCount == i
    {
      assert names[..i + 1][..i] == names[..i];
      if UsesDefaultEncoder(names[i]) {
        defaultCount := defaultCount + 1;
      } else {
        otherCount := otherCount + 1;
      }
    }
    assert names[..|names|] == names;
  }

  /** The six counters of the encoder statistics. */
  datatype EncoderStats = EncoderStats(
    executedDefault: nat, executedOther: nat,
    newAlertsDefault: nat, newAlertsOther: nat,
    noAlertsDefault: nat, noAlertsOther: nat)

  /** The six counters for a tally: the executed, new-alerts and no-alerts
      lists each split by encoder. Each split adds up to its list, and the
      executed split is the sum of the other two. */
  function Breakdown(t: Tally): (s: EncoderStats)
    ensures s.executedDefault + s.executedOther == |t.noAlerts| + |t.newAlerts|
    ensures s.newAlertsDefault + s.newAlertsOther == |t.newAlerts|
    ensures s.noAlertsDefault + s.noAlertsOther == |t.noAlerts|
    ensures s.executedDefault == s.newAlertsDefault + s.noAlertsDefault
    ensures s.executedOther == s.newAlertsOther + s.noAlertsOther
  {
    var executed := t.noAlerts + t.newAlerts;
    CountsOfConcat(t.noAlerts, t.newAlerts);
    DefaultPlusOther(executed);
    DefaultPlusOther(t.newAlerts);
    DefaultPlusOther(t.noAlerts);
    EncoderStats(DefaultCount(executed), OtherCount(executed),
                 DefaultCount(t.newAlerts), OtherCount(t.newAlerts),
                 DefaultCount(t.noAlerts), OtherCount(t.noAlerts))
  }

  /** The script's three counting loops over the executed, new-alerts and
      no-alerts lists. */
  method EncoderBreakdown(t: Tally) returns (s: EncoderStats)
    ensures s == Breakdown(t)
  {
    var executedDefault, executedOther := CountByEncoder(t.noAlerts + t.newAlerts);
    var newAlertsDefault, newAlertsOther := CountByEncoder(t.newAlerts);
    var noAlertsDefault, noAlertsOther := CountByEncoder(t.noAlerts);
    s := EncoderStats(executedDefault, executedOther, newAlertsDefault, newAlertsOther,
                      noAlertsDefault, noAlertsOther);
  }
}
