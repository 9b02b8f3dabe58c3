/** The percentage lines of the summary, as (numerator, denominator) pairs.
    Python's `/` raises ZeroDivisionError on a zero divisor, and the script
    divides without checking; `RatesAsWritten` keeps that behaviour and
    `Rates` is the guarded version. */
module Report {
  import opened Wrappers
  import opened Aggregator

  /** A share printed as a percentage: `num` out of `den`. */
  datatype Ratio = Ratio(num: nat, den: nat)

  /** An uncaught ZeroDivisionError raised by the division on `line` of the
      script. */
  datatype Crash = ZeroDivision(line: nat)

  /** The seven shares of the summary, in the order they are printed. */
  datatype Shares<R> = Shares(
    failed: R, newAlerts: R, noAlerts: R,
    newAlertsDefault: R, noAlertsDefault: R,
    newAlertsOther: R, noAlertsOther: R)

  /** The seven pairs, before any division. */
  function Pairs(t: Tally, total: nat): (p: Shares<Ratio>)
    ensures CountsConsistent(t, total) ==> p.failed.num <= p.failed.den
    ensures p.newAlerts.num + p.noAlerts.num == p.newAlerts.den == p.noAlerts.den
    ensures p.newAlertsDefault.num + p.noAlertsDefault.num == p.newAlertsDefault.den == p.noAlertsDefault.den
    ensures p.newAlertsOther.num + p.noAlertsOther.num == p.newAlertsOther.den == p.noAlertsOther.den
    ensures p.newAlertsDefault.den + p.newAlertsOther.den == p.newAlerts.den
  {
    var s := Breakdown(t);
    var executed := |t.newAlerts| + |t.noAlerts|;
    Shares(
      Ratio(|t.failed|, total),
      Ratio(|t.newAlerts|, executed), Ratio(|t.noAlerts|, executed),
      Ratio(s.newAlertsDefault, s.executedDefault), Ratio(s.noAlertsDefault, s.executedDefault),
      Ratio(s.newAlertsOther, s.executedOther), Ratio(s.noAlertsOther, s.executedOther))
  }

  /** One unguarded division. */
  function Divide(r: Ratio, line: nat): (d: Result<Ratio, Crash>)
    ensures d.Success? <==> r.den > 0
    ensures d.Success? ==> d.value == r
    ensures d.Failure? ==> d.error == ZeroDivision(line)
  {
    if r.den == 0 then Failure(ZeroDivision(line)) else Success(r)
  }

  /** The percentage lines as the script computes them: the first division
      by zero, in print order, ends the run. They get through only when at
      least one combo ran and both a default-encoder and an other-encoder
      combo ran; the shares of the no-alerts groups never crash first, since
      each shares its denominator with the new-alerts share printed before
      it. */
  function RatesAsWritten(t: Tally, total: nat): (r: Result<Shares<Ratio>, Crash>)
    ensures r.Success? <==>
      total > 0 && Breakdown(t).executedDefault > 0 && Breakdown(t).executedOther > 0
    ensures r.Success? ==> r.value == Pairs(t, total)
    ensures total == 0 ==> r == Failure(ZeroDivision(133))
    ensures total > 0 && t.newAlerts == [] && t.noAlerts == [] ==> r == Failure(ZeroDivision(137))
    ensures total > 0 && (t.newAlerts != [] || t.noAlerts != []) && Breakdown(t).executedDefault == 0
      ==> r == Failure(ZeroDivision(160))
    ensures total > 0 && Breakdown(t).executedDefault > 0 && Breakdown(t).executedOther == 0
      ==> r == Failure(ZeroDivision(180))
  {
    var p := Pairs(t, total);
    var failed :- Divide(p.failed, 133);
    // Lines 138, 171 and 183 divide by the denominator of the line before
    // them, which has just succeeded: those divisions cannot crash.
    var newAlerts :- Divide(p.newAlerts, 137);
    var noAlerts := Divide(p.noAlerts, 138).Extract();
    var newAlertsDefault :- Divide(p.newAlertsDefault, 160);
    var noAlertsDefault := Divide(p.noAlertsDefault, 171).Extract();
    var newAlertsOther :- Divide(p.newAlertsOther, 180);
    var noAlertsOther := Divide(p.noAlertsOther, 183).Extract();
    Success(Shares(failed, newAlerts, noAlerts, newAlertsDefault, noAlertsDefault,
                   newAlertsOther, noAlertsOther))
  }

  /** A run in which every combo failed crashes on the first share of the
      executed combos. */
  lemma AllFailedCrashes(t: Tally, total: nat)
    requires total > 0 && t.newAlerts == [] && t.noAlerts == []
    ensures RatesAsWritten(t, total) == Failure(ZeroDivision(137))
  {
  }

  /** A run whose only combo `a---b` executed without alerts: no combo used
      the default encoder, so the script crashes on line 160. */
  lemma OtherEncoderOnlyCrashes()
    ensures RatesAsWritten(Tally([], [], ["a---b"], multiset{}), 1) == Failure(ZeroDivision(160))
  {
    var t := Tally([], [], ["a---b"], multiset{});
    assert !UsesDefaultEncoder("a---b");
    assert Breakdown(t).executedDefault == 0;
  }

  /** A share that is shown only when its denominator is positive. */
  function Guard(r: Ratio): (g: Option<Ratio>)
    ensures g.Some? <==> r.den > 0
    ensures g.Some? ==> g.value == r
  {
    if r.den == 0 then None else Some(r)
  }

  /** A share, when shown, is a proper fraction of a non-empty group: its
      percentage lies between 0 and 100. */
  predicate Proper(g: Option<Ratio>) {
    g.Some? ==> 0 < g.value.den && g.value.num <= g.value.den
  }

  /** The percentage lines with each division guarded: a share is left out
      exactly when its group is empty, a share shown is its pair, and when
      the closing count check holds every share shown is a proper fraction. */
  function Rates(t: Tally, total: nat): (r: Shares<Option<Ratio>>)
    ensures r.failed.None? <==> total == 0
    ensures r.newAlerts.None? <==> t.newAlerts == [] && t.noAlerts == []
    ensures r.noAlerts.None? <==> t.newAlerts == [] && t.noAlerts == []
    ensures r.newAlertsDefault.None? <==> Breakdown(t).executedDefault == 0
    ensures r.noAlertsDefault.None? <==> Breakdown(t).executedDefault == 0
    ensures r.newAlertsOther.None? <==> Breakdown(t).executedOther == 0
    ensures r.noAlertsOther.None? <==> Breakdown(t).executedOther == 0
    ensures r.failed.Some? ==> r.failed.value == Ratio(|t.failed|, total)
    ensures r.newAlerts.Some? ==> r.newAlerts.value == Ratio(|t.newAlerts|, |t.newAlerts| + |t.noAlerts|)
    ensures r.newAlertsDefault.Some? ==>
      r.newAlertsDefault.value == Ratio(Breakdown(t).newAlertsDefault, Breakdown(t).executedDefault)
    ensures r.noAlerts.Some? ==> r.noAlerts.value == Ratio(|t.noAlerts|, |t.newAlerts| + |t.noAlerts|)
    ensures r.noAlertsDefault.Some? ==>
      r.noAlertsDefault.value == Ratio(Breakdown(t).noAlertsDefault, Breakdown(t).executedDefault)
    ensures r.newAlertsOther.Some? ==>
      r.newAlertsOther.value == Ratio(Breakdown(t).newAlertsOther, Breakdown(t).executedOther)
    ensures r.noAlertsOther.Some? ==>
      r.noAlertsOther.value == Ratio(Breakdown(t).noAlertsOther, Breakdown(t).executedOther)
    ensures CountsConsistent(t, total) ==>
      && Proper(r.failed) && Proper(r.newAlerts) && Proper(r.noAlerts)
      && Proper(r.newAlertsDefault) && Proper(r.noAlertsDefault)
      && Proper(r.newAlertsOther) && Proper(r.noAlertsOther)
  {
    var p := Pairs(t, total);
    Shares(Guard(p.failed), Guard(p.newAlerts), Guard(p.noAlerts),
           Guard(p.newAlertsDefault), Guard(p.noAlertsDefault),
           Guard(p.newAlertsOther), Guard(p.noAlertsOther))
  }

  /** Where the script gets through its percentage lines, the guarded
      version shows every share, with the same values. */
  lemma RatesAgreeWhereDefined(t: Tally, total: nat)
    requires RatesAsWritten(t, total).Success?
    ensures var w := RatesAsWritten(t, total).value;
      Rates(t, total) == Shares(Some(w.failed), Some(w.newAlerts), Some(w.noAlerts),
                                Some(w.newAlertsDefault), Some(w.noAlertsDefault),
                                Some(w.newAlertsOther), Some(w.noAlertsOther))
  {
  }

}
