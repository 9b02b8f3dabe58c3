/** Classification of one combo: did its exploit fail, and if it ran, did
    Snort raise alerts that are not on the ignore list? */
module Classifier {
  import opened Wrappers
  import opened Text
  import opened Errors
  import opened Identity
  import opened ExecutionLog

  /** A combo file: its name (`payload---encoder`) and the Snort alerts it holds. */
  datatype Combo = Combo(name: string, text: string)

  datatype Outcome = Failed | NoAlerts | NewAlerts(alerts: set<string>)

  const FailureMarker: string := "[-]"
  const FailedPhrase: string := " Exploit failed"
  const FailedColon: string := "Exploit failed:"

  // ---------------------------------------------------------------------
  // The failure pattern `\[-\].* Exploit failed`
  // ---------------------------------------------------------------------

  /** The pattern matches inside `line`: a `[-]`, then anything, then
      ` Exploit failed`. */
  ghost predicate FailedMatch(line: string) {
    exists k: nat, j: nat ::
      k + |FailureMarker| <= j && At(line, k, FailureMarker) && At(line, j, FailedPhrase)
  }

  /** Searches the first `[-]` of the line, then ` Exploit failed` after it. */
  predicate FailedOnLine(line: string) {
    match IndexOf(line, FailureMarker, 0)
    case None => false
    case Some(k) => IndexOf(line, FailedPhrase, k + |FailureMarker|).Some?
  }

  /** The search finds a match exactly when the pattern matches the line. */
  lemma FailedOnLineIff(line: string)
    ensures FailedOnLine(line) <==> FailedMatch(line)
  {
    match IndexOf(line, FailureMarker, 0)
    case None =>
    case Some(k) =>
      match IndexOf(line, FailedPhrase, k + |FailureMarker|) {
        case Some(j) =>
          assert At(line, k, FailureMarker) && At(line, j, FailedPhrase);
        case None =>
      }
  }

  /** `re.search` of the failure pattern over a whole block: a `[-]`, then a
      stretch without a newline (Python's `.`), then ` Exploit failed`. */
  ghost predicate FailedInBlock(block: string) {
    exists k: nat, j: nat ::
      && k + |FailureMarker| <= j <= |block|
      && At(block, k, FailureMarker)
      && At(block, j, FailedPhrase)
      && '\n' !in block[k..j]
  }

  /** A failed line of a block is a match in the block. */
  lemma FailedLineInBlock(block: string, line: string)
    requires line in Lines(block) && FailedOnLine(line)
    ensures FailedInBlock(block)
  {
    var k := IndexOf(line, FailureMarker, 0).value;
    var j := IndexOf(line, FailedPhrase, k + |FailureMarker|).value;
    var o := LineOccurs(block, line);
    AtWithin(block, o, line, k, FailureMarker);
    AtWithin(block, o, line, j, FailedPhrase);
    SliceWithin(block, o, line, k, j);
    assert o + k + |FailureMarker| <= o + j <= |block|;
  }

  /** A match in the block lies within one of its lines, which is failed. */
  lemma BlockMatchOnLine(block: string, k: nat, j: nat) returns (line: string)
    requires k + |FailureMarker| <= j <= |block|
    requires At(block, k, FailureMarker) && At(block, j, FailedPhrase)
    requires '\n' !in block[k..j]
    ensures line in Lines(block) && FailedOnLine(line)
  {
    var e := j + |FailedPhrase|;
    assert block[k..e] == block[k..j] + FailedPhrase;
    var o;
    line, o := PartOfSegment(block, "\n", k, e);
    assert At(block, o, line);
    AtInPiece(block, o, line, k, FailureMarker);
    AtInPiece(block, o, line, j, FailedPhrase);
    FailedOnLineIff(line);
  }

  /** `re.search` of the failure pattern in a block. Since `.` does not match
      a newline, a match lies within one line of the block; a failed block
      therefore carries the marker `[-]`. */
  predicate IsFailed(block: string): (failed: bool)
    ensures failed <==> FailedInBlock(block)
    ensures failed ==> Contains(block, FailureMarker)
  {
    var lines := Lines(block);
    var failed := exists i :: 0 <= i < |lines| && FailedOnLine(lines[i]);
    assert failed ==> FailedInBlock(block) by {
      if failed {
        var i :| 0 <= i < |lines| && FailedOnLine(lines[i]);
        FailedLineInBlock(block, lines[i]);
      }
    }
    assert FailedInBlock(block) ==> failed by {
      if FailedInBlock(block) {
        var k: nat, j: nat :| k + |FailureMarker| <= j <= |block|
          && At(block, k, FailureMarker) && At(block, j, FailedPhrase) && '\n' !in block[k..j];
        var line := BlockMatchOnLine(block, k, j);
      }
    }
    failed
  }

  /** A block is failed exactly when the failure pattern matches one of its
      lines. */
  lemma IsFailedIff(block: string)
    ensures IsFailed(block) <==>
      exists i :: 0 <= i < |Lines(block)| && FailedMatch(Lines(block)[i])
  {
    var lines := Lines(block);
    forall i | 0 <= i < |lines| {
      FailedOnLineIff(lines[i]);
    }
  }

  // ---------------------------------------------------------------------
  // Alert extraction: `re.findall('[[**].+[**]]', text)`
  // ---------------------------------------------------------------------

  /** `[` or `*` stands at `p` (the class `[[**]`). */
  predicate Opens(line: string, p: nat) {
    p < |line| && (line[p] == '[' || line[p] == '*')
  }

  /** `*]` stands at `q`. */
  predicate Closes(line: string, q: nat) {
    q + 1 < |line| && line[q] == '*' && line[q + 1] == ']'
  }

  /** `line[p..e]` matches the alert pattern: an opener, at least one
      character, then `*]`. */
  predicate AlertMatch(line: string, p: nat, e: nat) {
    p + 4 <= e && Opens(line, p) && Closes(line, e - 2)
  }

  /** The last `*]` starting before `n`. */
  function LastCloser(line: string, n: nat): (r: Option<nat>)
    requires n <= |line|
    ensures r.Some? ==> r.value < n && Closes(line, r.value)
    ensures r.Some? ==> forall q :: r.value < q < n ==> !Closes(line, q)
    ensures r.None? ==> forall q :: 0 <= q < n ==> !Closes(line, q)
  {
    if n == 0 then None
    else if Closes(line, n - 1) then Some(n - 1)
    else LastCloser(line, n - 1)
  }

  /** The first opener at or after `from` and before `limit`. */
  function FirstOpener(line: string, from: nat, limit: nat): (r: Option<nat>)
    requires from <= limit <= |line|
    ensures r.Some? ==> from <= r.value < limit && Opens(line, r.value)
    ensures r.Some? ==> forall p :: from <= p < r.value ==> !Opens(line, p)
    ensures r.None? ==> forall p :: from <= p < limit ==> !Opens(line, p)
    decreases limit - from
  {
    if from == limit then None
    else if Opens(line, from) then Some(from)
    else FirstOpener(line, from + 1, limit)
  }

  /** Where the pattern matches the line, as the regex engine finds it: the
      leftmost start, extended greedily to the last `*]`. Every match of the
      pattern in the line lies within this one, so `findall`, which resumes
      after it, finds no second alert on the same line. */
  function AlertSpan(line: string): (r: Option<(nat, nat)>)
    ensures r.Some? ==> AlertMatch(line, r.value.0, r.value.1)
    ensures r.Some? ==> forall p: nat, e: nat ::
      AlertMatch(line, p, e) ==> r.value.0 <= p && e <= r.value.1
    ensures r.None? ==> forall p: nat, e: nat :: !AlertMatch(line, p, e)
  {
    match LastCloser(line, |line|)
    case None => None
    case Some(q) =>
      if q < 2 then None
      else
        match FirstOpener(line, 0, q - 1)
        case None => None
        case Some(p) => Some((p, q + 2))
  }

  /** What an alert looks like: at least four characters, starting with `[`
      or `*`, ending with `*]`, and on one line. */
  predicate AlertShaped(a: string) {
    && |a| >= 4
    && (a[0] == '[' || a[0] == '*')
    && a[|a| - 2] == '*' && a[|a| - 1] == ']'
    && '\n' !in a
  }

  /** The alert `findall` takes from one line, if any. */
  function LineAlert(line: string): (r: Option<string>)
    requires '\n' !in line
    ensures r.Some? ==> AlertShaped(r.value) && Contains(line, r.value)
    ensures r.Some? ==> exists p: nat, e: nat ::
      && AlertMatch(line, p, e) && r.value == line[p..e]
      && forall p': nat, e': nat :: AlertMatch(line, p', e') ==> p <= p' && e' <= e
    ensures r.None? <==> forall p: nat, e: nat :: !AlertMatch(line, p, e)
  {
    match AlertSpan(line)
    case None => None
    case Some((p, e)) =>
      var a := line[p..e];
      assert At(line, p, a);
      Some(a)
  }

  /** Greed: a line that starts with an opener and ends with `*]` is one
      alert as a whole, however many bracketed alerts stand inside it. */
  lemma WholeLineIsOneAlert(line: string)
    requires '\n' !in line && |line| >= 4
    requires Opens(line, 0) && Closes(line, |line| - 2)
    ensures LineAlert(line) == Some(line)
  {
    assert AlertMatch(line, 0, |line|);
    var p: nat, e: nat :| AlertMatch(line, p, e) && LineAlert(line).value == line[p..e]
      && forall p': nat, e': nat :: AlertMatch(line, p', e') ==> p <= p' && e' <= e;
    assert line[0..|line|] == line;
  }

  /** The alerts of consecutive lines, in order, at most one per line: the
      alert of every line that has one, and nothing else. */
  function AlertsOfLines(lines: seq<string>): (alerts: seq<string>)
    requires forall i :: 0 <= i < |lines| ==> '\n' !in lines[i]
    ensures |alerts| <= |lines|
    ensures forall i :: 0 <= i < |lines| && LineAlert(lines[i]).Some? ==>
      LineAlert(lines[i]).value in alerts
    ensures forall k :: 0 <= k < |alerts| ==>
      exists i :: 0 <= i < |lines| && LineAlert(lines[i]) == Some(alerts[k])
  {
    if lines == [] then []
    else
      var rest := AlertsOfLines(lines[1..]);
      var here := match LineAlert(lines[0]) case Some(a) => [a] case None => [];
      assert forall i :: 1 <= i < |lines| ==> lines[i] == lines[1..][i - 1];
      assert forall k :: 0 <= k < |rest| ==>
        exists i :: 0 <= i < |lines| && LineAlert(lines[i]) == Some(rest[k]) by {
        forall k | 0 <= k < |rest|
          ensures exists i :: 0 <= i < |lines| && LineAlert(lines[i]) == Some(rest[k])
        {
          var i :| 0 <= i < |lines[1..]| && LineAlert(lines[1..][i]) == Some(rest[k]);
          assert lines[1..][i] == lines[i + 1];
        }
      }
      here + rest
  }

  /** `re.findall` of the alert pattern over a combo's text: the alert of
      every line that has one and nothing else, each shaped like an alert,
      lying within one line, and no line giving two. */
  function Alerts(text: string): (alerts: seq<string>)
    ensures |alerts| <= |Lines(text)|
    ensures forall i :: 0 <= i < |Lines(text)| && LineAlert(Lines(text)[i]).Some? ==>
      LineAlert(Lines(text)[i]).value in alerts
    ensures forall k :: 0 <= k < |alerts| ==>
      exists i :: 0 <= i < |Lines(text)| && LineAlert(Lines(text)[i]) == Some(alerts[k])
    ensures forall k :: 0 <= k < |alerts| ==>
      AlertShaped(alerts[k]) && exists i :: 0 <= i < |Lines(text)| && Contains(Lines(text)[i], alerts[k])
  {
    var lines := Lines(text);
    var alerts := AlertsOfLines(lines);
    assert forall k :: 0 <= k < |alerts| ==>
      AlertShaped(alerts[k]) && exists i :: 0 <= i < |lines| && Contains(lines[i], alerts[k]) by {
      forall k | 0 <= k < |alerts|
        ensures AlertShaped(alerts[k]) && exists i :: 0 <= i < |lines| && Contains(lines[i], alerts[k])
      {
        var i :| 0 <= i < |lines| && LineAlert(lines[i]) == Some(alerts[k]);
      }
    }
    alerts
  }

  /** The alerts not on the ignore list, in order, repeats kept. */
  function NotIgnored(alerts: seq<string>, ignore: seq<string>): (novel: seq<string>)
    ensures |novel| <= |alerts|
    ensures forall a :: a in novel <==> a in alerts && a !in ignore
  {
    if alerts == [] then []
    else
      var n := |alerts| - 1;
      var before := NotIgnored(alerts[..n], ignore);
      assert alerts == alerts[..n] + [alerts[n]];
      if alerts[n] in ignore then before else before + [alerts[n]]
  }

  // ---------------------------------------------------------------------
  // The decision for one combo
  // ---------------------------------------------------------------------

  /** Classifies a combo from its execution-log block and its alerts:
      Failed when the failure pattern matches (its alerts are then never
      looked at); a stop when `[-]` or `Exploit failed:` appear otherwise;
      else NewAlerts with the distinct alerts not on the ignore list, or
      NoAlerts when there is none. */
  function Decide(name: string, block: string, text: string, ignore: seq<string>): (r: Result<Outcome, Abort>)
    ensures IsFailed(block) ==> r == Success(Failed)
    ensures r == Success(Failed) ==> IsFailed(block)
    ensures r.Failure? <==>
      !IsFailed(block) && (Contains(block, FailureMarker) || Contains(block, FailedColon))
    ensures r.Failure? && Contains(block, FailureMarker) ==>
      r.error == MarkerWithoutFailure(name, block)
    ensures r.Failure? && !Contains(block, FailureMarker) ==>
      r.error == FailureWithoutMarker(name, block)
    ensures r.Success? && r.value != Failed ==>
      (r.value.NewAlerts? <==> exists a :: a in Alerts(text) && a !in ignore)
    ensures r.Success? && r.value.NewAlerts? ==>
      r.value.alerts != {} && forall a :: a in r.value.alerts <==> a in Alerts(text) && a !in ignore
  {
    if IsFailed(block) then Success(Failed)
    else if Contains(block, FailureMarker) then Failure(MarkerWithoutFailure(name, block))
    else if Contains(block, FailedColon) then Failure(FailureWithoutMarker(name, block))
    else
      var novel := NotIgnored(Alerts(text), ignore);
      if novel == [] then Success(NoAlerts)
      else
        var alerts := set a | a in novel;
        assert novel[0] in alerts;
        Success(NewAlerts(alerts))
  }

  /** The whole treatment of one combo: parse its name, find its block in the
      execution log, decide. */
  function ClassifyCombo(c: Combo, blocks: seq<string>, ignore: seq<string>): (r: Result<Outcome, Abort>)
    ensures Parse(c.name).Failure? ==> r == Failure(MalformedName(c.name))
    ensures Parse(c.name).Success? && (forall i :: 0 <= i < |blocks| ==> !Mentions(blocks[i], Parse(c.name).value))
      ==> r == Failure(RecordNotFound(Parse(c.name).value.payload, Parse(c.name).value.encoder))
    ensures forall i ::
      0 <= i < |blocks| && Parse(c.name).Success? && Mentions(blocks[i], Parse(c.name).value)
      && (forall j :: 0 <= j < i ==> !Mentions(blocks[j], Parse(c.name).value))
      ==> r == Decide(c.name, blocks[i], c.text, ignore)
  {
    var id :- Parse(c.name);
    var block :- Lookup(id, blocks);
    Decide(c.name, block, c.text, ignore)
  }
}
