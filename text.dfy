/** String operations the classifier relies on: substring search, splitting on
    a separator (leftmost, non-overlapping, as Python's `str.split`), joining,
    and single-character replacement (Python's `str.replace` on one character). */
module Text {
  import opened Wrappers

  /** `pat` occurs in `s` starting at index `i`. */
  predicate At(s: string, i: nat, pat: string) {
    i + |pat| <= |s| && s[i..i + |pat|] == pat
  }

  /** Python's `pat in s`. */
  predicate Contains(s: string, pat: string) {
    exists i :: 0 <= i <= |s| && At(s, i, pat)
  }

  /** Index of the first occurrence of `pat` in `s` at or after `from`. */
  function IndexOf(s: string, pat: string, from: nat): (r: Option<nat>)
    requires from <= |s|
    ensures r.Some? ==> from <= r.value <= |s| && At(s, r.value, pat)
    ensures r.Some? ==> forall k :: from <= k < r.value ==> !At(s, k, pat)
    ensures r.None? ==> forall k :: from <= k <= |s| ==> !At(s, k, pat)
    decreases |s| - from
  {
    if At(s, from, pat) then Some(from)
    else if from == |s| then None
    else IndexOf(s, pat, from + 1)
  }

  /** An occurrence inside a prefix of `s` is an occurrence in `s`. */
  lemma AtPrefix(s: string, n: nat, i: nat, pat: string)
    requires n <= |s|
    requires At(s[..n], i, pat)
    ensures At(s, i, pat)
  {
    assert s[..n][i..i + |pat|] == s[i..i + |pat|];
  }

  /** An occurrence inside a suffix of `s` is an occurrence in `s`, shifted. */
  lemma AtSuffix(s: string, n: nat, i: nat, pat: string)
    requires n <= |s|
    requires At(s[n..], i, pat)
    ensures At(s, n + i, pat)
  {
    assert s[n..][i..i + |pat|] == s[n + i..n + i + |pat|];
  }

  /** `pat` occurs in `a + pat + b` right after `a`. */
  lemma AtConcat(a: string, pat: string, b: string)
    ensures At(a + pat + b, |a|, pat)
  {
    assert (a + pat + b)[|a|..|a| + |pat|] == pat;
  }

  /** When `sep` occurs first at `k` and not again after it, splitting on
      `sep` gives the two pieces around that occurrence. */
  lemma {:induction false} SplitInTwo(s: string, sep: string, k: nat)
    requires |sep| > 0
    requires At(s, k, sep)
    requires forall j :: 0 <= j < k ==> !At(s, j, sep)
    requires !Contains(s[k + |sep|..], sep)
    ensures Split(s, sep) == [s[..k], s[k + |sep|..]]
  {
    assert IndexOf(s, sep, 0) == Some(k);
    var rest := s[k + |sep|..];
    assert IndexOf(rest, sep, 0).None?;
  }

  /** Splitting `a + sep + b`, where `sep` does not start inside `a` and does
      not occur in `b`, gives `a` and `b`. */
  lemma SplitAround(a: string, sep: string, b: string)
    requires |sep| > 0
    requires forall j :: 0 <= j < |a| ==> !At(a + sep + b, j, sep)
    requires !Contains(b, sep)
    ensures Split(a + sep + b, sep) == [a, b]
  {
    var s := a + sep + b;
    AtConcat(a, sep, b);
    assert s[..|a|] == a;
    assert s[|a| + |sep|..] == b;
    SplitInTwo(s, sep, |a|);
  }

  /** Two occurrences of `sep` that do not overlap make at least three
      parts. */
  lemma SplitTwoOccurrences(s: string, sep: string, i: nat, m: nat)
    requires |sep| > 0
    requires At(s, i, sep) && At(s, m, sep) && i + |sep| <= m
    ensures |Split(s, sep)| >= 3
  {
    var k := IndexOf(s, sep, 0).value;
    assert k <= i;
    var rest := s[k + |sep|..];
    AtWithinSuffix(s, k + |sep|, m, sep);
    assert IndexOf(rest, sep, 0).Some?;
  }

  /** An occurrence at or after `n` is an occurrence in `s[n..]`. */
  lemma AtWithinSuffix(s: string, n: nat, m: nat, pat: string)
    requires n <= m && At(s, m, pat)
    ensures At(s[n..], m - n, pat)
  {
    assert s[n..][m - n..m - n + |pat|] == s[m..m + |pat|];
  }

  /** Joins `parts` with `sep` between consecutive parts (Python's `sep.join`). */
  function Join(parts: seq<string>, sep: string): string
  {
    if parts == [] then ""
    else if |parts| == 1 then parts[0]
    else parts[0] + sep + Join(parts[1..], sep)
  }

  /** Python's `s.split(sep)`: cut at every occurrence of `sep`, searching from
      the left and resuming after each occurrence found. Splitting then joining
      gives `s` back, and no part contains the separator. */
  function Split(s: string, sep: string): (parts: seq<string>)
    requires |sep| > 0
    ensures |parts| >= 1
    ensures Join(parts, sep) == s
    ensures forall i :: 0 <= i < |parts| ==> !Contains(parts[i], sep)
    decreases |s|
  {
    match IndexOf(s, sep, 0)
    case None => [s]
    case Some(k) =>
      var rest := Split(s[k + |sep|..], sep);
      assert !Contains(s[..k], sep) by {
        forall i | 0 <= i <= k && At(s[..k], i, sep)
          ensures false
        {
          AtPrefix(s, k, i, sep);
        }
      }
      assert Join([s[..k]] + rest, sep) == s[..k] + sep + Join(rest, sep) by {
        assert ([s[..k]] + rest)[1..] == rest;
      }
      assert s == s[..k] + sep + s[k + |sep|..];
      [s[..k]] + rest
  }

  /** Every part of a split is a piece of the string split. */
  lemma {:induction false} SplitPartsOccur(s: string, sep: string)
    requires |sep| > 0
    ensures forall i :: 0 <= i < |Split(s, sep)| ==> Contains(s, Split(s, sep)[i])
    decreases |s|
  {
    match IndexOf(s, sep, 0) {
      case None =>
        assert At(s, 0, s);
      case Some(k) =>
        var rest := s[k + |sep|..];
        var parts := Split(s, sep);
        SplitPartsOccur(rest, sep);
        assert parts == [s[..k]] + Split(rest, sep);
        forall i | 0 <= i < |parts|
          ensures Contains(s, parts[i])
        {
          if i == 0 {
            assert At(s, 0, s[..k]);
          } else {
            var part := Split(rest, sep)[i - 1];
            assert parts[i] == part;
            var off :| 0 <= off <= |rest| && At(rest, off, part);
            AtSuffix(s, k + |sep|, off, part);
          }
        }
    }
  }

  /** An occurrence inside a piece of `s` found at `o` is an occurrence in
      `s`, shifted by `o`. */
  lemma AtWithin(s: string, o: nat, piece: string, k: nat, pat: string)
    requires At(s, o, piece) && At(piece, k, pat)
    ensures At(s, o + k, pat)
  {
    assert forall t :: 0 <= t < |piece| ==> piece[t] == s[o + t];
    assert forall t :: 0 <= t < |pat| ==> pat[t] == piece[k + t];
    assert s[o + k..o + k + |pat|] == pat;
  }

  /** An occurrence in `s` that lies inside the piece found at `o` is an
      occurrence in the piece. */
  lemma AtInPiece(s: string, o: nat, piece: string, x: nat, pat: string)
    requires At(s, o, piece) && o <= x && x + |pat| <= o + |piece| && At(s, x, pat)
    ensures At(piece, x - o, pat)
  {
    assert forall t :: 0 <= t < |piece| ==> piece[t] == s[o + t];
    assert forall t :: 0 <= t < |pat| ==> pat[t] == s[x + t];
    assert piece[x - o..x - o + |pat|] == pat;
  }

  /** Every line of `s` occurs in `s`. */
  lemma LineOccurs(s: string, line: string) returns (o: nat)
    requires line in Lines(s)
    ensures At(s, o, line)
  {
    var lines := Split(s, "\n");
    var i :| 0 <= i < |lines| && lines[i] == line;
    SplitPartsOccur(s, "\n");
    assert Contains(s, lines[i]);
    var o' :| 0 <= o' <= |s| && At(s, o', line);
    o := o';
  }

  /** A stretch of the piece found at `o` is the same stretch of `s`, shifted. */
  lemma SliceWithin(s: string, o: nat, piece: string, a: nat, b: nat)
    requires At(s, o, piece) && a <= b <= |piece|
    ensures s[o + a..o + b] == piece[a..b]
  {
    assert forall t :: 0 <= t < |piece| ==> piece[t] == s[o + t];
  }

  /** The lines of `s`: the pieces between newline characters. */
  function Lines(s: string): (lines: seq<string>)
    ensures |lines| >= 1
    ensures Join(lines, "\n") == s
    ensures forall i :: 0 <= i < |lines| ==> '\n' !in lines[i]
  {
    var lines := Split(s, "\n");
    forall i | 0 <= i < |lines|
      ensures '\n' !in lines[i]
    {
      if '\n' in lines[i] {
        var k :| 0 <= k < |lines[i]| && lines[i][k] == '\n';
        assert At(lines[i], k, "\n");
      }
    }
    lines
  }

  /** Splitting at a first occurrence `k` of `sep`: the text before it, then
      the parts of the text after it. */
  lemma SplitAtFirst(s: string, sep: string, k: nat)
    requires |sep| > 0 && k <= |s| && IndexOf(s, sep, 0) == Some(k)
    ensures Split(s, sep) == [s[..k]] + Split(s[k + |sep|..], sep)
  {
  }

  /** Hence the text before a first occurrence is a part. */
  lemma FirstPartMember(s: string, sep: string, k: nat)
    requires |sep| > 0 && k <= |s| && IndexOf(s, sep, 0) == Some(k)
    ensures s[..k] in Split(s, sep)
  {
    SplitAtFirst(s, sep, k);
  }

  /** And so is every part of the text after it. */
  lemma RestPartMember(s: string, sep: string, k: nat, p: string)
    requires |sep| > 0 && k <= |s| && IndexOf(s, sep, 0) == Some(k)
    requires p in Split(s[k + |sep|..], sep)
    ensures p in Split(s, sep)
  {
    SplitAtFirst(s, sep, k);
  }

  /** A one-character separator found at `k` stands outside every stretch
      free of that character. */
  lemma SeparatorOutside(s: string, sep: string, k: nat, a: nat, b: nat)
    requires |sep| == 1 && At(s, k, sep) && a <= b <= |s|
    requires sep[0] !in s[a..b]
    ensures k < a || b <= k
  {
    assert s[k..k + 1][0] == s[k];
  }

  /** A piece found at offset `o` of `s[d..]` is found at `d + o` of `s`. */
  lemma ShiftPiece(s: string, d: nat, o: nat, piece: string)
    requires d <= |s| && o + |piece| <= |s| - d && s[d..][o..o + |piece|] == piece
    ensures s[d + o..d + o + |piece|] == piece
  {
    assert s[d..][o..o + |piece|] == s[d + o..d + o + |piece|];
  }

  /** A part of the text after the first separator, found at `o'` there,
      is a part of `s` found at `k + 1 + o'`. */
  lemma LiftPart(s: string, sep: string, k: nat, a: nat, b: nat, part: string, o': nat)
    returns (o: nat)
    requires |sep| == 1 && k < a <= b <= |s| && IndexOf(s, sep, 0) == Some(k)
    requires part in Split(s[k + 1..], sep)
    requires o' <= a - k - 1 && b - k - 1 <= o' + |part| <= |s| - k - 1
    requires s[k + 1..][o'..o' + |part|] == part
    ensures part in Split(s, sep)
    ensures o <= a && b <= o + |part| <= |s| && s[o..o + |part|] == part
  {
    assert s[k + 1..] == s[k + |sep|..];
    RestPartMember(s, sep, k, part);
    ShiftPiece(s, k + 1, o', part);
    o := k + 1 + o';
  }

  /** A stretch free of `c` stays free of it in a suffix, shifted. */
  lemma FreeInSuffix(s: string, d: nat, a: nat, b: nat, c: char)
    requires d <= a <= b <= |s|
    requires c !in s[a..b]
    ensures c !in s[d..][a - d..b - d]
  {
    assert s[d..][a - d..b - d] == s[a..b];
  }

  /** A string without the separator is its own only part. */
  lemma NoSeparatorPart(s: string, sep: string)
    requires |sep| > 0 && IndexOf(s, sep, 0).None?
    ensures s in Split(s, sep)
  {
    assert Split(s, sep) == [s];
  }

  /** A stretch `s[a..b]` without the one-character separator lies within
      one part, found at offset `o` of `s`. */
  lemma {:induction false} PartOfSegment(s: string, sep: string, a: nat, b: nat) returns (part: string, o: nat)
    requires |sep| == 1 && a <= b <= |s|
    requires sep[0] !in s[a..b]
    ensures part in Split(s, sep)
    ensures o <= a && b <= o + |part| <= |s| && s[o..o + |part|] == part
    decreases |s|, 1
  {
    var r := IndexOf(s, sep, 0);
    if r.None? {
      part, o := s, 0;
      NoSeparatorPart(s, sep);
    } else {
      var k := r.value;
      SeparatorOutside(s, sep, k, a, b);
      if b <= k {
        part, o := s[..k], 0;
        FirstPartMember(s, sep, k);
        assert s[0..k] == part;
      } else {
        part, o := PartAfterFirst(s, sep, k, a, b);
      }
    }
  }

  /** The same, when the stretch lies after the first separator, at `k`. */
  lemma {:induction false} PartAfterFirst(s: string, sep: string, k: nat, a: nat, b: nat)
    returns (part: string, o: nat)
    requires |sep| == 1 && k < a <= b <= |s| && IndexOf(s, sep, 0) == Some(k)
    requires sep[0] !in s[a..b]
    ensures part in Split(s, sep)
    ensures o <= a && b <= o + |part| <= |s| && s[o..o + |part|] == part
    decreases |s|, 0
  {
    var rest := s[k + 1..];
    FreeInSuffix(s, k + 1, a, b, sep[0]);
    var o';
    part, o' := PartOfSegment(rest, sep, a - (k + 1), b - (k + 1));
    o := LiftPart(s, sep, k, a, b, part, o');
  }

  /** Python's `s.replace(a, b)` for single characters `a` and `b`. */
  function Replace(s: string, a: char, b: char): (r: string)
    ensures |r| == |s|
    ensures forall i :: 0 <= i < |s| ==> r[i] == if s[i] == a then b else s[i]
  {
    if s == [] then []
    else [if s[0] == a then b else s[0]] + Replace(s[1..], a, b)
  }

  /** A string that differs from `s` exactly where `s` holds `a`, holding
      `b` there, is the replacement. */
  lemma ReplaceMatches(s: string, a: char, b: char, t: string)
    requires |t| == |s|
    requires forall i :: 0 <= i < |s| ==> t[i] == if s[i] == a then b else s[i]
    ensures Replace(s, a, b) == t
  {
  }

  /** Replacement works piece by piece. */
  lemma ReplaceConcat(s: string, t: string, a: char, b: char)
    ensures Replace(s + t, a, b) == Replace(s, a, b) + Replace(t, a, b)
  {
  }

  /** Replacing `a` by `b` leaves no `a` behind. */
  lemma ReplaceRemoves(s: string, a: char, b: char)
    requires a != b
    ensures a !in Replace(s, a, b)
  {
  }

  /** Replacing `a` by `b` is undone by replacing `b` by `a` when `s` had no `b`. */
  lemma ReplaceInverse(s: string, a: char, b: char)
    requires b !in s
    ensures Replace(Replace(s, a, b), b, a) == s
  {
  }
}
