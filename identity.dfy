/** A combo's file name encodes its payload and encoder: the two module paths
    with every `/` written as `-`, joined by `---`
    (`windows-meterpreter-reverse_tcp---generic-none`). */
module Identity {
  import opened Wrappers
  import opened Text
  import opened Errors

  datatype ComboIdentity = ComboIdentity(payload: string, encoder: string)

  const Delimiter: string := "---"

  /** Splits a combo name into payload and encoder. The unpacking of
      `name.split("---")` into two names fails unless there are exactly two
      parts; within each part every `-` becomes `/`. */
  function Parse(name: string): (r: Result<ComboIdentity, Abort>)
    ensures r.Failure? ==> r.error == MalformedName(name)
    ensures r.Success? ==> '-' !in r.value.payload && '-' !in r.value.encoder
    ensures r.Success? ==> |r.value.payload| + |Delimiter| + |r.value.encoder| == |name|
    ensures r.Success? ==> IndexOf(name, Delimiter, 0).Some?
    ensures r.Success? ==>
      var k := IndexOf(name, Delimiter, 0).value;
      r.value == ComboIdentity(Replace(name[..k], '-', '/'), Replace(name[k + |Delimiter|..], '-', '/'))
  {
    var parts := Split(name, Delimiter);
    if |parts| != 2 then Failure(MalformedName(name))
    else
      assert IndexOf(name, Delimiter, 0).Some? && parts[0] == name[..IndexOf(name, Delimiter, 0).value]
        && parts[1] == name[IndexOf(name, Delimiter, 0).value + |Delimiter|..] by {
        if IndexOf(name, Delimiter, 0).Some? {
          var k := IndexOf(name, Delimiter, 0).value;
          SplitAtFirst(name, Delimiter, k);
          assert |Split(name[k + |Delimiter|..], Delimiter)| == 1;
        }
      }
      assert name == parts[0] + Delimiter + parts[1] by {
        assert parts[1..] == [parts[1]];
      }
      Success(ComboIdentity(Replace(parts[0], '-', '/'), Replace(parts[1], '-', '/')))
  }

  /** The file name under which a combo with this identity is stored. */
  function FileName(id: ComboIdentity): string {
    Replace(id.payload, '/', '-') + Delimiter + Replace(id.encoder, '/', '-')
  }

  /** A module path the naming scheme can carry: no `-`, no empty path
      segment (`//`) and no trailing `/`. */
  predicate ModulePath(p: string) {
    && '-' !in p
    && (forall i :: 0 <= i < |p| - 1 ==> !(p[i] == '/' && p[i + 1] == '/'))
    && (|p| > 0 ==> p[|p| - 1] != '/')
  }

  /** Parsing succeeds exactly when the name holds `---` and the text after
      its first occurrence holds no further `---`. */
  lemma {:induction false} ParseSucceedsIff(name: string)
    ensures Parse(name).Success? <==>
      exists k :: 0 <= k <= |name| - |Delimiter| && At(name, k, Delimiter)
        && (forall j :: 0 <= j < k ==> !At(name, j, Delimiter))
        && !Contains(name[k + |Delimiter|..], Delimiter)
  {
    match IndexOf(name, Delimiter, 0) {
    case None =>
      assert |Split(name, Delimiter)| == 1;
    case Some(k) =>
      var rest := name[k + |Delimiter|..];
      assert Split(name, Delimiter) == [name[..k]] + Split(rest, Delimiter);
      match IndexOf(rest, Delimiter, 0) {
        case None =>
          assert Split(rest, Delimiter) == [rest];
        case Some(k') =>
          assert |Split(rest, Delimiter)| >= 2;
          assert Contains(rest, Delimiter);
      }
    }
  }

  /** A name with two occurrences of `---` that do not overlap does not
      parse: the split yields three parts or more, and the first occurrence
      is not taken as the split point. */
  lemma TwoOccurrencesFail(name: string, i: nat, m: nat)
    requires At(name, i, Delimiter) && At(name, m, Delimiter) && i + |Delimiter| <= m
    ensures Parse(name).Failure?
  {
    SplitTwoOccurrences(name, Delimiter, i, m);
  }

  /** In particular, `a---b---c` does not parse, whatever `a`, `b` and `c`. */
  lemma TwoDelimitersFail(a: string, b: string, c: string)
    ensures Parse(a + Delimiter + b + Delimiter + c).Failure?
  {
    var s := a + Delimiter + b + Delimiter + c;
    var m := |a| + |Delimiter| + |b|;
    assert s[|a|..|a| + |Delimiter|] == Delimiter;
    assert s[m..m + |Delimiter|] == Delimiter;
    TwoOccurrencesFail(s, |a|, m);
  }

  /** Writing `/` back as `-` and joining with `---` gives the file name back,
      for every name that parses and has no `/` in it. */
  lemma {:induction false} ParseThenName(name: string)
    requires '/' !in name
    requires Parse(name).Success?
    ensures FileName(Parse(name).value) == name
  {
    var parts := Split(name, Delimiter);
    assert parts[1..] == [parts[1]];
    assert name == parts[0] + Delimiter + parts[1];
    assert '/' !in parts[0] by {
      forall i | 0 <= i < |parts[0]| ensures parts[0][i] != '/' {
        assert parts[0][i] == name[i];
      }
    }
    assert '/' !in parts[1] by {
      forall i | 0 <= i < |parts[1]| ensures parts[1][i] != '/' {
        assert parts[1][i] == name[|parts[0]| + |Delimiter| + i];
      }
    }
    ReplaceInverse(parts[0], '-', '/');
    ReplaceInverse(parts[1], '-', '/');
  }

  /** An encoded module path never holds `---`. */
  lemma EncodedPathHasNoDelimiter(p: string)
    requires ModulePath(p)
    ensures !Contains(Replace(p, '/', '-'), Delimiter)
  {
    var e := Replace(p, '/', '-');
    forall k | 0 <= k <= |e|
      ensures !At(e, k, Delimiter)
    {
      if k + 3 <= |e| {
        assert e[k] == e[k..k + 3][0] && e[k + 1] == e[k..k + 3][1];
      }
    }
  }

  /** In the name of a combo whose payload is a module path, the first `---`
      is the one placed after the encoded payload. */
  lemma {:induction false} FirstDelimiterAfterPayload(payload: string, rest: string)
    requires ModulePath(payload)
    ensures forall k :: 0 <= k < |Replace(payload, '/', '-')| ==>
      !At(Replace(payload, '/', '-') + Delimiter + rest, k, Delimiter)
  {
    var p := Replace(payload, '/', '-');
    var s := p + Delimiter + rest;
    forall k | 0 <= k < |p|
      ensures !At(s, k, Delimiter)
    {
      if k + 3 <= |s| {
        assert s[k] == s[k..k + 3][0] && s[k + 1] == s[k..k + 3][1];
        assert s[k] == p[k];
        if k + 1 < |p| {
          assert s[k + 1] == p[k + 1];
        }
      }
    }
  }

  /** The name of a combo whose payload and encoder are module paths splits
      into the two encoded paths. */
  lemma {:induction false} FileNameSplits(id: ComboIdentity)
    requires ModulePath(id.payload) && ModulePath(id.encoder)
    ensures Split(FileName(id), Delimiter)
      == [Replace(id.payload, '/', '-'), Replace(id.encoder, '/', '-')]
  {
    var e := Replace(id.encoder, '/', '-');
    FirstDelimiterAfterPayload(id.payload, e);
    EncodedPathHasNoDelimiter(id.encoder);
    SplitAround(Replace(id.payload, '/', '-'), Delimiter, e);
  }

  /** Naming a combo and parsing the name gives back its identity, for every
      payload and encoder that are module paths. */
  lemma {:induction false} NameThenParse(id: ComboIdentity)
    requires ModulePath(id.payload) && ModulePath(id.encoder)
    ensures Parse(FileName(id)) == Success(id)
  {
    FileNameSplits(id);
    ReplaceInverse(id.payload, '/', '-');
    ReplaceInverse(id.encoder, '/', '-');
  }

  /** The encoded form of the default encoder's module path. */
  lemma DefaultEncoderEncoded()
    ensures Replace("generic/none", '/', '-') == "generic-none"
  {
    ReplaceMatches("generic/none", '/', '-', "generic-none");
  }

  /** Any name ending in the encoded default encoder passes the test. */
  lemma EndsWithDefaultEncoder(p: string)
    ensures Contains(p + Delimiter + "generic-none", "---generic-none")
  {
    assert p + Delimiter + "generic-none" == p + "---generic-none" + "";
    AtConcat(p, "---generic-none", "");
  }

  /** The default-encoder test looks for `---generic-none` anywhere in the
      name. A name whose encoder is `generic/none` passes it ... */
  lemma {:induction false} DefaultEncoderNamePasses(name: string)
    requires '/' !in name
    requires Parse(name).Success? && Parse(name).value.encoder == "generic/none"
    ensures Contains(name, "---generic-none")
  {
    var id := Parse(name).value;
    ParseThenName(name);
    DefaultEncoderEncoded();
    EndsWithDefaultEncoder(Replace(id.payload, '/', '-'));
  }

  /** An encoder starting with `generic/none` is encoded as one starting
      with `generic-none`. */
  lemma EncodedDefaultPrefix(suffix: string)
    ensures Replace("generic/none" + suffix, '/', '-') == "generic-none" + Replace(suffix, '/', '-')
  {
    ReplaceConcat("generic/none", suffix, '/', '-');
    DefaultEncoderEncoded();
  }

  /** `---` followed by the encoded default encoder. */
  lemma DefaultMarker()
    ensures Delimiter + "generic-none" == "---generic-none"
  {
  }

  /** ... and so does the name of every combo whose encoder merely starts
      with `generic/none` (`generic/none/x`, say), although that encoder is
      not the default one. */
  lemma {:induction false} DefaultEncoderTestIsSubstring(payload: string, suffix: string)
    requires |suffix| > 0
    ensures ComboIdentity(payload, "generic/none" + suffix).encoder != "generic/none"
    ensures Contains(FileName(ComboIdentity(payload, "generic/none" + suffix)), "---generic-none")
  {
    var p := Replace(payload, '/', '-');
    var e := Replace(suffix, '/', '-');
    var name := FileName(ComboIdentity(payload, "generic/none" + suffix));
    EncodedDefaultPrefix(suffix);
    assert name == p + Delimiter + ("generic-none" + e);
    DefaultMarker();
    assert name == p + "---generic-none" + e;
    AtConcat(p, "---generic-none", e);
  }
}
