/** The output path resolver of both tools: `add_suffix` and
    `get_output_name`. The two copies differ only in the default suffix,
    which is a parameter here. */
module OutputNames {
  import opened Results

  /** The default suffix of the rbStata copy. */
  const RbStataDefaultSuffix: string := "-rbstata"

  /** The default suffix of the wbStata copy. */
  const WbStataDefaultSuffix: string := "-wbstata"

  /** Number of occurrences of `c` in `s` (Python's `s.count(c)`). */
  function Count(s: string, c: char): (n: nat)
    ensures n <= |s|
    ensures n == 0 <==> c !in s
  {
    if s == [] then 0 else (if s[0] == c then 1 else 0) + Count(s[1..], c)
  }

  lemma {:induction false} CountAppend(a: string, b: string, c: char)
    ensures Count(a + b, c) == Count(a, c) + Count(b, c)
  {
    if a == [] {
      assert a + b == b;
    } else {
      assert (a + b)[0] == a[0];
      assert (a + b)[1..] == a[1..] + b;
      CountAppend(a[1..], b, c);
    }
  }

  /** Python's `s.split(c)` for a one-character separator: the pieces between
      the separators, one more than there are separators. */
  function Split(s: string, c: char): (parts: seq<string>)
    ensures |parts| == Count(s, c) + 1
    ensures forall i :: 0 <= i < |parts| ==> c !in parts[i]
  {
    if s == [] then [[]]
    else
      var rest := Split(s[1..], c);
      if s[0] == c then [[]] + rest
      else [[s[0]] + rest[0]] + rest[1..]
  }

  /** Python's `c.join(parts)`. */
  function Join(parts: seq<string>, c: char): string
    requires |parts| >= 1
  {
    if |parts| == 1 then parts[0] else parts[0] + [c] + Join(parts[1..], c)
  }

  /** Joining the pieces of a split gives back the string. */
  lemma {:induction false} JoinSplit(s: string, c: char)
    ensures Join(Split(s, c), c) == s
  {
    if s != [] {
      var rest := Split(s[1..], c);
      JoinSplit(s[1..], c);
      if s[0] == c {
        assert ([[]] + rest)[1..] == rest;
      } else if |rest| > 1 {
        var parts := [[s[0]] + rest[0]] + rest[1..];
        assert parts[1..] == rest[1..];
        assert Join(rest, c) == rest[0] + [c] + Join(rest[1..], c);
      }
    }
  }

  /** A string without the separator splits into itself alone. */
  lemma {:induction false} SplitWithoutSeparator(s: string, c: char)
    requires c !in s
    ensures Split(s, c) == [s]
  {
    if s != [] {
      assert c !in s[1..] by {
        assert forall i :: 0 <= i < |s| - 1 ==> s[1..][i] == s[i + 1];
      }
      SplitWithoutSeparator(s[1..], c);
      assert s[0] != c;
      assert [s[0]] + s[1..] == s;
    }
  }

  /** A separator-free head followed by the separator splits off as the
      first piece. */
  lemma {:induction false} SplitAfterHead(a: string, c: char, t: string)
    requires c !in a
    ensures Split(a + [c] + t, c) == [a] + Split(t, c)
  {
    var s := a + [c] + t;
    if a == [] {
      assert s[1..] == t;
    } else {
      assert s[0] == a[0] && a[0] != c;
      assert s[1..] == a[1..] + [c] + t;
      assert c !in a[1..] by {
        assert forall i :: 0 <= i < |a| - 1 ==> a[1..][i] == a[i + 1];
      }
      SplitAfterHead(a[1..], c, t);
      var rest := [a[1..]] + Split(t, c);
      assert rest[0] == a[1..] && rest[1..] == Split(t, c);
      assert [a[0]] + a[1..] == a;
    }
  }

  /** Splitting a join of separator-free pieces gives back the pieces. */
  lemma {:induction false} SplitJoin(parts: seq<string>, c: char)
    requires |parts| >= 1
    requires forall i :: 0 <= i < |parts| ==> c !in parts[i]
    ensures Split(Join(parts, c), c) == parts
  {
    if |parts| == 1 {
      SplitWithoutSeparator(parts[0], c);
    } else {
      SplitJoin(parts[1..], c);
      SplitAfterHead(parts[0], c, Join(parts[1..], c));
      assert [parts[0]] + parts[1..] == parts;
    }
  }

  /** `add_suffix`: `filename, ext = filename.split(".")` followed by
      `filename + suffix + "." + ext`. Unpacking the split into two names
      raises `ValueError` unless the name holds exactly one '.'; a name with
      a dotted directory ("./x.dta") or two dots ("a.b.dta") is refused. */
  function AddSuffix(filename: string, suffix: string): (r: Result<string, Error>)
    ensures r.Success? <==> Count(filename, '.') == 1
    ensures r.Failure? ==> r.error == UnpackError(Count(filename, '.') + 1)
    ensures r.Success? ==> |r.value| == |filename| + |suffix|
  {
    var parts := Split(filename, '.');
    if |parts| != 2 then Failure(UnpackError(|parts|))
    else
      JoinSplit(filename, '.');
      Success(parts[0] + suffix + "." + parts[1])
  }

  /** The suffix goes between the stem and the extension, for every name of
      the form stem + "." + ext (one dot in all). */
  lemma {:induction false} AddSuffixInsertsBeforeDot(stem: string, ext: string, suffix: string)
    requires '.' !in stem && '.' !in ext
    ensures AddSuffix(stem + "." + ext, suffix) == Success(stem + suffix + "." + ext)
  {
    SplitJoin([stem, ext], '.');
    assert Join([stem, ext], '.') == stem + "." + ext;
  }

  /** A name with exactly one '.' is its two split pieces joined by it. */
  lemma {:induction false} OneDotSplit(filename: string)
    requires Count(filename, '.') == 1
    ensures |Split(filename, '.')| == 2
    ensures filename == Split(filename, '.')[0] + "." + Split(filename, '.')[1]
  {
    var parts := Split(filename, '.');
    JoinSplit(filename, '.');
    assert Join(parts[1..], '.') == parts[1];
  }

  /** With the empty suffix `add_suffix` is the identity on every name it
      accepts. */
  lemma {:induction false} AddSuffixEmpty(filename: string)
    requires Count(filename, '.') == 1
    ensures AddSuffix(filename, "") == Success(filename)
  {
    OneDotSplit(filename);
    var parts := Split(filename, '.');
    assert parts[0] + "" == parts[0];
  }

  /** Adding two suffixes one after the other to stem + "." + ext is adding
      their concatenation once, provided the first keeps the stem dot-free. */
  lemma {:induction false} AddSuffixComposeParts(stem: string, ext: string, s1: string, s2: string)
    requires '.' !in stem && '.' !in ext && '.' !in s1
    ensures AddSuffix(stem + "." + ext, s1) == Success(stem + s1 + "." + ext)
    ensures AddSuffix(stem + s1 + "." + ext, s2) == AddSuffix(stem + "." + ext, s1 + s2)
  {
    assert '.' !in stem + s1 by {
      CountAppend(stem, s1, '.');
    }
    var once := stem + s1 + "." + ext;
    assert AddSuffix(stem + "." + ext, s1) == Success(once) by {
      AddSuffixInsertsBeforeDot(stem, ext, s1);
    }
    assert AddSuffix(once, s2) == Success(stem + s1 + s2 + "." + ext) by {
      AddSuffixInsertsBeforeDot(stem + s1, ext, s2);
    }
    assert AddSuffix(stem + "." + ext, s1 + s2) == Success(stem + (s1 + s2) + "." + ext) by {
      AddSuffixInsertsBeforeDot(stem, ext, s1 + s2);
    }
    assert stem + s1 + s2 == stem + (s1 + s2);
  }

  /** Adding two dot-free suffixes one after the other is adding their
      concatenation once. */
  lemma {:induction false} AddSuffixCompose(filename: string, s1: string, s2: string)
    requires Count(filename, '.') == 1
    requires '.' !in s1
    ensures AddSuffix(filename, s1).Success?
    ensures AddSuffix(AddSuffix(filename, s1).value, s2) == AddSuffix(filename, s1 + s2)
  {
    OneDotSplit(filename);
    var stem, ext := Split(filename, '.')[0], Split(filename, '.')[1];
    assert '.' !in stem && '.' !in ext;
    AddSuffixComposeParts(stem, ext, s1, s2);
  }

  /** A name with two dots is refused, whatever the suffix: "./x.dta" (a
      dotted directory) and "census.2019.dta" both raise `ValueError`. */
  lemma {:induction false} AddSuffixRefusesTwoDots(a: string, b: string, c: string, suffix: string)
    requires '.' !in a && '.' !in b && '.' !in c
    ensures AddSuffix(a + "." + b + "." + c, suffix) == Failure(UnpackError(3))
  {
    CountAppend(a, ".", '.');
    CountAppend(a + ".", b, '.');
    CountAppend(a + "." + b, ".", '.');
    CountAppend(a + "." + b + ".", c, '.');
  }

  /** The `overwrite`, `suffix` and `output` arguments of `get_output_name`:
      overwrite the input, write to an explicit name, or add a suffix. */
  datatype Policy = Policy(overwrite: bool, suffix: Option<string>, output: Option<string>)

  /** The suffix that `get_output_name` adds when it adds one. */
  function EffectiveSuffix(policy: Policy, defaultSuffix: string): string {
    match policy.suffix
    case Some(s) => s
    case None => defaultSuffix
  }

  /** `get_output_name`: the first of overwrite, explicit output, suffix and
      default suffix that applies decides the output name. */
  function GetOutputName(file: string, policy: Policy, defaultSuffix: string): (r: Result<string, Error>)
    ensures policy.overwrite ==> r == Success(file)
    ensures !policy.overwrite && policy.output.Some? ==> r == Success(policy.output.value)
    ensures r.Failure? <==> !policy.overwrite && policy.output.None? && Count(file, '.') != 1
    ensures !policy.overwrite && policy.output.None? && r.Success? ==>
              |r.value| == |file| + |EffectiveSuffix(policy, defaultSuffix)|
  {
    if policy.overwrite then Success(file)
    else if policy.output.Some? then Success(policy.output.value)
    else if policy.suffix.Some? then AddSuffix(file, policy.suffix.value)
    else AddSuffix(file, defaultSuffix)
  }

  /** Without overwrite, the output never names the input unless it was asked
      for explicitly or the suffix in use is empty: in particular never with
      either tool's default suffix. */
  lemma {:induction false} GetOutputNameNoClobber(file: string, policy: Policy, defaultSuffix: string)
    requires !policy.overwrite
    requires policy.output != Some(file)
    requires EffectiveSuffix(policy, defaultSuffix) != []
    ensures GetOutputName(file, policy, defaultSuffix) != Success(file)
  {
  }

  /** Leaving the suffix out is passing the default suffix explicitly. */
  lemma {:induction false} GetOutputNameDefaultIsSuffix(file: string, output: Option<string>, defaultSuffix: string)
    ensures GetOutputName(file, Policy(false, None, output), defaultSuffix)
         == GetOutputName(file, Policy(false, Some(defaultSuffix), output), defaultSuffix)
  {
  }

  /** The docstring and test examples of the rbStata copy of
      `get_output_name`, for every input of the form stem + "." + ext (the
      examples use "input.dta" and a census file in a data folder). */
  lemma {:induction false} RbStataOutputNameExamples(stem: string, ext: string, suffix: string, output: string)
    requires '.' !in stem && '.' !in ext
    ensures GetOutputName(stem + "." + ext, Policy(true, None, None), RbStataDefaultSuffix) == Success(stem + "." + ext)
    ensures GetOutputName(stem + "." + ext, Policy(true, Some(suffix), None), RbStataDefaultSuffix) == Success(stem + "." + ext)
    ensures GetOutputName(stem + "." + ext, Policy(false, Some(suffix), None), RbStataDefaultSuffix) == Success(stem + suffix + "." + ext)
    ensures GetOutputName(stem + "." + ext, Policy(false, None, Some(output)), RbStataDefaultSuffix) == Success(output)
    ensures GetOutputName(stem + "." + ext, Policy(false, None, None), RbStataDefaultSuffix) == Success(stem + "-rbstata" + "." + ext)
  {
    AddSuffixInsertsBeforeDot(stem, ext, suffix);
    AddSuffixInsertsBeforeDot(stem, ext, RbStataDefaultSuffix);
  }

  /** The docstring examples of the wbStata copy of `get_output_name`, for
      every input of the form stem + "." + ext (the examples use "input.dta"). */
  lemma {:induction false} WbStataOutputNameExamples(stem: string, ext: string, suffix: string, output: string)
    requires '.' !in stem && '.' !in ext
    ensures GetOutputName(stem + "." + ext, Policy(true, None, None), WbStataDefaultSuffix) == Success(stem + "." + ext)
    ensures GetOutputName(stem + "." + ext, Policy(true, Some(suffix), None), WbStataDefaultSuffix) == Success(stem + "." + ext)
    ensures GetOutputName(stem + "." + ext, Policy(false, Some(suffix), None), WbStataDefaultSuffix) == Success(stem + suffix + "." + ext)
    ensures GetOutputName(stem + "." + ext, Policy(false, None, Some(output)), WbStataDefaultSuffix) == Success(output)
    ensures GetOutputName(stem + "." + ext, Policy(false, None, None), WbStataDefaultSuffix) == Success(stem + "-wbstata" + "." + ext)
  {
    AddSuffixInsertsBeforeDot(stem, ext, suffix);
    AddSuffixInsertsBeforeDot(stem, ext, WbStataDefaultSuffix);
  }
}
