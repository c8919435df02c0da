/** The filename normaliser of both tools: whitespace removal
    (`normalize_filename`), the `.dta` extension rule (`normalize_dta_filename`)
    and the name-only half of `is_dta_file`.

    Paths follow POSIX `pathlib.PurePath`: the name of a path is its last
    component once empty and "." components are dropped, and its suffix is the
    text from the name's last '.', provided that dot is neither the first nor
    the last character of the name. */
module Filenames {
  import opened Results

  /** The file extension the tools read and write. */
  const DtaExtension: string := ".dta"

  /** No character of `s` is whitespace. `isSpace` stands for Python's
      Unicode whitespace class (`\s` in a `str` pattern, `str.isspace`). */
  predicate NoSpace(s: string, isSpace: char -> bool) {
    forall i :: 0 <= i < |s| ==> !isSpace(s[i])
  }

  /** Python's `re.sub(r"\s+", "", s)`: every whitespace character is deleted
      (runs are removed, not collapsed to one space). */
  function RemoveWhitespace(s: string, isSpace: char -> bool): (r: string)
    ensures NoSpace(r, isSpace)
    ensures |r| <= |s|
  {
    if s == [] then []
    else (if isSpace(s[0]) then [] else [s[0]]) + RemoveWhitespace(s[1..], isSpace)
  }

  /** Every non-whitespace character survives as often as it occurs. */
  lemma {:induction false} RemoveWhitespaceKeepsCharacters(s: string, isSpace: char -> bool, c: char)
    requires !isSpace(c)
    ensures multiset(RemoveWhitespace(s, isSpace))[c] == multiset(s)[c]
  {
    if s != [] {
      assert s == [s[0]] + s[1..];
      RemoveWhitespaceKeepsCharacters(s[1..], isSpace, c);
    }
  }

  /** Removing whitespace from a concatenation removes it from each part, so
      the surviving characters keep their original order. */
  lemma {:induction false} RemoveWhitespaceAppend(a: string, b: string, isSpace: char -> bool)
    ensures RemoveWhitespace(a + b, isSpace) == RemoveWhitespace(a, isSpace) + RemoveWhitespace(b, isSpace)
  {
    if a == [] {
      assert a + b == b;
    } else {
      assert (a + b)[0] == a[0];
      assert (a + b)[1..] == a[1..] + b;
      RemoveWhitespaceAppend(a[1..], b, isSpace);
    }
  }

  /** Whitespace removal changes a string exactly when it holds whitespace. */
  lemma {:induction false} RemoveWhitespaceIdentity(s: string, isSpace: char -> bool)
    ensures RemoveWhitespace(s, isSpace) == s <==> NoSpace(s, isSpace)
  {
    if s != [] && NoSpace(s, isSpace) {
      RemoveWhitespaceIdentity(s[1..], isSpace);
    }
  }

  /** Python's `str.lstrip()`: drops the leading whitespace. */
  function TrimStart(s: string, isSpace: char -> bool): (r: string)
    ensures |r| <= |s| && r == s[|s| - |r|..]
    ensures forall i :: 0 <= i < |s| - |r| ==> isSpace(s[i])
    ensures r == [] || !isSpace(r[0])
  {
    if s != [] && isSpace(s[0]) then TrimStart(s[1..], isSpace) else s
  }

  /** Python's `str.rstrip()`: drops the trailing whitespace. */
  function TrimEnd(s: string, isSpace: char -> bool): (r: string)
    ensures |r| <= |s| && r == s[..|r|]
    ensures forall i :: |r| <= i < |s| ==> isSpace(s[i])
    ensures r == [] || !isSpace(r[|r| - 1])
  {
    if s != [] && isSpace(s[|s| - 1]) then TrimEnd(s[..|s| - 1], isSpace) else s
  }

  /** Python's `str.strip()`. */
  function Strip(s: string, isSpace: char -> bool): (r: string)
    ensures r == [] || (!isSpace(r[0]) && !isSpace(r[|r| - 1]))
    ensures NoSpace(s, isSpace) ==> r == s
  {
    TrimEnd(TrimStart(s, isSpace), isSpace)
  }

  /** `normalize_filename`: whitespace removal followed by a `strip()` that,
      with nothing left to strip, leaves the result of the removal as it is. */
  function NormalizeFilename(s: string, isSpace: char -> bool): (r: string)
    ensures NoSpace(r, isSpace)
    ensures r == RemoveWhitespace(s, isSpace)
  {
    Strip(RemoveWhitespace(s, isSpace), isSpace)
  }

  /** Normalising a normalised filename changes nothing. */
  lemma {:induction false} NormalizeFilenameIdempotent(s: string, isSpace: char -> bool)
    ensures NormalizeFilename(NormalizeFilename(s, isSpace), isSpace) == NormalizeFilename(s, isSpace)
  {
    RemoveWhitespaceIdentity(NormalizeFilename(s, isSpace), isSpace);
  }

  /** A string made only of whitespace disappears entirely. */
  lemma {:induction false} RemoveWhitespaceAllSpace(s: string, isSpace: char -> bool)
    requires forall i :: 0 <= i < |s| ==> isSpace(s[i])
    ensures RemoveWhitespace(s, isSpace) == []
  {
    if s != [] {
      RemoveWhitespaceAllSpace(s[1..], isSpace);
    }
  }

  /** Whitespace around and inside a name is deleted and the name's other
      characters are kept in order: `normalize_filename(a + gap + b)` is
      `a + b` when `gap` is all whitespace. */
  lemma {:induction false} NormalizeFilenameDropsGap(a: string, gap: string, b: string, isSpace: char -> bool)
    requires NoSpace(a, isSpace) && NoSpace(b, isSpace)
    requires forall i :: 0 <= i < |gap| ==> isSpace(gap[i])
    ensures NormalizeFilename(a + gap + b, isSpace) == a + b
  {
    assert RemoveWhitespace(a + gap, isSpace) == a by {
      RemoveWhitespaceIdentity(a, isSpace);
      RemoveWhitespaceAllSpace(gap, isSpace);
      RemoveWhitespaceAppend(a, gap, isSpace);
    }
    assert RemoveWhitespace(a + gap + b, isSpace) == a + b by {
      RemoveWhitespaceIdentity(b, isSpace);
      RemoveWhitespaceAppend(a + gap, b, isSpace);
    }
  }

  /** The docstring examples of `normalize_filename`, for every name without
      whitespace (the docstring uses "File.dta") and any whitespace class that
      contains the space: the name is kept, and five spaces on either side
      are deleted. */
  lemma {:induction false} NormalizeFilenameDocExamples(name: string, isSpace: char -> bool)
    requires isSpace(' ')
    requires NoSpace(name, isSpace)
    ensures NormalizeFilename(name, isSpace) == name
    ensures NormalizeFilename("     " + name + "     ", isSpace) == name
  {
    var pad := "     ";
    RemoveWhitespaceIdentity(name, isSpace);
    assert RemoveWhitespace(pad, isSpace) == [] by {
      RemoveWhitespaceAllSpace(pad, isSpace);
    }
    assert RemoveWhitespace(pad + name + pad, isSpace) == name by {
      RemoveWhitespaceAppend(pad, name, isSpace);
      RemoveWhitespaceAppend(pad + name, pad, isSpace);
    }
  }

  /** The test example of `normalize_filename`: a run of spaces inside the
      name is deleted, not collapsed. */
  lemma {:induction false} NormalizeFilenameTestExample(isSpace: char -> bool)
    requires isSpace(' ')
    requires NoSpace("Cens", isSpace) && NoSpace("us.dta", isSpace)
    ensures NormalizeFilename("Cens  us.dta", isSpace) == "Census.dta"
  {
    NormalizeFilenameDropsGap("Cens", "  ", "us.dta", isSpace);
    assert "Cens  us.dta" == "Cens" + "  " + "us.dta";
    assert "Cens" + "us.dta" == "Census.dta";
  }

  /** Python's `str.rfind(c)`: the index of the last `c` in `s`, or -1. */
  function RFind(s: string, c: char): (i: int)
    ensures -1 <= i < |s|
    ensures i >= 0 ==> s[i] == c
    ensures forall j :: i < j < |s| ==> s[j] != c
  {
    if s == [] then -1
    else if s[|s| - 1] == c then |s| - 1
    else RFind(s[..|s| - 1], c)
  }

  /** Any index that holds `c` with no `c` after it is the one `RFind` reports. */
  lemma {:induction false} RFindIs(s: string, c: char, k: int)
    requires -1 <= k < |s|
    requires k >= 0 ==> s[k] == c
    requires forall j :: k < j < |s| ==> s[j] != c
    ensures RFind(s, c) == k
  {
  }

  /** The text after the last `c` holds no `c`. */
  lemma {:induction false} AfterLastHasNone(s: string, c: char)
    ensures c !in s[RFind(s, c) + 1..]
  {
    var k := RFind(s, c);
    var t := s[k + 1..];
    forall m | 0 <= m < |t|
      ensures t[m] != c
    {
      assert t[m] == s[k + 1 + m];
    }
  }

  /** The raw text after the last '/' of `p`: all of `p` when it has none. */
  function LastComponent(p: string): (c: string)
    ensures '/' !in c && |c| <= |p|
  {
    AfterLastHasNone(p, '/');
    p[RFind(p, '/') + 1..]
  }

  /** A component that names something: neither empty nor ".". */
  predicate IsRealComponent(c: string) {
    c != [] && c != "."
  }

  /** `PurePath(p).name` on POSIX: the last component of `p` after empty and
      "." components are dropped, or "" when none remains. */
  function PathName(p: string): (n: string)
    ensures '/' !in n
    ensures n != "."
    ensures |n| <= |p|
    decreases |p|
  {
    if IsRealComponent(LastComponent(p)) then LastComponent(p)
    else if RFind(p, '/') < 0 then []
    else PathName(p[..RFind(p, '/')])
  }

  /** A path whose text after its last '/' is a real component has that text
      as its name. */
  lemma {:induction false} PathNameOfLastComponent(p: string, k: int)
    requires -1 <= k < |p|
    requires k >= 0 ==> p[k] == '/'
    requires forall j :: k < j < |p| ==> p[j] != '/'
    requires IsRealComponent(p[k + 1..])
    ensures PathName(p) == p[k + 1..]
  {
    RFindIs(p, '/', k);
    assert LastComponent(p) == p[k + 1..];
  }

  /** `PurePath.suffix` of a name: from its last '.', when that dot is neither
      the name's first nor its last character; "" otherwise. */
  function NameSuffix(name: string): (s: string)
    ensures s == [] || (2 <= |s| < |name| && s == name[|name| - |s|..])
    ensures s == [] || (s[0] == '.' && '.' !in s[1..])
  {
    var i := RFind(name, '.');
    if 0 < i < |name| - 1 then
      assert forall m :: 1 <= m < |name| - i ==> name[i..][m] == name[i + m];
      name[i..]
    else []
  }

  /** A name has suffix ".dta" exactly when it ends in ".dta" with at least
      one character before that. */
  lemma {:induction false} NameSuffixIsDta(name: string)
    ensures NameSuffix(name) == DtaExtension <==> |name| > 4 && name[|name| - 4..] == DtaExtension
  {
    if |name| > 4 && name[|name| - 4..] == DtaExtension {
      assert name[|name| - 4] == '.';
      assert forall j :: |name| - 4 < j < |name| ==> name[j] == name[|name| - 4..][j - (|name| - 4)];
      RFindIs(name, '.', |name| - 4);
    }
  }

  /** `Path(p).suffix == ".dta"`: the path's name carries the ".dta" suffix,
      which means it ends in ".dta" with at least one character before it. */
  predicate HasDtaSuffix(p: string)
    ensures HasDtaSuffix(p) <==>
              |PathName(p)| > 4 && PathName(p)[|PathName(p)| - 4..] == DtaExtension
  {
    NameSuffixIsDta(PathName(p));
    NameSuffix(PathName(p)) == DtaExtension
  }

  /** For a bare file name (no directory part) the suffix rule reads: ends in
      ".dta" and has at least one character before it. */
  lemma {:induction false} BareNameHasDtaSuffix(n: string)
    requires '/' !in n
    ensures HasDtaSuffix(n) <==> |n| > 4 && n[|n| - 4..] == DtaExtension
  {
    RFindIs(n, '/', -1);
    assert n[0..] == n;
    NameSuffixIsDta(n);
    if n == [] || n == "." {
      assert PathName(n) == [];
    }
  }

  /** A directory prefix plays no part in the suffix rule. */
  lemma {:induction false} JoinedPathHasDtaSuffix(dir: string, n: string)
    requires '/' !in n && n != [] && n != "."
    ensures HasDtaSuffix(dir + "/" + n) <==> |n| > 4 && n[|n| - 4..] == DtaExtension
  {
    var p := dir + "/" + n;
    assert forall j :: |dir| < j < |p| ==> p[j] == n[j - |dir| - 1];
    assert p[|dir| + 1..] == n;
    PathNameOfLastComponent(p, |dir|);
    NameSuffixIsDta(n);
  }

  /** `normalize_dta_filename`: appends ".dta" unless the path's name already
      has that suffix. The path is only ever extended, so a directory part is
      kept. */
  function NormalizeDtaFilename(p: string): (r: string)
    ensures |p| <= |r| && r[..|p|] == p
    ensures r == p <==> HasDtaSuffix(p)
    ensures r != p ==> r[|p|..] == DtaExtension
  {
    if !HasDtaSuffix(p) then p + DtaExtension else p
  }

  /** The last component of `p + e` is the last component of `p` with `e`
      appended, for any `e` without '/' that cannot be "." (such as ".dta"). */
  lemma {:induction false} NameAfterAppend(p: string, e: string)
    requires '/' !in e && |e| >= 2
    ensures PathName(p + e) == p[RFind(p, '/') + 1..] + e
  {
    var k := RFind(p, '/');
    var q := p + e;
    NoSlashAfterAppend(p, e, k);
    assert q[k + 1..] == p[k + 1..] + e;
    assert IsRealComponent(q[k + 1..]) by {
      assert |q[k + 1..]| >= 2;
    }
    PathNameOfLastComponent(q, k);
  }

  /** Appending text without '/' adds no '/' after position `k`. */
  lemma {:induction false} NoSlashAfterAppend(p: string, e: string, k: int)
    requires -1 <= k
    requires forall j :: k < j < |p| ==> p[j] != '/'
    requires '/' !in e
    ensures forall j :: k < j < |p + e| ==> (p + e)[j] != '/'
  {
    forall j | k < j < |p + e|
      ensures (p + e)[j] != '/'
    {
      if j < |p| {
        assert (p + e)[j] == p[j];
      } else {
        assert (p + e)[j] == e[j - |p|];
      }
    }
  }

  /** After normalisation the name carries ".dta" exactly when it already
      did, or when the input is non-empty and does not end in '/'. An empty
      input or a trailing '/' turns into the hidden name ".dta", which by the
      leading-dot rule has no suffix. */
  lemma {:induction false} NormalizedHasDtaSuffix(p: string)
    ensures HasDtaSuffix(NormalizeDtaFilename(p)) <==> HasDtaSuffix(p) || (p != [] && p[|p| - 1] != '/')
  {
    if !HasDtaSuffix(p) {
      var q := p + DtaExtension;
      assert NormalizeDtaFilename(p) == q;
      var k := RFind(p, '/');
      var seg := p[k + 1..] + DtaExtension;
      assert PathName(q) == seg by {
        assert '/' !in DtaExtension;
        NameAfterAppend(p, DtaExtension);
      }
      assert HasDtaSuffix(q) <==> |seg| > 4 by {
        NameSuffixIsDta(seg);
        assert seg[|seg| - 4..] == DtaExtension;
      }
      assert k + 1 < |p| <==> p != [] && p[|p| - 1] != '/' by {
        if p != [] && p[|p| - 1] == '/' {
          assert k == |p| - 1;
        }
      }
    }
  }

  /** `normalize_dta_filename` is idempotent exactly when its first result
      carries the ".dta" suffix: in particular for every non-empty path that
      does not end in '/'. */
  lemma {:induction false} NormalizeDtaFilenameIdempotent(p: string)
    ensures NormalizeDtaFilename(NormalizeDtaFilename(p)) == NormalizeDtaFilename(p)
        <==> HasDtaSuffix(p) || (p != [] && p[|p| - 1] != '/')
  {
    NormalizedHasDtaSuffix(p);
  }

  /** The cases of the tools' tests, for every stem without '.' or '/' (the
      tests use "census") and every directory (the tests use a data folder):
      a missing extension is added, a present one is kept, and the directory
      is kept either way. */
  lemma {:induction false} NormalizeDtaFilenameStems(dir: string, stem: string)
    requires stem != [] && '.' !in stem && '/' !in stem
    ensures NormalizeDtaFilename(stem) == stem + DtaExtension
    ensures NormalizeDtaFilename(stem + DtaExtension) == stem + DtaExtension
    ensures NormalizeDtaFilename(dir + "/" + stem) == dir + "/" + stem + DtaExtension
    ensures NormalizeDtaFilename(dir + "/" + stem + DtaExtension) == dir + "/" + stem + DtaExtension
  {
    NormalizeDtaFilenameBareStem(stem);
    NormalizeDtaFilenameJoinedStem(dir, stem);
  }

  /** The bare-name cases of the tests: "census" gains ".dta", "census.dta"
      is kept. */
  lemma {:induction false} NormalizeDtaFilenameBareStem(stem: string)
    requires stem != [] && '.' !in stem && '/' !in stem
    ensures NormalizeDtaFilename(stem) == stem + DtaExtension
    ensures NormalizeDtaFilename(stem + DtaExtension) == stem + DtaExtension
  {
    StemWithExtension(stem);
    BareNameHasDtaSuffix(stem);
    BareNameHasDtaSuffix(stem + DtaExtension);
  }

  /** The same two cases under a directory: the directory is kept. */
  lemma {:induction false} NormalizeDtaFilenameJoinedStem(dir: string, stem: string)
    requires stem != [] && '.' !in stem && '/' !in stem
    ensures NormalizeDtaFilename(dir + "/" + stem) == dir + "/" + stem + DtaExtension
    ensures NormalizeDtaFilename(dir + "/" + stem + DtaExtension) == dir + "/" + stem + DtaExtension
  {
    StemWithExtension(stem);
    var full := stem + DtaExtension;
    assert NormalizeDtaFilename(dir + "/" + stem) == dir + "/" + full by {
      JoinedPathHasDtaSuffix(dir, stem);
    }
    assert NormalizeDtaFilename(dir + "/" + full) == dir + "/" + full by {
      JoinedPathHasDtaSuffix(dir, full);
    }
    assert dir + "/" + stem + DtaExtension == dir + "/" + full;
  }

  /** A stem without '.' or '/' does not end in ".dta"; with ".dta" appended
      it is a bare name that does. */
  lemma {:induction false} StemWithExtension(stem: string)
    requires stem != [] && '.' !in stem && '/' !in stem
    ensures |stem| < 5 || stem[|stem| - 4..] != DtaExtension
    ensures '/' !in stem + DtaExtension
    ensures |stem + DtaExtension| > 4
    ensures (stem + DtaExtension)[|stem + DtaExtension| - 4..] == DtaExtension
  {
    var full := stem + DtaExtension;
    if |stem| >= 5 {
      assert stem[|stem| - 4..][0] == stem[|stem| - 4];
    }
    assert forall i :: 0 <= i < |full| ==> full[i] == if i < |stem| then stem[i] else DtaExtension[i - |stem|];
    assert full[|full| - 4..] == DtaExtension;
  }

  /** A trailing '/' is not part of the name. */
  lemma {:induction false} PathNameTrailingSlash(p: string)
    ensures PathName(p + "/") == PathName(p)
  {
    var q := p + "/";
    RFindIs(q, '/', |p|);
    assert q[|p| + 1..] == [];
    assert q[..|p|] == p;
  }

  /** Two ways the suffix rule differs from "ends in .dta": a hidden name
      ".dta" has no suffix, so it gets a second extension; and a ".dta" name
      followed by '/' is kept as it is. */
  lemma {:induction false} NormalizeDtaFilenameSuffixRule(dir: string, p: string)
    requires HasDtaSuffix(p)
    ensures NormalizeDtaFilename(DtaExtension) == DtaExtension + DtaExtension
    ensures NormalizeDtaFilename(dir + "/" + DtaExtension) == dir + "/" + DtaExtension + DtaExtension
    ensures NormalizeDtaFilename(p + "/") == p + "/"
  {
    BareNameHasDtaSuffix(DtaExtension);
    JoinedPathHasDtaSuffix(dir, DtaExtension);
    PathNameTrailingSlash(p);
  }

  /** `is_dta_file`, with the filesystem's `Path.is_file()` as the parameter
      `isFile`: true when the name has the ".dta" suffix and the file exists,
      otherwise the `ClickException` naming the path. */
  function IsDtaFile(p: string, isFile: string -> bool): (r: Result<bool, Error>)
    ensures r.Success? <==> HasDtaSuffix(p) && isFile(p)
    ensures r.Success? ==> r.value
    ensures r.Failure? ==> r.error == NotADtaFile(p)
  {
    if HasDtaSuffix(p) && isFile(p) then Success(true) else Failure(NotADtaFile(p))
  }

  /** A bare name without the ".dta" ending is refused whether or not the file
      exists: the test's "census" case. */
  lemma {:induction false} IsDtaFileRefusesOtherExtensions(n: string, isFile: string -> bool)
    requires '/' !in n
    requires |n| < 5 || n[|n| - 4..] != DtaExtension
    ensures IsDtaFile(n, isFile) == Failure(NotADtaFile(n))
  {
    BareNameHasDtaSuffix(n);
  }
}
