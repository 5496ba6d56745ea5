/**
  Raspberry Pi model detection (bme280pi/raspberry_pi_version.py): a
  constant table from CPU revision codes to model names, and a scan of the
  lines of /proc/cpuinfo for the revision code.

  The file is given as its lines, each with its line terminator, or as
  `None` when it does not exist.  Python's string operations used by the
  scan (`find`, `rstrip`, `replace`, `split`) are defined here on
  `seq<char>`.
*/
module RaspberryPiVersion {
  import opened Wrappers

  // ---------------------------------------------------------------------
  // The revision table

  /**
    `get_list_of_revisions`: CPU revision code to model name; the code
    "0000", which the detection starts from, is listed as "Unknown".
  */
  function KnownRevisions(): (table: map<string, string>)
    ensures NoRevision in table && table[NoRevision] == "Unknown"
  {
    map["0002" := "Model B R1",
        "0003" := "Model B R1",
        "0004" := "Model B R2",
        "0005" := "Model B R2",
        "0006" := "Model B R2",
        "0007" := "Model A",
        "0008" := "Model A",
        "0009" := "Model A",
        "000d" := "Model B R2",
        "000e" := "Model B R2",
        "000f" := "Model B R2",
        "0010" := "Model B+",
        "0011" := "Compute Module",
        "0012" := "Model A+",
        "a01041" := "Pi 2 Model B",
        "a21041" := "Pi 2 Model B",
        "900092" := "Pi Zero",
        "900093" := "Pi Zero",
        "a02082" := "Pi 3 Model B",
        "a22082" := "Pi 3 Model B",
        "9000c1" := "Pi Zero W",
        "c03111" := "Pi 4 Model B",
        "abcdef" := "TestModel",
        "0000" := "Unknown"]
  }

  /** The revision reported when none is found in the file. */
  const NoRevision := "0000"

  /** The final lookup of `detect_raspberry_pi_version`: unknown codes give "Unknown". */
  function Lookup(revision: string): (model: string)
    ensures revision in KnownRevisions() ==> model == KnownRevisions()[revision]
    ensures revision !in KnownRevisions() ==> model == "Unknown"
  {
    if revision in KnownRevisions() then KnownRevisions()[revision] else "Unknown"
  }

  /**
    Every answer is a model name from the table: "Unknown" is itself the
    table's entry for "0000", the code used when no revision is found.
  */
  lemma LookupInTable(revision: string)
    ensures Lookup(revision) in KnownRevisions().Values
    ensures Lookup(NoRevision) == "Unknown"
  {
    var table := KnownRevisions();
    assert table[NoRevision] == "Unknown";
    if revision in table {
      assert table[revision] in table.Values;
    } else {
      assert table[NoRevision] in table.Values;
    }
  }

  /**
    Only the placeholder code "0000" is listed as "Unknown": a lookup that
    answers "Unknown" means the revision was not found or not recognised.
  */
  lemma UnknownOnlyForPlaceholder(revision: string)
    requires revision in KnownRevisions() && KnownRevisions()[revision] == "Unknown"
    ensures revision == NoRevision
  {
  }

  /** Entries of the table the driver's tests rely on. */
  lemma TableEntries()
    ensures Lookup("0002") == "Model B R1"
    ensures Lookup("c03111") == "Pi 4 Model B"
    ensures Lookup("0000") == "Unknown"
    ensures Lookup("bad_id") == "Unknown"
  {
  }

  // ---------------------------------------------------------------------
  // Python string operations

  /** `sub` occurs in `s` starting at index `i`. */
  predicate OccursAt(s: string, sub: string, i: nat)
  {
    i + |sub| <= |s| && s[i..i + |sub|] == sub
  }

  /** `s.find(sub, i)`: the first occurrence of `sub` at or after `i`, or -1. */
  function FindFrom(s: string, sub: string, i: nat): (r: int)
    ensures r == -1 || (i <= r && OccursAt(s, sub, r))
    ensures r == -1 ==> forall k :: i <= k ==> !OccursAt(s, sub, k)
    ensures r != -1 ==> forall k :: i <= k < r ==> !OccursAt(s, sub, k)
    decreases |s| - i
  {
    if i + |sub| > |s| then -1
    else if s[i..i + |sub|] == sub then i
    else FindFrom(s, sub, i + 1)
  }

  /** `s.find(sub)`: the lowest index at which `sub` occurs, or -1 if there is none. */
  function Find(s: string, sub: string): (r: int)
  {
    FindFrom(s, sub, 0)
  }

  /** `find` answers -1 exactly when `sub` occurs nowhere, and otherwise the first occurrence. */
  lemma FindSpec(s: string, sub: string)
    ensures Find(s, sub) >= 0 <==> exists k :: OccursAt(s, sub, k)
    ensures Find(s, sub) >= 0 ==>
      OccursAt(s, sub, Find(s, sub)) && forall k :: 0 <= k < Find(s, sub) ==> !OccursAt(s, sub, k)
  {
  }

  /** Python's `str.isspace` for one character: the Unicode whitespace characters. */
  predicate IsSpace(c: char)
  {
    var n := c as int;
    (0x09 <= n <= 0x0D) || (0x1C <= n <= 0x20) || n == 0x85 || n == 0xA0 || n == 0x1680
    || (0x2000 <= n <= 0x200A) || n == 0x2028 || n == 0x2029 || n == 0x202F
    || n == 0x205F || n == 0x3000
  }

  /** `s.rstrip()`: `s` without its trailing whitespace. */
  function RStrip(s: string): (r: string)
    ensures |r| <= |s| && r == s[..|r|]
    ensures |r| == 0 || !IsSpace(r[|r| - 1])
    ensures forall k :: |r| <= k < |s| ==> IsSpace(s[k])
  {
    if |s| > 0 && IsSpace(s[|s| - 1]) then RStrip(s[..|s| - 1]) else s
  }

  /**
    `s.replace(" ", "")`: `s` with every space character removed; the other
    characters keep their multiplicity (and, by `DeleteSpacesAppend`, their
    order).
  */
  function DeleteSpaces(s: string): (r: string)
    ensures ' ' !in r
    ensures |r| <= |s|
    ensures forall c :: c != ' ' ==> multiset(r)[c] == multiset(s)[c]
  {
    if |s| == 0 then ""
    else
      assert s == [s[0]] + s[1..];
      (if s[0] == ' ' then "" else [s[0]]) + DeleteSpaces(s[1..])
  }

  /**
    Removing spaces works piecewise: the result for `a + b` is the result
    for `a` followed by the result for `b`.  With the one-character case
    this fixes the order of the characters that remain.
  */
  lemma {:induction false} DeleteSpacesAppend(a: string, b: string)
    ensures DeleteSpaces(a + b) == DeleteSpaces(a) + DeleteSpaces(b)
    decreases |a|
  {
    if |a| == 0 {
      assert a + b == b;
    } else {
      var head := if a[0] == ' ' then "" else [a[0]];
      assert (a + b)[0] == a[0] && (a + b)[1..] == a[1..] + b;
      assert DeleteSpaces(a + b) == head + DeleteSpaces(a[1..] + b);
      assert DeleteSpaces(a) == head + DeleteSpaces(a[1..]);
      DeleteSpacesAppend(a[1..], b);
    }
  }

  /** One character: a space disappears, anything else stays. */
  lemma DeleteSpacesChar(c: char)
    ensures DeleteSpaces([c]) == if c == ' ' then "" else [c]
  {
    assert [c][1..] == "";
  }

  /** A string without spaces is left as it is. */
  lemma {:induction false} DeleteSpacesNone(s: string)
    requires ' ' !in s
    ensures DeleteSpaces(s) == s
  {
    if |s| > 0 {
      DeleteSpacesNone(s[1..]);
    }
  }

  /** `s.split(sep)` for a one-character separator: the pieces between separators. */
  function Split(s: string, sep: char): (fields: seq<string>)
    ensures |fields| >= 1
    ensures forall k :: 0 <= k < |fields| ==> sep !in fields[k]
  {
    if |s| == 0 then [""]
    else
      var rest := Split(s[1..], sep);
      if s[0] == sep then [""] + rest
      else [[s[0]] + rest[0]] + rest[1..]
  }

  /** `sep.join(fields)`. */
  function Join(fields: seq<string>, sep: char): string
    requires |fields| >= 1
  {
    if |fields| == 1 then fields[0] else fields[0] + [sep] + Join(fields[1..], sep)
  }

  /** Splitting loses nothing: joining the fields with the separator gives the string back. */
  lemma {:induction false} JoinSplit(s: string, sep: char)
    ensures Join(Split(s, sep), sep) == s
  {
    if |s| > 0 {
      JoinSplit(s[1..], sep);
      var rest := Split(s[1..], sep);
      var fields := Split(s, sep);
      if s[0] == sep {
        assert fields[1..] == rest;
        assert s == [sep] + s[1..];
      } else {
        assert fields[1..] == rest[1..];
        if |rest| == 1 {
          assert s == [s[0]] + rest[0];
        } else {
          assert s == ([s[0]] + rest[0]) + [sep] + Join(rest[1..], sep);
        }
      }
    }
  }

  /** There is a second field exactly when the separator occurs. */
  lemma {:induction false} SplitHasSecond(s: string, sep: char)
    ensures |Split(s, sep)| >= 2 <==> sep in s
  {
    if |s| > 0 {
      SplitHasSecond(s[1..], sep);
      assert s == [s[0]] + s[1..];
    }
  }

  /** Splitting `a + sep + b`, where neither part contains the separator, gives `[a, b]`. */
  lemma {:induction false} SplitTwo(a: string, b: string, sep: char)
    requires sep !in a && sep !in b
    ensures Split(a + [sep] + b, sep) == [a, b]
  {
    if |a| == 0 {
      assert [sep] + b == a + [sep] + b;
      SplitNone(b, sep);
    } else {
      SplitTwo(a[1..], b, sep);
      assert (a + [sep] + b)[1..] == a[1..] + [sep] + b;
      assert [a[0]] + a[1..] == a;
    }
  }

  /** A character absent from the string is absent from every field. */
  lemma {:induction false} SplitExcludes(s: string, sep: char, c: char)
    requires c !in s
    ensures forall k :: 0 <= k < |Split(s, sep)| ==> c !in Split(s, sep)[k]
  {
    if |s| > 0 {
      SplitExcludes(s[1..], sep, c);
    }
  }

  /** A string without the separator is a single field. */
  lemma {:induction false} SplitNone(s: string, sep: char)
    requires sep !in s
    ensures Split(s, sep) == [s]
  {
    if |s| > 0 {
      SplitNone(s[1..], sep);
      assert [s[0]] + s[1..] == s;
    }
  }

  // ---------------------------------------------------------------------
  // The cpuinfo scan

  /** The text `detect_raspberry_pi_version` looks for. */
  const Marker := "Revision"

  /**
    `line.rstrip().replace(" ", "").split(":")[1]`: the second ':'-separated
    field of the stripped, space-free line; IndexError when the line has no
    ':' at all.
  */
  function RevisionOfLine(line: string): (r: Result<string>)
    ensures r.Err? <==> ':' !in DeleteSpaces(RStrip(line))
    ensures r.Ok? ==> ':' !in r.value && ' ' !in r.value
  {
    var fields := Split(DeleteSpaces(RStrip(line)), ':');
    SplitHasSecond(DeleteSpaces(RStrip(line)), ':');
    SplitExcludes(DeleteSpaces(RStrip(line)), ':', ' ');
    if |fields| < 2 then Err(IndexError) else Ok(fields[1])
  }

  /**
    The revision after scanning `lines` with `revision` found so far: every
    line containing "Revision" replaces it, so the last such line wins; a
    matching line without ':' raises IndexError.  The result is the initial
    revision or the field of one of the matching lines, and IndexError is
    the only failure.
  */
  function ScanRevision(lines: seq<string>, revision: string): (r: Result<string>)
    ensures r.Err? ==> r.error == IndexError
    ensures r.Ok? ==>
      (r.value == revision ||
       exists k :: 0 <= k < |lines| && Find(lines[k], Marker) >= 0 && RevisionOfLine(lines[k]) == Ok(r.value))
    decreases |lines|
  {
    if |lines| == 0 then
      Ok(revision)
    else if Find(lines[0], Marker) >= 0 then
      match RevisionOfLine(lines[0])
      case Err(e) => Err(e)
      case Ok(next) =>
        var r := ScanRevision(lines[1..], next);
        assert r.Ok? && r.value != next ==>
          exists k :: 1 <= k < |lines| && Find(lines[k], Marker) >= 0 && RevisionOfLine(lines[k]) == Ok(r.value)
        by {
          if r.Ok? && r.value != next {
            var j :| 0 <= j < |lines| - 1 && Find(lines[1..][j], Marker) >= 0
                     && RevisionOfLine(lines[1..][j]) == Ok(r.value);
            assert lines[1..][j] == lines[j + 1];
          }
        }
        r
    else
      var r := ScanRevision(lines[1..], revision);
      assert r.Ok? && r.value != revision ==>
        exists k :: 1 <= k < |lines| && Find(lines[k], Marker) >= 0 && RevisionOfLine(lines[k]) == Ok(r.value)
      by {
        if r.Ok? && r.value != revision {
          var j :| 0 <= j < |lines| - 1 && Find(lines[1..][j], Marker) >= 0
                   && RevisionOfLine(lines[1..][j]) == Ok(r.value);
          assert lines[1..][j] == lines[j + 1];
        }
      }
      r
  }

  /** Scanning `a + b` is scanning `a`, then `b` from where `a` left off. */
  lemma {:induction false} ScanAppend(a: seq<string>, b: seq<string>, revision: string)
    ensures ScanRevision(a + b, revision) ==
            match ScanRevision(a, revision)
            case Err(e) => Err(e)
            case Ok(r) => ScanRevision(b, r)
    decreases |a|
  {
    if |a| > 0 {
      assert (a + b)[0] == a[0];
      assert (a + b)[1..] == a[1..] + b;
      if Find(a[0], Marker) >= 0 {
        match RevisionOfLine(a[0])
        case Err(e) =>
        case Ok(next) => ScanAppend(a[1..], b, next);
      } else {
        ScanAppend(a[1..], b, revision);
      }
    } else {
      assert a + b == b;
    }
  }

  /** Lines without "Revision" leave the revision as it was. */
  lemma {:induction false} ScanNoMatch(lines: seq<string>, revision: string)
    requires forall k :: 0 <= k < |lines| ==> Find(lines[k], Marker) < 0
    ensures ScanRevision(lines, revision) == Ok(revision)
    decreases |lines|
  {
    if |lines| > 0 {
      ScanNoMatch(lines[1..], revision);
    }
  }

  /**
    The last line containing "Revision" decides: if line `k` matches and
    none after it does, the scan ends with that line's revision, whatever
    came before (unless an earlier matching line raised).
  */
  lemma LastMatchWins(lines: seq<string>, k: nat, revision: string)
    requires k < |lines| && Find(lines[k], Marker) >= 0
    requires forall j :: k < j < |lines| ==> Find(lines[j], Marker) < 0
    requires ScanRevision(lines[..k], revision).Ok?
    ensures ScanRevision(lines, revision) == RevisionOfLine(lines[k])
  {
    var before := lines[..k];
    var after := lines[k + 1..];
    assert lines == before + ([lines[k]] + after);
    ScanAppend(before, [lines[k]] + after, revision);
    var r := ScanRevision(before, revision).value;
    assert ([lines[k]] + after)[1..] == after;
    if RevisionOfLine(lines[k]).Ok? {
      ScanNoMatch(after, RevisionOfLine(lines[k]).value);
    }
  }

  /**
    `detect_raspberry_pi_version` as a function of the file: "Unknown" when
    it is missing, otherwise the model of the last revision found.  Every
    successful detection names a model from the table, and a failure is
    the IndexError of a matching line without ':'.
  */
  function DetectedModel(cpuinfo: Option<seq<string>>): (r: Result<string>)
    ensures cpuinfo.None? ==> r == Ok("Unknown")
    ensures r.Ok? ==> r.value in KnownRevisions().Values
    ensures r.Err? ==> r.error == IndexError
  {
    LookupInTable(NoRevision);
    match cpuinfo
    case None => Ok("Unknown")
    case Some(lines) =>
      match ScanRevision(lines, NoRevision)
      case Err(e) => Err(e)
      case Ok(revision) =>
        LookupInTable(revision);
        Ok(Lookup(revision))
  }

  /**
    `detect_raspberry_pi_version`: loop over the lines, overwriting the
    revision on each line that contains "Revision", then look it up.
  */
  method DetectRaspberryPiVersion(cpuinfo: Option<seq<string>>) returns (r: Result<string>)
    ensures r == DetectedModel(cpuinfo)
  {
    var revision := NoRevision;
    if cpuinfo.None? {
      return Ok("Unknown");
    }
    var lines := cpuinfo.value;
    var i := 0;
    while i < |lines|
      invariant 0 <= i <= |lines|
      invariant ScanRevision(lines, NoRevision) == ScanRevision(lines[i..], revision)
    {
      assert lines[i..][1..] == lines[i + 1..];
      if Find(lines[i], Marker) >= 0 {
        var parsed := RevisionOfLine(lines[i]);
        if parsed.Err? {
          return Err(parsed.error);
        }
        revision := parsed.value;
      }
      i := i + 1;
    }
    return Ok(Lookup(revision));
  }

  /** A file without any "Revision" line gives "Unknown". */
  lemma NoRevisionLine(lines: seq<string>)
    requires forall k :: 0 <= k < |lines| ==> Find(lines[k], Marker) < 0
    ensures DetectedModel(Some(lines)) == Ok("Unknown")
  {
    ScanNoMatch(lines, NoRevision);
  }

  /**
    The file of the driver's tests, "\nRevision:<code>\n": for a code with
    no ':' and no space that does not end in whitespace (every code in the
    table, and "bad_id"), the detected model is the code's table entry.
  */
  lemma TestFile(code: string)
    requires ':' !in code && ' ' !in code
    requires |code| == 0 || !IsSpace(code[|code| - 1])
    ensures DetectedModel(Some(["\n", Marker + ":" + code + "\n"])) == Ok(Lookup(code))
  {
    var line := Marker + ":" + code + "\n";
    assert Find("\n", Marker) == -1;
    TestLine(code);
    var lines := ["\n", line];
    assert lines[1..] == [line];
    assert ScanRevision([line], NoRevision) == Ok(code) by {
      assert [line][1..] == [];
    }
  }

  /** The revision line of the driver's tests: it matches, and its second field is the code. */
  lemma TestLine(code: string)
    requires ':' !in code && ' ' !in code
    requires |code| == 0 || !IsSpace(code[|code| - 1])
    ensures Find(Marker + ":" + code + "\n", Marker) >= 0
    ensures RevisionOfLine(Marker + ":" + code + "\n") == Ok(code)
  {
    var stripped := Marker + [':'] + code;
    var line := stripped + ['\n'];
    assert Marker + ":" + code + "\n" == line;
    assert OccursAt(line, Marker, 0) by {
      assert line[..|Marker|] == Marker;
    }
    MarkerFacts();
    assert ' ' !in stripped;
    assert RStrip(line) == stripped by {
      StripLast(stripped, '\n');
    }
    DeleteSpacesNone(stripped);
    SplitTwo(Marker, code, ':');
  }

  lemma MarkerFacts()
    ensures ':' !in Marker && ' ' !in Marker
  {
  }

  /** Stripping a string that ends in one whitespace character after a non-space removes just that character. */
  lemma StripLast(s: string, c: char)
    requires IsSpace(c) && (|s| == 0 || !IsSpace(s[|s| - 1]))
    ensures RStrip(s + [c]) == s
  {
    assert (s + [c])[..|s|] == s;
  }

  /** Every code in the table is a single token: no ':', no space, no trailing whitespace. */
  lemma TableCodesAreTokens(code: string)
    requires code in KnownRevisions()
    ensures ':' !in code && ' ' !in code && |code| > 0 && !IsSpace(code[|code| - 1])
  {
  }

  /** For every code of the table, the test file detects the code's model. */
  lemma TestFileForTable(code: string)
    requires code in KnownRevisions()
    ensures DetectedModel(Some(["\n", Marker + ":" + code + "\n"])) == Ok(KnownRevisions()[code])
  {
    TableCodesAreTokens(code);
    TestFile(code);
  }
}
