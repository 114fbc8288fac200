/** The parser's three process-wide settings (the server version number,
    the server encoding and standard_conforming_strings), the routine that
    sets them by name, and the dotted-version parser it uses. */
module Settings {
  import opened Text

  /** The numbers that sscanf(s, "%d.%d.%d", ...) assigns, restricted to
      components that are plain digit strings: starting at i, up to count
      digit runs, each further one only after a '.'. */
  function ScanFrom(s: string, i: nat, count: nat): (c: seq<nat>)
    requires i <= |s|
    ensures |c| <= count
    decreases count
  {
    if count == 0 then []
    else
      var j := DigitRunEnd(s, i);
      if j == i then []
      else if count > 1 && j < |s| && s[j] == '.' then [Value(s[i..j])] + ScanFrom(s, j + 1, count - 1)
      else [Value(s[i..j])]
  }

  function ScanVersion(s: string): (c: seq<nat>)
    ensures |c| <= 3
  {
    ScanFrom(s, 0, 3)
  }

  /** parse_version: -1 when fewer than two numbers were read, otherwise
      (100 * major + minor) * 100 + revision, the revision being 0 when only
      two numbers were read. */
  function ParseVersion(s: string): (v: int)
    ensures v == -1 <==> |ScanVersion(s)| < 2
    ensures |s| == 0 || !IsDigit(s[0]) ==> v == -1
  {
    var c := ScanVersion(s);
    if |c| < 2 then -1
    else
      var rev := if |c| == 3 then c[2] else 0;
      (100 * c[0] + c[1]) * 100 + rev
  }

  lemma {:induction false} DigitRunShift(x: string, y: string, i: nat)
    requires i <= |y|
    ensures DigitRunEnd(x + y, |x| + i) == |x| + DigitRunEnd(y, i)
    decreases |y| - i
  {
    if i < |y| {
      assert (x + y)[|x| + i] == y[i];
      DigitRunShift(x, y, i + 1);
    }
  }

  /** Scanning is insensitive to text before the starting position. */
  lemma {:induction false} ScanShift(x: string, y: string, i: nat, count: nat)
    requires i <= |y|
    ensures ScanFrom(x + y, |x| + i, count) == ScanFrom(y, i, count)
    decreases count
  {
    if count > 0 {
      DigitRunShift(x, y, i);
      var j := DigitRunEnd(y, i);
      assert (x + y)[|x| + i..|x| + j] == y[i..j];
      if j < |y| {
        assert (x + y)[|x| + j] == y[j];
        ScanShift(x, y, j + 1, count - 1);
      }
    }
  }

  /** Scanning n's decimal rendering followed by text that does not continue
      the digits reads n, and goes on after the rendering exactly when a '.'
      follows it. */
  lemma ScanRendering(n: nat, rest: string, count: nat)
    requires count > 0
    requires |rest| == 0 || !IsDigit(rest[0])
    ensures ScanFrom(NatToString(n) + rest, 0, count)
         == if count > 1 && |rest| > 0 && rest[0] == '.' then [n] + ScanFrom(rest, 1, count - 1) else [n]
  {
    var d := NatToString(n);
    var s := d + rest;
    assert s[0..|d|] == d;
    assert |d| < |s| ==> s[|d|] == rest[0];
    NatToStringDigits(n);
    DigitRunEndAt(s, 0, |d|);
    ValueOfNatToString(n);
    if count > 1 && |rest| > 0 && rest[0] == '.' {
      ScanShift(d, rest, 1, count - 1);
    }
  }

  /** "major" alone, or "major" followed by anything but a '.', is rejected. */
  lemma ParseOneNumber(major: nat, rest: string)
    requires |rest| == 0 || (!IsDigit(rest[0]) && rest[0] != '.')
    ensures ParseVersion(NatToString(major) + rest) == -1
  {
    ScanRendering(major, rest, 3);
  }

  /** "major.minor" gives (100 * major + minor) * 100. */
  lemma ParseTwoNumbers(major: nat, minor: nat)
    ensures ParseVersion(NatToString(major) + "." + NatToString(minor))
         == (100 * major + minor) * 100
  {
    var a, b := NatToString(major), NatToString(minor);
    var r1 := "." + (b + "");
    assert b + "" == b;
    assert a + "." + b == a + ("." + b);
    ScanRendering(major, r1, 3);
    ScanShift(".", b + "", 0, 2);
    ScanRendering(minor, "", 2);
  }

  /** "major.minor.rev", whatever non-digit text follows the revision, gives
      (100 * major + minor) * 100 + rev. */
  lemma ParseThreeNumbers(major: nat, minor: nat, rev: nat, rest: string)
    requires |rest| == 0 || !IsDigit(rest[0])
    ensures ParseVersion(NatToString(major) + "." + NatToString(minor) + "." + NatToString(rev) + rest)
         == (100 * major + minor) * 100 + rev
  {
    var a, b, c := NatToString(major), NatToString(minor), NatToString(rev);
    var r1 := "." + (b + ("." + (c + rest)));
    Regroup(a, b, c, rest);
    ScanRendering(major, r1, 3);
    ScanMinorAndRevision(minor, rev, rest);
    assert ScanVersion(a + r1) == [major, minor, rev];
  }

  /** After the first '.', the two further numbers are read. */
  lemma ScanMinorAndRevision(minor: nat, rev: nat, rest: string)
    requires |rest| == 0 || !IsDigit(rest[0])
    ensures ScanFrom("." + (NatToString(minor) + ("." + (NatToString(rev) + rest))), 1, 2) == [minor, rev]
  {
    var b, c := NatToString(minor), NatToString(rev);
    var r2 := "." + (c + rest);
    ScanShift(".", b + r2, 0, 2);
    ScanRendering(minor, r2, 2);
    assert ScanFrom(b + r2, 0, 2) == [minor] + ScanFrom(r2, 1, 1);
    ScanRevision(rev, rest);
  }

  /** After the second '.', the revision is read. */
  lemma ScanRevision(rev: nat, rest: string)
    requires |rest| == 0 || !IsDigit(rest[0])
    ensures ScanFrom("." + (NatToString(rev) + rest), 1, 1) == [rev]
  {
    ScanShift(".", NatToString(rev) + rest, 0, 1);
    ScanRendering(rev, rest, 1);
  }

  /** The version text, grouped the way the scan reads it. */
  lemma Regroup(a: string, b: string, c: string, rest: string)
    ensures a + "." + b + "." + c + rest == a + ("." + (b + ("." + (c + rest))))
  {
  }

  datatype Encoding = SqlAscii | Utf8

  /** The pg_enc numbering of the two encodings the parser distinguishes
      (PG_SQL_ASCII and PG_UTF8). */
  function EncodingId(enc: Encoding): (id: int)
    ensures id == 0 <==> enc == SqlAscii
    ensures id == 6 <==> enc == Utf8
  {
    match enc
    case SqlAscii => 0
    case Utf8 => 6
  }

  /** The three globals that parser_set_param assigns. */
  class ParserSettings {
    var serverVersionNum: int
    var serverEncoding: Encoding
    var standardConformingStrings: bool

    /** The globals' initial values; standard_conforming_strings is declared
        in the scanner, so its initial value is taken as given. */
    constructor (conforming: bool)
      ensures serverVersionNum == 0 && serverEncoding == SqlAscii
      ensures standardConformingStrings == conforming
    {
      serverVersionNum := 0;
      serverEncoding := SqlAscii;
      standardConformingStrings := conforming;
    }

    /** parser_set_param: "server_version" parses the value as a version,
        "server_encoding" selects UTF8 exactly for the value "UTF8" and
        SQL_ASCII otherwise, "standard_conforming_strings" is on exactly for
        "on"; any other name changes nothing. */
    method SetParam(name: string, value: string)
      modifies this
      ensures name == "server_version" ==>
        serverVersionNum == ParseVersion(value)
        && serverEncoding == old(serverEncoding)
        && standardConformingStrings == old(standardConformingStrings)
      ensures name == "server_encoding" ==>
        serverEncoding == (if value == "UTF8" then Utf8 else SqlAscii)
        && serverVersionNum == old(serverVersionNum)
        && standardConformingStrings == old(standardConformingStrings)
      ensures name == "standard_conforming_strings" ==>
        standardConformingStrings == (value == "on")
        && serverVersionNum == old(serverVersionNum)
        && serverEncoding == old(serverEncoding)
      ensures name !in {"server_version", "server_encoding", "standard_conforming_strings"} ==>
        unchanged(this)
    {
      if name == "server_version" {
        serverVersionNum := ParseVersion(value);
      } else if name == "server_encoding" {
        if value == "UTF8" {
          serverEncoding := Utf8;
        } else {
          serverEncoding := SqlAscii;
        }
      } else if name == "standard_conforming_strings" {
        if value == "on" {
          standardConformingStrings := true;
        } else {
          standardConformingStrings := false;
        }
      }
    }

    /** GetDatabaseEncoding: the pg_enc number of the current server
        encoding, which is always SQL_ASCII (0) or UTF8 (6). */
    function GetDatabaseEncoding(): (id: int)
      reads this
      ensures id == 0 || id == 6
      ensures id == 6 <==> serverEncoding == Utf8
    {
      EncodingId(serverEncoding)
    }
  }
}
