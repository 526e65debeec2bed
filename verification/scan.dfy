/** Image acquisition (pyphe/scan.py): choosing a scanner from the device
    listing, scaling the crop geometries of a fixture to the scan resolution,
    the bay/plate schedule of a batch, and the file names of a batch and of a
    timecourse.

    Nothing is executed: the presence of ImageMagick's `convert` and the text
    printed by `scanimage -L` are inputs, and a batch or timecourse is
    described by the plan of files and crops it produces. */
module Scan {
  import opened Results
  import opened Text
  import Layout

  // ---------------------------------------------------------------------------
  // Scanner discovery (find_scanner)
  // ---------------------------------------------------------------------------

  const NoScannersMarker: string := "No scanners were identified"

  /** The lines of the listing that are not blank, in order. */
  function NonBlank(lines: seq<string>): (r: seq<string>)
    ensures |r| <= |lines|
    ensures forall l :: l in r <==> l in lines && Strip(l) != ""
  {
    if |lines| == 0 then []
    else
      var rest := NonBlank(lines[1..]);
      assert forall l :: l in lines <==> l == lines[0] || l in lines[1..];
      if Strip(lines[0]) == "" then rest else [lines[0]] + rest
  }

  lemma {:induction false} NonBlankKeepsNonBlank(lines: seq<string>)
    requires forall i :: 0 <= i < |lines| ==> Strip(lines[i]) != ""
    ensures NonBlank(lines) == lines
  {
    if |lines| > 0 {
      NonBlankKeepsNonBlank(lines[1..]);
    }
  }

  /** `w[1:-1]`: a word without its first and last character. */
  function Inner(w: string): (r: string)
    ensures |w| >= 2 ==> |r| == |w| - 2 && [w[0]] + r + [w[|w| - 1]] == w
    ensures |w| < 2 ==> r == ""
  {
    if |w| >= 2 then w[1..|w| - 1] else ""
  }

  /** The device name in one listing line: its second word without the quotes
      around it; IndexError when the line has a single word. */
  function ScannerName(line: string): (r: Result<string>)
    ensures r.Ok? <==> |Words(line)| >= 2
    ensures r.Err? ==> r.error.IndexError?
    ensures r.Ok? ==> r.value == Inner(Words(line)[1])
  {
    var ws := Words(line);
    if |ws| < 2 then Err(IndexError("list index out of range"))
    else Ok(Inner(ws[1]))
  }

  /** The device names of all lines; the first line without one raises. */
  function ScannerNames(lines: seq<string>): (r: Result<seq<string>>)
    ensures r.Ok? <==> forall i :: 0 <= i < |lines| ==> ScannerName(lines[i]).Ok?
    ensures r.Ok? ==> |r.value| == |lines|
    ensures r.Ok? ==> forall i :: 0 <= i < |lines| ==> Ok(r.value[i]) == ScannerName(lines[i])
    ensures r.Err? ==> r.error.IndexError?
  {
    MapAll(lines, ScannerName)
  }

  /** `find_scanner`: the `scannerIndex`-th device of the listing, counted from
      1; as in Python, an index of 0 or below counts from the end. */
  function FindScanner(hasConvert: bool, listing: string, scannerIndex: int): (r: Result<string>)
    ensures !hasConvert ==> r.Err? && r.error.ImportError?
    ensures hasConvert && Contains(listing, NoScannersMarker) ==> r.Err? && r.error.RuntimeError?
    ensures hasConvert && !Contains(listing, NoScannersMarker) ==>
      Picked(ScannerNames(NonBlank(Split(listing, '\n'))), scannerIndex, r)
  {
    if !hasConvert then
      Err(ImportError("Cannot find ImageMagick's convert tool."))
    else if Contains(listing, NoScannersMarker) then
      Err(RuntimeError("Could not find any scanners."))
    else
      PickScanner(ScannerNames(NonBlank(Split(listing, '\n'))), scannerIndex)
  }

  /** `r` is the outcome of choosing the `scannerIndex`-th of the names found
      (counted from 1, from the end for 0 and below): an IndexError when the
      names could not be read or the index is out of range. */
  predicate Picked(found: Result<seq<string>>, scannerIndex: int, r: Result<string>) {
    && (r.Ok? <==> found.Ok? && -|found.value| < scannerIndex <= |found.value|)
    && (r.Err? ==> r.error.IndexError?)
    && (r.Ok? && scannerIndex >= 1 ==> r.value == found.value[scannerIndex - 1])
    && (r.Ok? && scannerIndex <= 0 ==> r.value == found.value[|found.value| + scannerIndex - 1])
  }

  /** The choice among the names found, counted from 1. */
  function PickScanner(found: Result<seq<string>>, scannerIndex: int): (r: Result<string>)
    requires found.Err? ==> found.error.IndexError?
    ensures Picked(found, scannerIndex, r)
  {
    if found.Err? then Err(found.error)
    else ListIndex(found.value, scannerIndex - 1)
  }

  /** Python's `xs[i]`: negative indices count from the end. */
  function ListIndex<T>(xs: seq<T>, i: int): (r: Result<T>)
    ensures r.Ok? <==> -|xs| <= i < |xs|
    ensures r.Err? ==> r.error.IndexError?
    ensures r.Ok? && i >= 0 ==> r.value == xs[i]
    ensures r.Ok? && i < 0 ==> r.value == xs[|xs| + i]
  {
    if -|xs| <= i < 0 then Ok(xs[|xs| + i])
    else if 0 <= i < |xs| then Ok(xs[i])
    else Err(IndexError("list index out of range"))
  }

  /** The line `scanimage -L` prints for one device. */
  function DeviceLine(name: string, description: string): string {
    "device `" + name + "' is a " + description
  }

  /** The filter keeps the order of the listing: filtering a concatenation
      filters each side in turn. */
  lemma {:induction false} NonBlankAppend(a: seq<string>, b: seq<string>)
    ensures NonBlank(a + b) == NonBlank(a) + NonBlank(b)
    decreases |a|
  {
    if |a| == 0 {
      assert a + b == b;
    } else {
      var ab := a + b;
      assert ab[0] == a[0] && ab[1..] == a[1..] + b;
      NonBlankAppend(a[1..], b);
      if Strip(a[0]) != "" {
        calc {
          NonBlank(ab);
          [a[0]] + NonBlank(a[1..] + b);
          [a[0]] + (NonBlank(a[1..]) + NonBlank(b));
          ([a[0]] + NonBlank(a[1..])) + NonBlank(b);
        }
      } else {
        assert NonBlank(ab) == NonBlank(a[1..] + b);
      }
    }
  }

  /** A listing ending in a newline has an empty last line, which the filter
      drops. */
  lemma NonBlankTrailing(lines: seq<string>)
    ensures NonBlank(lines + [""]) == NonBlank(lines)
  {
    NonBlankAppend(lines, [""]);
    assert Strip("") == "";
  }

  /** The device name is read back from its line. */
  lemma ScannerNameOfDeviceLine(name: string, description: string)
    requires |name| > 0 && NoSpace(name)
    ensures ScannerName(DeviceLine(name, description)) == Ok(name)
  {
    var quoted := "`" + name + "'";
    var tail := " is a " + description;
    assert DeviceLine(name, description) == "device" + [' '] + quoted + tail;
    assert NoSpace(quoted) by {
      assert forall i :: 1 <= i < |quoted| - 1 ==> quoted[i] == name[i - 1];
    }
    SecondWord(DeviceLine(name, description), "device", quoted, tail);
    assert Inner(quoted) == name;
  }

  /** Whatever devices are listed, the scanner chosen by its 1-based position
      is the device at that position. */
  lemma FindScannerRoundTrip(names: seq<string>, descriptions: seq<string>, k: int)
    requires |names| == |descriptions| >= 1
    requires forall j :: 0 <= j < |names| ==> |names[j]| > 0 && NoSpace(names[j])
    requires forall j :: 0 <= j < |descriptions| ==> '\n' !in descriptions[j]
    requires 1 <= k <= |names|
    requires var lines := seq(|names|, j requires 0 <= j < |names| => DeviceLine(names[j], descriptions[j]));
      !Contains(Join(lines, '\n'), NoScannersMarker)
    ensures var lines := seq(|names|, j requires 0 <= j < |names| => DeviceLine(names[j], descriptions[j]));
      FindScanner(true, Join(lines, '\n'), k) == Ok(names[k - 1])
  {
    var lines := seq(|names|, j requires 0 <= j < |names| => DeviceLine(names[j], descriptions[j]));
    forall j | 0 <= j < |lines|
      ensures '\n' !in lines[j] && Strip(lines[j]) != "" && ScannerName(lines[j]) == Ok(names[j])
    {
      DeviceLineFacts(names[j], descriptions[j]);
    }
    SplitJoin(lines, '\n');
    NonBlankKeepsNonBlank(lines);
    ScannerNamesOfNames(lines, names);
    assert PickScanner(Ok(names), k) == Ok(names[k - 1]);
  }

  /** `scanimage -L` ends its listing with a newline; the empty text after it
      is filtered out and the choice by position is unchanged. */
  lemma FindScannerTrailingNewline(names: seq<string>, descriptions: seq<string>, k: int)
    requires |names| == |descriptions| >= 1
    requires forall j :: 0 <= j < |names| ==> |names[j]| > 0 && NoSpace(names[j])
    requires forall j :: 0 <= j < |descriptions| ==> '\n' !in descriptions[j]
    requires 1 <= k <= |names|
    requires var lines := seq(|names|, j requires 0 <= j < |names| => DeviceLine(names[j], descriptions[j]));
      !Contains(Join(lines, '\n') + "\n", NoScannersMarker)
    ensures var lines := seq(|names|, j requires 0 <= j < |names| => DeviceLine(names[j], descriptions[j]));
      FindScanner(true, Join(lines, '\n') + "\n", k) == Ok(names[k - 1])
  {
    var lines := seq(|names|, j requires 0 <= j < |names| => DeviceLine(names[j], descriptions[j]));
    forall j | 0 <= j < |lines|
      ensures '\n' !in lines[j] && Strip(lines[j]) != "" && ScannerName(lines[j]) == Ok(names[j])
    {
      DeviceLineFacts(names[j], descriptions[j]);
    }
    var listing := Join(lines, '\n') + "\n";
    assert listing == Join(lines, '\n') + ['\n'] + "";
    SplitJoin(lines, '\n');
    SplitAround(Join(lines, '\n'), "", '\n');
    assert Split(listing, '\n') == lines + [""];
    NonBlankTrailing(lines);
    NonBlankKeepsNonBlank(lines);
    ScannerNamesOfNames(lines, names);
    assert PickScanner(Ok(names), k) == Ok(names[k - 1]);
  }

  /** A device line is one non-blank line naming its device. */
  lemma DeviceLineFacts(name: string, description: string)
    requires |name| > 0 && NoSpace(name) && '\n' !in description
    ensures '\n' !in DeviceLine(name, description)
    ensures Strip(DeviceLine(name, description)) != ""
    ensures ScannerName(DeviceLine(name, description)) == Ok(name)
  {
    DeviceLineOneLine(name, description);
    DeviceLineNotBlank(name, description);
    ScannerNameOfDeviceLine(name, description);
  }

  /** A device line is a single line when its description is. */
  lemma DeviceLineOneLine(name: string, description: string)
    requires NoSpace(name) && '\n' !in description
    ensures '\n' !in DeviceLine(name, description)
  {
    assert IsSpace('\n');
    assert '\n' !in name;
  }

  /** A device line starts with a letter, so it is never blank. */
  lemma DeviceLineNotBlank(name: string, description: string)
    ensures Strip(DeviceLine(name, description)) != ""
  {
    var line := DeviceLine(name, description);
    assert line[0] == 'd' && !IsSpace('d');
    StripEmptyIffBlank(line);
  }


  lemma ScannerNamesOfNames(lines: seq<string>, names: seq<string>)
    requires |lines| == |names|
    requires forall j :: 0 <= j < |lines| ==> ScannerName(lines[j]) == Ok(names[j])
    ensures ScannerNames(lines) == Ok(names)
  {
    var r := ScannerNames(lines);
    assert r.Ok?;
    assert |r.value| == |names|;
    assert forall j :: 0 <= j < |lines| ==> r.value[j] == names[j];
    assert r.value == names;
  }

  // ---------------------------------------------------------------------------
  // Crop geometry
  // ---------------------------------------------------------------------------

  /** Python's `int()` of a float: truncation towards zero. */
  function Truncate(x: real): (n: int)
    ensures x >= 0.0 ==> 0 <= n && n as real <= x < n as real + 1.0
    ensures x < 0.0 ==> n <= 0 && n as real - 1.0 < x <= n as real
  {
    if x >= 0.0 then x.Floor else -((-x).Floor)
  }

  /** `int(int(v) * (resolution / 600.0))`, in exact arithmetic. */
  function ScaleCoordinate(v: int, resolution: int): (n: int)
    ensures resolution == 600 ==> n == v
    ensures v >= 0 && resolution >= 0 ==> 0 <= n && (n * 600) as real <= (v * resolution) as real
    ensures v * resolution >= 0 ==> n == (v * resolution) / 600
    ensures v * resolution < 0 ==> n == -((-(v * resolution)) / 600)
  {
    Truncate((v * resolution) as real / 600.0)
  }

  /** `int(p)` of every part, in order; the first part that is not an integer
      literal raises ValueError. */
  function ParseInts(parts: seq<string>): (r: Result<seq<int>>)
    ensures r.Ok? <==> forall i :: 0 <= i < |parts| ==> ParseInt(parts[i]).Ok?
    ensures r.Ok? ==> |r.value| == |parts|
    ensures r.Ok? ==> forall i :: 0 <= i < |parts| ==> Ok(r.value[i]) == ParseInt(parts[i])
    ensures r.Err? ==> r.error.ValueError?
  {
    MapAll(parts, ParseInt)
  }

  /** An ImageMagick crop geometry `WxH+X+Y`. */
  function FormatGeometry(w: int, h: int, x: int, y: int): string {
    IntToString(w) + "x" + IntToString(h) + "+" + IntToString(x) + "+" + IntToString(y)
  }

  /** The numbers of a geometry string: `g.replace('+', 'x').split('x')`. */
  function GeometryParts(g: string): seq<string> {
    Split(Replace(g, '+', 'x'), 'x')
  }

  /** One fixture geometry scaled from 600 dpi to `resolution`. Every part is
      converted first (ValueError), then the first four are used
      (IndexError when there are fewer); further parts are ignored. */
  function ScaleGeometry(g: string, resolution: int): (r: Result<string>)
    ensures var parts := GeometryParts(g);
      && (r.Ok? <==> ParseInts(parts).Ok? && |parts| >= 4)
      && (ParseInts(parts).Err? ==> r.Err? && r.error.ValueError?)
      && (ParseInts(parts).Ok? && |parts| < 4 ==> r.Err? && r.error.IndexError?)
    ensures r.Ok? ==> var v := ParseInts(GeometryParts(g)).value;
      r.value == FormatGeometry(ScaleCoordinate(v[0], resolution), ScaleCoordinate(v[1], resolution),
                                ScaleCoordinate(v[2], resolution), ScaleCoordinate(v[3], resolution))
  {
    var v :- ParseInts(GeometryParts(g));
    if |v| < 4 then Err(IndexError("list index out of range"))
    else
      Ok(FormatGeometry(ScaleCoordinate(v[0], resolution), ScaleCoordinate(v[1], resolution),
                        ScaleCoordinate(v[2], resolution), ScaleCoordinate(v[3], resolution)))
  }

  lemma IntToStringPlain(n: int)
    ensures 'x' !in IntToString(n) && '+' !in IntToString(n)
    ensures '/' !in IntToString(n) && '_' !in IntToString(n)
  {
  }

  /** One step of replacing '+' by 'x' along a separated string. */
  lemma ReplaceStep(a: string, c: char, rest: string)
    requires '+' !in a
    ensures Replace(a + [c] + rest, '+', 'x') == a + [if c == '+' then 'x' else c] + Replace(rest, '+', 'x')
  {
    ReplaceConcat(a + [c], rest, '+', 'x');
    ReplaceConcat(a, [c], '+', 'x');
    ReplaceAbsent(a, '+', 'x');
  }

  lemma JoinFour(a: string, b: string, c: string, d: string, sep: char)
    ensures Join([a, b, c, d], sep) == a + [sep] + (b + [sep] + (c + [sep] + d))
  {
    assert [c, d][1..] == [d];
    assert Join([c, d], sep) == c + [sep] + d;
    assert [b, c, d][1..] == [c, d];
    assert Join([b, c, d], sep) == b + [sep] + Join([c, d], sep);
    assert [a, b, c, d][1..] == [b, c, d];
  }

  /** In a formatted geometry every separator becomes 'x'. */
  lemma ReplaceInFormat(w: int, h: int, x: int, y: int)
    ensures Replace(FormatGeometry(w, h, x, y), '+', 'x') ==
      Join([IntToString(w), IntToString(h), IntToString(x), IntToString(y)], 'x')
  {
    var sw, sh, sx, sy := IntToString(w), IntToString(h), IntToString(x), IntToString(y);
    IntToStringPlain(w);
    IntToStringPlain(h);
    IntToStringPlain(x);
    IntToStringPlain(y);
    assert FormatGeometry(w, h, x, y) == sw + ['x'] + (sh + ['+'] + (sx + ['+'] + sy));
    ReplaceStep(sw, 'x', sh + ['+'] + (sx + ['+'] + sy));
    ReplaceStep(sh, '+', sx + ['+'] + sy);
    ReplaceStep(sx, '+', sy);
    ReplaceAbsent(sy, '+', 'x');
    JoinFour(sw, sh, sx, sy, 'x');
  }

  /** Decimal strings parse back to their numbers. */
  lemma ParseIntsOfStrings(parts: seq<string>, vals: seq<int>)
    requires |parts| == |vals|
    requires forall i :: 0 <= i < |vals| ==> parts[i] == IntToString(vals[i])
    ensures ParseInts(parts) == Ok(vals)
  {
    forall i | 0 <= i < |vals|
      ensures ParseInt(parts[i]) == Ok(vals[i])
    {
      ParseIntOfIntToString(vals[i]);
    }
    var r := ParseInts(parts);
    assert r.Ok?;
    assert forall i :: 0 <= i < |vals| ==> r.value[i] == vals[i];
    assert r.value == vals;
  }

  /** A formatted geometry reads back as its four numbers. */
  lemma GeometryPartsOfFormat(w: int, h: int, x: int, y: int)
    ensures GeometryParts(FormatGeometry(w, h, x, y)) == [IntToString(w), IntToString(h), IntToString(x), IntToString(y)]
    ensures ParseInts(GeometryParts(FormatGeometry(w, h, x, y))) == Ok([w, h, x, y])
  {
    var parts := [IntToString(w), IntToString(h), IntToString(x), IntToString(y)];
    SplitFormat(w, h, x, y);
    ParseIntsOfStrings(parts, [w, h, x, y]);
  }

  /** The parts of a formatted geometry are its four numbers as text. */
  lemma SplitFormat(w: int, h: int, x: int, y: int)
    ensures GeometryParts(FormatGeometry(w, h, x, y)) == [IntToString(w), IntToString(h), IntToString(x), IntToString(y)]
  {
    var parts := [IntToString(w), IntToString(h), IntToString(x), IntToString(y)];
    IntToStringPlain(w);
    IntToStringPlain(h);
    IntToStringPlain(x);
    IntToStringPlain(y);
    ReplaceInFormat(w, h, x, y);
    SplitJoin(parts, 'x');
  }

  /** Scaling a well-formed geometry scales each of its numbers. */
  lemma ScaleFormattedGeometry(w: int, h: int, x: int, y: int, resolution: int)
    ensures ScaleGeometry(FormatGeometry(w, h, x, y), resolution) ==
      Ok(FormatGeometry(ScaleCoordinate(w, resolution), ScaleCoordinate(h, resolution),
                        ScaleCoordinate(x, resolution), ScaleCoordinate(y, resolution)))
  {
    GeometryPartsOfFormat(w, h, x, y);
  }

  /** At 600 dpi a scaled geometry is left as it is: scaling twice to 600 dpi
      is scaling once. */
  lemma ScaleGeometryAt600Idempotent(g: string, resolution: int)
    requires ScaleGeometry(g, resolution).Ok?
    ensures ScaleGeometry(ScaleGeometry(g, resolution).value, 600) == ScaleGeometry(g, resolution)
  {
    var v := ParseInts(GeometryParts(g)).value;
    ScaleFormattedGeometry(ScaleCoordinate(v[0], resolution), ScaleCoordinate(v[1], resolution),
                           ScaleCoordinate(v[2], resolution), ScaleCoordinate(v[3], resolution), 600);
  }

  /** All geometries of a fixture, the first failure raising. */
  function ScaleGeometries(gs: seq<string>, resolution: int): (r: Result<seq<string>>)
    ensures r.Ok? <==> forall i :: 0 <= i < |gs| ==> ScaleGeometry(gs[i], resolution).Ok?
    ensures r.Ok? ==> |r.value| == |gs|
    ensures r.Ok? ==> forall i :: 0 <= i < |gs| ==> Ok(r.value[i]) == ScaleGeometry(gs[i], resolution)
  {
    MapAll(gs, g => ScaleGeometry(g, resolution))
  }

  // ---------------------------------------------------------------------------
  // The batch schedule (scan_batch)
  // ---------------------------------------------------------------------------

  /** `int(np.ceil(n / float(ppscan)))`; ZeroDivisionError for a fixture
      without plates. */
  function ScanCount(n: int, ppscan: nat): (r: Result<int>)
    ensures r.Err? <==> ppscan == 0
    ensures r.Err? ==> r.error.ZeroDivisionError?
    ensures r.Ok? ==> n <= r.value * ppscan < n + ppscan
  {
    if ppscan == 0 then Err(ZeroDivisionError("float division by zero"))
    else
      var q := (-n) / ppscan;
      assert -n == ppscan * q + (-n) % ppscan;
      assert (-q) * ppscan == -(ppscan * q);
      Ok(-q)
  }

  /** The source `scanimage` is told to use. */
  function Source(mode: string): (s: string)
    ensures s == "TPU8x10" <==> mode == "Gray"
    ensures s != "TPU8x10" ==> s == "Flatbed"
  {
    if mode == "Gray" then "TPU8x10" else "Flatbed"
  }

  /** The plate labels, followed by the largest number of empty bays the last
      scan can have. */
  function BayLabels(n: int, plateStart: int, ppscan: nat): (labels: seq<string>)
    requires ppscan >= 1
    ensures |labels| == (if n > 0 then n else 0) + ppscan - 1
    ensures forall k :: 0 <= k < |labels| ==>
      labels[k] == if k < n then IntToString(plateStart + k) else "empty"
  {
    var m := if n > 0 then n else 0;
    seq(m, k requires 0 <= k < m => IntToString(plateStart + k)) + seq(ppscan - 1, _ => "empty")
  }

  /** Every bay of every scan has a label: the index the prompt uses is in
      range. */
  lemma BayIndexInRange(n: int, ppscan: nat, i: int, q: int)
    requires ppscan >= 1
    requires 1 <= i <= ScanCount(n, ppscan).value && 1 <= q <= ppscan
    ensures 0 <= (i - 1) * ppscan + (q - 1) < (if n > 0 then n else 0) + ppscan - 1
  {
    var nscans := ScanCount(n, ppscan).value;
    Layout.MulMonotone(ppscan, i - 1, nscans - 1);
    Layout.MulMonotone(ppscan, 0, i - 1);
    assert (nscans - 1) * ppscan == nscans * ppscan - ppscan;
  }

  /** Plate `k` (counted from 0) goes into scan `k / ppscan + 1`, bay
      `k % ppscan`, and that scan is part of the batch. */
  lemma PlateSlot(n: int, ppscan: nat, k: int)
    requires ppscan >= 1 && 0 <= k < n
    ensures 1 <= k / ppscan + 1 <= ScanCount(n, ppscan).value
    ensures 0 <= k % ppscan < ppscan && (k / ppscan) * ppscan + k % ppscan == k
  {
    var nscans := ScanCount(n, ppscan).value;
    assert k == ppscan * (k / ppscan) + k % ppscan;
    if k / ppscan + 1 > nscans {
      Layout.MulMonotone(ppscan, nscans, k / ppscan);
    }
  }

  /** No plate is assigned to two slots. */
  lemma PlateSlotUnique(ppscan: nat, i: int, p: int, k: int)
    requires ppscan >= 1 && 0 <= p < ppscan && (i - 1) * ppscan + p == k
    ensures i == k / ppscan + 1 && p == k % ppscan
  {
    assert k == ppscan * (i - 1) + p;
    Layout.DivModUnique(k, ppscan, i - 1, p);
  }

  /** `'%s_%s/' % (prefix, postfix)`. */
  function WorkDir(prefix: string, postfix: string): string {
    prefix + "_" + postfix + "/"
  }

  function RawDir(prefix: string, postfix: string): string {
    WorkDir(prefix, postfix) + "raw_scans/"
  }

  /** The raw image of scan `i`. */
  function RawScanFile(prefix: string, postfix: string, i: int): string {
    RawDir(prefix, postfix) + prefix + "_rawscan" + IntToString(i) + "_" + postfix + ".tiff"
  }

  /** The cropped image of plate number `plate` of a batch. */
  function BatchPlateFile(prefix: string, postfix: string, plate: int, format: string): string {
    WorkDir(prefix, postfix) + prefix + "_" + (IntToString(plate) + "_" + (postfix + "." + format))
  }

  /** Equal strings with a common head agree after it. */
  lemma DropCommonPrefix(p: string, x: string, y: string)
    requires p + x == p + y
    ensures x == y
  {
    assert x == (p + x)[|p|..];
    assert y == (p + y)[|p|..];
  }

  /** Distinct plate numbers are cropped into distinct files. */
  lemma BatchPlateFilesDistinct(prefix: string, postfix: string, format: string, a: int, b: int)
    ensures BatchPlateFile(prefix, postfix, a, format) == BatchPlateFile(prefix, postfix, b, format) <==> a == b
  {
    if BatchPlateFile(prefix, postfix, a, format) == BatchPlateFile(prefix, postfix, b, format) {
      var head := WorkDir(prefix, postfix) + prefix + "_";
      var tail := postfix + "." + format;
      DropCommonPrefix(head, IntToString(a) + ['_'] + tail, IntToString(b) + ['_'] + tail);
      IntToStringPlain(a);
      IntToStringPlain(b);
      SeparatedParts(IntToString(a), tail, IntToString(b), tail, '_');
      IntToStringInjective(a, b);
    }
  }

  datatype Crop = Crop(geometry: string, output: string)

  /** One scan of a batch: what each bay must hold, the raw image and the
      plates cropped from it. */
  datatype BatchScan = BatchScan(bays: seq<string>, rawFile: string, source: string, crops: seq<Crop>)

  /** The number of plates of scan `i` that are cropped: bays beyond the
      last plate are skipped. */
  function CropCount(n: int, ppscan: nat, i: int): (m: nat)
    ensures m <= ppscan
    ensures m == 0 || (i - 1) * ppscan + m - 1 < n
    ensures m == ppscan || (i - 1) * ppscan + m >= n
  {
    var left := n - (i - 1) * ppscan;
    if left <= 0 then 0 else if left < ppscan then left else ppscan
  }

  /** Scan `i` of a batch: the bay labels the prompt shows, the raw image,
      and the crops of the bays that hold a plate. */
  function PlanScan(n: int, plateStart: int, prefix: string, postfix: string, geometry: seq<string>,
                    mode: string, format: string, i: int): (s: BatchScan)
    requires |geometry| >= 1 && 1 <= i <= ScanCount(n, |geometry|).value
    ensures |s.bays| == |geometry|
    ensures forall q :: 0 <= q < |geometry| ==>
      s.bays[q] == if (i - 1) * |geometry| + q < n then IntToString(plateStart + (i - 1) * |geometry| + q) else "empty"
    ensures |s.crops| == CropCount(n, |geometry|, i)
    ensures forall p :: 0 <= p < |s.crops| ==>
      s.crops[p] == Crop(geometry[p], BatchPlateFile(prefix, postfix, plateStart + (i - 1) * |geometry| + p, format))
    ensures s.rawFile == RawScanFile(prefix, postfix, i) && s.source == Source(mode)
  {
    var ppscan := |geometry|;
    var labels := BayLabels(n, plateStart, ppscan);
    BayIndexInRange(n, ppscan, i, ppscan);
    assert 0 <= (i - 1) * ppscan by {
      Layout.MulMonotone(ppscan, 0, i - 1);
    }
    var bays := seq(ppscan, q requires 0 <= q < ppscan => labels[(i - 1) * ppscan + q]);
    var m := CropCount(n, ppscan, i);
    var crops := seq(m, p requires 0 <= p < m =>
      Crop(geometry[p], BatchPlateFile(prefix, postfix, plateStart + (i - 1) * ppscan + p, format)));
    BatchScan(bays, RawScanFile(prefix, postfix, i), Source(mode), crops)
  }

  datatype BatchPlan = BatchPlan(workDir: string, rawDir: string, geometry: seq<string>, scans: seq<BatchScan>)

  /** The batch for already scaled geometries. */
  function PlanBatch(n: int, plateStart: int, prefix: string, postfix: string, geometry: seq<string>,
                     mode: string, format: string): (plan: BatchPlan)
    requires |geometry| >= 1
    ensures plan.workDir == WorkDir(prefix, postfix) && plan.rawDir == RawDir(prefix, postfix)
    ensures plan.geometry == geometry
    ensures |plan.scans| == (var c := ScanCount(n, |geometry|).value; if c > 0 then c else 0)
    ensures forall j :: 0 <= j < |plan.scans| ==>
      plan.scans[j] == PlanScan(n, plateStart, prefix, postfix, geometry, mode, format, j + 1)
  {
    var nscans := ScanCount(n, |geometry|).value;
    var count := if nscans > 0 then nscans else 0;
    var scans := seq(count, j requires 0 <= j < count =>
      PlanScan(n, plateStart, prefix, postfix, geometry, mode, format, j + 1));
    BatchPlan(WorkDir(prefix, postfix), RawDir(prefix, postfix), geometry, scans)
  }

  /** `scan_batch`: the fixture's geometries (KeyError for an unknown
      fixture), scaled; then one scan for every `ppscan` plates
      (ZeroDivisionError for a fixture without plates). */
  function ScanBatch(n: int, plateStart: int, prefix: string, postfix: string, fixture: string,
                     resolution: int, geometries: map<string, seq<string>>,
                     mode: string, format: string): (r: Result<BatchPlan>)
    ensures fixture !in geometries ==> r.Err? && r.error.KeyError?
    ensures r.Ok? <==> fixture in geometries && ScaleGeometries(geometries[fixture], resolution).Ok? &&
                       |geometries[fixture]| >= 1
    ensures (fixture in geometries && ScaleGeometries(geometries[fixture], resolution).Ok? &&
             |geometries[fixture]| == 0) ==> r.Err? && r.error.ZeroDivisionError?
    ensures r.Ok? ==> r.value == PlanBatch(n, plateStart, prefix, postfix,
                                  ScaleGeometries(geometries[fixture], resolution).value, mode, format)
  {
    if fixture !in geometries then Err(KeyError(fixture))
    else
      var scaled := ScaleGeometries(geometries[fixture], resolution);
      if scaled.Err? then Err(scaled.error)
      else if |scaled.value| == 0 then
        var counted := ScanCount(n, 0);
        Err(counted.error)
      else Ok(PlanBatch(n, plateStart, prefix, postfix, scaled.value, mode, format))
  }

  /** Every plate of a batch is shown in its bay and cropped, with that bay's
      geometry, to its own file. */
  lemma BatchCropsEveryPlate(n: int, plateStart: int, prefix: string, postfix: string, geometry: seq<string>,
                             mode: string, format: string, k: int)
    requires |geometry| >= 1 && 0 <= k < n
    ensures var plan := PlanBatch(n, plateStart, prefix, postfix, geometry, mode, format);
      var ppscan := |geometry|;
      && k / ppscan < |plan.scans|
      && k % ppscan < |plan.scans[k / ppscan].crops|
      && plan.scans[k / ppscan].bays[k % ppscan] == IntToString(plateStart + k)
      && plan.scans[k / ppscan].crops[k % ppscan] ==
           Crop(geometry[k % ppscan], BatchPlateFile(prefix, postfix, plateStart + k, format))
  {
    var plan := PlanBatch(n, plateStart, prefix, postfix, geometry, mode, format);
    var ppscan := |geometry|;
    PlateSlot(n, ppscan, k);
    var j := k / ppscan;
    assert (j + 1 - 1) * ppscan + k % ppscan == k;
    assert plan.scans[j] == PlanScan(n, plateStart, prefix, postfix, geometry, mode, format, j + 1);
  }

  // ---------------------------------------------------------------------------
  // The timecourse (scan_timecourse)
  // ---------------------------------------------------------------------------

  /** The folder of bay `q` (counted from 1). */
  function PlateDir(prefix: string, postfix: string, q: int): string {
    WorkDir(prefix, postfix) + "plate_" + IntToString(q)
  }

  /** The image of bay `q` (counted from 1) at timepoint `i`. */
  function TimecourseFile(prefix: string, postfix: string, i: int, q: int, format: string): (f: string)
    ensures f == PlateDir(prefix, postfix, q) + "/" + TimecourseName(prefix, postfix, i, q, format)
  {
    WorkDir(prefix, postfix) + "plate_" + (IntToString(q) + "/" + TimecourseName(prefix, postfix, i, q, format))
  }

  function TimecourseName(prefix: string, postfix: string, i: int, q: int, format: string): string {
    prefix + "_" + (IntToString(i) + "_" + (postfix + "_plate" + IntToString(q) + "." + format))
  }

  lemma PlateDirsDistinct(prefix: string, postfix: string, a: int, b: int)
    ensures PlateDir(prefix, postfix, a) == PlateDir(prefix, postfix, b) <==> a == b
  {
    if PlateDir(prefix, postfix, a) == PlateDir(prefix, postfix, b) {
      DropCommonPrefix(WorkDir(prefix, postfix) + "plate_", IntToString(a), IntToString(b));
      IntToStringInjective(a, b);
    }
  }

  /** Files of one name are in one plate folder. */
  lemma TimecourseFileParts(prefix: string, postfix: string, format: string, i1: int, q1: int, i2: int, q2: int)
    requires TimecourseFile(prefix, postfix, i1, q1, format) == TimecourseFile(prefix, postfix, i2, q2, format)
    ensures q1 == q2
    ensures TimecourseName(prefix, postfix, i1, q1, format) == TimecourseName(prefix, postfix, i2, q2, format)
  {
    var head := WorkDir(prefix, postfix) + "plate_";
    var rest1 := TimecourseName(prefix, postfix, i1, q1, format);
    var rest2 := TimecourseName(prefix, postfix, i2, q2, format);
    DropCommonPrefix(head, IntToString(q1) + ['/'] + rest1, IntToString(q2) + ['/'] + rest2);
    IntToStringPlain(q1);
    IntToStringPlain(q2);
    SeparatedParts(IntToString(q1), rest1, IntToString(q2), rest2, '/');
    IntToStringInjective(q1, q2);
  }

  lemma TimecourseNameParts(prefix: string, postfix: string, format: string, i1: int, i2: int, q: int)
    requires TimecourseName(prefix, postfix, i1, q, format) == TimecourseName(prefix, postfix, i2, q, format)
    ensures i1 == i2
  {
    var tail := postfix + "_plate" + IntToString(q) + "." + format;
    DropCommonPrefix(prefix + "_", IntToString(i1) + ['_'] + tail, IntToString(i2) + ['_'] + tail);
    IntToStringPlain(i1);
    IntToStringPlain(i2);
    SeparatedParts(IntToString(i1), tail, IntToString(i2), tail, '_');
    IntToStringInjective(i1, i2);
  }

  /** Every bay at every timepoint is written to its own file. */
  lemma TimecourseFilesDistinct(prefix: string, postfix: string, format: string, i1: int, q1: int, i2: int, q2: int)
    ensures TimecourseFile(prefix, postfix, i1, q1, format) == TimecourseFile(prefix, postfix, i2, q2, format)
      <==> i1 == i2 && q1 == q2
  {
    if TimecourseFile(prefix, postfix, i1, q1, format) == TimecourseFile(prefix, postfix, i2, q2, format) {
      TimecourseFileParts(prefix, postfix, format, i1, q1, i2, q2);
      TimecourseNameParts(prefix, postfix, format, i1, i2, q1);
    }
  }

  datatype TimecourseScan = TimecourseScan(rawFile: string, source: string, crops: seq<Crop>)

  datatype TimecoursePlan = TimecoursePlan(workDir: string, plateDirs: seq<string>, rawDir: string,
                                           geometry: seq<string>, scans: seq<TimecourseScan>)

  /** Timepoint `i` of a timecourse: its raw image and one crop per bay. */
  function TimecourseScanAt(prefix: string, postfix: string, geometry: seq<string>, mode: string,
                            format: string, i: int): (s: TimecourseScan)
    ensures s.rawFile == RawScanFile(prefix, postfix, i) && s.source == Source(mode)
    ensures |s.crops| == |geometry|
    ensures forall p :: 0 <= p < |geometry| ==>
      s.crops[p] == Crop(geometry[p], TimecourseFile(prefix, postfix, i, p + 1, format))
  {
    TimecourseScan(RawScanFile(prefix, postfix, i), Source(mode),
      seq(|geometry|, p requires 0 <= p < |geometry| =>
        Crop(geometry[p], TimecourseFile(prefix, postfix, i, p + 1, format))))
  }

  /** The timecourse for already scaled geometries. */
  function PlanTimecourse(nscans: int, prefix: string, postfix: string, geometry: seq<string>,
                          mode: string, format: string): (plan: TimecoursePlan)
    ensures plan.workDir == WorkDir(prefix, postfix) && plan.rawDir == RawDir(prefix, postfix)
    ensures plan.geometry == geometry
    ensures |plan.plateDirs| == |geometry|
    ensures forall q :: 0 <= q < |plan.plateDirs| ==> plan.plateDirs[q] == PlateDir(prefix, postfix, q + 1)
    ensures |plan.scans| == if nscans > 0 then nscans else 0
    ensures forall j :: 0 <= j < |plan.scans| ==>
      plan.scans[j] == TimecourseScanAt(prefix, postfix, geometry, mode, format, j + 1)
  {
    var count := if nscans > 0 then nscans else 0;
    var dirs := seq(|geometry|, q requires 0 <= q < |geometry| => PlateDir(prefix, postfix, q + 1));
    var scans := seq(count, j requires 0 <= j < count =>
      TimecourseScanAt(prefix, postfix, geometry, mode, format, j + 1));
    TimecoursePlan(WorkDir(prefix, postfix), dirs, RawDir(prefix, postfix), geometry, scans)
  }

  /** `scan_timecourse`: the fixture's geometries (KeyError for an unknown
      fixture), scaled; then one folder per bay, and at every timepoint one
      raw image and one crop per bay. */
  function ScanTimecourse(nscans: int, prefix: string, postfix: string, fixture: string, resolution: int,
                          geometries: map<string, seq<string>>, mode: string, format: string): (r: Result<TimecoursePlan>)
    ensures fixture !in geometries ==> r.Err? && r.error.KeyError?
    ensures r.Ok? <==> fixture in geometries && ScaleGeometries(geometries[fixture], resolution).Ok?
    ensures r.Ok? ==> r.value == PlanTimecourse(nscans, prefix, postfix,
                                  ScaleGeometries(geometries[fixture], resolution).value, mode, format)
  {
    if fixture !in geometries then Err(KeyError(fixture))
    else
      var scaled := ScaleGeometries(geometries[fixture], resolution);
      if scaled.Err? then Err(scaled.error)
      else Ok(PlanTimecourse(nscans, prefix, postfix, scaled.value, mode, format))
  }
}
