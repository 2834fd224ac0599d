/**
 * The file-sectioning helpers of the browser page (viz.js): splitting a
 * file's text into lines, `parseFasta`, `parseGenbank`, `getFileText` and
 * the file-type expression of `loadFile`. A section is the page's
 * `{desc, data}` object.
 */
module FileText {
  import opened Common
  import opened SequenceUtils

  /** `text.split(/\r\n|\n/)`: every `\n` ends a line, and so does a `\r` just before it. */
  function SplitLines(text: string): (lines: seq<string>)
    ensures |lines| >= 1
    ensures forall i | 0 <= i < |lines| :: '\n' !in lines[i]
  {
    if text == [] then [""]
    else
      var n := |text| - 1;
      if text[n] == '\n' then
        SplitLines(if n > 0 && text[n - 1] == '\r' then text[..n - 1] else text[..n]) + [""]
      else
        var lines := SplitLines(text[..n]);
        lines[..|lines| - 1] + [lines[|lines| - 1] + [text[n]]]
  }

  /** The text with every `\r\n` written as `\n`. */
  function Unix(text: string): (r: string)
    ensures |r| <= |text|
  {
    if text == [] then []
    else
      var n := |text| - 1;
      if text[n] == '\n' && n > 0 && text[n - 1] == '\r' then Unix(text[..n - 1]) + "\n"
      else Unix(text[..n]) + [text[n]]
  }

  /** Splitting on `\r\n` or `\n` is splitting on `\n` once the `\r\n` breaks are written as `\n`. */
  lemma {:induction false} SplitLinesUnix(text: string)
    ensures SplitLines(text) == Split(Unix(text), '\n')
  {
    if text != [] {
      var n := |text| - 1;
      var init := if text[n] == '\n' && n > 0 && text[n - 1] == '\r' then text[..n - 1] else text[..n];
      SplitLinesUnix(init);
      var u := Unix(text);
      assert u[..|u| - 1] == Unix(init);
    }
  }

  /** Text without a `\r` is its own Unix form. */
  lemma {:induction false} UnixPlain(text: string)
    requires '\r' !in text
    ensures Unix(text) == text
  {
    if text != [] {
      var n := |text| - 1;
      assert '\r' !in text[..n] by {
        forall i | 0 <= i < n ensures text[..n][i] != '\r' {
          assert text[i] in text;
        }
      }
      UnixPlain(text[..n]);
      assert text == text[..n] + [text[n]];
    }
  }

  /** Joining the lines with `\n` gives the text back, with each `\r\n` break written as `\n`. */
  lemma LinesRejoin(text: string)
    ensures Join(SplitLines(text), '\n') == Unix(text)
  {
    SplitLinesUnix(text);
    JoinSplit(Unix(text), '\n');
  }

  /** Text without a `\r` is split exactly at its `\n` characters. */
  lemma SplitPlainLines(text: string)
    requires '\r' !in text
    ensures SplitLines(text) == Split(text, '\n')
    ensures Join(SplitLines(text), '\n') == text
  {
    SplitLinesUnix(text);
    UnixPlain(text);
    JoinSplit(text, '\n');
  }

  /** A `{desc, data}` section of the page. */
  datatype Section<D> = Section(desc: string, data: D)

  /**
   * The text of the regular expression `/\r\n|\n/` (nine characters): the
   * blank-line test of `parseFasta` compares a line with the expression,
   * which turns the expression into this text.
   */
  const RegexText: string := "/\\r\\n|\\n/"

  /** A line whose first character is `>`. */
  predicate IsHeader(line: string)
  {
    |line| > 0 && line[0] == '>'
  }

  /** A line `parseFasta` appends to the current section. */
  predicate IsData(line: string)
  {
    !IsHeader(line) && line != RegexText
  }

  /** What one line does to the sections of `parseFasta`; a data line before any header raises `TypeError`. */
  function FastaStep(sections: seq<Section<string>>, line: string): Result<seq<Section<string>>>
  {
    if IsHeader(line) then Ok(sections + [Section(line[1..], "")])
    else if line == RegexText then Ok(sections)
    else if sections == [] then Raise(TypeError)
    else
      var n := |sections| - 1;
      Ok(sections[..n] + [Section(sections[n].desc, sections[n].data + line)])
  }

  /** The sections `parseFasta` builds from the lines, in order; the first error ends it. */
  function FastaFold(lines: seq<string>): Result<seq<Section<string>>>
  {
    if lines == [] then Ok([])
    else
      match FastaFold(lines[..|lines| - 1])
      case Raise(e) => Raise(e)
      case Ok(sections) => FastaStep(sections, lines[|lines| - 1])
  }

  /** Once the lines seen so far raise, the whole fold raises the same error. */
  lemma {:induction false} FastaStopsAtError(lines: seq<string>, k: nat)
    requires k <= |lines| && FastaFold(lines[..k]).Raise?
    ensures FastaFold(lines) == FastaFold(lines[..k])
    decreases |lines|
  {
    if k < |lines| {
      var init := lines[..|lines| - 1];
      assert init[..k] == lines[..k];
      FastaStopsAtError(init, k);
    } else {
      assert lines[..k] == lines;
    }
  }

  /**
   * `parseFasta(fileObj)`: a header line starts a section whose description
   * is the line after `>`; every other line except the regular expression's
   * text is appended to the data of the last section.
   */
  method ParseFasta(fileObj: string) returns (r: Result<seq<Section<string>>>)
    ensures r == FastaFold(SplitLines(fileObj))
  {
    var lines := SplitLines(fileObj);
    var fileSections: seq<Section<string>> := [];
    for i := 0 to |lines|
      invariant FastaFold(lines[..i]) == Ok(fileSections)
    {
      assert lines[..i + 1][..i] == lines[..i];
      var line := lines[i];
      if |line| > 0 && line[0] == '>' {
        fileSections := fileSections + [Section(line[1..], "")];
      } else if line == RegexText {
      } else {
        if fileSections == [] {
          FastaStopsAtError(lines, i + 1);
          return Raise(TypeError);
        }
        var n := |fileSections| - 1;
        fileSections := fileSections[..n] + [Section(fileSections[n].desc, fileSections[n].data + line)];
      }
    }
    assert lines[..|lines|] == lines;
    return Ok(fileSections);
  }

  /** The header lines, in order. */
  function Headers(lines: seq<string>): (headers: seq<string>)
    ensures |headers| <= |lines|
    ensures forall k | 0 <= k < |headers| :: IsHeader(headers[k])
  {
    if lines == [] then []
    else Headers(lines[..|lines| - 1]) + (if IsHeader(lines[|lines| - 1]) then [lines[|lines| - 1]] else [])
  }

  /** There is one section per header line, in order, described by the header after its `>`. */
  lemma {:induction false} FastaDescriptions(lines: seq<string>)
    requires FastaFold(lines).Ok?
    ensures var sections := FastaFold(lines).value;
      |sections| == |Headers(lines)| &&
      forall k | 0 <= k < |sections| :: sections[k].desc == Headers(lines)[k][1..]
  {
    if lines != [] {
      var init := lines[..|lines| - 1];
      FastaDescriptions(init);
    }
  }

  /** Some data line comes before the first header line. */
  predicate DataFirst(lines: seq<string>)
  {
    exists i | 0 <= i < |lines| :: IsData(lines[i]) && Headers(lines[..i]) == []
  }

  lemma DataFirstStep(lines: seq<string>)
    requires lines != []
    ensures var n := |lines| - 1;
      DataFirst(lines) <==> DataFirst(lines[..n]) || (IsData(lines[n]) && Headers(lines[..n]) == [])
  {
    var n := |lines| - 1;
    var init := lines[..n];
    if DataFirst(lines) {
      var i :| 0 <= i < |lines| && IsData(lines[i]) && Headers(lines[..i]) == [];
      if i < n {
        assert init[..i] == lines[..i] && init[i] == lines[i];
      }
    }
    if DataFirst(init) {
      var i :| 0 <= i < n && IsData(init[i]) && Headers(init[..i]) == [];
      assert init[..i] == lines[..i] && init[i] == lines[i];
    }
  }

  /**
   * `parseFasta` raises exactly when some data line comes before the first
   * header (an empty file is one empty data line), and the error is then
   * `TypeError`.
   */
  lemma {:induction false} FastaError(lines: seq<string>)
    ensures FastaFold(lines).Raise? <==> DataFirst(lines)
    ensures FastaFold(lines).Raise? ==> FastaFold(lines).error == TypeError
  {
    if lines != [] {
      var n := |lines| - 1;
      var init := lines[..n];
      FastaError(init);
      DataFirstStep(lines);
      if FastaFold(init).Ok? {
        FastaDescriptions(init);
      }
    }
  }

  /** An empty file raises `TypeError`. */
  lemma EmptyFastaFails()
    ensures FastaFold(SplitLines("")) == Raise(TypeError)
  {
    assert SplitLines("") == [""];
    assert FastaFold([""][..0]) == Ok([]);
  }

  /** The data lines of `body`, concatenated without line breaks. */
  function DataText(body: seq<string>): string
  {
    if body == [] then ""
    else DataText(body[..|body| - 1]) + (if IsData(body[|body| - 1]) then body[|body| - 1] else "")
  }

  /**
   * A header `>d` followed by lines that are not headers makes one section
   * described by `d` whose data is those lines run together, the regular
   * expression's text left out.
   */
  lemma {:induction false} FastaRecord(prefix: seq<string>, d: string, body: seq<string>)
    requires FastaFold(prefix).Ok?
    requires forall i | 0 <= i < |body| :: !IsHeader(body[i])
    ensures FastaFold(prefix + [">" + d] + body) == Ok(FastaFold(prefix).value + [Section(d, DataText(body))])
  {
    var lines := prefix + [">" + d] + body;
    if body == [] {
      assert lines[..|lines| - 1] == prefix;
      assert (">" + d)[1..] == d;
    } else {
      var m := |body| - 1;
      FastaRecord(prefix, d, body[..m]);
      assert lines[..|lines| - 1] == prefix + [">" + d] + body[..m];
      var before := FastaFold(prefix).value + [Section(d, DataText(body[..m]))];
      assert FastaFold(lines) == FastaStep(before, body[m]);
      assert !IsHeader(body[m]);
      if IsData(body[m]) {
        assert DataText(body) == DataText(body[..m]) + body[m];
      } else {
        assert FastaStep(before, body[m]) == Ok(before);
        assert DataText(body) == DataText(body[..m]) + "" == DataText(body[..m]);
      }
    }
  }

  /** `string.toUpperCase()` for ASCII letters. */
  function Upper(s: string): string
  {
    seq(|s|, i requires 0 <= i < |s| => UpperChar(s[i]))
  }

  /** `text.includes(word)` */
  predicate Includes(text: string, word: string)
  {
    exists j: nat | j <= |text| :: OccursAt(text, word, j)
  }

  /** `lines.indexOf(line)`: the first line equal to `line`. */
  function IndexOf(lines: seq<string>, line: string): (k: nat)
    requires line in lines
    ensures k < |lines| && lines[k] == line
    ensures forall j | 0 <= j < k :: lines[j] != line
  {
    if lines[0] == line then 0 else 1 + IndexOf(lines[1..], line)
  }

  /**
   * What `featIdx` (for FEATURES) or `originIdx` (for ORIGIN) holds after
   * `parseGenbank` has looked at the first `upto` lines; `None` is
   * `undefined`.
   */
  function Marker(lines: seq<string>, upto: nat, word: string): (idx: Option<nat>)
    requires upto <= |lines|
    ensures idx.Some? ==> idx.value < upto
  {
    if upto == 0 then None
    else if Includes(Upper(lines[upto - 1]), word) then Some(IndexOf(lines, lines[upto - 1]))
    else Marker(lines, upto - 1, word)
  }

  /** The marker is unset exactly when no line contains the word in upper case. */
  lemma {:induction false} MarkerUnset(lines: seq<string>, upto: nat, word: string)
    requires upto <= |lines|
    ensures Marker(lines, upto, word).None? <==> forall i | 0 <= i < upto :: !Includes(Upper(lines[i]), word)
  {
    if upto > 0 {
      MarkerUnset(lines, upto - 1, word);
    }
  }

  /**
   * A set marker is the first line with the same text as the last line that
   * contains the word in upper case, and so contains the word too.
   */
  lemma {:induction false} MarkerLast(lines: seq<string>, upto: nat, word: string)
    requires upto <= |lines| && Marker(lines, upto, word).Some?
    ensures exists i | 0 <= i < upto ::
      Includes(Upper(lines[i]), word) && Marker(lines, upto, word).value == IndexOf(lines, lines[i]) &&
      forall j | i < j < upto :: !Includes(Upper(lines[j]), word)
    ensures Includes(Upper(lines[Marker(lines, upto, word).value]), word)
  {
    var i := upto - 1;
    if Includes(Upper(lines[i]), word) {
      assert Marker(lines, upto, word).value == IndexOf(lines, lines[i]);
    } else {
      MarkerLast(lines, i, word);
    }
  }

  /** `lines.slice(start, end)` for bounds that are not negative: the end is clamped, and a range with `start >= end` is empty. */
  function Slice<T>(s: seq<T>, start: nat, end: nat): (r: seq<T>)
    ensures start <= end <= |s| ==> r == s[start..end]
    ensures start >= end ==> r == []
  {
    var hi := if end > |s| then |s| else end;
    if start >= hi then [] else s[start..hi]
  }

  /** The start bound `idx + 1`: `undefined + 1` is `NaN`, which `slice` reads as 0. */
  function After(idx: Option<nat>): nat
  {
    match idx
    case None => 0
    case Some(k) => k + 1
  }

  /** The end bound `idx`: an `undefined` end is the length. */
  function Until(idx: Option<nat>, length: nat): nat
  {
    match idx
    case None => length
    case Some(k) => k
  }

  /** The three sections `parseGenbank` cuts from the lines at the given marker positions. */
  function Cut(lines: seq<string>, featIdx: Option<nat>, originIdx: Option<nat>): seq<Section<seq<string>>>
  {
    [Section("metadata", Slice(lines, 0, Until(featIdx, |lines|))),
     Section("features", Slice(lines, After(featIdx), Until(originIdx, |lines|))),
     Section("origin", Slice(lines, After(originIdx), |lines|))]
  }

  /** The three sections of `parseGenbank` for the given lines. */
  function GenbankSections(lines: seq<string>): seq<Section<seq<string>>>
  {
    Cut(lines, Marker(lines, |lines|, "FEATURES"), Marker(lines, |lines|, "ORIGIN"))
  }

  /**
   * `parseGenbank(fileObj)`: find the FEATURES and ORIGIN marker lines, then
   * cut the lines into the metadata before the first marker, the features
   * between them and the origin after the second.
   */
  method ParseGenbank(fileObj: string) returns (fileSections: seq<Section<seq<string>>>)
    ensures fileSections == GenbankSections(SplitLines(fileObj))
    ensures |fileSections| == 3
    ensures fileSections[0].desc == "metadata" && fileSections[1].desc == "features" && fileSections[2].desc == "origin"
  {
    var lines := SplitLines(fileObj);
    var featIdx: Option<nat> := None;
    var originIdx: Option<nat> := None;
    for i := 0 to |lines|
      invariant featIdx == Marker(lines, i, "FEATURES")
      invariant originIdx == Marker(lines, i, "ORIGIN")
    {
      var line := lines[i];
      if Includes(Upper(line), "FEATURES") {
        featIdx := Some(IndexOf(lines, line));
      }
      if Includes(Upper(line), "ORIGIN") {
        originIdx := Some(IndexOf(lines, line));
      }
    }
    fileSections := [];
    fileSections := fileSections + [Section("metadata", Slice(lines, 0, Until(featIdx, |lines|)))];
    fileSections := fileSections + [Section("features", Slice(lines, After(featIdx), Until(originIdx, |lines|)))];
    fileSections := fileSections + [Section("origin", Slice(lines, After(originIdx), |lines|))];
  }

  /**
   * When both markers are found and FEATURES comes first, the metadata, the
   * FEATURES line, the features, the ORIGIN line and the origin are the
   * lines again, in order: only the two marker lines are left out of the
   * sections.
   */
  lemma GenbankReassembles(lines: seq<string>)
    requires Marker(lines, |lines|, "FEATURES").Some? && Marker(lines, |lines|, "ORIGIN").Some?
    requires Marker(lines, |lines|, "FEATURES").value < Marker(lines, |lines|, "ORIGIN").value
    ensures var f, o := Marker(lines, |lines|, "FEATURES").value, Marker(lines, |lines|, "ORIGIN").value;
      var sections := GenbankSections(lines);
      sections[0].data + [lines[f]] + sections[1].data + [lines[o]] + sections[2].data == lines
  {
    CutReassembles(lines, Marker(lines, |lines|, "FEATURES").value, Marker(lines, |lines|, "ORIGIN").value);
  }

  lemma CutReassembles(lines: seq<string>, f: nat, o: nat)
    requires f < o < |lines|
    ensures var sections := Cut(lines, Some(f), Some(o));
      sections[0].data + [lines[f]] + sections[1].data + [lines[o]] + sections[2].data == lines
  {
    assert lines[..f] + [lines[f]] == lines[..f + 1];
    assert lines[..f + 1] + lines[f + 1..o] == lines[..o];
    assert lines[..o] + [lines[o]] == lines[..o + 1];
    assert lines[..o + 1] + lines[o + 1..] == lines;
  }

  /** Without either marker, `undefined` bounds make every section hold all the lines. */
  lemma GenbankWithoutMarkers(lines: seq<string>)
    requires forall i | 0 <= i < |lines| :: !Includes(Upper(lines[i]), "FEATURES") && !Includes(Upper(lines[i]), "ORIGIN")
    ensures forall k | 0 <= k < 3 :: GenbankSections(lines)[k].data == lines
  {
    MarkerUnset(lines, |lines|, "FEATURES");
    MarkerUnset(lines, |lines|, "ORIGIN");
  }

  /** The `data` of a section shown by the page: text or a list of lines. */
  datatype Data = Text(text: string) | Lines(lines: seq<string>)

  function AsText(sections: seq<Section<string>>): (r: seq<Section<Data>>)
    ensures |r| == |sections|
    ensures forall k | 0 <= k < |r| :: r[k] == Section(sections[k].desc, Text(sections[k].data))
  {
    seq(|sections|, k requires 0 <= k < |sections| => Section(sections[k].desc, Text(sections[k].data)))
  }

  function AsLines(sections: seq<Section<seq<string>>>): (r: seq<Section<Data>>)
    ensures |r| == |sections|
    ensures forall k | 0 <= k < |r| :: r[k] == Section(sections[k].desc, Lines(sections[k].data))
  {
    seq(|sections|, k requires 0 <= k < |sections| => Section(sections[k].desc, Lines(sections[k].data)))
  }

  /** What `getFileText` returns for a FASTA file: the sections of `parseFasta`, or its error. */
  function FastaText(fileData: string): Result<seq<Section<Data>>>
  {
    match FastaFold(SplitLines(fileData))
    case Raise(e) => Raise(e)
    case Ok(sections) => Ok(AsText(sections))
  }

  /**
   * `getFileText(fileName, fileType, fileData)`: FASTA types go to
   * `parseFasta`, GenBank types to `parseGenbank`, and any other file is one
   * section named after the file holding its whole text.
   */
  method GetFileText(fileName: string, fileType: string, fileData: string) returns (r: Result<seq<Section<Data>>>)
    ensures fileType == "fasta" || fileType == "fa" ==> r == FastaText(fileData)
    ensures fileType == "genbank" || fileType == "gb" || fileType == "gbk" ==>
      r == Ok(AsLines(GenbankSections(SplitLines(fileData))))
    ensures fileType !in {"fasta", "fa", "genbank", "gb", "gbk"} ==> r == Ok([Section(fileName, Text(fileData))])
    ensures r.Raise? ==> (fileType == "fasta" || fileType == "fa") && r.error == TypeError
  {
    if fileType == "fasta" || fileType == "fa" {
      var sections := ParseFasta(fileData);
      FastaError(SplitLines(fileData));
      if sections.Raise? {
        return Raise(sections.error);
      }
      return Ok(AsText(sections.value));
    } else if fileType == "genbank" || fileType == "gb" || fileType == "gbk" {
      var sections := ParseGenbank(fileData);
      return Ok(AsLines(sections));
    }
    return Ok([Section(fileName, Text(fileData))]);
  }

  /** `s.lastIndexOf(c)`: the last position of `c`, or -1. */
  function LastIndexOf(s: string, c: char): (k: int)
    ensures -1 <= k < |s|
    ensures k >= 0 ==> s[k] == c && c !in s[k + 1..]
    ensures k == -1 <==> c !in s
  {
    if s == [] then -1
    else if s[|s| - 1] == c then |s| - 1
    else
      var k := LastIndexOf(s[..|s| - 1], c);
      assert s == s[..|s| - 1] + [s[|s| - 1]];
      assert k >= 0 ==> s[k + 1..] == s[..|s| - 1][k + 1..] + [s[|s| - 1]];
      k
  }

  /**
   * The `ftype` of `loadFile`: `fname.substring(fname.lastIndexOf('.') + 1)`,
   * or the whole name when that is empty.
   */
  function FileType(fname: string): (ftype: string)
    ensures '.' !in fname || (|fname| > 0 && fname[|fname| - 1] == '.') ==> ftype == fname
    ensures '.' in fname && |fname| > 0 && fname[|fname| - 1] != '.' ==>
      0 < |ftype| < |fname| && '.' !in ftype && fname == fname[..|fname| - |ftype| - 1] + "." + ftype
  {
    var ext := fname[LastIndexOf(fname, '.') + 1..];
    if ext == "" then fname else ext
  }
}
