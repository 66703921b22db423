/**
  Stage 1: splitting the file's text into data lines and checking the shape
  of each line (`get_lines`, `validate_lines` in ddot_utils.py).
*/
module Lines {
  import opened Wrappers
  import opened Text
  import opened Errors

  const MaxLineLength: nat := 80
  const MinLineLength: nat := 21
  /** 0-based position of the space that ends the 20-character site key. */
  const SiteSeparatorIndex: nat := 20

  /** A line neither ends nor contains a line terminator character. */
  predicate NoBreaks(s: string) {
    forall k :: 0 <= k < |s| ==> s[k] != '\n' && s[k] != '\r'
  }

  /**
    `re.split('\r\n|\n', s)`: the pieces between terminators, where a
    terminator is "\r\n" or a lone "\n" (a "\r" not followed by "\n" is an
    ordinary character).
  */
  function SplitLines(s: string): (pieces: seq<string>)
    ensures |pieces| >= 1
    ensures forall k :: 0 <= k < |pieces| ==> '\n' !in pieces[k]
    ensures |pieces| == 1 <==> '\n' !in s
    decreases |s|
  {
    if |s| == 0 then [""]
    else if |s| >= 2 && s[0] == '\r' && s[1] == '\n' then [""] + SplitLines(s[2..])
    else if s[0] == '\n' then [""] + SplitLines(s[1..])
    else
      var rest := SplitLines(s[1..]);
      assert s == [s[0]] + s[1..];
      [[s[0]] + rest[0]] + rest[1..]
  }

  /** A line without terminators is a single piece. */
  lemma {:induction false} SplitSingle(a: string)
    requires NoBreaks(a)
    ensures SplitLines(a) == [a]
    decreases |a|
  {
    if |a| > 0 {
      SplitSingle(a[1..]);
      assert [a[0]] + a[1..] == a;
    }
  }

  /** A terminator after a line without terminators ends exactly that line. */
  lemma {:induction false} SplitAppend(a: string, sep: string, b: string)
    requires NoBreaks(a)
    requires sep == "\n" || sep == "\r\n"
    ensures SplitLines(a + sep + b) == [a] + SplitLines(b)
    decreases |a|
  {
    var s := a + sep + b;
    if |a| == 0 {
      assert s == sep + b;
      if sep == "\r\n" {
        assert s[2..] == b;
      } else {
        assert s[1..] == b;
      }
    } else {
      assert s[1..] == a[1..] + sep + b;
      SplitAppend(a[1..], sep, b);
      assert [a[0]] + a[1..] == a;
    }
  }

  /** Splitting undoes joining with either terminator. */
  lemma {:induction false} SplitJoin(lines: seq<string>, sep: string)
    requires |lines| >= 1
    requires forall k :: 0 <= k < |lines| ==> NoBreaks(lines[k])
    requires sep == "\n" || sep == "\r\n"
    ensures SplitLines(Join(lines, sep)) == lines
    decreases |lines|
  {
    if |lines| == 1 {
      SplitSingle(lines[0]);
    } else {
      var rest := lines[1..];
      assert Join(lines, sep) == lines[0] + sep + Join(rest, sep);
      assert forall k :: 0 <= k < |rest| ==> rest[k] == lines[k + 1];
      SplitAppend(lines[0], sep, Join(rest, sep));
      SplitJoin(rest, sep);
      assert [lines[0]] + rest == lines;
    }
  }

  /** The three structural faults, in the order they are tested. */
  datatype LineFault = TooLong | TooShort | BadSiteNumber

  predicate WellFormed(line: string) {
    MinLineLength <= |line| <= MaxLineLength && line[SiteSeparatorIndex] == ' '
  }

  /** The one fault of a line, by the precedence too long > too short > bad site number. */
  function Fault(line: string): (f: Option<LineFault>)
    ensures f.None? <==> WellFormed(line)
  {
    if |line| > MaxLineLength then Some(TooLong)
    else if |line| < MinLineLength then Some(TooShort)
    else if line[SiteSeparatorIndex] != ' ' then Some(BadSiteNumber)
    else None
  }

  /** The 1-based file line numbers (index + 2) of the lines with fault f, in order. */
  function LinesWith(lines: seq<string>, f: LineFault): seq<nat>
    decreases |lines|
  {
    if lines == [] then []
    else
      LinesWith(lines[..|lines| - 1], f)
      + (if Fault(lines[|lines| - 1]) == Some(f) then [|lines| + 1] else [])
  }

  /** LinesWith lists exactly the faulty lines, each once, in increasing order. */
  lemma {:induction false} LinesWithMembers(lines: seq<string>, f: LineFault)
    ensures forall n :: n in LinesWith(lines, f) <==> 2 <= n <= |lines| + 1 && Fault(lines[n - 2]) == Some(f)
    ensures forall k :: 0 <= k < |LinesWith(lines, f)| ==> LinesWith(lines, f)[k] <= |lines| + 1
    ensures forall a, b :: 0 <= a < b < |LinesWith(lines, f)| ==> LinesWith(lines, f)[a] < LinesWith(lines, f)[b]
    decreases |lines|
  {
    if lines != [] {
      var init := lines[..|lines| - 1];
      LinesWithMembers(init, f);
      var before := LinesWith(init, f);
      var last: seq<nat> := if Fault(lines[|lines| - 1]) == Some(f) then [|lines| + 1] else [];
      assert LinesWith(lines, f) == before + last;
      assert forall k :: 0 <= k < |init| ==> init[k] == lines[k];
      assert forall k :: 0 <= k < |before| ==> (before + last)[k] == before[k];
    }
  }

  /** The error message of `validate_lines`: one clause per non-empty category, in fixed order. */
  function ValidationMessage(lines: seq<string>): (message: seq<Clause>)
    ensures forall k :: 0 <= k < |message| ==> message[k].lineNumbers != []
    ensures forall a, b :: 0 <= a < b < |message| ==> Rank(message[a]) < Rank(message[b])
  {
    var tooLong := LinesWith(lines, TooLong);
    var tooShort := LinesWith(lines, TooShort);
    var badSite := LinesWith(lines, BadSiteNumber);
    (if tooLong != [] then [LinesTooLong(tooLong)] else [])
    + (if tooShort != [] then [LinesTooShort(tooShort)] else [])
    + (if badSite != [] then [BadSiteNumberFormat(badSite)] else [])
  }

  /** Position of a clause in the message. */
  function Rank(c: Clause): nat {
    match c
    case LinesTooLong(_) => 0
    case LinesTooShort(_) => 1
    case BadSiteNumberFormat(_) => 2
  }

  /** Every faulty line index i is reported as i + 2 in exactly the category of its fault. */
  lemma ValidationCategories(lines: seq<string>, i: nat)
    requires i < |lines|
    ensures i + 2 in LinesWith(lines, TooLong) <==> |lines[i]| > MaxLineLength
    ensures i + 2 in LinesWith(lines, TooShort) <==> |lines[i]| <= MaxLineLength && |lines[i]| < MinLineLength
    ensures i + 2 in LinesWith(lines, BadSiteNumber)
            <==> MinLineLength <= |lines[i]| <= MaxLineLength && lines[i][SiteSeparatorIndex] != ' '
  {
    LinesWithMembers(lines, TooLong);
    LinesWithMembers(lines, TooShort);
    LinesWithMembers(lines, BadSiteNumber);
  }

  /** Validation reports nothing exactly when every line is well formed. */
  lemma ValidationMessageEmpty(lines: seq<string>)
    ensures ValidationMessage(lines) == [] <==> forall k :: 0 <= k < |lines| ==> WellFormed(lines[k])
  {
    LinesWithMembers(lines, TooLong);
    LinesWithMembers(lines, TooShort);
    LinesWithMembers(lines, BadSiteNumber);
    if ValidationMessage(lines) == [] {
      forall k | 0 <= k < |lines| ensures WellFormed(lines[k]) {
        if !WellFormed(lines[k]) {
          var f := Fault(lines[k]).value;
          assert k + 2 in LinesWith(lines, f);
        }
      }
    } else {
      var listed := if LinesWith(lines, TooLong) != [] then LinesWith(lines, TooLong)
                    else if LinesWith(lines, TooShort) != [] then LinesWith(lines, TooShort)
                    else LinesWith(lines, BadSiteNumber);
      assert listed[0] in listed;
      assert !WellFormed(lines[listed[0] - 2]);
    }
  }

  /** `validate_lines`: collects every faulty line before reporting any. */
  method ValidateLines(lines: seq<string>) returns (message: seq<Clause>)
    ensures message == ValidationMessage(lines)
  {
    var tooLongLines: seq<nat> := [];
    var tooShortLines: seq<nat> := [];
    var badSiteLines: seq<nat> := [];
    var index := 0;
    while index < |lines|
      invariant 0 <= index <= |lines|
      invariant tooLongLines == LinesWith(lines[..index], TooLong)
      invariant tooShortLines == LinesWith(lines[..index], TooShort)
      invariant badSiteLines == LinesWith(lines[..index], BadSiteNumber)
    {
      var line := lines[index];
      if |line| > MaxLineLength {
        tooLongLines := tooLongLines + [index + 2];
      } else if |line| < MinLineLength {
        tooShortLines := tooShortLines + [index + 2];
      } else if line[SiteSeparatorIndex] != ' ' {
        badSiteLines := badSiteLines + [index + 2];
      }
      assert lines[..index + 1][..index] == lines[..index];
      index := index + 1;
    }
    assert lines[..index] == lines;
    message := [];
    if tooLongLines != [] {
      message := message + [LinesTooLong(tooLongLines)];
    }
    if tooShortLines != [] {
      message := message + [LinesTooShort(tooShortLines)];
    }
    if badSiteLines != [] {
      message := message + [BadSiteNumberFormat(badSiteLines)];
    }
  }

  /** The data lines: the pieces after the header minus one trailing empty piece. */
  function DataLines(content: string): seq<string> {
    var lines := SplitLines(content)[1..];
    if lines != [] && lines[|lines| - 1] == "" then lines[..|lines| - 1] else lines
  }

  lemma SplitLast<T>(s: seq<T>)
    requires s != []
    ensures s == s[..|s| - 1] + [s[|s| - 1]]
  {
  }

  /** `get_lines` */
  function GetLines(content: string): Result<seq<string>, ParseError> {
    if content == "" then Err(NoContents)
    else if SplitLines(content)[1..] == [] then Err(NoTransactions)
    else
      var message := ValidationMessage(DataLines(content));
      if message != [] then Err(InvalidLines(message)) else Ok(DataLines(content))
  }

  /** `get_lines`, step by step, with the validation loop. */
  method ReadDataLines(content: string) returns (r: Result<seq<string>, ParseError>)
    ensures r == GetLines(content)
  {
    if content == "" {
      return Err(NoContents);
    }
    var lines := SplitLines(content)[1..];
    if lines == [] {
      return Err(NoTransactions);
    }
    if lines[|lines| - 1] == "" {
      lines := lines[..|lines| - 1];
    }
    var validationErrors := ValidateLines(lines);
    if |validationErrors| > 0 {
      return Err(InvalidLines(validationErrors));
    }
    return Ok(lines);
  }

  /** Empty content, and content without a line after the header, are the first two failures. */
  lemma GetLinesEmpty(content: string)
    ensures GetLines(content) == Err(NoContents) <==> content == ""
    ensures GetLines(content) == Err(NoTransactions) <==> content != "" && '\n' !in content
  {
  }

  /** What GetLines accepts are well-formed lines, each one piece of the content after its header. */
  lemma GetLinesOk(content: string)
    requires GetLines(content).Ok?
    ensures forall k :: 0 <= k < |GetLines(content).value| ==> WellFormed(GetLines(content).value[k]) && '\n' !in GetLines(content).value[k]
    ensures var pieces := SplitLines(content);
      pieces[1..] == GetLines(content).value || pieces[1..] == GetLines(content).value + [""]
  {
    var pieces := SplitLines(content);
    var lines, d := pieces[1..], DataLines(content);
    ValidationMessageEmpty(d);
    if lines[|lines| - 1] == "" {
      assert d == lines[..|lines| - 1];
      SplitLast(lines);
    }
    forall k | 0 <= k < |d| ensures '\n' !in d[k] {
      assert d[k] == pieces[k + 1];
    }
  }

  /**
    GetLines fails on validation exactly when a piece after the header is
    malformed, the trailing empty piece excepted.
  */
  lemma GetLinesInvalid(content: string)
    requires '\n' in content
    ensures GetLines(content).Err? <==> exists k :: 0 <= k < |DataLines(content)| && !WellFormed(DataLines(content)[k])
    ensures GetLines(content).Err? ==> GetLines(content) == Err(InvalidLines(ValidationMessage(DataLines(content))))
  {
    ValidationMessageEmpty(DataLines(content));
  }

  /** The text of a header followed by data lines, as written to a file. */
  function FileText(header: string, lines: seq<string>, sep: string, final: bool): string {
    header + sep + Join(lines, sep) + (if final then sep else "")
  }

  /** Splitting the lines joined and terminated by sep leaves an empty last piece. */
  lemma SplitJoinTerminated(lines: seq<string>, sep: string)
    requires lines != []
    requires forall k :: 0 <= k < |lines| ==> NoBreaks(lines[k])
    requires sep == "\n" || sep == "\r\n"
    ensures SplitLines(Join(lines, sep) + sep) == lines + [""]
  {
    JoinSnoc(lines, "", sep);
    assert Join(lines, sep) + sep + "" == Join(lines, sep) + sep;
    assert forall k :: 0 <= k < |lines| + 1 ==> NoBreaks((lines + [""])[k]);
    SplitJoin(lines + [""], sep);
  }

  /** The pieces of a file's text after its header. */
  lemma FileTextPieces(header: string, lines: seq<string>, sep: string, final: bool)
    requires NoBreaks(header)
    requires forall k :: 0 <= k < |lines| ==> NoBreaks(lines[k])
    requires sep == "\n" || sep == "\r\n"
    requires final ==> lines != []
    ensures SplitLines(FileText(header, lines, sep, final))[1..]
            == if final then lines + [""] else if lines == [] then [""] else lines
  {
    var rest := Join(lines, sep) + (if final then sep else "");
    assert FileText(header, lines, sep, final) == header + sep + rest;
    SplitAppend(header, sep, rest);
    assert SplitLines(header + sep + rest)[1..] == SplitLines(rest);
    if final {
      SplitJoinTerminated(lines, sep);
    } else if lines != [] {
      assert rest == Join(lines, sep);
      SplitJoin(lines, sep);
    } else {
      assert rest == "";
    }
  }

  lemma FileTextDataLines(header: string, lines: seq<string>, sep: string, final: bool)
    requires NoBreaks(header)
    requires forall k :: 0 <= k < |lines| ==> NoBreaks(lines[k]) && lines[k] != ""
    requires sep == "\n" || sep == "\r\n"
    requires final ==> lines != []
    ensures '\n' in FileText(header, lines, sep, final)
    ensures DataLines(FileText(header, lines, sep, final)) == lines
  {
    var content := FileText(header, lines, sep, final);
    assert content[|header| + |sep| - 1] == '\n';
    FileTextPieces(header, lines, sep, final);
    if final {
      assert (lines + [""])[..|lines|] == lines;
    }
  }

  /**
    A header line followed by well-formed data lines, one per line, with
    either terminator and with or without a final terminator, yields exactly
    those data lines.
  */
  lemma GetLinesRoundTrip(header: string, lines: seq<string>, sep: string, final: bool)
    requires NoBreaks(header)
    requires forall k :: 0 <= k < |lines| ==> NoBreaks(lines[k]) && WellFormed(lines[k])
    requires sep == "\n" || sep == "\r\n"
    requires final ==> lines != []
    ensures GetLines(FileText(header, lines, sep, final)) == Ok(lines)
  {
    assert forall k :: 0 <= k < |lines| ==> lines[k] != "" by {
      forall k | 0 <= k < |lines| ensures lines[k] != "" {
        assert WellFormed(lines[k]);
      }
    }
    FileTextDataLines(header, lines, sep, final);
    ValidationMessageEmpty(lines);
  }
}
