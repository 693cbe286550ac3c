/** `validate_data`: the header check run on the downloaded file. */
module Validation {
  import opened Wrappers
  import opened PyStr
  import opened Schema

  datatype ValidationError = ValueError(message: string)

  const HeaderMismatch: string := "CSV file header does not match expected format"

  /** The only first line (after `strip()`) that passes. */
  const ExpectedLine: string :=
    SerialNumber + "," + CompanyName + "," + EmployeeMarkme + "," + Description + "," + Leave

  lemma ExpectedLineIsJoin()
    ensures Join(ExpectedHeader, ',') == ExpectedLine
    ensures forall p :: p in ExpectedHeader ==> ',' !in p
  {
    Join5(SerialNumber, CompanyName, EmployeeMarkme, Description, Leave, ',');
  }

  /** The stripped header line splits into the expected fields exactly when it is `ExpectedLine`. */
  lemma {:induction false} HeaderLineIff(h: string)
    ensures Split(h, ',') == ExpectedHeader <==> h == ExpectedLine
  {
    ExpectedLineIsJoin();
    if Split(h, ',') == ExpectedHeader {
      JoinSplit(h, ',');
    }
    if h == ExpectedLine {
      SplitJoin(ExpectedHeader, ',');
    }
  }

  /** The fields `validate_data` compares: first line, stripped, split on ",". */
  function HeaderFields(text: string): seq<string> {
    Split(Strip(ReadLine(text)), ',')
  }

  /**
   * `validate_data` on the text of the file: passes exactly when the first line,
   * stripped of outer whitespace, is `ExpectedLine`; otherwise fails with the
   * `ValueError` that `validate_data` raises.
   */
  function ValidateData(text: string): (r: Outcome<ValidationError>)
    ensures r.Pass? <==> Strip(ReadLine(text)) == ExpectedLine
    ensures r.Fail? ==> r.error == ValueError(HeaderMismatch)
  {
    HeaderLineIff(Strip(ReadLine(text)));
    if HeaderFields(text) == ExpectedHeader then Pass else Fail(ValueError(HeaderMismatch))
  }

  /** A first line made of comma-free fields, with no outer whitespace, yields those fields. */
  lemma LineFields(fields: seq<string>, t: char, rest: string)
    requires |fields| >= 1
    requires forall p :: p in fields ==> ',' !in p
    requires NoLineEnd(Join(fields, ',')) && NoOuterSpace(Join(fields, ','))
    requires IsLineEnd(t)
    ensures HeaderFields(Join(fields, ',') + [t] + rest) == fields
  {
    var line := Join(fields, ',');
    ReadLineFirst(line, t, rest);
    StripOuter([], line, "\n");
    assert [] + line + "\n" == line + "\n";
    SplitJoin(fields, ',');
  }

  /**
   * For a file whose first line is `fields` joined with "," (and carries no
   * outer whitespace), validation passes exactly when `fields` is the expected
   * header: any reordering, omission, extra column or renamed column fails.
   */
  lemma ValidateFields(fields: seq<string>, t: char, rest: string)
    requires |fields| >= 1
    requires forall p :: p in fields ==> ',' !in p
    requires NoLineEnd(Join(fields, ',')) && NoOuterSpace(Join(fields, ','))
    requires IsLineEnd(t)
    ensures ValidateData(Join(fields, ',') + [t] + rest).Pass? <==> fields == ExpectedHeader
  {
    LineFields(fields, t, rest);
  }

  /** Only the first line is examined: what follows it never changes the verdict. */
  lemma OnlyFirstLine(line: string, t: char, rest1: string, rest2: string)
    requires NoLineEnd(line) && IsLineEnd(t)
    ensures ValidateData(line + [t] + rest1) == ValidateData(line + [t] + rest2)
  {
    ReadLineFirst(line, t, rest1);
    ReadLineFirst(line, t, rest2);
  }

  /** The expected line is a single line with no outer whitespace. */
  lemma ExpectedLineShape()
    ensures ExpectedLine != [] && NoOuterSpace(ExpectedLine) && NoLineEnd(ExpectedLine)
  {
    NamesSingleLine();
    NoLineEnd5(SerialNumber, CompanyName, EmployeeMarkme, Description, Leave, ",");
    assert ExpectedLine[0] == SerialNumber[0];
    assert ExpectedLine[|ExpectedLine| - 1] == Leave[|Leave| - 1];
  }

  /** Outer whitespace around the header line, and any line ending, is accepted. */
  lemma PaddedHeaderAccepted(lead: string, trail: string, t: char, rest: string)
    requires AllSpace(lead) && AllSpace(trail)
    requires NoLineEnd(lead) && NoLineEnd(trail) && IsLineEnd(t)
    ensures ValidateData(lead + ExpectedLine + trail + [t] + rest).Pass?
  {
    var line := lead + ExpectedLine + trail;
    ExpectedLineShape();
    assert NoLineEnd(line);
    ReadLineFirst(line, t, rest);
    assert line + "\n" == lead + ExpectedLine + (trail + "\n");
    assert AllSpace(trail + "\n");
    StripOuter(lead, ExpectedLine, trail + "\n");
    assert Strip(ReadLine(line + [t] + rest)) == ExpectedLine;
  }

  /**
   * The column names `pd.read_csv` takes from the first line: the line split
   * on ",", with any whitespace kept as part of the names.
   */
  function HeaderNames(text: string): seq<string> {
    Split(FirstLine(text), ',')
  }

  /**
   * The header names of a validated file: the five expected names, the first
   * with the whitespace that preceded it and the last with the whitespace that
   * followed it on the line.
   */
  lemma ValidatedNames(text: string) returns (lead: string, trail: string)
    requires ValidateData(text).Pass?
    ensures AllSpace(lead) && AllSpace(trail)
    ensures FirstLine(text) == lead + ExpectedLine + trail
    ensures HeaderNames(text) == [lead + SerialNumber, CompanyName, EmployeeMarkme, Description, Leave + trail]
  {
    ExpectedLineShape();
    lead, trail := LinePadding(text, ExpectedLine);
    PaddedFieldsSplit(lead, trail);
  }

  /** The header line with whitespace around it splits into the expected fields with that whitespace on the ends. */
  lemma PaddedFieldsSplit(lead: string, trail: string)
    requires AllSpace(lead) && AllSpace(trail)
    ensures Split(lead + ExpectedLine + trail, ',') == [lead + SerialNumber, CompanyName, EmployeeMarkme, Description, Leave + trail]
  {
    var fields := [lead + SerialNumber, CompanyName, EmployeeMarkme, Description, Leave + trail];
    Join5Padded(SerialNumber, CompanyName, EmployeeMarkme, Description, Leave, lead, trail, ',');
    ExpectedLineIsJoin();
    PaddedFieldsNoComma(lead, trail);
    SplitJoin(fields, ',');
  }

  /** Whitespace around the expected fields brings no comma into them. */
  lemma PaddedFieldsNoComma(lead: string, trail: string)
    requires AllSpace(lead) && AllSpace(trail)
    ensures forall p :: p in [lead + SerialNumber, CompanyName, EmployeeMarkme, Description, Leave + trail] ==> ',' !in p
  {
    SpaceHasNoComma(lead);
    SpaceHasNoComma(trail);
    ExpectedLineIsJoin();
    assert SerialNumber in ExpectedHeader && Leave in ExpectedHeader;
  }


  /** A first line that keeps no outer whitespace and differs from `ExpectedLine` is refused. */
  lemma LineRejected(line: string, t: char, rest: string)
    requires NoLineEnd(line) && NoOuterSpace(line) && IsLineEnd(t)
    requires line != ExpectedLine
    ensures ValidateData(line + [t] + rest).Fail?
  {
    ReadLineFirst(line, t, rest);
    StripOuter([], line, "\n");
    assert [] + line + "\n" == line + "\n";
  }

  /** Spaces after the commas make the fields differ, so the header is refused. */
  lemma SpacedHeaderRejected(rest: string)
    ensures ValidateData(SerialNumber + ", " + CompanyName + ", " + EmployeeMarkme + ", " + Description + ", " + Leave
                         + "\n" + rest).Fail?
  {
    var line := SerialNumber + ", " + CompanyName + ", " + EmployeeMarkme + ", " + Description + ", " + Leave;
    SpacedLineShape(line);
    LineRejected(line, '\n', rest);
  }

  /** The header with spaces after its commas has no outer whitespace and is not the expected one. */
  lemma SpacedLineShape(line: string)
    requires line == SerialNumber + ", " + CompanyName + ", " + EmployeeMarkme + ", " + Description + ", " + Leave
    ensures NoLineEnd(line) && NoOuterSpace(line) && line != ExpectedLine
  {
    SpacedLineSingle(line);
    assert line[0] == SerialNumber[0];
    assert line[|line| - 1] == Leave[|Leave| - 1];
    assert |line| != |ExpectedLine|;
  }

  /** The header with spaces after its commas is a single line. */
  lemma SpacedLineSingle(line: string)
    requires line == SerialNumber + ", " + CompanyName + ", " + EmployeeMarkme + ", " + Description + ", " + Leave
    ensures NoLineEnd(line)
  {
    NamesSingleLine();
    NoLineEnd5(SerialNumber, CompanyName, EmployeeMarkme, Description, Leave, ", ");
  }

  /** No expected column name holds a line end. */
  lemma NamesSingleLine()
    ensures NoLineEnd(SerialNumber) && NoLineEnd(CompanyName) && NoLineEnd(EmployeeMarkme)
    ensures NoLineEnd(Description) && NoLineEnd(Leave)
  {
    LeadingNamesSingleLine();
  }

  /** The first three expected column names hold no line end. */
  lemma LeadingNamesSingleLine()
    ensures NoLineEnd(SerialNumber) && NoLineEnd(CompanyName) && NoLineEnd(EmployeeMarkme)
  {
  }

  /**
   * A byte-order mark before the header is not whitespace to `strip()`, so a
   * file that starts with one is refused.
   */
  lemma ByteOrderMarkRejected(rest: string)
    ensures ValidateData("\U{FEFF}" + ExpectedLine + "\n" + rest).Fail?
  {
    var line := "\U{FEFF}" + ExpectedLine;
    ExpectedLineShape();
    NoLineEndJoin("\U{FEFF}", ExpectedLine);
    assert line[0] == '\U{FEFF}';
    assert line[|line| - 1] == ExpectedLine[|ExpectedLine| - 1];
    assert |line| != |ExpectedLine|;
    LineRejected(line, '\n', rest);
  }

  /** An empty file has the empty first line, which splits into [""] and is refused. */
  lemma EmptyFileRejected()
    ensures ValidateData("").Fail?
  {
  }
}
