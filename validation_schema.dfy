/**
 * The order-row schema: the product-format predicate and, for each of the eight
 * schema fields, the list of messages its rule reports, in the order the rule's
 * checks run.
 */
module ValidationSchema {
  import opened Wrappers
  import opened Strings
  import opened ProductSegments

  // ---------------------------------------------------------------------------
  // The product format
  // ---------------------------------------------------------------------------

  /** `[^*,|]`. */
  predicate IsLabelChar(c: char) {
    c != '*' && c != ',' && c != '|'
  }

  /** The length of the longest prefix of label characters. */
  function LabelLength(r: string): (n: nat)
    ensures n <= |r|
    ensures forall i :: 0 <= i < n ==> IsLabelChar(r[i])
    ensures n == |r| || !IsLabelChar(r[n])
  {
    if r == [] || !IsLabelChar(r[0]) then 0 else 1 + LabelLength(r[1..])
  }

  /** `^SB\d{3}\|`: the code prefix and its bar. */
  predicate HasCodePrefix(p: string) {
    |p| >= 6 && p[0] == 'S' && p[1] == 'B' && AllDigits(p[2..5]) && p[5] == '|'
  }

  /** The segment test `^SB\d{3}\|[^*,|]+(\*\d+)?$`, decided left to right: the label runs to
      the first star, comma or bar, and what follows it is nothing or a star and digits. */
  predicate MatchesSegment(p: string) {
    HasCodePrefix(p) &&
    var r := p[6..];
    var n := LabelLength(r);
    n >= 1 && (n == |r| || (r[n] == '*' && IsDigits(r[n + 1..])))
  }

  /** The same pattern read as a language: the prefix, then a non-empty label ending at `m`, then
      either the end or a star and one or more digits. */
  ghost predicate InSegmentLanguage(p: string) {
    HasCodePrefix(p) && exists m :: LabelEndsAt(p, m)
  }

  /** `p[6..m]` is a non-empty label, followed by the end or by a star and digits. */
  predicate LabelEndsAt(p: string, m: int) {
    6 < m <= |p| && (forall i :: 6 <= i < m ==> IsLabelChar(p[i])) &&
    (m == |p| || (p[m] == '*' && IsDigits(p[m + 1..])))
  }

  /** The left-to-right decision agrees with the pattern's language. */
  lemma MatchesSegmentIsLanguage(p: string)
    ensures MatchesSegment(p) <==> InSegmentLanguage(p)
  {
    if HasCodePrefix(p) {
      var r := p[6..];
      var n := LabelLength(r);
      if MatchesSegment(p) {
        var m := 6 + n;
        assert forall i :: 6 <= i < m ==> p[i] == r[i - 6];
        assert m < |p| ==> p[m] == r[n] && p[m + 1..] == r[n + 1..];
        assert LabelEndsAt(p, m);
      }
      if InSegmentLanguage(p) {
        var m :| LabelEndsAt(p, m);
        assert forall i :: 0 <= i < m - 6 ==> r[i] == p[i + 6];
        assert n == m - 6 && n >= 1;
        assert m < |p| ==> r[n] == p[m] && r[n + 1..] == p[m + 1..];
        assert n == |r| || (r[n] == '*' && IsDigits(r[n + 1..]));
        assert MatchesSegment(p);
      }
    }
  }

  /** `^SB\d{3}$`. */
  predicate IsProductCode(code: string) {
    |code| == 5 && code[0] == 'S' && code[1] == 'B' && AllDigits(code[2..])
  }

  /** `validateProductFormat`: false for a blank value (one that trims to nothing, that is, one
      made of whitespace only); otherwise every comma-separated piece, trimmed, must match the
      segment pattern and have a well-formed code before its first bar. */
  function ValidateProductFormat(value: string): bool {
    if AllWhitespace(value) then false
    else
      var parts := Split(value, ',');
      AllMatch(parts) && AllCoded(parts)
  }

  /** `products.every(p => productRegex.test(p))`, each piece trimmed first. */
  predicate AllMatch(parts: seq<string>) {
    parts == [] || (MatchesSegment(Trim(parts[0])) && AllMatch(parts[1..]))
  }

  /** `products.every(p => /^SB\d{3}$/.test(p.split("|")[0]))`, each piece trimmed first. */
  predicate AllCoded(parts: seq<string>) {
    parts == [] || (IsProductCode(Split(Trim(parts[0]), '|')[0]) && AllCoded(parts[1..]))
  }

  /** The pieces are matched, one after the other, exactly when each trimmed piece matches; and
      matched pieces are coded, since the code check never rejects a segment the pattern accepted. */
  lemma {:induction false} AllMatchEach(parts: seq<string>)
    ensures AllMatch(parts) <==> forall i :: 0 <= i < |parts| ==> MatchesSegment(Trim(parts[i]))
    ensures AllMatch(parts) ==> AllCoded(parts)
  {
    if parts != [] {
      AllMatchEach(parts[1..]);
      assert forall i :: 1 <= i < |parts| ==> parts[i] == parts[1..][i - 1];
      if MatchesSegment(Trim(parts[0])) {
        CodeCheckImplied(Trim(parts[0]));
      }
    }
  }

  /** A product string is valid exactly when it is not blank and each of its trimmed segments
      matches the segment pattern; the second condition adds nothing to the first. */
  lemma ValidateProductFormatSpec(value: string)
    ensures Trim(value) == "" ==> !ValidateProductFormat(value)
    ensures ValidateProductFormat(value) <==> (Trim(value) != "" &&
      forall i :: 0 <= i < |Segments(value)| ==> MatchesSegment(Segments(value)[i]))
  {
    TrimEmpty(value);
    var parts := Split(value, ',');
    var products := Segments(value);
    AllMatchEach(parts);
    assert forall i :: 0 <= i < |products| ==> products[i] == Trim(parts[i]);
    assert |products| == |parts|;
  }

  /** A product string is valid exactly when it is not blank and each of its trimmed segments
      lies in the language of the segment pattern. */
  lemma ProductFormatIsLanguage(value: string)
    ensures ValidateProductFormat(value) <==> (Trim(value) != "" &&
      forall i :: 0 <= i < |Segments(value)| ==> InSegmentLanguage(Segments(value)[i]))
  {
    ValidateProductFormatSpec(value);
    var products := Segments(value);
    forall i | 0 <= i < |products| ensures MatchesSegment(products[i]) <==> InSegmentLanguage(products[i]) {
      MatchesSegmentIsLanguage(products[i]);
    }
  }

  /** The second code check never rejects a segment the pattern accepted: the text before the
      first bar of a matching segment is a well-formed code. */
  lemma CodeCheckImplied(p: string)
    requires MatchesSegment(p)
    ensures IsProductCode(Split(p, '|')[0])
  {
    SplitFirst(p, '|', 5);
  }

  /** A string without commas is its own single segment. */
  lemma SingleSegment(p: string)
    requires ',' !in p && IsTrimmed(p)
    ensures Segments(p) == [p]
  {
    SplitFirst(p, ',', |p|);
    assert [] + p + [] == p;
    TrimCharacterized([], p, []);
  }

  /** Without commas, a non-blank trimmed product is valid exactly when it matches the segment
      pattern. */
  lemma SingleProductFormat(p: string)
    requires ',' !in p && IsTrimmed(p) && p != ""
    ensures ValidateProductFormat(p) <==> MatchesSegment(p)
  {
    SingleSegment(p);
    ValidateProductFormatSpec(p);
  }

  /** "SB101|Red*2" is a valid product. */
  lemma AcceptsCodeColorQuantity()
    ensures ValidateProductFormat("SB101|Red*2")
  {
    var p := "SB101|Red*2";
    assert HasCodePrefix(p);
    var r := p[6..];
    assert r == "Red*2";
    assert LabelLength(r[3..]) == 0;
    assert r[3..] == r[1..][1..][1..];
    assert r[4..] == "2";
    assert MatchesSegment(p);
    SingleProductFormat(p);
  }

  /** A single product whose sixth character is not a bar is rejected. */
  lemma MissingBarRejected(p: string)
    requires ',' !in p && IsTrimmed(p) && |p| >= 6 && p[5] != '|'
    ensures !ValidateProductFormat(p)
  {
    SingleProductFormat(p);
  }

  /** "SB101-Red*2" is rejected: the code is not followed by a bar. */
  lemma RejectsMissingBar()
    ensures !ValidateProductFormat("SB101-Red*2")
  {
    var p := "SB101-Red*2";
    assert p[5] == '-' && p[0] == 'S' && p[|p| - 1] == '2';
    MissingBarRejected(p);
  }

  /** A comma at the end of a comma-free product leaves an empty last segment, which the
      pattern refuses. */
  lemma TrailingCommaRejected(p: string)
    requires ',' !in p
    ensures !ValidateProductFormat(p + ",")
  {
    var s := p + ",";
    assert s[..|p|] == p && s[|p| + 1..] == "";
    SplitAtFirst(s, ',', |p|);
    assert Split("", ',') == [""];
    ValidateProductFormatSpec(s);
    assert Segments(s)[1] == Trim("");
    assert !MatchesSegment(Segments(s)[1]);
  }

  /** "SB101|Red," is rejected. */
  lemma RejectsTrailingComma()
    ensures !ValidateProductFormat("SB101|Red,")
  {
    TrailingCommaRejected("SB101|Red");
    assert "SB101|Red" + "," == "SB101|Red,";
  }

  // ---------------------------------------------------------------------------
  // Field values and messages
  // ---------------------------------------------------------------------------

  /** The JavaScript value a field holds when the schema sees it. */
  datatype Value = Str(s: string) | Num(n: int) | NaN | Undefined | Null

  /** The messages the schema reports: the schema's own texts and the validator's defaults. */
  datatype Message =
    | CustomerNameRequired | PhoneRequired | PhoneTenDigits | PhoneStartsWith9 | AltTenDigits
    | AddressRequired | BranchRequired | ProductRequired | ProductFormat | CodNegative | PpNegative
    | Required | InvalidInput | InvalidPattern | ReceivedNumber | ReceivedNaN | ReceivedNull

  /** The text shown for each message. */
  function MessageText(m: Message): string {
    match m
    case CustomerNameRequired => "Customer name is required"
    case PhoneRequired => "Phone number is required"
    case PhoneTenDigits => "Phone number must be exactly 10 digits"
    case PhoneStartsWith9 => "Nepal phone numbers must start with 9"
    case AltTenDigits => "Alternative number must be exactly 10 digits"
    case AddressRequired => "Address is required"
    case BranchRequired => "Branch is required"
    case ProductRequired => "Product is required"
    case ProductFormat => "Invalid product format. Must be like: SB101|ProductName*Quantity or SB101|ProductName"
    case CodNegative => "COD must be non-negative"
    case PpNegative => "PP must be non-negative"
    case Required => "Required"
    case InvalidInput => "Invalid input"
    case InvalidPattern => "Invalid"
    case ReceivedNumber => "Expected string, received number"
    case ReceivedNaN => "Expected string, received nan"
    case ReceivedNull => "Expected string, received null"
  }

  /** The message for a value of the wrong type where a string is expected. */
  function NotAString(v: Value): (msgs: seq<Message>)
    requires !v.Str?
    ensures |msgs| == 1
    ensures v.Undefined? <==> msgs == [Required]
  {
    match v
    case Undefined => [Required]
    case Num(_) => [ReceivedNumber]
    case NaN => [ReceivedNaN]
    case Null => [ReceivedNull]
  }

  /** `^\d{10}$`. */
  predicate IsTenDigits(s: string) {
    |s| == 10 && AllDigits(s)
  }

  predicate StartsWith9(s: string) {
    |s| > 0 && s[0] == '9'
  }

  // ---------------------------------------------------------------------------
  // The field rules
  // ---------------------------------------------------------------------------

  /** `z.string().min(1, msg)` ("CUSTOMER NAME", "FULL ADDRESS", "BRANCH"): a string of length at
      least 1, with no trimming, so a lone space passes. */
  function RequiredTextIssues(v: Value, msg: Message): (msgs: seq<Message>)
    ensures msgs == [] <==> v.Str? && |v.s| >= 1
    ensures v == Str("") ==> msgs == [msg]
    ensures v.Undefined? ==> msgs == [Required]
  {
    if v.Str? then (if |v.s| < 1 then [msg] else []) else NotAString(v)
  }

  /** "CELL NUMBER": required, exactly ten digits, starting with 9; every failed check reports. */
  function CellNumberIssues(v: Value): (msgs: seq<Message>)
    ensures msgs == [] <==> v.Str? && IsTenDigits(v.s) && StartsWith9(v.s)
    ensures v.Str? && IsTenDigits(v.s) && !StartsWith9(v.s) ==> msgs == [PhoneStartsWith9]
    ensures v.Str? && StartsWith9(v.s) && !IsTenDigits(v.s) ==> msgs == [PhoneTenDigits]
    ensures v == Str("") ==> msgs == [PhoneRequired, PhoneTenDigits, PhoneStartsWith9]
    ensures v.Undefined? ==> msgs == [Required]
  {
    match v
    case Str(s) =>
      (if |s| < 1 then [PhoneRequired] else []) +
      (if !IsTenDigits(s) then [PhoneTenDigits] else []) +
      (if !StartsWith9(s) then [PhoneStartsWith9] else [])
    case _ => NotAString(v)
  }

  /** "ALT. NUM.": absent, null or "" is accepted; any other string must be ten digits starting
      with 9; a value that is not a string matches no alternative. */
  function AltNumberIssues(v: Value): (msgs: seq<Message>)
    ensures msgs == [] <==> (v.Undefined? || v.Null? || v == Str("") ||
      (v.Str? && IsTenDigits(v.s) && StartsWith9(v.s)))
    ensures v.Str? && IsTenDigits(v.s) && !StartsWith9(v.s) ==> msgs == [PhoneStartsWith9]
    ensures v.Str? && StartsWith9(v.s) && !IsTenDigits(v.s) ==> msgs == [AltTenDigits]
  {
    match v
    case Undefined => []
    case Null => []
    case Str(s) =>
      if s == "" then []
      else
        (if !IsTenDigits(s) then [AltTenDigits] else []) +
        (if !StartsWith9(s) then [PhoneStartsWith9] else [])
    case _ => [InvalidInput]
  }

  /** A non-empty alternative number that neither has ten digits nor starts with 9 gets both
      messages: the refinement runs even after the pattern has failed. */
  lemma AltNumberBothMessages(s: string)
    requires s != "" && !IsTenDigits(s) && !StartsWith9(s)
    ensures AltNumberIssues(Str(s)) == [AltTenDigits, PhoneStartsWith9]
  {
  }

  /** "PRODUCT": required, and in the product format; an empty product fails both checks. */
  function ProductIssues(v: Value): (msgs: seq<Message>)
    ensures msgs == [] <==> v.Str? && ValidateProductFormat(v.s)
    ensures v == Str("") ==> msgs == [ProductRequired, ProductFormat]
    ensures v.Str? && v.s != "" && !ValidateProductFormat(v.s) ==> msgs == [ProductFormat]
    ensures v.Undefined? ==> msgs == [Required]
  {
    match v
    case Str(s) =>
      assert s == "" ==> Trim(s) == "";
      (if |s| < 1 then [ProductRequired] else []) +
      (if !ValidateProductFormat(s) then [ProductFormat] else [])
    case _ => NotAString(v)
  }

  /** "COD": a non-negative number, or a string of digits; a missing value is an error. */
  function CodIssues(v: Value): (msgs: seq<Message>)
    ensures msgs == [] <==> (v.Num? && v.n >= 0) || (v.Str? && IsDigits(v.s))
    ensures v.Num? && v.n < 0 ==> msgs == [CodNegative]
    ensures v.Undefined? ==> msgs != []
  {
    match v
    case Num(n) => if n >= 0 then [] else [CodNegative]
    case Str(s) => if IsDigits(s) then [] else [InvalidPattern]
    case _ => [InvalidInput]
  }

  /** "PP": absent, null or "" is accepted, and otherwise as for COD. */
  function PpIssues(v: Value): (msgs: seq<Message>)
    ensures msgs == [] <==> (v.Undefined? || v.Null? || v == Str("") ||
      (v.Num? && v.n >= 0) || (v.Str? && IsDigits(v.s)))
    ensures v.Num? && v.n < 0 ==> msgs == [PpNegative]
  {
    match v
    case Undefined => []
    case Null => []
    case Num(n) => if n >= 0 then [] else [PpNegative]
    case Str(s) => if s == "" || IsDigits(s) then [] else [InvalidPattern]
    case NaN => [InvalidInput]
  }

  // ---------------------------------------------------------------------------
  // The object schema
  // ---------------------------------------------------------------------------

  /** The schema's keys, in declaration order. */
  const SchemaFields: seq<string> := ["CUSTOMER NAME", "CELL NUMBER", "ALT. NUM.", "FULL ADDRESS",
    "BRANCH", "PRODUCT", "COD", "PP"]

  /** The rule of one schema key; a key outside the schema is not checked. */
  function FieldIssues(field: string, v: Value): seq<Message> {
    match field
    case "CUSTOMER NAME" => RequiredTextIssues(v, CustomerNameRequired)
    case "CELL NUMBER" => CellNumberIssues(v)
    case "ALT. NUM." => AltNumberIssues(v)
    case "FULL ADDRESS" => RequiredTextIssues(v, AddressRequired)
    case "BRANCH" => RequiredTextIssues(v, BranchRequired)
    case "PRODUCT" => ProductIssues(v)
    case "COD" => CodIssues(v)
    case "PP" => PpIssues(v)
    case _ => []
  }

  /** One schema issue: the key it is about and its message. */
  datatype Issue = Issue(path: string, message: Message)

  /** The object handed to the schema; a missing key reads as `undefined`. */
  type Input = map<string, Value>

  function Get(input: Input, k: string): Value {
    if k in input then input[k] else Undefined
  }

  /** The messages of one key as issues on that key. */
  function Tag(f: string, msgs: seq<Message>): (issues: seq<Issue>)
    ensures |issues| == |msgs|
    ensures forall i :: 0 <= i < |msgs| ==> issues[i] == Issue(f, msgs[i])
  {
    seq(|msgs|, i requires 0 <= i < |msgs| => Issue(f, msgs[i]))
  }

  /** The issues of `fields`, key by key in order, each key's messages in the order of its
      checks. */
  function IssuesOf(input: Input, fields: seq<string>): seq<Issue> {
    if fields == [] then [] else KeyIssues(input, fields[0]) + IssuesOf(input, fields[1..])
  }

  /** The issues of one key. */
  function KeyIssues(input: Input, f: string): seq<Issue> {
    Tag(f, FieldIssues(f, Get(input, f)))
  }

  /** There are no issues exactly when every key's rule passes. */
  lemma {:induction false} IssuesOfEmpty(input: Input, fields: seq<string>)
    ensures IssuesOf(input, fields) == [] <==>
      forall i :: 0 <= i < |fields| ==> FieldIssues(fields[i], Get(input, fields[i])) == []
  {
    if fields != [] {
      IssuesOfEmpty(input, fields[1..]);
      assert forall i :: 1 <= i < |fields| ==> fields[i] == fields[1..][i - 1];
      assert IssuesOf(input, fields) == KeyIssues(input, fields[0]) + IssuesOf(input, fields[1..]);
      KeyIssuesEmpty(input, fields[0]);
    }
  }

  /** One key has no issues exactly when its rule reports nothing. */
  lemma KeyIssuesEmpty(input: Input, f: string)
    ensures KeyIssues(input, f) == [] <==> FieldIssues(f, Get(input, f)) == []
  {
    assert |KeyIssues(input, f)| == |FieldIssues(f, Get(input, f))|;
  }

  /** Every issue is about one of the keys and carries one of that key's own messages. */
  lemma {:induction false} IssuesOfOwned(input: Input, fields: seq<string>)
    ensures forall e :: e in IssuesOf(input, fields) ==>
      e.path in fields && e.message in FieldIssues(e.path, Get(input, e.path))
  {
    if fields != [] {
      IssuesOfOwned(input, fields[1..]);
      var msgs := FieldIssues(fields[0], Get(input, fields[0]));
      var head := KeyIssues(input, fields[0]);
      forall e | e in head ensures e.path == fields[0] && e.message in msgs {
        var j :| 0 <= j < |head| && head[j] == e;
        assert head[j] == Issue(fields[0], msgs[j]);
      }
      assert IssuesOf(input, fields) == head + IssuesOf(input, fields[1..]);
    }
  }

  /** `invoiceSchema.safeParse(input)`'s issues: the keys checked one after another in the
      schema's declaration order. */
  function SchemaIssues(input: Input): seq<Issue> {
    KeyIssues(input, "CUSTOMER NAME") + (KeyIssues(input, "CELL NUMBER") + (KeyIssues(input, "ALT. NUM.") +
    (KeyIssues(input, "FULL ADDRESS") + (KeyIssues(input, "BRANCH") + (KeyIssues(input, "PRODUCT") +
    (KeyIssues(input, "COD") + KeyIssues(input, "PP")))))))
  }

  /** The schema's issues are those of its key list taken key by key. */
  lemma SchemaIssuesKeyByKey(input: Input)
    ensures SchemaIssues(input) == IssuesOf(input, SchemaFields)
  {
    var f := SchemaFields;
    assert f[8..] == [];
    assert IssuesOf(input, f[7..]) == KeyIssues(input, "PP") by { assert f[7..][1..] == f[8..]; }
    assert IssuesOf(input, f[6..]) == KeyIssues(input, "COD") + IssuesOf(input, f[7..]) by { assert f[6..][1..] == f[7..]; }
    assert IssuesOf(input, f[5..]) == KeyIssues(input, "PRODUCT") + IssuesOf(input, f[6..]) by { assert f[5..][1..] == f[6..]; }
    assert IssuesOf(input, f[4..]) == KeyIssues(input, "BRANCH") + IssuesOf(input, f[5..]) by { assert f[4..][1..] == f[5..]; }
    assert IssuesOf(input, f[3..]) == KeyIssues(input, "FULL ADDRESS") + IssuesOf(input, f[4..]) by { assert f[3..][1..] == f[4..]; }
    assert IssuesOf(input, f[2..]) == KeyIssues(input, "ALT. NUM.") + IssuesOf(input, f[3..]) by { assert f[2..][1..] == f[3..]; }
    assert IssuesOf(input, f[1..]) == KeyIssues(input, "CELL NUMBER") + IssuesOf(input, f[2..]) by { assert f[1..][1..] == f[2..]; }
    assert IssuesOf(input, f) == KeyIssues(input, "CUSTOMER NAME") + IssuesOf(input, f[1..]);
  }

  /** The input passes the schema exactly when each of the eight rules passes. */
  lemma SchemaValidIff(input: Input)
    ensures SchemaIssues(input) == [] <==>
      forall i :: 0 <= i < |SchemaFields| ==> FieldIssues(SchemaFields[i], Get(input, SchemaFields[i])) == []
  {
    SchemaIssuesKeyByKey(input);
    IssuesOfEmpty(input, SchemaFields);
  }

  /** Some issue is about key `f`. */
  predicate HasIssueFor(issues: seq<Issue>, f: string) {
    exists j :: 0 <= j < |issues| && issues[j].path == f
  }

  lemma HasIssueForAppend(a: seq<Issue>, b: seq<Issue>, f: string)
    ensures HasIssueFor(a + b, f) <==> HasIssueFor(a, f) || HasIssueFor(b, f)
  {
    if HasIssueFor(a + b, f) {
      var j :| 0 <= j < |a + b| && (a + b)[j].path == f;
      if j >= |a| {
        assert b[j - |a|] == (a + b)[j];
      } else {
        assert a[j] == (a + b)[j];
      }
    }
    if HasIssueFor(b, f) {
      var j :| 0 <= j < |b| && b[j].path == f;
      assert (a + b)[|a| + j] == b[j];
    }
    if HasIssueFor(a, f) {
      var j :| 0 <= j < |a| && a[j].path == f;
      assert (a + b)[j] == a[j];
    }
  }

  /** A missing COD always draws a COD issue. */
  lemma CodRequired(input: Input)
    requires Get(input, "COD") == Undefined
    ensures HasIssueFor(SchemaIssues(input), "COD")
  {
    assert SchemaFields[6] == "COD";
    assert FieldIssues("COD", Undefined) != [];
    SchemaIssuesKeyByKey(input);
    IssueForField(input, SchemaFields, "COD");
  }

  /** A missing PP never draws a PP issue. */
  lemma PpOptional(input: Input)
    requires Get(input, "PP") == Undefined
    ensures !HasIssueFor(SchemaIssues(input), "PP")
  {
    assert SchemaFields[7] == "PP";
    assert FieldIssues("PP", Undefined) == [];
    SchemaIssuesKeyByKey(input);
    IssueForField(input, SchemaFields, "PP");
  }

  /** A key has at least one issue exactly when its own rule reports something. */
  lemma {:induction false} IssueForField(input: Input, fields: seq<string>, f: string)
    requires f in fields
    ensures HasIssueFor(IssuesOf(input, fields), f) <==> FieldIssues(f, Get(input, f)) != []
  {
    var head := Tag(fields[0], FieldIssues(fields[0], Get(input, fields[0])));
    var rest := IssuesOf(input, fields[1..]);
    HasIssueForAppend(head, rest, f);
    if fields[0] == f {
      if head != [] {
        assert head[0].path == f;
      }
      if HasIssueFor(rest, f) {
        var j :| 0 <= j < |rest| && rest[j].path == f;
        IssuesOfOwned(input, fields[1..]);
        assert rest[j] in rest;
      }
    } else {
      IssueForField(input, fields[1..], f);
    }
  }

  /** The error shape shown to the user: a field, a message and, for row errors, a row index. */
  datatype ValidationError = ValidationError(field: string, message: Message, rowIndex: Option<int>)
}
