/** The text `CsvWriter` produces, as pure functions: field quoting, decimal numbers,
    the extension and MIME columns, the directory columns, the header and a whole
    row; and a reader for quote-when-needed CSV lines that recovers the fields. */
module CsvFormat {
  import opened Base
  import Path

  /** How many directory levels get a column of their own. */
  const MaxLevels: nat := 12

  // ---------------------------------------------------------------------------
  // Quoting

  /** `Replace("\"", "\"\"")`: every quote doubled. */
  function DoubleQuotes(s: Text): Text {
    if s == [] then [] else (if s[0] == Quote then [Quote, Quote] else [s[0]]) + DoubleQuotes(s[1..])
  }

  /** Doubling leaves a text without quotes as it is and never shortens one. */
  lemma {:induction false} DoubleQuotesBounds(s: Text)
    ensures Quote !in s ==> DoubleQuotes(s) == s
    ensures |DoubleQuotes(s)| >= |s|
  {
    if s != [] {
      DoubleQuotesBounds(s[1..]);
      assert Quote !in s ==> s == [s[0]] + s[1..];
    }
  }

  /** `EscapeAndWrite`: a field with neither ',' nor '"' as it is; otherwise between
      quotes, with its quotes doubled. Line breaks do not cause quoting. */
  function Escape(field: Text): Text {
    var needsCommaEscaping := Comma in field;
    var needsQuoteEscaping := Quote in field;
    if !(needsCommaEscaping || needsQuoteEscaping) then field
    else [Quote] + (if needsQuoteEscaping then DoubleQuotes(field) else field) + [Quote]
  }

  /** A field is written verbatim exactly when it holds neither ',' nor '"'. */
  lemma EscapeVerbatimIff(field: Text)
    ensures Escape(field) == field <==> Comma !in field && Quote !in field
  {
    if Comma in field || Quote in field {
      DoubleQuotesBounds(field);
      assert |Escape(field)| >= |field| + 2;
    }
  }

  // ---------------------------------------------------------------------------
  // Reading a line back

  /** The rest of a quoted field after its opening quote: up to the first quote that
      is not doubled; a doubled quote stands for one. */
  function ParseQuoted(t: Text): (r: Option<(Text, Text)>)
    ensures r.Some? ==> |r.value.1| < |t|
    decreases |t|
  {
    if t == [] then None
    else if t[0] == Quote then
      if |t| >= 2 && t[1] == Quote then
        match ParseQuoted(t[2..])
        case None => None
        case Some((v, rest)) => Some(([Quote] + v, rest))
      else Some(([], t[1..]))
    else
      match ParseQuoted(t[1..])
      case None => None
      case Some((v, rest)) => Some(([t[0]] + v, rest))
  }

  /** One field at the start of `t`: a quoted one, or the text up to the next comma. */
  function ParseField(t: Text): (r: Option<(Text, Text)>)
    ensures r.Some? ==> |r.value.1| <= |t|
  {
    if t != [] && t[0] == Quote then ParseQuoted(t[1..])
    else
      var k := IndexOf(t, Comma);
      var end := if k < 0 then |t| else k;
      Some((t[..end], t[end..]))
  }

  /** The fields of a line, or `None` when a quoted field is not closed or is followed
      by anything but a comma. */
  function ParseFields(t: Text): Option<seq<Text>>
    decreases |t|
  {
    match ParseField(t)
    case None => None
    case Some((v, rest)) =>
      if rest == [] then Some([v])
      else if rest[0] == Comma then
        match ParseFields(rest[1..])
        case None => None
        case Some(fields) => Some([v] + fields)
      else None
  }

  /** A line of fields, each escaped, separated by commas. */
  function Line(fields: seq<Text>): Text
    requires fields != []
  {
    if |fields| == 1 then Escape(fields[0]) else Escape(fields[0]) + [Comma] + Line(fields[1..])
  }

  /** Fields each escaped and followed by a comma, as the row writes them. */
  function Terminated(fields: seq<Text>): Text {
    if fields == [] then [] else Escape(fields[0]) + [Comma] + Terminated(fields[1..])
  }

  // Sequence algebra only (regrouping or splitting), stated once to keep the callers' proofs cheap.
  lemma Regroup(a: Text, b: Text, c: Text)
    ensures a + (b + c) == a + b + c
  {
  }

  lemma {:induction false} IndexOfAfter(s: Text, t: Text, c: CodeUnit)
    requires c !in s && c in t
    ensures IndexOf(s + t, c) == |s| + IndexOf(t, c)
    decreases |s|
  {
    if s != [] {
      assert (s + t)[0] == s[0];
      assert (s + t)[1..] == s[1..] + t;
      assert c !in s[1..];
      IndexOfAfter(s[1..], t, c);
    } else {
      assert s + t == t;
    }
  }


  lemma {:induction false} ParseDoubled(s: Text, rest: Text)
    requires rest == [] || rest[0] != Quote
    ensures ParseQuoted(DoubleQuotes(s) + [Quote] + rest) == Some((s, rest))
    decreases |s|
  {
    var t := DoubleQuotes(s) + [Quote] + rest;
    if s == [] {
      assert t == [Quote] + rest;
      assert t[1..] == rest;
    } else {
      ParseDoubled(s[1..], rest);
      var tail := DoubleQuotes(s[1..]) + [Quote] + rest;
      if s[0] == Quote {
        assert t == [Quote, Quote] + tail;
        assert t[2..] == tail;
      } else {
        assert t == [s[0]] + tail;
        assert t[1..] == tail;
      }
      assert s == [s[0]] + s[1..];
    }
  }

  lemma ParseVerbatim(s: Text, rest: Text)
    requires Comma !in s && Quote !in s
    requires rest == [] || rest[0] == Comma
    ensures ParseField(s + rest) == Some((s, rest))
  {
    var t := s + rest;
    if s != [] {
      assert t[0] == s[0];
    } else {
      assert t == rest;
    }
    if rest != [] {
      IndexOfAfter(s, rest, Comma);
    } else {
      assert t == s;
    }
    assert t[..|s|] == s && t[|s|..] == rest;
  }

  lemma ParseQuotedField(s: Text, rest: Text)
    requires Comma in s || Quote in s
    requires rest == [] || rest[0] == Comma
    ensures ParseField(Escape(s) + rest) == Some((s, rest))
  {
    var body := DoubleQuotes(s) + [Quote] + rest;
    assert Escape(s) == [Quote] + DoubleQuotes(s) + [Quote] by {
      DoubleQuotesBounds(s);
    }
    QuotedRegroup(DoubleQuotes(s), rest);
    ParseOpeningQuote(body);
    ParseDoubled(s, rest);
  }

  // Sequence algebra only (regrouping or splitting), stated once to keep the callers' proofs cheap.
  lemma QuotedRegroup(d: Text, rest: Text)
    ensures [Quote] + d + [Quote] + rest == [Quote] + (d + [Quote] + rest)
  {
  }

  lemma ParseOpeningQuote(body: Text)
    ensures ParseField([Quote] + body) == ParseQuoted(body)
  {
    assert ([Quote] + body)[1..] == body;
  }


  /** An escaped field is read back as itself, whatever follows it up to a comma. */
  lemma ParseEscaped(s: Text, rest: Text)
    requires rest == [] || rest[0] == Comma
    ensures ParseField(Escape(s) + rest) == Some((s, rest))
  {
    if Comma !in s && Quote !in s {
      assert Escape(s) == s;
      ParseVerbatim(s, rest);
    } else {
      ParseQuotedField(s, rest);
    }
  }

  lemma ParseFieldsLast(t: Text, v: Text)
    requires ParseField(t) == Some((v, []))
    ensures ParseFields(t) == Some([v])
  {
  }

  lemma ParseFieldsCons(t: Text, v: Text, rest: Text, fields: seq<Text>)
    requires ParseField(t) == Some((v, rest)) && rest != [] && rest[0] == Comma
    requires ParseFields(rest[1..]) == Some(fields)
    ensures ParseFields(t) == Some([v] + fields)
  {
  }

  lemma LineCons(head: Text, tail: seq<Text>)
    requires tail != []
    ensures Line([head] + tail) == Escape(head) + [Comma] + Line(tail)
  {
    assert ([head] + tail)[0] == head && ([head] + tail)[1..] == tail;
  }

  /** Quote-when-needed escaping is undone by the reader: a line of escaped fields
      reads back as exactly those fields. */
  lemma {:induction false} ParseLine(fields: seq<Text>)
    requires fields != []
    ensures ParseFields(Line(fields)) == Some(fields)
    decreases |fields|
  {
    var head := fields[0];
    if |fields| == 1 {
      assert Line(fields) == Escape(head) + [];
      ParseEscaped(head, []);
      ParseFieldsLast(Line(fields), head);
      assert [head] == fields;
    } else {
      var tail := fields[1..];
      assert fields == [head] + tail;
      LineCons(head, tail);
      var rest := [Comma] + Line(tail);
      assert Line(fields) == Escape(head) + rest;
      ParseEscaped(head, rest);
      assert rest[1..] == Line(tail);
      ParseLine(tail);
      ParseFieldsCons(Line(fields), head, rest, tail);
    }
  }

  lemma TerminatedCons(head: Text, tail: seq<Text>)
    ensures Terminated([head] + tail) == Escape(head) + [Comma] + Terminated(tail)
  {
    assert ([head] + tail)[0] == head && ([head] + tail)[1..] == tail;
  }

  lemma {:induction false} TerminatedAppend(a: seq<Text>, b: seq<Text>)
    ensures Terminated(a + b) == Terminated(a) + Terminated(b)
  {
    if a == [] {
      assert a + b == b;
    } else {
      assert (a + b)[0] == a[0] && (a + b)[1..] == a[1..] + b;
      TerminatedAppend(a[1..], b);
    }
  }

  lemma {:induction false} TerminatedThenLast(fields: seq<Text>, last: Text)
    ensures Terminated(fields) + Escape(last) == Line(fields + [last])
  {
    if fields != [] {
      assert (fields + [last])[0] == fields[0] && (fields + [last])[1..] == fields[1..] + [last];
      TerminatedThenLast(fields[1..], last);
    } else {
      assert fields + [last] == [last];
    }
  }

  // ---------------------------------------------------------------------------
  // Numbers

  function DecimalDigit(d: nat): (c: CodeUnit)
    requires d < 10
  {
    DigitZero + d
  }

  predicate AllDigits(t: Text) {
    forall i :: 0 <= i < |t| ==> DigitZero <= t[i] < DigitZero + 10
  }

  /** `StringBuilder.Append(ulong)`: the decimal digits, most significant first. */
  function Decimal(n: nat): (t: Text)
    ensures t != [] && AllDigits(t)
    decreases n
  {
    if n < 10 then [DecimalDigit(n)] else Decimal(n / 10) + [DecimalDigit(n % 10)]
  }

  function ParseDecimal(t: Text): nat
    requires AllDigits(t)
  {
    if t == [] then 0 else 10 * ParseDecimal(t[..|t| - 1]) + (t[|t| - 1] - DigitZero)
  }

  lemma {:induction false} DecimalRoundTrip(n: nat)
    ensures ParseDecimal(Decimal(n)) == n
    decreases n
  {
    if n >= 10 {
      var t := Decimal(n);
      assert t[..|t| - 1] == Decimal(n / 10);
      DecimalRoundTrip(n / 10);
    }
  }

  /** A number never needs quoting. */
  lemma DecimalVerbatim(n: nat)
    ensures Escape(Decimal(n)) == Decimal(n)
  {
    var t := Decimal(n);
    assert Comma !in t && Quote !in t by {
      forall i | 0 <= i < |t| ensures t[i] != Comma && t[i] != Quote {
      }
    }
  }

  /** `i.ToString("D2")` for a level number below 100. */
  function TwoDigits(i: nat): (t: Text)
    requires i < 100
    ensures |t| == 2 && AllDigits(t) && ParseDecimal(t) == i
  {
    var t := [DecimalDigit(i / 10), DecimalDigit(i % 10)];
    assert t[..1] == [t[0]] && t[..1][..0] == [];
    assert ParseDecimal(t[..1]) == i / 10;
    t
  }

  // ---------------------------------------------------------------------------
  // Header

  /** The header's first six columns. */
  function FixedColumns(): seq<Text> {
    [Units("fileId"), Units("endOfFile"), Units("allocationSize"), Units("extension"), Units("mimeType"), Units("mimeSubtype")]
  }

  /** The literal the header starts with, `fileId,endOfFile,allocationSize,extension,mimeType,mimeSubtype`:
      the six names joined by commas (none of them needs quoting). */
  function FixedHeader(): Text {
    Line(FixedColumns())
  }

  const LowercaseP: CodeUnit := 0x70  // 'p'

  /** `p` and the level in two digits: the name of the column for level `i`. */
  function LevelColumn(i: nat): Text
    requires i < 100
  {
    [LowercaseP] + TwoDigits(i)
  }

  /** `,p00` to `,p<n-1>`, what the header loop writes in `n` turns. */
  function LevelSuffixes(n: nat): Text
    requires n <= 100
  {
    if n == 0 then [] else LevelSuffixes(n - 1) + [Comma] + LevelColumn(n - 1)
  }

  function LevelColumns(n: nat): (columns: seq<Text>)
    requires n <= 100
    ensures |columns| == n
    ensures forall i :: 0 <= i < n ==> columns[i] == LevelColumn(i)
  {
    seq(n, i requires 0 <= i < n => LevelColumn(i))
  }

  function HeaderText(): Text {
    FixedHeader() + LevelSuffixes(MaxLevels)
  }

  /** The code units of two strings joined are those of each, joined. */
  lemma UnitsAppend(a: string, b: string)
    ensures Units(a + b) == Units(a) + Units(b)
  {
  }

  lemma NameComma(name: string)
    ensures Units(name + ",") == Units(name) + [Comma]
  {
    UnitsAppend(name, ",");
  }

  lemma UnitsSix(a: string, b: string, c: string, d: string, e: string, f: string)
    ensures Units(a + "," + b + "," + c + "," + d + "," + e + "," + f)
         == Units(a) + [Comma] + Units(b) + [Comma] + Units(c) + [Comma]
            + Units(d) + [Comma] + Units(e) + [Comma] + Units(f)
  {
    var p1 := a + ",";
    var p2 := p1 + b + ",";
    var p3 := p2 + c + ",";
    var p4 := p3 + d + ",";
    var p5 := p4 + e + ",";
    NameComma(a);
    UnitsAppend(p1, b); NameComma(p1 + b);
    UnitsAppend(p2, c); NameComma(p2 + c);
    UnitsAppend(p3, d); NameComma(p3 + d);
    UnitsAppend(p4, e); NameComma(p4 + e);
    UnitsAppend(p5, f);
  }

  /** The header literal cut at its commas. */
  lemma HeaderLiteralPieces()
    ensures "fileId,endOfFile,allocationSize,extension,mimeType,mimeSubtype"
         == "fileId" + "," + "endOfFile" + "," + "allocationSize" + "," + "extension" + "," + "mimeType" + "," + "mimeSubtype"
  {
    HeaderLiteralHalves();
    HeaderLiteralFront();
    HeaderLiteralBack();
  }

  lemma HeaderLiteralHalves()
    ensures "fileId,endOfFile,allocationSize,extension,mimeType,mimeSubtype"
         == "fileId,endOfFile,allocationSize," + "extension,mimeType,mimeSubtype"
  {
  }

  lemma HeaderLiteralFront()
    ensures "fileId,endOfFile,allocationSize," == "fileId" + "," + "endOfFile" + "," + "allocationSize" + ","
  {
    assert "fileId" + "," == "fileId,";
    assert "fileId," + "endOfFile" == "fileId,endOfFile";
    assert "fileId,endOfFile" + "," == "fileId,endOfFile,";
    assert "fileId,endOfFile," + "allocationSize" == "fileId,endOfFile,allocationSize";
  }

  lemma HeaderLiteralBack()
    ensures "extension,mimeType,mimeSubtype" == "extension" + "," + "mimeType" + "," + "mimeSubtype"
  {
    assert "extension" + "," == "extension,";
    assert "extension," + "mimeType" == "extension,mimeType";
    assert "extension,mimeType" + "," == "extension,mimeType,";
  }

  lemma HeaderNamesJoined()
    ensures Units("fileId,endOfFile,allocationSize,extension,mimeType,mimeSubtype")
         == Units("fileId") + [Comma] + Units("endOfFile") + [Comma] + Units("allocationSize") + [Comma]
            + Units("extension") + [Comma] + Units("mimeType") + [Comma] + Units("mimeSubtype")
  {
    HeaderLiteralPieces();
    UnitsSix("fileId", "endOfFile", "allocationSize", "extension", "mimeType", "mimeSubtype");
  }

  /** A name with no ',' and no '"' is written as it is. */
  lemma PlainName(name: string)
    requires forall i :: 0 <= i < |name| ==> name[i] != ',' && name[i] != '"' && name[i] as int < 0x1_0000
    ensures Escape(Units(name)) == Units(name)
  {
    var t := Units(name);
    assert Comma !in t && Quote !in t by {
      forall i | 0 <= i < |t| ensures t[i] != Comma && t[i] != Quote {
        assert t[i] == name[i] as int;
      }
    }
  }

  lemma PrefixLineCons(prefix: Text, head: Text, tail: seq<Text>)
    requires tail != []
    ensures prefix + Line([head] + tail) == prefix + Escape(head) + [Comma] + Line(tail)
  {
    LineCons(head, tail);
    Regroup(prefix, Escape(head) + [Comma], Line(tail));
  }

  lemma PlainLineSix(a: Text, b: Text, c: Text, d: Text, e: Text, f: Text)
    requires Escape(a) == a && Escape(b) == b && Escape(c) == c
    requires Escape(d) == d && Escape(e) == e && Escape(f) == f
    ensures Line([a, b, c, d, e, f]) == a + [Comma] + b + [Comma] + c + [Comma] + d + [Comma] + e + [Comma] + f
  {
    var p1 := a + [Comma];
    var p2 := p1 + b + [Comma];
    var p3 := p2 + c + [Comma];
    var p4 := p3 + d + [Comma];
    assert [a, b, c, d, e, f] == [a] + [b, c, d, e, f];
    assert [b, c, d, e, f] == [b] + [c, d, e, f];
    assert [c, d, e, f] == [c] + [d, e, f];
    assert [d, e, f] == [d] + [e, f];
    assert [e, f] == [e] + [f];
    PrefixLineCons([], a, [b, c, d, e, f]);
    PrefixLineCons(p1, b, [c, d, e, f]);
    PrefixLineCons(p2, c, [d, e, f]);
    PrefixLineCons(p3, d, [e, f]);
    PrefixLineCons(p4, e, [f]);
    assert [] + Line([a, b, c, d, e, f]) == Line([a, b, c, d, e, f]);
    assert [] + a == a;
  }

  /** The header starts with the literal `fileId,endOfFile,allocationSize,extension,mimeType,mimeSubtype`. */
  lemma FixedHeaderLiteral()
    ensures FixedHeader() == Units("fileId,endOfFile,allocationSize,extension,mimeType,mimeSubtype")
  {
    PlainName("fileId");
    PlainName("endOfFile");
    PlainName("allocationSize");
    PlainName("extension");
    PlainName("mimeType");
    PlainName("mimeSubtype");
    PlainLineSix(Units("fileId"), Units("endOfFile"), Units("allocationSize"), Units("extension"), Units("mimeType"), Units("mimeSubtype"));
    HeaderNamesJoined();
  }

  lemma LevelColumnVerbatim(i: nat)
    requires i < 100
    ensures Escape(LevelColumn(i)) == LevelColumn(i)
  {
    var column := LevelColumn(i);
    var digits := TwoDigits(i);
    assert Comma !in column && Quote !in column by {
      forall k | 0 <= k < |column| ensures column[k] != Comma && column[k] != Quote {
        if k > 0 {
          assert column[k] == digits[k - 1];
        }
      }
    }
  }

  lemma {:induction false} LineSnoc(fields: seq<Text>, last: Text)
    requires fields != []
    ensures Line(fields + [last]) == Line(fields) + [Comma] + Escape(last)
  {
    var all := fields + [last];
    if |fields| > 1 {
      assert all == [fields[0]] + (fields[1..] + [last]);
      LineCons(fields[0], fields[1..] + [last]);
      LineSnoc(fields[1..], last);
      assert fields == [fields[0]] + fields[1..];
      LineCons(fields[0], fields[1..]);
    } else {
      assert all == [fields[0]] + [last];
      LineCons(fields[0], [last]);
    }
  }

  lemma LevelColumnsSnoc(n: nat)
    requires 0 < n <= 100
    ensures LevelColumns(n) == LevelColumns(n - 1) + [LevelColumn(n - 1)]
  {
  }

  // Sequence algebra only (regrouping or splitting), stated once to keep the callers' proofs cheap.
  lemma SnocRegroup(a: seq<Text>, b: seq<Text>, x: Text)
    ensures a + (b + [x]) == (a + b) + [x]
  {
  }

  lemma {:induction false} LevelSuffixesLine(n: nat)
    requires n <= 100
    ensures FixedHeader() + LevelSuffixes(n) == Line(FixedColumns() + LevelColumns(n))
  {
    if n == 0 {
      assert LevelColumns(0) == [];
      assert FixedColumns() + [] == FixedColumns();
      assert LevelSuffixes(0) == [];
      assert FixedHeader() + [] == FixedHeader();
    } else {
      LevelSuffixesLine(n - 1);
      var before := FixedColumns() + LevelColumns(n - 1);
      var column := LevelColumn(n - 1);
      var suffixes := LevelSuffixes(n - 1);
      LevelColumnVerbatim(n - 1);
      LevelColumnsSnoc(n);
      SnocRegroup(FixedColumns(), LevelColumns(n - 1), column);
      LineSnoc(before, column);
      assert LevelSuffixes(n) == suffixes + [Comma] + column;
      Regroup(FixedHeader(), suffixes + [Comma], column);
      Regroup(FixedHeader(), suffixes, [Comma]);
    }
  }


  /** The header reads back as the six fixed columns and the level columns p00 to p11. */
  lemma HeaderColumnsParse()
    ensures ParseFields(HeaderText()) == Some(FixedColumns() + LevelColumns(MaxLevels))
  {
    LevelColumnsParse(MaxLevels);
  }

  /** The fixed columns followed by the first `n` level columns read back as those columns. */
  lemma LevelColumnsParse(n: nat)
    requires n <= 100
    ensures ParseFields(FixedHeader() + LevelSuffixes(n)) == Some(FixedColumns() + LevelColumns(n))
  {
    LevelSuffixesLine(n);
    ParseLine(FixedColumns() + LevelColumns(n));
  }

  // ---------------------------------------------------------------------------
  // Extension and MIME type

  /** The extension column: `Path.GetExtension` without its leading '.'. */
  function ExtensionOf(fileName: Text): (ext: Text)
    ensures ext == [] || (|ext| < |fileName| && fileName[|fileName| - |ext| - 1] == Dot
                          && ext == fileName[|fileName| - |ext|..] && Path.MarkerFree(ext))
    ensures ext == [] ==> forall k :: 0 <= k < |fileName| - 1 && fileName[k] == Dot ==> !Path.MarkerFree(fileName[k + 1..])
  {
    var extension := Path.GetExtension(fileName);
    if |extension| > 1 && extension[0] == Dot then extension[1..] else extension
  }

  datatype MimeClass = MimeClass(mimeType: Text, mimeSubtype: Text)

  /** The two MIME columns: type and subtype split at the first '/' when it is not at
      the start, the whole type otherwise; `unknown` and the extension on a miss. */
  function ClassifyMime(mimeTypes: map<Text, Text>, extension: Text): (c: MimeClass)
    ensures extension !in mimeTypes ==> c == MimeClass(Units("unknown"), extension)
    ensures extension in mimeTypes && (Slash !in mimeTypes[extension] || mimeTypes[extension][0] == Slash) ==>
      c == MimeClass(mimeTypes[extension], [])
    ensures extension in mimeTypes && Slash in mimeTypes[extension] && mimeTypes[extension][0] != Slash ==>
      c.mimeType != [] && Slash !in c.mimeType && c.mimeType + [Slash] + c.mimeSubtype == mimeTypes[extension]
  {
    if extension in mimeTypes then
      var mimeTypeSpan := mimeTypes[extension];
      var mimeTypeSlashIndex := IndexOf(mimeTypeSpan, Slash);
      if mimeTypeSlashIndex > 0 then
        var c := MimeClass(mimeTypeSpan[..mimeTypeSlashIndex], mimeTypeSpan[mimeTypeSlashIndex + 1..]);
        assert c.mimeType + [Slash] + c.mimeSubtype == mimeTypeSpan;
        c
      else MimeClass(mimeTypeSpan, [])
    else MimeClass(Units("unknown"), extension)
  }

  // ---------------------------------------------------------------------------
  // Directory columns

  /** The directory up to its first '\', or all of it when there is none. */
  function FirstComponent(directory: Text): Text {
    if directory == [] || directory[0] == Backslash then [] else [directory[0]] + FirstComponent(directory[1..])
  }

  /** The directory after its first '\', or nothing when there is none. */
  function NextLevel(directory: Text): (next: Text)
    ensures directory != [] ==> |next| < |directory|
  {
    if directory == [] then [] else if directory[0] == Backslash then directory[1..] else NextLevel(directory[1..])
  }

  /** The directory split at '\': a trailing '\' adds no component, two in a row give
      an empty one, and the empty directory has none. */
  function Components(directory: Text): (parts: seq<Text>)
    decreases |directory|
  {
    if directory == [] then [] else [FirstComponent(directory)] + Components(NextLevel(directory))
  }

  lemma {:induction false} NoSeparator(directory: Text)
    requires Backslash !in directory
    ensures FirstComponent(directory) == directory && NextLevel(directory) == []
    decreases |directory|
  {
    if directory != [] {
      assert Backslash !in directory[1..] by {
        assert forall k :: 0 <= k < |directory| - 1 ==> directory[1..][k] == directory[k + 1];
      }
      NoSeparator(directory[1..]);
      assert directory == [directory[0]] + directory[1..];
    }
  }

  /** The first component and the next level are the two sides of the first '\'. */
  lemma {:induction false} SeparatorAt(directory: Text, i: nat)
    requires i < |directory| && directory[i] == Backslash && Backslash !in directory[..i]
    ensures FirstComponent(directory) == directory[..i] && NextLevel(directory) == directory[i + 1..]
    decreases i
  {
    if i > 0 {
      var tail := directory[1..];
      assert directory[0] in directory[..i];
      assert tail[..i - 1] == directory[1..i];
      assert tail[..i - 1] == directory[..i][1..];
      SeparatorAt(tail, i - 1);
      assert directory[..i] == [directory[0]] + tail[..i - 1];
      assert directory[i + 1..] == tail[i..];
    }
  }

  lemma ComponentsStep(directory: Text)
    requires Backslash in directory
    ensures var i := IndexOf(directory, Backslash);
      Components(directory) == [directory[..i]] + Components(directory[i + 1..])
  {
    var i := IndexOf(directory, Backslash);
    SeparatorAt(directory, i);
    ComponentsSplit(directory, directory[..i], directory[i + 1..]);
  }

  lemma ComponentsSplit(directory: Text, first: Text, next: Text)
    requires directory != [] && FirstComponent(directory) == first && NextLevel(directory) == next
    ensures Components(directory) == [first] + Components(next)
  {
  }

  lemma ComponentsWhole(directory: Text)
    requires directory != [] && Backslash !in directory
    ensures Components(directory) == [directory]
  {
    NoSeparator(directory);
    assert Components(NextLevel(directory)) == [];
  }



  lemma {:induction false} FirstComponentFree(directory: Text)
    ensures Backslash !in FirstComponent(directory)
    decreases |directory|
  {
    if directory != [] && directory[0] != Backslash {
      FirstComponentFree(directory[1..]);
    }
  }

  /** No component holds a '\'. */
  lemma {:induction false} ComponentsSeparatorFree(directory: Text)
    ensures forall k :: 0 <= k < |Components(directory)| ==> Backslash !in Components(directory)[k]
    decreases |directory|
  {
    if directory != [] {
      FirstComponentFree(directory);
      ComponentsSeparatorFree(NextLevel(directory));
    }
  }


  function JoinBackslash(parts: seq<Text>): Text {
    if parts == [] then [] else if |parts| == 1 then parts[0] else parts[0] + [Backslash] + JoinBackslash(parts[1..])
  }

  function TrailingSeparator(directory: Text): Text {
    if directory != [] && directory[|directory| - 1] == Backslash then [Backslash] else []
  }

  lemma JoinBackslashCons(head: Text, tail: seq<Text>)
    requires tail != []
    ensures JoinBackslash([head] + tail) == head + [Backslash] + JoinBackslash(tail)
  {
    assert ([head] + tail)[0] == head && ([head] + tail)[1..] == tail;
  }

  lemma RejoinStep(directory: Text, head: Text, rest: Text, parts: seq<Text>, restParts: seq<Text>)
    requires directory == head + [Backslash] + rest && parts == [head] + restParts
    requires JoinBackslash(restParts) + TrailingSeparator(rest) == rest
    requires rest == [] <==> restParts == []
    ensures JoinBackslash(parts) + TrailingSeparator(directory) == directory
  {
    assert directory[|directory| - 1] == if rest == [] then Backslash else rest[|rest| - 1];
    if rest == [] {
      assert parts == [head];
    } else {
      JoinBackslashCons(head, restParts);
      assert TrailingSeparator(directory) == TrailingSeparator(rest);
    }
  }


  // Sequence algebra only (regrouping or splitting), stated once to keep the callers' proofs cheap.
  lemma SplitAround(s: Text, i: int)
    requires 0 <= i < |s|
    ensures s == s[..i] + [s[i]] + s[i + 1..]
  {
  }

  lemma {:induction false} ComponentsRejoinStep(directory: Text)
    requires Backslash in directory
    ensures JoinBackslash(Components(directory)) + TrailingSeparator(directory) == directory
    decreases |directory|, 0
  {
    var i := IndexOf(directory, Backslash);
    var head, rest := directory[..i], directory[i + 1..];
    assert directory == head + [Backslash] + rest by {
      SplitAround(directory, i);
    }
    assert Components(directory) == [head] + Components(rest) by {
      ComponentsStep(directory);
    }
    assert JoinBackslash(Components(rest)) + TrailingSeparator(rest) == rest by {
      ComponentsRejoin(rest);
    }
    RejoinStep(directory, head, rest, Components(directory), Components(rest));
  }



  lemma ComponentsRejoinLast(directory: Text)
    requires Backslash !in directory
    ensures JoinBackslash(Components(directory)) + TrailingSeparator(directory) == directory
  {
    if directory != [] {
      ComponentsWhole(directory);
      assert directory[|directory| - 1] != Backslash;
    }
  }

  /** The components, joined by '\' again, give back the directory up to its
      trailing separator. */
  lemma {:induction false} ComponentsRejoin(directory: Text)
    ensures JoinBackslash(Components(directory)) + TrailingSeparator(directory) == directory
    decreases |directory|, 1
  {
    if Backslash in directory {
      ComponentsRejoinStep(directory);
    } else {
      ComponentsRejoinLast(directory);
    }
  }





  /** The empty directory has no components and so no columns. */
  lemma EmptyDirectoryColumns()
    ensures Components([]) == [] && DirectoryColumns([]) == []
  {
  }

  /** A trailing '\' adds no empty component. */
  lemma {:induction false} TrailingSeparatorAddsNothing(directory: Text)
    requires directory != [] && directory[|directory| - 1] != Backslash
    ensures Components(directory + [Backslash]) == Components(directory)
    decreases |directory|
  {
    var extended := directory + [Backslash];
    if Backslash in directory {
      var i := IndexOf(directory, Backslash);
      var head, rest := directory[..i], directory[i + 1..];
      assert extended[..i] == head && extended[i] == Backslash;
      assert extended[i + 1..] == rest + [Backslash];
      assert rest != [] && rest[|rest| - 1] == directory[|directory| - 1];
      SeparatorAt(directory, i);
      SeparatorAt(extended, i);
      TrailingSeparatorAddsNothing(rest);
      ComponentsSplit(directory, head, rest);
      ComponentsSplit(extended, head, rest + [Backslash]);
    } else {
      assert extended[..|directory|] == directory;
      assert extended[|directory| + 1..] == [];
      SeparatorAt(extended, |directory|);
      ComponentsSplit(extended, directory, []);
      ComponentsWhole(directory);
    }
  }

  /** Two '\' in a row give an empty component between them. */
  lemma DoubledSeparatorEmptyComponent(head: Text, rest: Text)
    requires Backslash !in head
    ensures Components(head + [Backslash, Backslash] + rest) == [head, []] + Components(rest)
  {
    var directory := head + [Backslash, Backslash] + rest;
    var next := [Backslash] + rest;
    assert directory[..|head|] == head && directory[|head|] == Backslash;
    assert directory[|head| + 1..] == next;
    SeparatorAt(directory, |head|);
    ComponentsSplit(directory, head, next);
    assert next[..0] == [] && next[1..] == rest;
    SeparatorAt(next, 0);
    ComponentsSplit(next, [], rest);
    assert [head] + ([[]] + Components(rest)) == [head, []] + Components(rest);
  }

  /** The directory after its first `n` components. */
  function SkipLevels(directory: Text, n: nat): Text
    decreases n
  {
    if n == 0 then directory else SkipLevels(NextLevel(directory), n - 1)
  }

  lemma {:induction false} SkipLevelsNext(directory: Text, n: nat)
    ensures SkipLevels(directory, n + 1) == NextLevel(SkipLevels(directory, n))
    decreases n
  {
    if n > 0 {
      var next := NextLevel(directory);
      assert SkipLevels(directory, n + 1) == SkipLevels(next, n);
      assert SkipLevels(directory, n) == SkipLevels(next, n - 1);
      SkipLevelsNext(next, n - 1);
    }
  }

  lemma ConsSplit(head: Text, tail: seq<Text>, remaining: seq<Text>, m: nat)
    requires m <= |tail| && tail == tail[..m] + remaining
    ensures [head] + tail == ([head] + tail)[..m + 1] + remaining
  {
    assert ([head] + tail)[..m + 1] == [head] + tail[..m];
  }

  /** The remainder after `n` components holds exactly the remaining components. */
  lemma {:induction false} SkipLevelsComponents(directory: Text, n: nat)
    requires n <= |Components(directory)|
    ensures Components(directory) == Components(directory)[..n] + Components(SkipLevels(directory, n))
    decreases n
  {
    if n == 0 {
      assert Components(directory)[..0] == [];
    } else {
      var next := NextLevel(directory);
      SkipLevelsComponents(next, n - 1);
      assert SkipLevels(directory, n) == SkipLevels(next, n - 1);
      ConsSplit(FirstComponent(directory), Components(next), Components(SkipLevels(next, n - 1)), n - 1);
    }
  }


  /** While text remains after `level` components, the next component is the one
      ahead of its first '\' and one more level skips past that '\'. */
  lemma NextComponent(directory: Text, level: nat)
    requires level <= |Components(directory)| && SkipLevels(directory, level) != []
    ensures level < |Components(directory)|
    ensures Components(directory)[level] == FirstComponent(SkipLevels(directory, level))
    ensures SkipLevels(directory, level + 1) == NextLevel(SkipLevels(directory, level))
  {
    var rest := SkipLevels(directory, level);
    SkipLevelsComponents(directory, level);
    SkipLevelsNext(directory, level);
    ComponentsSplit(rest, FirstComponent(rest), NextLevel(rest));
    ConsIndex(Components(directory), Components(directory)[..level], FirstComponent(rest), Components(NextLevel(rest)));
  }

  lemma ConsIndex(parts: seq<Text>, before: seq<Text>, x: Text, after: seq<Text>)
    requires parts == before + ([x] + after)
    ensures |before| < |parts| && parts[|before|] == x
  {
  }

  /** Once nothing remains after `level` components, there are exactly `level`. */
  lemma LastLevel(directory: Text, level: nat)
    requires level <= |Components(directory)| && SkipLevels(directory, level) == []
    ensures level == |Components(directory)|
  {
    SkipLevelsComponents(directory, level);
    assert Components([]) == [];
  }

  /** The directory columns `WriteDirectoryPath` appends: every component escaped
      and followed by a comma while there are level columns for it; past the last
      one, the unsplit remainder escaped and followed by '\' in place of a comma. */
  function DirectoryColumns(directory: Text): Text {
    var parts := Components(directory);
    if |parts| <= MaxLevels then Terminated(parts)
    else Terminated(parts[..MaxLevels]) + Escape(SkipLevels(directory, MaxLevels)) + [Backslash]
  }

  /** One more component: what the loop in `WriteDirectoryPath` appends in one turn. */
  lemma TerminatedSnoc(parts: seq<Text>, k: nat)
    requires k < |parts|
    ensures Terminated(parts[..k + 1]) == Terminated(parts[..k]) + Escape(parts[k]) + [Comma]
  {
    assert parts[..k + 1] == parts[..k] + [parts[k]];
    TerminatedAppend(parts[..k], [parts[k]]);
    TerminatedCons(parts[k], []);
    assert [parts[k]] + [] == [parts[k]];
  }

  /** Appending the next component, escaped and followed by ',', after the columns of
      the first `level` ones gives the columns of the first `level + 1`. */
  lemma ColumnStep(before: Text, directory: Text, level: nat, component: Text)
    requires level < |Components(directory)| && Components(directory)[level] == component
    ensures before + Terminated(Components(directory)[..level]) + Escape(component) + [Comma]
         == before + Terminated(Components(directory)[..level + 1])
  {
    var parts := Components(directory);
    TerminatedSnoc(parts, level);
    SnocAppend(before, Terminated(parts[..level]), Escape(component), Terminated(parts[..level + 1]));
  }

  // Sequence algebra only (regrouping or splitting), stated once to keep the callers' proofs cheap.
  lemma SnocAppend(before: Text, columns: Text, field: Text, extended: Text)
    requires extended == columns + field + [Comma]
    ensures before + columns + field + [Comma] == before + extended
  {
  }

  /** All components written, and at most twelve of them: that is the directory's columns. */
  lemma FittingColumns(before: Text, directory: Text, level: nat)
    requires level <= MaxLevels && level == |Components(directory)|
    ensures before + Terminated(Components(directory)[..level]) == before + DirectoryColumns(directory)
  {
    assert Components(directory)[..level] == Components(directory);
  }

  /** Twelve components written and more to come: the remainder, escaped and followed
      by '\', completes the directory's columns. */
  lemma OverflowColumns(before: Text, directory: Text, level: nat)
    requires level == MaxLevels < |Components(directory)|
    ensures before + Terminated(Components(directory)[..level]) + Escape(SkipLevels(directory, level)) + [Backslash]
         == before + DirectoryColumns(directory)
  {
    var columns := Terminated(Components(directory)[..level]);
    var rest := Escape(SkipLevels(directory, level));
    OverflowAppend(before, columns, rest, DirectoryColumns(directory));
  }

  // Sequence algebra only (regrouping or splitting), stated once to keep the callers' proofs cheap.
  lemma OverflowAppend(before: Text, columns: Text, rest: Text, all: Text)
    requires all == columns + rest + [Backslash]
    ensures before + columns + rest + [Backslash] == before + all
  {
  }


  // ---------------------------------------------------------------------------
  // A row

  /** The six fields before the directory: the three numbers in decimal, the
      extension, the MIME type and the MIME subtype. */
  function LeadingFields(fileId: nat, endOfFile: nat, allocationSize: nat,
                         extension: Text, mimeType: Text, mimeSubtype: Text): seq<Text>
  {
    [Decimal(fileId), Decimal(endOfFile), Decimal(allocationSize), extension, mimeType, mimeSubtype]
  }

  /** Six fields written one after the other, each escaped and followed by ',', are
      the terminated columns of the six. */
  lemma SixColumns(before: Text, a: Text, b: Text, c: Text, d: Text, e: Text, f: Text)
    ensures before + Escape(a) + [Comma] + Escape(b) + [Comma] + Escape(c) + [Comma]
              + Escape(d) + [Comma] + Escape(e) + [Comma] + Escape(f) + [Comma]
         == before + Terminated([a, b, c, d, e, f])
  {
    var p1 := before + Escape(a) + [Comma];
    var p2 := p1 + Escape(b) + [Comma];
    var p3 := p2 + Escape(c) + [Comma];
    var p4 := p3 + Escape(d) + [Comma];
    var p5 := p4 + Escape(e) + [Comma];
    var p6 := p5 + Escape(f) + [Comma];
    assert [a, b, c, d, e, f] == [a] + [b, c, d, e, f];
    assert [b, c, d, e, f] == [b] + [c, d, e, f];
    assert [c, d, e, f] == [c] + [d, e, f];
    assert [d, e, f] == [d] + [e, f];
    assert [e, f] == [e] + [f];
    assert [f] == [f] + [];
    PrependColumn(before, a, [b, c, d, e, f]);
    PrependColumn(p1, b, [c, d, e, f]);
    PrependColumn(p2, c, [d, e, f]);
    PrependColumn(p3, d, [e, f]);
    PrependColumn(p4, e, [f]);
    PrependColumn(p5, f, []);
    assert p6 + Terminated([]) == p6;
  }

  /** The first of the fields written after `prefix`, regrouped as a builder appends. */
  lemma PrependColumn(prefix: Text, head: Text, tail: seq<Text>)
    ensures prefix + Terminated([head] + tail) == prefix + Escape(head) + [Comma] + Terminated(tail)
  {
    TerminatedCons(head, tail);
    Regroup(prefix, Escape(head) + [Comma], Terminated(tail));
  }

  /** The row `WriteRow` writes, before the line terminator. */
  function RowText(mimeTypes: map<Text, Text>, directory: Text, fileName: Text,
                   endOfFile: nat, allocationSize: nat, fileId: nat): Text
  {
    var extension := ExtensionOf(fileName);
    var mime := ClassifyMime(mimeTypes, extension);
    Terminated(LeadingFields(fileId, endOfFile, allocationSize, extension, mime.mimeType, mime.mimeSubtype))
      + DirectoryColumns(directory) + Escape(fileName)
  }

  /** The fields a reader finds in a row whose directory fits the level columns. */
  function RowFields(mimeTypes: map<Text, Text>, directory: Text, fileName: Text,
                     endOfFile: nat, allocationSize: nat, fileId: nat): seq<Text>
  {
    var extension := ExtensionOf(fileName);
    var mime := ClassifyMime(mimeTypes, extension);
    LeadingFields(fileId, endOfFile, allocationSize, extension, mime.mimeType, mime.mimeSubtype)
      + Components(directory) + [fileName]
  }

  /** A row whose directory has at most twelve components reads back as its three
      numbers, extension, MIME type and subtype, the components and the file name. */
  lemma RowRoundTrip(mimeTypes: map<Text, Text>, directory: Text, fileName: Text,
                     endOfFile: nat, allocationSize: nat, fileId: nat)
    requires |Components(directory)| <= MaxLevels
    ensures ParseFields(RowText(mimeTypes, directory, fileName, endOfFile, allocationSize, fileId))
         == Some(RowFields(mimeTypes, directory, fileName, endOfFile, allocationSize, fileId))
  {
    var extension := ExtensionOf(fileName);
    var mime := ClassifyMime(mimeTypes, extension);
    var six := LeadingFields(fileId, endOfFile, allocationSize, extension, mime.mimeType, mime.mimeSubtype);
    var parts := Components(directory);
    assert RowText(mimeTypes, directory, fileName, endOfFile, allocationSize, fileId)
        == Terminated(six) + Terminated(parts) + Escape(fileName);
    TerminatedAppend(six, parts);
    TerminatedThenLast(six + parts, fileName);
    ParseLine(six + parts + [fileName]);
  }
}
