/** `CsvWriter` itself: a string builder that the helpers append to in place, the
    stream the rows go to, and the one-slot cache of the last directory's columns.
    Every method is proved to produce the text `CsvFormat` describes. */
module CsvWriting {
  import opened Base
  import opened CsvFormat
  import Path

  /** The part of `System.Text.StringBuilder` the writer uses. */
  class StringBuilder {
    var chars: Text

    constructor()
      ensures chars == []
    {
      chars := [];
    }

    method Clear()
      modifies this
      ensures chars == []
    {
      chars := [];
    }

    method Append(s: Text)
      modifies this
      ensures chars == old(chars) + s
    {
      chars := chars + s;
    }

    /** `Append(ulong)`: the number in decimal. */
    method AppendNumber(n: U64)
      modifies this
      ensures chars == old(chars) + Decimal(n)
    {
      chars := chars + Decimal(n);
    }
  }

  /** The part of `System.IO.StreamWriter` the writer uses: everything written so far,
      and the line terminator `WriteLine` adds. */
  class StreamWriter {
    var written: Text
    const newLine: Text

    constructor(newLine: Text)
      ensures written == [] && this.newLine == newLine
    {
      written := [];
      this.newLine := newLine;
    }

    method Write(s: Text)
      modifies this
      ensures written == old(written) + s
    {
      written := written + s;
    }

    method WriteLine()
      modifies this
      ensures written == old(written) + newLine
    {
      written := written + newLine;
    }

    /** `WriteLine(StringBuilder)`: the builder's text, then the line terminator. */
    method WriteLineOf(sb: StringBuilder)
      modifies this
      ensures written == old(written) + sb.chars + newLine
    {
      written := written + sb.chars + newLine;
    }
  }

  /** One turn of the header loop appends `,p` and the two digits of the level. */
  lemma HeaderTurn(before: Text, i: nat)
    requires i < 100
    ensures before + LevelSuffixes(i) + [Comma, LowercaseP] + TwoDigits(i) == before + LevelSuffixes(i + 1)
  {
    TurnRegroup(before, LevelSuffixes(i), TwoDigits(i));
  }

  // Sequence algebra only (regrouping or splitting), stated once to keep the callers' proofs cheap.
  lemma TurnRegroup(before: Text, suffixes: Text, digits: Text)
    ensures before + suffixes + [Comma, LowercaseP] + digits == before + (suffixes + [Comma] + ([LowercaseP] + digits))
  {
    assert [Comma, LowercaseP] == [Comma] + [LowercaseP];
  }

  /** The header loop's text after all the levels, and the line terminator, is the header line. */
  lemma HeaderLine(before: Text, newLine: Text)
    ensures before + FixedHeader() + LevelSuffixes(MaxLevels) + newLine == before + HeaderText() + newLine
  {
    LineRegroup(before, FixedHeader(), LevelSuffixes(MaxLevels), HeaderText(), newLine);
  }

  // Sequence algebra only (regrouping or splitting), stated once to keep the callers' proofs cheap.
  lemma LineRegroup(before: Text, fixed: Text, suffixes: Text, header: Text, newLine: Text)
    requires header == fixed + suffixes
    ensures before + fixed + suffixes + newLine == before + header + newLine
  {
  }

  // Sequence algebra only (regrouping or splitting), stated once to keep the callers' proofs cheap.
  lemma QuotedAppend(before: Text, body: Text, escaped: Text)
    requires escaped == [Quote] + body + [Quote]
    ensures before + [Quote] + body + [Quote] == before + escaped
  {
  }

  /** After `from` characters, the builder holds what was appended since. */
  lemma AppendedSince(before: Text, added: Text)
    ensures (before + added)[|before|..] == added
  {
  }

  /** The row is its leading columns, its directory columns and its name, once the
      extension and MIME columns are those of the name. */
  lemma RowTextOf(mimeTypes: map<Text, Text>, directory: Text, fileName: Text,
                  endOfFile: nat, allocationSize: nat, fileId: nat,
                  extension: Text, mimeType: Text, mimeSubtype: Text)
    requires extension == ExtensionOf(fileName)
    requires MimeClass(mimeType, mimeSubtype) == ClassifyMime(mimeTypes, extension)
    ensures RowText(mimeTypes, directory, fileName, endOfFile, allocationSize, fileId)
         == Terminated(LeadingFields(fileId, endOfFile, allocationSize, extension, mimeType, mimeSubtype))
            + DirectoryColumns(directory) + Escape(fileName)
  {
  }

  class CsvWriter {
    const builder: StringBuilder
    /** `None` stands for `ReadOnlyMemory<char>.Empty`, which no directory passed in is. */
    var lastDirectory: Option<DirectoryRef>
    var lastDirectorySerialized: Text

    /** The cached text is the directory columns of the cached directory. */
    ghost predicate Valid()
      reads this
    {
      lastDirectory.Some? ==> lastDirectorySerialized == DirectoryColumns(lastDirectory.value.text)
    }

    constructor()
      ensures Valid() && fresh(builder)
      ensures lastDirectory == None && lastDirectorySerialized == [] && builder.chars == []
    {
      builder := new StringBuilder();
      lastDirectory := None;
      lastDirectorySerialized := [];
    }

    /** The header line: the six fixed column names, then `,p00` to `,p11`. */
    method WriteHeader(sink: StreamWriter)
      modifies sink
      ensures sink.written == old(sink.written) + HeaderText() + sink.newLine
    {
      ghost var before := sink.written;
      sink.Write(FixedHeader());
      WriteLevelNames(sink, MaxLevels);
      sink.WriteLine();
      HeaderLine(before, sink.newLine);
    }

    /** The level column names `,p00`, `,p01`, ... for the first `levels` levels. */
    static method WriteLevelNames(sink: StreamWriter, levels: nat)
      requires levels <= 100
      modifies sink
      ensures sink.written == old(sink.written) + LevelSuffixes(levels)
    {
      for i := 0 to levels
        invariant sink.written == old(sink.written) + LevelSuffixes(i)
      {
        sink.Write([Comma, LowercaseP]);
        sink.Write(TwoDigits(i));
        HeaderTurn(old(sink.written), i);
      }
    }

    /** One row: the three numbers, extension, MIME type and subtype, the directory
        columns (from the cache when the directory is the cached one) and the file
        name, as one line. The directory's identity must stand for its text. */
    method WriteRow(sink: StreamWriter, mimeTypes: map<Text, Text>, directory: DirectoryRef, fileName: Text,
                    endOfFile: U64, allocationSize: U64, fileId: U64)
      requires Valid()
      requires lastDirectory.Some? && lastDirectory.value.id == directory.id ==> lastDirectory.value.text == directory.text
      modifies this, builder, sink
      ensures Valid()
      ensures builder.chars == RowText(mimeTypes, directory.text, fileName, endOfFile, allocationSize, fileId)
      ensures sink.written == old(sink.written) + builder.chars + sink.newLine
      ensures lastDirectory == Some(directory)
    {
      builder.Clear();
      var extension, mimeType, mimeSubtype := ExtensionAndMime(mimeTypes, fileName);
      ghost var leading := Terminated(LeadingFields(fileId, endOfFile, allocationSize, extension, mimeType, mimeSubtype));
      ghost var columns := DirectoryColumns(directory.text);
      ghost var name := Escape(fileName);
      assert RowText(mimeTypes, directory.text, fileName, endOfFile, allocationSize, fileId) == leading + columns + name by {
        RowTextOf(mimeTypes, directory.text, fileName, endOfFile, allocationSize, fileId, extension, mimeType, mimeSubtype);
      }
      WriteLeadingColumns(builder, fileId, endOfFile, allocationSize, extension, mimeType, mimeSubtype);
      assert builder.chars == leading by {
        assert [] + leading == leading;
      }
      WriteDirectory(directory);
      EscapeAndWrite(builder, fileName);
      assert builder.chars == leading + columns + name;
      sink.WriteLineOf(builder);
    }

    /** The three numbers, the extension, the MIME type and subtype, each followed by ','. */
    static method WriteLeadingColumns(sb: StringBuilder, fileId: U64, endOfFile: U64, allocationSize: U64,
                                      extension: Text, mimeType: Text, mimeSubtype: Text)
      modifies sb
      ensures sb.chars == old(sb.chars) + Terminated(LeadingFields(fileId, endOfFile, allocationSize, extension, mimeType, mimeSubtype))
    {
      ghost var before := sb.chars;
      sb.AppendNumber(fileId);
      sb.Append([Comma]);
      sb.AppendNumber(endOfFile);
      sb.Append([Comma]);
      sb.AppendNumber(allocationSize);
      sb.Append([Comma]);
      EscapeAndWrite(sb, extension);
      sb.Append([Comma]);
      EscapeAndWrite(sb, mimeType);
      sb.Append([Comma]);
      EscapeAndWrite(sb, mimeSubtype);
      sb.Append([Comma]);
      DecimalVerbatim(fileId);
      DecimalVerbatim(endOfFile);
      DecimalVerbatim(allocationSize);
      SixColumns(before, Decimal(fileId), Decimal(endOfFile), Decimal(allocationSize), extension, mimeType, mimeSubtype);
    }

    /** The directory columns, taken from the cache when the directory is the cached
        one, and otherwise written out and then cached. */
    method WriteDirectory(directory: DirectoryRef)
      requires Valid()
      requires lastDirectory.Some? && lastDirectory.value.id == directory.id ==> lastDirectory.value.text == directory.text
      modifies this, builder
      ensures Valid()
      ensures builder.chars == old(builder.chars) + DirectoryColumns(directory.text)
      ensures lastDirectory == Some(directory)
    {
      if lastDirectory.Some? && lastDirectory.value.id == directory.id {
        builder.Append(lastDirectorySerialized);
      } else {
        var from := |builder.chars|;
        ghost var prefix := builder.chars;
        WriteDirectoryPath(builder, directory.text);
        lastDirectory := Some(directory);
        AppendedSince(prefix, DirectoryColumns(directory.text));
        lastDirectorySerialized := builder.chars[from..];
      }
    }

    /** The extension and MIME columns, computed as the start of `WriteRow` does:
        the extension without its leading '.', then the MIME type looked up for it and
        split at its first '/' when that is not at the start. */
    static method ExtensionAndMime(mimeTypes: map<Text, Text>, fileName: Text)
      returns (extension: Text, mimeType: Text, mimeSubtype: Text)
      ensures extension == ExtensionOf(fileName)
      ensures MimeClass(mimeType, mimeSubtype) == ClassifyMime(mimeTypes, extension)
    {
      extension := Path.GetExtension(fileName);
      if |extension| > 1 && extension[0] == Dot {
        extension := extension[1..];
      }

      if extension in mimeTypes {
        var mimeTypeSpan := mimeTypes[extension];
        mimeType, mimeSubtype := mimeTypeSpan, [];
        var mimeTypeSlashIndex := IndexOf(mimeTypeSpan, Slash);
        if mimeTypeSlashIndex > 0 {
          mimeType := mimeTypeSpan[..mimeTypeSlashIndex];
          mimeSubtype := mimeTypeSpan[mimeTypeSlashIndex + 1..];
        }
      } else {
        mimeType, mimeSubtype := Units("unknown"), extension;
      }
    }

    /** The directory columns: each component escaped and followed by ',' for the
        first twelve levels; past those, the rest of the directory escaped and
        followed by '\'. */
    static method WriteDirectoryPath(sb: StringBuilder, directory: Text)
      modifies sb
      ensures sb.chars == old(sb.chars) + DirectoryColumns(directory)
    {
      ghost var before := sb.chars;
      var input := directory;
      var level := 0;

      while input != []
        invariant level <= MaxLevels && level <= |Components(directory)|
        invariant input == SkipLevels(directory, level)
        invariant sb.chars == before + Terminated(Components(directory)[..level])
        decreases |input|
      {
        NextComponent(directory, level);
        level := level + 1;

        if level > MaxLevels {
          EscapeAndWrite(sb, input);
          sb.Append([Backslash]);
          OverflowColumns(before, directory, level - 1);
          return;
        }

        var nextSeparatorIndex := IndexOf(input, Backslash);

        if nextSeparatorIndex < 0 {
          NoSeparator(input);
          EscapeAndWrite(sb, input);
          sb.Append([Comma]);
          ColumnStep(before, directory, level - 1, input);
          LastLevel(directory, level);
          FittingColumns(before, directory, level);
          return;
        }

        SeparatorAt(input, nextSeparatorIndex);
        EscapeAndWrite(sb, input[..nextSeparatorIndex]);
        sb.Append([Comma]);
        ColumnStep(before, directory, level - 1, input[..nextSeparatorIndex]);
        input := input[nextSeparatorIndex + 1..];
      }
      LastLevel(directory, level);
      FittingColumns(before, directory, level);
    }


    /** One field: as it is when it holds neither ',' nor '"', otherwise between quotes
        with every quote doubled. */
    static method EscapeAndWrite(sb: StringBuilder, input: Text)
      modifies sb
      ensures sb.chars == old(sb.chars) + Escape(input)
    {
      var needsCommaEscaping := IndexOf(input, Comma) >= 0;
      var needsQuoteEscaping := IndexOf(input, Quote) >= 0;

      if !(needsCommaEscaping || needsQuoteEscaping) {
        sb.Append(input);
        return;
      }

      ghost var before := sb.chars;
      sb.Append([Quote]);
      if needsQuoteEscaping {
        sb.Append(DoubleQuotes(input));
      } else {
        sb.Append(input);
      }
      sb.Append([Quote]);
      QuotedAppend(before, if needsQuoteEscaping then DoubleQuotes(input) else input, Escape(input));
    }

  }
}
