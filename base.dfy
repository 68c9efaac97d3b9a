/** Value types shared by the decoder, the traversal engine and the CSV encoder:
    bytes, fixed-width unsigned integers, UTF-16 code units (the C# `char`),
    the optional value, and the directory reference the traversal hands out. */
module Base {

  datatype Option<+T> = None | Some(value: T)

  type Byte = b: int | 0 <= b < 0x100
  type U32 = n: int | 0 <= n < 0x1_0000_0000
  type U64 = n: int | 0 <= n < 0x1_0000_0000_0000_0000

  /** One UTF-16 code unit, as a C# `char` holds it (lone surrogates included). */
  type CodeUnit = c: int | 0 <= c < 0x1_0000

  /** Text as the source's spans of `char` hold it. */
  type Text = seq<CodeUnit>

  const Nul: CodeUnit := 0x00
  const Quote: CodeUnit := 0x22        // '"'
  const Comma: CodeUnit := 0x2C        // ','
  const Dot: CodeUnit := 0x2E          // '.'
  const Slash: CodeUnit := 0x2F        // '/'
  const QuestionMark: CodeUnit := 0x3F // '?'
  const Backslash: CodeUnit := 0x5C    // '\', Path.DirectorySeparatorChar on Windows
  const DigitZero: CodeUnit := 0x30    // '0'

  /** A `ReadOnlyMemory<char>` naming a directory: `id` stands for the identity of the
      memory (backing array, start index and length), `text` for the characters it shows. */
  datatype DirectoryRef = DirectoryRef(id: nat, text: Text)

  /** The code units of an ASCII string literal. */
  function Units(s: string): (r: Text)
    ensures |r| == |s|
    ensures forall i :: 0 <= i < |s| && s[i] as int < 0x1_0000 ==> r[i] == s[i] as int
  {
    seq(|s|, i requires 0 <= i < |s| => (s[i] as int) % 0x1_0000)
  }

  /** `MemoryExtensions.IndexOf`: the position of the first occurrence of `c`, or -1. */
  function IndexOf(s: Text, c: CodeUnit): (i: int)
    ensures -1 <= i < |s|
    ensures i == -1 <==> c !in s
    ensures i >= 0 ==> s[i] == c && c !in s[..i]
  {
    if s == [] then -1
    else if s[0] == c then 0
    else
      var j := IndexOf(s[1..], c);
      if j < 0 then -1 else (assert s[..j + 1] == [s[0]] + s[1..][..j]; j + 1)
  }

  lemma IndexOfAppend(s: Text, t: Text, c: CodeUnit)
    requires c in s
    ensures IndexOf(s + t, c) == IndexOf(s, c)
  {
    assert (s + t)[IndexOf(s, c)] == c;
  }
}
