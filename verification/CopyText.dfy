/**
 Rows encoded as COPY text, and PostgreSQL's reading of that text.

 The encoder follows internal/copy/copy.go.  The decoder follows the COPY manual page of PostgreSQL,
 "File Formats", "Text Format": it is written without looking at the encoder.
 */
module CopyText {
  import opened Bytes
  import opened Decimal

  // ----- Go strings -----

  /** A Unicode scalar value. */
  type Rune = c: int | 0 <= c < 0xD800 || 0xE000 <= c < 0x11_0000

  /** Bytes below 128 are always runes by themselves. */
  type HighByte = b: int | 128 <= b < 256 witness 128

  /** Decoding a Go string yields runes and, where it is not valid UTF-8, single stray bytes. */
  datatype Chunk = Valid(r: Rune) | Stray(b: HighByte)
  type GoString = seq<Chunk>

  const QUESTION: Rune := 63

  function Utf8(r: Rune): (bs: bytes)
    ensures r < 128 ==> bs == [r]
    ensures r >= 128 ==> forall i | 0 <= i < |bs| :: bs[i] >= 128
  {
    if r < 0x80 then [r]
    else if r < 0x800 then [0xC0 + r / 64, 0x80 + r % 64]
    else if r < 0x1_0000 then [0xE0 + r / 4096, 0x80 + r / 64 % 64, 0x80 + r % 64]
    else [0xF0 + r / 262144, 0x80 + r / 4096 % 64, 0x80 + r / 64 % 64, 0x80 + r % 64]
  }

  function Utf8All(rs: seq<Rune>): bytes {
    if rs == [] then [] else Utf8(rs[0]) + Utf8All(rs[1..])
  }

  /** Every maximal run of stray bytes becomes one question mark. */
  function Sanitize(s: GoString, inRun: bool := false): seq<Rune> {
    if s == [] then []
    else if s[0].Valid? then [s[0].r] + Sanitize(s[1..], false)
    else (if inRun then [] else [QUESTION]) + Sanitize(s[1..], true)
  }

  // ----- Values and rows -----

  datatype Value =
    | Null
    | Bytea(data: bytes)
    | Text(text: GoString)
    | Int(n: int)
    | Bool(b: bool)

  type Row = seq<Value>

  function Ascii(s: string): bytes {
    seq(|s|, i requires 0 <= i < |s| => s[i] as int % 256)
  }

  // ----- Encoding -----

  /** The letter that follows the backslash for a byte that must be escaped, if it must. */
  function EscapeLetter(b: byte): Option<byte> {
    if b == 92 then Some(92)        // backslash
    else if b == 10 then Some(110)  // \n
    else if b == 13 then Some(114)  // \r
    else if b == 9 then Some(116)   // \t
    else if b == 8 then Some(98)    // \b
    else if b == 12 then Some(102)  // \f
    else if b == 11 then Some(118)  // \v
    else None
  }

  function EscapeByte(b: byte): bytes {
    match EscapeLetter(b)
    case Some(l) => [BACKSLASH, l]
    case None => [b]
  }

  function Escape(bs: bytes): bytes {
    if bs == [] then [] else EscapeByte(bs[0]) + Escape(bs[1..])
  }

  function HexDigit(n: int): byte
    requires 0 <= n < 16
  {
    if n < 10 then 48 + n else 87 + n
  }

  function Hex(bs: bytes): bytes {
    if bs == [] then [] else [HexDigit(bs[0] / 16), HexDigit(bs[0] % 16)] + Hex(bs[1..])
  }

  function EncodeField(v: Value): bytes {
    match v
    case Null => [BACKSLASH, 78]
    case Bytea(data) => [BACKSLASH, BACKSLASH, 120] + Hex(data)
    case Text(text) => Escape(Utf8All(Sanitize(text)))
    case Int(n) => Ascii(FormatInt(n))
    case Bool(b) => if b then [116] else [102]
  }

  /** Fields with a tab before each one except the first. */
  function JoinFields(fs: seq<bytes>): bytes {
    if fs == [] then [] else if |fs| == 1 then fs[0] else fs[0] + [TAB] + JoinFields(fs[1..])
  }

  function EncodeFields(row: Row): (fs: seq<bytes>)
    ensures |fs| == |row|
    ensures forall i | 0 <= i < |row| :: fs[i] == EncodeField(row[i])
  {
    seq(|row|, i requires 0 <= i < |row| => EncodeField(row[i]))
  }

  function EncodeRow(row: Row): bytes {
    JoinFields(EncodeFields(row)) + [NL]
  }

  function EncodeRows(rows: seq<Row>): seq<bytes> {
    seq(|rows|, i requires 0 <= i < |rows| => EncodeRow(rows[i]))
  }

  // ----- The encoders as written: loops that append to a buffer -----

  method HexEncodeCopyBytes(buf: bytes, data: bytes) returns (out: bytes)
    ensures out == buf + [BACKSLASH, BACKSLASH, 120] + Hex(data)
  {
    out := buf + [BACKSLASH, BACKSLASH, 120];
    ghost var start := out;
    for i := 0 to |data|
      invariant out + Hex(data[i..]) == start + Hex(data)
    {
      assert data[i..][1..] == data[i + 1..];
      out := out + [HexDigit(data[i] / 16)];
      out := out + [HexDigit(data[i] % 16)];
    }
  }

  /** strings.ToValidUTF8 with "?" as the replacement. */
  method ToValidUTF8(s: GoString) returns (rs: seq<Rune>)
    ensures rs == Sanitize(s)
  {
    rs := [];
    var inRun := false;
    SanitizeEnds(s);
    hide Sanitize;
    for i := 0 to |s|
      invariant rs + Sanitize(s[i..], inRun) == Sanitize(s)
    {
      SanitizeFirst(s, i, inRun);
      ghost var before, rest := rs, Sanitize(s[i + 1..], s[i].Stray?);
      match s[i] {
        case Valid(r) =>
          rs := rs + [r];
          inRun := false;
          assert rs + rest == before + ([r] + rest);
        case Stray(_) =>
          if !inRun {
            rs := rs + [QUESTION];
            assert rs + rest == before + ([QUESTION] + rest);
          } else {
            assert [] + rest == rest;
          }
          inRun := true;
      }
    }
    assert rs + [] == rs;
  }

  lemma SanitizeEnds(s: GoString)
    ensures [] + Sanitize(s[0..]) == Sanitize(s)
    ensures forall inRun :: Sanitize(s[|s|..], inRun) == []
  {
    assert s[0..] == s && s[|s|..] == [];
  }

  lemma SanitizeFirst(s: GoString, i: nat, inRun: bool)
    requires i < |s|
    ensures Sanitize(s[i..], inRun)
         == (match s[i] case Valid(r) => [r] case Stray(_) => if inRun then [] else [QUESTION])
            + Sanitize(s[i + 1..], s[i].Stray?)
  {
    assert s[i..][1..] == s[i + 1..];
  }

  /** What the source writes for one rune. */
  function EscapedRune(r: Rune): bytes {
    if r < 128 then EscapeByte(r) else Utf8(r)
  }

  method EscapeCopyString(buf: bytes, s: GoString) returns (out: bytes)
    ensures out == buf + Escape(Utf8All(Sanitize(s)))
  {
    var rs := ToValidUTF8(s);
    out := buf;
    for i := 0 to |rs|
      invariant out + Escape(Utf8All(rs[i..])) == buf + Escape(Utf8All(rs))
    {
      EscapeFirstRune(rs[i..]);
      assert rs[i..][1..] == rs[i + 1..];
      ghost var before, rest := out, Escape(Utf8All(rs[i + 1..]));
      var e := WriteRune(rs[i]);
      out := out + e;
      assert out + rest == before + (e + rest);
    }
    assert Escape(Utf8All(rs[|rs|..])) == [];
  }

  method WriteRune(r: Rune) returns (e: bytes)
    ensures e == EscapedRune(r)
  {
    if r == 92 { e := [BACKSLASH, 92]; }
    else if r == 10 { e := [BACKSLASH, 110]; }
    else if r == 13 { e := [BACKSLASH, 114]; }
    else if r == 9 { e := [BACKSLASH, 116]; }
    else if r == 8 { e := [BACKSLASH, 98]; }
    else if r == 12 { e := [BACKSLASH, 102]; }
    else if r == 11 { e := [BACKSLASH, 118]; }
    else { e := Utf8(r); }
  }

  method WriteValue(buf: bytes, v: Value) returns (out: bytes)
    ensures out == buf + EncodeField(v)
  {
    match v {
      case Null => out := buf + [BACKSLASH, 78];
      case Bytea(data) => out := HexEncodeCopyBytes(buf, data);
      case Text(text) => out := EscapeCopyString(buf, text);
      case Int(n) => out := buf + Ascii(FormatInt(n));
      case Bool(b) => if b { out := buf + [116]; } else { out := buf + [102]; }
    }
  }

  method FormatRowToCopyText(row: Row) returns (buf: bytes)
    ensures buf == EncodeRow(row)
  {
    buf := [];
    ghost var fs := EncodeFields(row);
    for i := 0 to |row|
      invariant buf == JoinFields(fs[..i])
    {
      JoinSnoc(fs, i);
      if i > 0 {
        buf := buf + [TAB];
      }
      buf := WriteValue(buf, row[i]);
    }
    assert fs[..|row|] == fs;
    buf := buf + [NL];
  }

  lemma {:induction false} JoinSnoc(fs: seq<bytes>, i: nat)
    requires i < |fs|
    ensures JoinFields(fs[..i + 1]) == JoinFields(fs[..i]) + (if i > 0 then [TAB] else []) + fs[i]
  {
    if i == 0 {
      assert fs[..1] == [fs[0]];
    } else {
      JoinSnoc(fs[1..], i - 1);
      assert fs[1..][..i] == fs[..i + 1][1..] && fs[1..][..i - 1] == fs[..i][1..];
      assert JoinFields(fs[..i + 1]) == fs[0] + [TAB] + JoinFields(fs[1..][..i]);
      if i > 1 {
        assert JoinFields(fs[..i]) == fs[0] + [TAB] + JoinFields(fs[1..][..i - 1]);
      }
    }
  }

  // ----- PostgreSQL's reader -----

  /**
   The first line and what follows it.  A backslash quotes the byte after it, so a newline after a
   backslash is data; a missing final newline ends the line as well.
   */
  function ReadLine(d: bytes): (r: (bytes, bytes))
    ensures d != [] ==> |r.1| < |d|
  {
    if d == [] then ([], [])
    else if d[0] == NL then ([], d[1..])
    else if d[0] == BACKSLASH && |d| >= 2 then
      var (line, rest) := ReadLine(d[2..]);
      ([d[0], d[1]] + line, rest)
    else
      var (line, rest) := ReadLine(d[1..]);
      ([d[0]] + line, rest)
  }

  /** Raw fields of a line, cut at the tabs that no backslash quotes. */
  function SplitFields(line: bytes): (fs: seq<bytes>)
    ensures fs != []
  {
    if line == [] then [[]]
    else if line[0] == TAB then [[]] + SplitFields(line[1..])
    else if line[0] == BACKSLASH && |line| >= 2 then
      var fs := SplitFields(line[2..]);
      [[line[0], line[1]] + fs[0]] + fs[1..]
    else
      var fs := SplitFields(line[1..]);
      [[line[0]] + fs[0]] + fs[1..]
  }

  predicate IsOctal(b: int) { 48 <= b <= 55 }

  function HexValue(b: byte): Option<int> {
    if 48 <= b <= 57 then Some(b - 48)
    else if 97 <= b <= 102 then Some(b - 87)
    else if 65 <= b <= 70 then Some(b - 55)
    else None
  }

  /** Replaces the backslash sequences of a field. */
  function Unescape(raw: bytes): bytes {
    if raw == [] then []
    else if raw[0] != BACKSLASH then [raw[0]] + Unescape(raw[1..])
    else if |raw| == 1 then []
    else
      var c := raw[1];
      if c == 98 then [8 as byte] + Unescape(raw[2..])
      else if c == 102 then [12 as byte] + Unescape(raw[2..])
      else if c == 110 then [10 as byte] + Unescape(raw[2..])
      else if c == 114 then [13 as byte] + Unescape(raw[2..])
      else if c == 116 then [9 as byte] + Unescape(raw[2..])
      else if c == 118 then [11 as byte] + Unescape(raw[2..])
      else if IsOctal(c) then
        if |raw| > 3 && IsOctal(raw[2]) && IsOctal(raw[3]) then
          [OctalByte(c, raw[2], raw[3])] + Unescape(raw[4..])
        else if |raw| > 2 && IsOctal(raw[2]) then
          [OctalByte(48, c, raw[2])] + Unescape(raw[3..])
        else [OctalByte(48, 48, c)] + Unescape(raw[2..])
      else if c == 120 && |raw| > 2 && HexValue(raw[2]).Some? then
        if |raw| > 3 && HexValue(raw[3]).Some? then
          [HexPair(raw[2], raw[3])] + Unescape(raw[4..])
        else [HexOne(raw[2])] + Unescape(raw[3..])
      else [c] + Unescape(raw[2..])
  }

  /** An octal escape, cut to eight bits. */
  function OctalByte(a: int, b: int, c: int): byte
    requires IsOctal(a) && IsOctal(b) && IsOctal(c)
  {
    ((a - 48) * 64 + (b - 48) * 8 + (c - 48)) % 256
  }

  function HexOne(a: byte): byte
    requires HexValue(a).Some?
  {
    HexValue(a).value
  }

  function HexPair(a: byte, b: byte): byte
    requires HexValue(a).Some? && HexValue(b).Some?
  {
    HexValue(a).value * 16 + HexValue(b).value
  }

  /** NULL is recognised on the raw field, before backslash sequences are replaced. */
  function DecodeField(raw: bytes): Option<bytes> {
    if raw == [BACKSLASH, 78] then None else Some(Unescape(raw))
  }

  function DecodeLine(line: bytes): seq<Option<bytes>> {
    var fs := SplitFields(line);
    seq(|fs|, i requires 0 <= i < |fs| => DecodeField(fs[i]))
  }

  /** All rows of a COPY stream, up to its end or to a line that holds just backslash-period. */
  function Decode(d: bytes): seq<seq<Option<bytes>>>
    decreases |d|
  {
    if d == [] then []
    else
      var r := ReadLine(d);
      if r.0 == [BACKSLASH, DOT] then [] else [DecodeLine(r.0)] + Decode(r.1)
  }

  // ----- What the target should receive -----

  /** The text of a value as its column's input function must see it; None is NULL. */
  function Wire(v: Value): Option<bytes> {
    match v
    case Null => None
    case Bytea(data) => Some([BACKSLASH, 120] + Hex(data))
    case Text(text) => Some(Utf8All(Sanitize(text)))
    case Int(n) => Some(Ascii(FormatInt(n)))
    case Bool(b) => Some(if b then [116] else [102])
  }

  function WireRow(row: Row): seq<Option<bytes>> {
    seq(|row|, i requires 0 <= i < |row| => Wire(row[i]))
  }

  function WireRows(rows: seq<Row>): seq<seq<Option<bytes>>> {
    seq(|rows|, i requires 0 <= i < |rows| => WireRow(rows[i]))
  }

  /** The bytea input function on its hex form. */
  function ParseHexDigits(t: bytes): Option<bytes> {
    if t == [] then Some([])
    else if |t| < 2 || HexValue(t[0]).None? || HexValue(t[1]).None? then None
    else
      match ParseHexDigits(t[2..])
      case None => None
      case Some(rest) => Some([HexPair(t[0], t[1])] + rest)
  }

  function ParseByteaHex(t: bytes): Option<bytes> {
    if |t| < 2 || t[0] != BACKSLASH || t[1] != 120 then None else ParseHexDigits(t[2..])
  }

  // ----- Facts about escaping -----

  lemma {:induction false} EscapeAppend(a: bytes, b: bytes)
    ensures Escape(a + b) == Escape(a) + Escape(b)
  {
    if a == [] {
      assert a + b == b;
    } else {
      assert (a + b)[1..] == a[1..] + b;
      EscapeAppend(a[1..], b);
    }
  }

  /** Bytes above 127 are never escaped, so escaping runes and escaping their UTF-8 bytes agree. */
  lemma {:induction false} EscapeHighBytes(bs: bytes)
    requires forall i | 0 <= i < |bs| :: bs[i] >= 128
    ensures Escape(bs) == bs
  {
    if bs != [] {
      EscapeHighBytes(bs[1..]);
      assert EscapeByte(bs[0]) == [bs[0]];
    }
  }

  lemma EscapeRune(r: Rune)
    ensures Escape(Utf8(r)) == EscapedRune(r)
  {
    if r < 128 {
      assert Escape([r]) == EscapeByte(r) + Escape([]);
    } else {
      EscapeHighBytes(Utf8(r));
    }
  }

  lemma EscapeFirstRune(rs: seq<Rune>)
    requires rs != []
    ensures Escape(Utf8All(rs)) == EscapedRune(rs[0]) + Escape(Utf8All(rs[1..]))
  {
    EscapeAppend(Utf8(rs[0]), Utf8All(rs[1..]));
    EscapeRune(rs[0]);
  }

  /** No raw delimiter, and every backslash has a byte after it. */
  predicate Quoted(raw: bytes) {
    if raw == [] then true
    else if raw[0] == BACKSLASH then
      |raw| >= 2 && raw[1] !in {TAB, NL, CR, DOT} && Quoted(raw[2..])
    else raw[0] !in {TAB, NL, CR} && Quoted(raw[1..])
  }

  lemma {:induction false} EscapeQuoted(bs: bytes)
    ensures Quoted(Escape(bs))
  {
    if bs != [] {
      EscapeQuoted(bs[1..]);
      var e, rest := EscapeByte(bs[0]), Escape(bs[1..]);
      if |e| == 2 {
        assert (e + rest)[2..] == rest;
      } else {
        assert (e + rest)[1..] == rest;
      }
    }
  }

  lemma UnescapeOne(b: byte, rest: bytes)
    ensures Unescape(EscapeByte(b) + rest) == [b] + Unescape(rest)
  {
    var e := EscapeByte(b);
    if |e| == 2 {
      assert (e + rest)[2..] == rest;
    } else {
      assert (e + rest)[1..] == rest;
    }
  }

  lemma {:induction false} UnescapeEscape(bs: bytes)
    ensures Unescape(Escape(bs)) == bs
  {
    if bs != [] {
      hide Unescape, EscapeByte;
      UnescapeEscape(bs[1..]);
      UnescapeOne(bs[0], Escape(bs[1..]));
      assert bs == [bs[0]] + bs[1..];
    } else {
      assert Unescape([]) == [];
    }
  }

  /** Bytes that stand for themselves: neither a delimiter nor a backslash. */
  predicate Plain(raw: bytes) {
    forall i | 0 <= i < |raw| :: raw[i] !in {TAB, NL, CR, BACKSLASH}
  }

  lemma {:induction false} PlainQuoted(raw: bytes)
    requires Plain(raw)
    ensures Quoted(raw) && Unescape(raw) == raw
  {
    if raw != [] {
      PlainQuoted(raw[1..]);
    }
  }

  lemma {:induction false} HexPlain(bs: bytes)
    ensures Plain(Hex(bs))
  {
    if bs != [] {
      HexPlain(bs[1..]);
    }
  }

  lemma FormatIntChars(n: int)
    ensures forall c <- FormatInt(n) :: IsDigit(c) || c == '-'
  {
  }

  lemma IntPlain(n: int)
    ensures Plain(Ascii(FormatInt(n)))
  {
    FormatIntChars(n);
    var s := FormatInt(n);
    forall i | 0 <= i < |s|
      ensures Ascii(s)[i] !in {TAB, NL, CR, BACKSLASH}
    {
      assert s[i] in s;
    }
  }

  lemma HexFieldQuoted(data: bytes)
    ensures var f := [BACKSLASH, BACKSLASH, 120] + Hex(data); Quoted(f) && f != [BACKSLASH, 78]
  {
    HexPlain(data);
    hide Hex;
    PlainQuoted([120] + Hex(data));
    assert ([BACKSLASH, BACKSLASH, 120] + Hex(data))[2..] == [120] + Hex(data);
  }

  lemma TextFieldQuoted(bs: bytes)
    ensures Quoted(Escape(bs)) && Escape(bs) != [BACKSLASH, 78]
  {
    EscapeQuoted(bs);
    if bs != [] {
      assert Escape(bs) == EscapeByte(bs[0]) + Escape(bs[1..]);
    }
    hide Quoted;
  }

  lemma PlainIsNotNull(raw: bytes)
    requires Plain(raw)
    ensures raw != [BACKSLASH, 78]
  {
    assert raw != [] ==> raw[0] != BACKSLASH;
  }

  /** A non-NULL field never looks like the NULL marker, and its raw form is well quoted. */
  lemma FieldQuoted(v: Value)
    ensures Quoted(EncodeField(v))
    ensures EncodeField(v) == [BACKSLASH, 78] <==> v == Null
  {
    assert Quoted([BACKSLASH, 78]) by { assert [BACKSLASH, 78][2..] == []; }
    hide Quoted, Plain, Hex, Escape, Utf8All, Sanitize, FormatInt, Ascii;
    match v {
      case Null =>
      case Bytea(data) => HexFieldQuoted(data);
      case Text(text) => TextFieldQuoted(Utf8All(Sanitize(text)));
      case Int(n) =>
        IntPlain(n);
        PlainQuoted(EncodeField(v));
        PlainIsNotNull(EncodeField(v));
      case Bool(b) =>
        BoolPlain(b);
        PlainQuoted(EncodeField(v));
        PlainIsNotNull(EncodeField(v));
    }
  }

  lemma BoolPlain(b: bool)
    ensures Plain(if b then [116] else [102])
  {
  }

  lemma UnescapeDoubled(raw: bytes)
    ensures Unescape([BACKSLASH, BACKSLASH] + raw) == [BACKSLASH] + Unescape(raw)
  {
    assert ([BACKSLASH, BACKSLASH] + raw)[2..] == raw;
  }

  lemma PlainHex(data: bytes)
    requires Plain(Hex(data))
    ensures Plain([120] + Hex(data))
  {
    hide Hex;
  }

  lemma FieldRoundTrip(v: Value)
    ensures DecodeField(EncodeField(v)) == Wire(v)
  {
    FieldQuoted(v);
    hide Quoted, Plain, Escape, Unescape, Hex, Sanitize, Utf8All, FormatInt, Ascii;
    match v {
      case Null =>
      case Bytea(data) =>
        HexPlain(data);
        PlainHex(data);
        PlainQuoted([120] + Hex(data));
        UnescapeDoubled([120] + Hex(data));
        assert EncodeField(v) == [BACKSLASH, BACKSLASH] + ([120] + Hex(data));
        assert [BACKSLASH] + ([120] + Hex(data)) == [BACKSLASH, 120] + Hex(data);
      case Text(text) =>
        UnescapeEscape(Utf8All(Sanitize(text)));
      case Int(n) =>
        IntPlain(n);
        PlainQuoted(EncodeField(v));
      case Bool(b) =>
        PlainQuoted(EncodeField(v));
    }
  }

  // ----- Lines -----

  lemma {:induction false} QuotedHasNoNewline(raw: bytes)
    requires Quoted(raw)
    ensures NL !in raw && TAB !in raw && CR !in raw
    decreases |raw|
  {
    if raw != [] {
      if raw[0] == BACKSLASH {
        QuotedHasNoNewline(raw[2..]);
        assert raw == [raw[0], raw[1]] + raw[2..];
      } else {
        QuotedHasNoNewline(raw[1..]);
        assert raw == [raw[0]] + raw[1..];
      }
    }
  }

  /** Fields and the tabs between them, with every backslash followed by a byte that is not a newline. */
  predicate LineBody(line: bytes) {
    if line == [] then true
    else if line[0] == BACKSLASH then |line| >= 2 && line[1] !in {NL, CR, DOT} && LineBody(line[2..])
    else line[0] !in {NL, CR} && LineBody(line[1..])
  }

  lemma {:induction false} LineBodyAppend(field: bytes, rest: bytes)
    requires Quoted(field) && LineBody(rest)
    ensures LineBody(field + rest)
    decreases |field|
  {
    if field == [] {
      assert field + rest == rest;
    } else if field[0] == BACKSLASH {
      assert (field + rest)[2..] == field[2..] + rest;
      LineBodyAppend(field[2..], rest);
    } else {
      assert (field + rest)[1..] == field[1..] + rest;
      LineBodyAppend(field[1..], rest);
    }
  }

  lemma {:induction false} JoinLineBody(fs: seq<bytes>)
    requires forall f <- fs :: Quoted(f)
    ensures LineBody(JoinFields(fs))
  {
    if fs == [] {
    } else if |fs| == 1 {
      assert fs[0] in fs;
      LineBodyAppend(fs[0], []);
      assert fs[0] + [] == fs[0];
    } else {
      assert fs[0] in fs;
      JoinLineBody(fs[1..]);
      var tail := [TAB] + JoinFields(fs[1..]);
      assert tail[1..] == JoinFields(fs[1..]);
      LineBodyAppend(fs[0], tail);
      assert JoinFields(fs) == fs[0] + tail;
    }
  }

  lemma {:induction false} ReadLineOfBody(line: bytes, rest: bytes)
    requires LineBody(line)
    ensures ReadLine(line + [NL] + rest) == (line, rest)
    decreases |line|
  {
    var d := line + [NL] + rest;
    if line == [] {
      assert d[1..] == rest;
    } else if line[0] == BACKSLASH {
      assert d[2..] == line[2..] + [NL] + rest;
      ReadLineOfBody(line[2..], rest);
      assert line == [line[0], line[1]] + line[2..];
    } else {
      assert d[1..] == line[1..] + [NL] + rest;
      ReadLineOfBody(line[1..], rest);
      assert line == [line[0]] + line[1..];
    }
  }

  lemma {:induction false} SplitOneField(field: bytes)
    requires Quoted(field)
    ensures SplitFields(field) == [field]
    decreases |field|
  {
    if field == [] {
    } else if field[0] == BACKSLASH {
      SplitOneField(field[2..]);
      assert field == [field[0], field[1]] + field[2..];
    } else {
      SplitOneField(field[1..]);
      assert field == [field[0]] + field[1..];
    }
  }

  lemma {:induction false} SplitFirstField(field: bytes, rest: bytes)
    requires Quoted(field)
    ensures SplitFields(field + [TAB] + rest) == [field] + SplitFields(rest)
    decreases |field|
  {
    var line := field + [TAB] + rest;
    if field == [] {
      assert line[1..] == rest;
    } else if field[0] == BACKSLASH {
      assert line[2..] == field[2..] + [TAB] + rest;
      SplitFirstField(field[2..], rest);
      assert field == [field[0], field[1]] + field[2..];
    } else {
      assert line[1..] == field[1..] + [TAB] + rest;
      SplitFirstField(field[1..], rest);
      assert field == [field[0]] + field[1..];
    }
  }

  lemma {:induction false} SplitJoined(fs: seq<bytes>)
    requires fs != []
    requires forall f <- fs :: Quoted(f)
    ensures SplitFields(JoinFields(fs)) == fs
  {
    assert fs[0] in fs;
    if |fs| == 1 {
      SplitOneField(fs[0]);
    } else {
      SplitFirstField(fs[0], JoinFields(fs[1..]));
      SplitJoined(fs[1..]);
    }
  }

  lemma EncodedFieldsQuoted(row: Row)
    ensures forall f <- EncodeFields(row) :: Quoted(f)
  {
    forall f | f in EncodeFields(row)
      ensures Quoted(f)
    {
      var i :| 0 <= i < |row| && EncodeFields(row)[i] == f;
      FieldQuoted(row[i]);
    }
  }

  /**
   A row is one line: its only newline is the last byte, it holds no carriage return, and it is not
   the end-of-data marker.
   */
  lemma RowIsOneLine(row: Row)
    ensures var line := JoinFields(EncodeFields(row));
            EncodeRow(row) == line + [NL] && NL !in line && CR !in line && line != [BACKSLASH, DOT]
    ensures LineBody(JoinFields(EncodeFields(row)))
  {
    EncodedFieldsQuoted(row);
    JoinLineBody(EncodeFields(row));
    LineBodyHasNoNewline(JoinFields(EncodeFields(row)));
  }

  lemma {:induction false} LineBodyHasNoNewline(line: bytes)
    requires LineBody(line)
    ensures NL !in line && CR !in line && line != [BACKSLASH, DOT]
    decreases |line|
  {
    if line != [] {
      if line[0] == BACKSLASH {
        LineBodyHasNoNewline(line[2..]);
        assert line == [line[0], line[1]] + line[2..];
      } else {
        LineBodyHasNoNewline(line[1..]);
        assert line == [line[0]] + line[1..];
      }
    }
  }

  /** Raw tabs stand only between fields: a row of n > 0 fields has exactly n - 1 of them. */
  lemma {:induction false} TabsSeparateFields(fs: seq<bytes>)
    requires fs != []
    requires forall f <- fs :: Quoted(f)
    ensures multiset(JoinFields(fs))[TAB] == |fs| - 1
  {
    assert fs[0] in fs;
    QuotedHasNoNewline(fs[0]);
    if |fs| > 1 {
      TabsSeparateFields(fs[1..]);
      assert JoinFields(fs) == fs[0] + [TAB] + JoinFields(fs[1..]);
    }
  }

  // ----- The round trip -----

  /** The one row of width zero comes back as one empty field. */
  lemma DecodeRowLine(row: Row)
    ensures DecodeLine(JoinFields(EncodeFields(row))) == if row == [] then [Some([])] else WireRow(row)
  {
    var fs := EncodeFields(row);
    EncodedFieldsQuoted(row);
    if row == [] {
      assert JoinFields(fs) == [];
    } else {
      SplitJoined(fs);
      forall i | 0 <= i < |row|
        ensures DecodeField(fs[i]) == Wire(row[i])
      {
        FieldRoundTrip(row[i]);
      }
    }
  }

  /** Reading the concatenated rows takes off one row at a time. */
  lemma DecodeOneRow(row: Row, rest: bytes)
    ensures Decode(EncodeRow(row) + rest)
         == [if row == [] then [Some([])] else WireRow(row)] + Decode(rest)
  {
    var line := JoinFields(EncodeFields(row));
    RowIsOneLine(row);
    assert EncodeRow(row) + rest == line + [NL] + rest;
    ReadLineOfBody(line, rest);
    DecodeRowLine(row);
  }

  lemma {:induction false} DecodeLength(rows: seq<Row>)
    ensures |Decode(Concat(EncodeRows(rows)))| == |rows|
    ensures forall i | 0 <= i < |rows| ::
              Decode(Concat(EncodeRows(rows)))[i] == if rows[i] == [] then [Some([])] else WireRow(rows[i])
  {
    if rows == [] {
    } else {
      assert EncodeRows(rows)[1..] == EncodeRows(rows[1..]);
      DecodeOneRow(rows[0], Concat(EncodeRows(rows[1..])));
      DecodeLength(rows[1..]);
    }
  }

  /**
   PostgreSQL reads back exactly the rows that were encoded, if and only if none of them has width
   zero.
   */
  lemma CopyRoundTrip(rows: seq<Row>)
    ensures Decode(Concat(EncodeRows(rows))) == WireRows(rows) <==> forall row <- rows :: row != []
  {
    DecodeLength(rows);
    var d := Decode(Concat(EncodeRows(rows)));
    if forall row <- rows :: row != [] {
      forall i | 0 <= i < |rows|
        ensures d[i] == WireRow(rows[i])
      {
        assert rows[i] in rows;
      }
    } else {
      var row :| row in rows && row == [];
      var i :| 0 <= i < |rows| && rows[i] == row;
      assert |d[i]| == 1 && |WireRows(rows)[i]| == 0;
    }
  }

  lemma {:induction false} HexDigitsRoundTrip(data: bytes)
    ensures ParseHexDigits(Hex(data)) == Some(data)
  {
    if data != [] {
      HexDigitsRoundTrip(data[1..]);
      assert Hex(data)[2..] == Hex(data[1..]);
      assert data == [data[0]] + data[1..];
    }
  }

  /** What the column's input function makes of the decoded text is the value that was encoded. */
  lemma ValuesReturn(v: Value)
    ensures v.Bytea? ==> DecodeField(EncodeField(v)).Some?
    ensures v.Bytea? ==> ParseByteaHex(DecodeField(EncodeField(v)).value) == Some(v.data)
    ensures v.Int? ==> DecodeField(EncodeField(v)) == Some(Ascii(FormatInt(v.n)))
    ensures v.Int? ==> ParseInt(FormatInt(v.n)) == Some(v.n)
  {
    FieldRoundTrip(v);
    match v {
      case Bytea(data) =>
        HexDigitsRoundTrip(data);
        assert ([BACKSLASH, 120] + Hex(data))[2..] == Hex(data);
      case Int(n) =>
        FormatIntRoundTrip(n);
      case _ =>
    }
  }

  /** Integers and truth values are written in ASCII. */
  lemma AsciiFields(n: int, b: bool)
    ensures |EncodeField(Int(n))| == |FormatInt(n)|
    ensures forall i | 0 <= i < |FormatInt(n)| :: EncodeField(Int(n))[i] == FormatInt(n)[i] as int
    ensures EncodeField(Bool(b)) == [if b then 't' as int else 'f' as int]
  {
    FormatIntChars(n);
    var s := FormatInt(n);
    forall i | 0 <= i < |s|
      ensures s[i] as int < 256
    {
      assert s[i] in s;
    }
    hide FormatInt;
  }

  /** The bytes of a Go string as they are. */
  function RawBytes(s: GoString): bytes {
    if s == [] then []
    else (match s[0] case Valid(r) => Utf8(r) case Stray(b) => [b]) + RawBytes(s[1..])
  }

  lemma SameFront(front: bytes, a: bytes, b: bytes)
    ensures front + a == front + b <==> a == b
  {
    assert (front + a)[|front|..] == a && (front + b)[|front|..] == b;
  }

  lemma {:induction false} SanitizeKeepsIff(s: GoString)
    ensures Utf8All(Sanitize(s)) == RawBytes(s) <==> forall i | 0 <= i < |s| :: s[i].Valid?
  {
    if s != [] {
      SanitizeKeepsIff(s[1..]);
      assert s == [s[0]] + s[1..];
      if s[0].Valid? {
        assert Sanitize(s)[1..] == Sanitize(s[1..]);
        SameFront(Utf8(s[0].r), Utf8All(Sanitize(s[1..])), RawBytes(s[1..]));
      } else {
        assert Utf8All(Sanitize(s))[0] == 63 && RawBytes(s)[0] == s[0].b;
      }
    }
  }

  /** A text comes back as its own bytes exactly when all of it is UTF-8. */
  lemma TextReturnsIff(s: GoString)
    ensures DecodeField(EncodeField(Text(s))) == Some(RawBytes(s)) <==> forall i | 0 <= i < |s| :: s[i].Valid?
  {
    FieldRoundTrip(Text(s));
    SanitizeKeepsIff(s);
  }

  // ----- A reader of UTF-8 -----

  /** The number of bytes of a character, by its first one (RFC 3629, section 3); 0 if it starts none. */
  function CharLength(lead: byte): (n: nat)
    ensures n <= 4
  {
    if lead < 0x80 then 1
    else if 0xC0 <= lead < 0xE0 then 2
    else if 0xE0 <= lead < 0xF0 then 3
    else if 0xF0 <= lead < 0xF8 then 4
    else 0
  }

  /** The bits of the first byte that belong to the character. */
  function LeadBits(lead: byte): int {
    if lead < 0x80 then lead else if lead < 0xE0 then lead - 0xC0 else if lead < 0xF0 then lead - 0xE0 else lead - 0xF0
  }

  /** Continuation bytes carry six bits each, the highest first. */
  function Continued(bits: int, bs: bytes): Option<int>
    decreases |bs|
  {
    if bs == [] then Some(bits)
    else if 0x80 <= bs[0] < 0xC0 then Continued(bits * 64 + (bs[0] - 0x80), bs[1..])
    else None
  }

  /** Only the shortest form of a character that is no surrogate is UTF-8. */
  predicate Shortest(c: int, n: nat) {
    match n
    case 1 => 0 <= c < 0x80
    case 2 => 0x80 <= c < 0x800
    case 3 => 0x800 <= c < 0xD800 || 0xE000 <= c < 0x1_0000
    case _ => 0x1_0000 <= c < 0x11_0000
  }

  function ReadUtf8(bs: bytes): Option<seq<int>> {
    if bs == [] then Some([])
    else
      var n := CharLength(bs[0]);
      if n == 0 || n > |bs| then None
      else
        var c := Continued(LeadBits(bs[0]), bs[1..n]);
        if c.None? || !Shortest(c.value, n) then None
        else
          var rest := ReadUtf8(bs[n..]);
          if rest.None? then None else Some([c.value] + rest.value)
  }

  lemma Utf8Length(r: Rune)
    ensures var n := |Utf8(r)|; n > 0 && CharLength(Utf8(r)[0]) == n && Shortest(r, n)
  {
  }

  lemma ContinuedBy(bits: int, six: int, rest: bytes)
    requires 0 <= six < 64
    ensures Continued(bits, [0x80 + six] + rest) == Continued(bits * 64 + six, rest)
  {
    assert ([0x80 + six] + rest)[1..] == rest;
  }

  lemma Utf8Bits(r: Rune)
    ensures Utf8(r) != [] && Continued(LeadBits(Utf8(r)[0]), Utf8(r)[1..]) == Some(r)
  {
    var last := [0x80 + r % 64];
    if 0x80 <= r < 0x800 {
      assert Utf8(r)[1..] == last;
    } else if 0x800 <= r < 0x1_0000 {
      assert Utf8(r)[1..] == [0x80 + r / 64 % 64] + last;
      ContinuedBy(r / 4096, r / 64 % 64, last);
      assert r / 4096 == r / 64 / 64;
    } else if r >= 0x1_0000 {
      assert Utf8(r)[1..] == [0x80 + r / 4096 % 64] + ([0x80 + r / 64 % 64] + last);
      ContinuedBy(r / 262144, r / 4096 % 64, [0x80 + r / 64 % 64] + last);
      ContinuedBy(r / 4096, r / 64 % 64, last);
      assert r / 262144 == r / 64 / 64 / 64 && r / 4096 == r / 64 / 64;
    }
    ContinuedBy(r / 64, r % 64, []);
  }

  /** The bytes of runes are their UTF-8: a reader that knows nothing of the encoder finds the runes again. */
  lemma {:induction false} Utf8RoundTrip(rs: seq<Rune>)
    ensures ReadUtf8(Utf8All(rs)) == Some(rs)
  {
    if rs != [] {
      var bs, rest := Utf8(rs[0]), Utf8All(rs[1..]);
      Utf8Length(rs[0]);
      Utf8Bits(rs[0]);
      Utf8RoundTrip(rs[1..]);
      assert (bs + rest)[1..|bs|] == bs[1..] && (bs + rest)[|bs|..] == rest;
      assert rs == [rs[0]] + rs[1..];
      hide Utf8, CharLength, LeadBits, Continued, Shortest;
    }
  }

  /** The text with a question mark for each stray byte that does not follow another one. */
  function Replaced(s: GoString): seq<int> {
    if s == [] then []
    else
      var n := |s| - 1;
      Replaced(s[..n])
      + match s[n]
        case Valid(r) => [r]
        case Stray(_) => if n > 0 && s[n - 1].Stray? then [] else [63]
  }

  lemma {:induction false} SanitizeSnoc(s: GoString, c: Chunk, inRun: bool)
    ensures Sanitize(s + [c], inRun)
         == Sanitize(s, inRun)
            + (if c.Valid? then [c.r]
               else if (if s == [] then inRun else s[|s| - 1].Stray?) then []
               else [63])
  {
    if s == [] {
      assert s + [c] == [c] && [c][1..] == [];
    } else {
      var rest := s[1..] + [c];
      assert (s + [c])[0] == s[0] && (s + [c])[1..] == rest;
      SanitizeSnoc(s[1..], c, s[0].Stray?);
      var front := if s[0].Valid? then [s[0].r] else if inRun then [] else [QUESTION];
      assert Sanitize(s + [c], inRun) == front + Sanitize(rest, s[0].Stray?);
      assert Sanitize(s, inRun) == front + Sanitize(s[1..], s[0].Stray?);
      hide Sanitize;
    }
  }

  lemma {:induction false} SanitizeReplaces(s: GoString)
    ensures Sanitize(s) == Replaced(s)
  {
    if s != [] {
      var n := |s| - 1;
      assert s == s[..n] + [s[n]];
      SanitizeReplaces(s[..n]);
      SanitizeSnoc(s[..n], s[n], false);
    }
  }

  /** A text field, read by PostgreSQL as UTF-8, is the text with one question mark for each run of stray bytes. */
  lemma TextReads(s: GoString)
    ensures var field := DecodeField(EncodeField(Text(s)));
            field.Some? && ReadUtf8(field.value) == Some(Replaced(s))
  {
    FieldRoundTrip(Text(s));
    SanitizeReplaces(s);
    Utf8RoundTrip(Sanitize(s));
  }
}
