/**
 Chip ids in their several spellings (nns/reconcile_nodesev.go:18-37): hex as AMD writes them, base64
 as the registry explorer serves them. Sections 4 and 8 of RFC 4648 define the two encodings.
 */
module ChipId {
  import Registry
  import opened Wrappers

  type Byte = Registry.Byte

  const CHIP_ID_BYTES := 64

  // White space, as unicode.IsSpace has it.

  predicate IsSpace(c: char) {
    var u := c as int;
    || 9 <= u <= 13 || u == 32 || u == 0x85 || u == 0xA0 || u == 0x1680 || 0x2000 <= u <= 0x200a
    || u == 0x2028 || u == 0x2029 || u == 0x202f || u == 0x205f || u == 0x3000
  }

  lemma SpacesAre(c: char)
    ensures IsSpace(c) <==>
      || c in {'\t', '\n', '\U{b}', '\U{c}', '\r', ' ', '\U{85}', '\U{a0}', '\U{1680}'}
      || '\U{2000}' <= c <= '\U{200a}'
      || c in {'\U{2028}', '\U{2029}', '\U{202f}', '\U{205f}', '\U{3000}'}
  {
  }

  function TrimLeft(s: string): string {
    if s != "" && IsSpace(s[0]) then TrimLeft(s[1..]) else s
  }

  function TrimRight(s: string): string {
    if s != "" && IsSpace(s[|s| - 1]) then TrimRight(s[..|s| - 1]) else s
  }

  function TrimSpace(s: string): string {
    TrimRight(TrimLeft(s))
  }

  ghost predicate Spaces(s: string) {
    forall c :: c in s ==> IsSpace(c)
  }

  ghost predicate NoSpaces(s: string) {
    forall c :: c in s ==> !IsSpace(c)
  }

  /** What is trimmed is white space, and what is left neither starts nor ends with any. */
  lemma TrimMeans(s: string) returns (before: string, after: string)
    ensures Spaces(before) && Spaces(after) && s == before + TrimSpace(s) + after
    ensures TrimSpace(s) != "" ==> !IsSpace(TrimSpace(s)[0]) && !IsSpace(TrimSpace(s)[|TrimSpace(s)| - 1])
  {
    before := TrimLeftMeans(s);
    after := TrimRightMeans(TrimLeft(s));
    assert s == before + (TrimSpace(s) + after);
  }

  lemma {:induction false} TrimLeftMeans(s: string) returns (before: string)
    ensures Spaces(before) && s == before + TrimLeft(s)
    ensures TrimLeft(s) != "" ==> !IsSpace(TrimLeft(s)[0])
  {
    before := "";
    if s != "" && IsSpace(s[0]) {
      var rest := TrimLeftMeans(s[1..]);
      before := [s[0]] + rest;
      assert s == [s[0]] + s[1..];
    }
  }

  lemma {:induction false} TrimRightMeans(s: string) returns (after: string)
    ensures Spaces(after) && s == TrimRight(s) + after
    ensures TrimRight(s) != "" ==> TrimRight(s)[0] == s[0] && !IsSpace(TrimRight(s)[|TrimRight(s)| - 1])
  {
    after := "";
    if s != "" && IsSpace(s[|s| - 1]) {
      var rest := TrimRightMeans(s[..|s| - 1]);
      after := rest + [s[|s| - 1]];
      assert s == s[..|s| - 1] + [s[|s| - 1]];
    }
  }

  /** Surrounding white space goes, and nothing else. */
  lemma {:induction false} TrimPadded(before: string, s: string, after: string)
    requires Spaces(before) && Spaces(after) && NoSpaces(s)
    ensures TrimSpace(before + s + after) == s
  {
    TrimLeftPadded(before, s + after);
    if s == "" {
      TrimLeftAll(after);
      assert s + after == after;
    } else {
      assert TrimLeft(s + after) == s + after;
      TrimRightPadded(s, after);
    }
    assert before + s + after == before + (s + after);
  }

  lemma {:induction false} TrimLeftPadded(before: string, s: string)
    requires Spaces(before)
    ensures TrimLeft(before + s) == TrimLeft(s)
  {
    if before == "" {
      assert before + s == s;
    } else {
      assert (before + s)[1..] == before[1..] + s;
      TrimLeftPadded(before[1..], s);
    }
  }

  lemma {:induction false} TrimLeftAll(s: string)
    requires Spaces(s)
    ensures TrimLeft(s) == ""
  {
    if s != "" {
      TrimLeftAll(s[1..]);
    }
  }

  lemma {:induction false} TrimRightPadded(s: string, after: string)
    requires Spaces(after) && NoSpaces(s)
    ensures TrimRight(s + after) == s
  {
    if after == "" {
      assert s + after == s;
    } else {
      assert (s + after)[..|s + after| - 1] == s + after[..|after| - 1];
      TrimRightPadded(s, after[..|after| - 1]);
    }
  }

  // Hex.

  function HexDigit(c: char): Option<int> {
    if '0' <= c <= '9' then Some(c as int - '0' as int)
    else if 'a' <= c <= 'f' then Some(c as int - 'a' as int + 10)
    else if 'A' <= c <= 'F' then Some(c as int - 'A' as int + 10)
    else None
  }

  function HexChar(v: int, upper: bool): char
    requires 0 <= v < 16
  {
    if v < 10 then (v + '0' as int) as char
    else (v - 10 + (if upper then 'A' else 'a') as int) as char
  }

  function EncodeHex(b: seq<Byte>, upper: bool): string {
    if b == [] then ""
    else [HexChar(b[0] / 16, upper), HexChar(b[0] % 16, upper)] + EncodeHex(b[1..], upper)
  }

  function DecodeHex(s: string): Option<seq<Byte>> {
    if s == "" then Some([])
    else if |s| == 1 then None
    else
      match (HexDigit(s[0]), HexDigit(s[1]), DecodeHex(s[2..]))
      case (Some(hi), Some(lo), Some(rest)) => Some([hi * 16 + lo] + rest)
      case _ => None
  }

  lemma HexDigitRange(c: char)
    ensures HexDigit(c).Some? ==> 0 <= HexDigit(c).value < 16 && !IsSpace(c) && c != '='
  {
  }

  lemma HexCharDigit(v: int, upper: bool)
    requires 0 <= v < 16
    ensures HexDigit(HexChar(v, upper)) == Some(v)
  {
  }

  lemma {:induction false} HexRoundTrip(b: seq<Byte>, upper: bool)
    ensures DecodeHex(EncodeHex(b, upper)) == Some(b)
  {
    hide HexDigit, HexChar;
    if b != [] {
      var s := EncodeHex(b, upper);
      HexRoundTrip(b[1..], upper);
      HexCharDigit(b[0] / 16, upper);
      HexCharDigit(b[0] % 16, upper);
      assert s[2..] == EncodeHex(b[1..], upper);
      assert b == [b[0]] + b[1..];
    }
  }

  lemma HexCharIs(v: int, upper: bool)
    requires 0 <= v < 16
    ensures HexChar(v, upper) == (if upper then "0123456789ABCDEF" else "0123456789abcdef")[v]
  {
  }

  /** Two digits a byte, high half first, from the sixteen of the case asked for. */
  lemma {:induction false} HexText(b: seq<Byte>, upper: bool, i: nat)
    requires i < |b|
    ensures |EncodeHex(b, upper)| == 2 * |b|
    ensures var digits := if upper then "0123456789ABCDEF" else "0123456789abcdef";
      EncodeHex(b, upper)[2 * i] == digits[b[i] / 16] && EncodeHex(b, upper)[2 * i + 1] == digits[b[i] % 16]
  {
    hide HexChar;
    HexLength(b, upper);
    if i > 0 {
      HexText(b[1..], upper, i - 1);
      HexLength(b[1..], upper);
      assert EncodeHex(b, upper)[2..] == EncodeHex(b[1..], upper);
    } else {
      HexCharIs(b[0] / 16, upper);
      HexCharIs(b[0] % 16, upper);
    }
  }

  lemma {:induction false} HexLength(b: seq<Byte>, upper: bool)
    ensures |EncodeHex(b, upper)| == 2 * |b|
  {
    if b != [] {
      HexLength(b[1..], upper);
    }
  }

  /** A hex digit of the case asked for. */
  predicate IsHex(c: char, upper: bool) {
    '0' <= c <= '9' || (if upper then 'A' <= c <= 'F' else 'a' <= c <= 'f')
  }

  lemma HexCase(b: seq<Byte>, upper: bool)
    ensures forall c :: c in EncodeHex(b, upper) ==> IsHex(c, upper)
  {
    hide EncodeHex;
    HexLength(b, upper);
    var s := EncodeHex(b, upper);
    forall k | 0 <= k < |s| ensures IsHex(s[k], upper) {
      HexText(b, upper, k / 2);
      assert k == 2 * (k / 2) || k == 2 * (k / 2) + 1;
    }
  }

  /** Hex text has no white space and no padding sign. */
  lemma {:induction false} HexIsPlain(s: string)
    requires DecodeHex(s).Some?
    ensures NoSpaces(s) && '=' !in s
  {
    hide HexDigit, IsSpace;
    if s != "" {
      HexIsPlain(s[2..]);
      HexDigitRange(s[0]);
      HexDigitRange(s[1]);
      assert s == [s[0], s[1]] + s[2..];
    }
  }

  // Base64, with padding. Line breaks are skipped, and the unused bits of the last digit ignored.

  function Digit64(c: char): Option<int> {
    if 'A' <= c <= 'Z' then Some(c as int - 'A' as int)
    else if 'a' <= c <= 'z' then Some(c as int - 'a' as int + 26)
    else if '0' <= c <= '9' then Some(c as int - '0' as int + 52)
    else if c == '+' then Some(62)
    else if c == '/' then Some(63)
    else None
  }

  function Char64(v: int): char
    requires 0 <= v < 64
  {
    if v < 26 then (v + 'A' as int) as char
    else if v < 52 then (v - 26 + 'a' as int) as char
    else if v < 62 then (v - 52 + '0' as int) as char
    else if v == 62 then '+'
    else '/'
  }

  predicate IsBreak(c: char) {
    c == '\r' || c == '\n'
  }

  function Unbroken(s: string): string {
    if s == "" then "" else (if IsBreak(s[0]) then "" else [s[0]]) + Unbroken(s[1..])
  }

  lemma Digit64Range(c: char)
    ensures Digit64(c).Some? ==> 0 <= Digit64(c).value < 64 && !IsSpace(c) && c != '='
  {
  }

  lemma Char64Digit(v: int)
    requires 0 <= v < 64
    ensures Digit64(Char64(v)) == Some(v)
  {
  }

  function Byte0(a: int, b: int): Byte
    requires 0 <= a < 64 && 0 <= b < 64
  {
    a * 4 + b / 16
  }

  function Byte1(b: int, c: int): Byte
    requires 0 <= b < 64 && 0 <= c < 64
  {
    b % 16 * 16 + c / 4
  }

  function Byte2(c: int, d: int): Byte
    requires 0 <= c < 64 && 0 <= d < 64
  {
    c % 4 * 64 + d
  }

  /** The last quantum when it is padded: one byte and "==", or two and "=". */
  function DecodePadded(s: string): Option<seq<Byte>>
    requires |s| == 4
  {
    Digit64Range(s[0]); Digit64Range(s[1]); Digit64Range(s[2]);
    match (Digit64(s[0]), Digit64(s[1]))
    case (Some(a), Some(b)) =>
      if s[3] != '=' then None
      else if s[2] == '=' then Some([Byte0(a, b)])
      else
        (match Digit64(s[2])
         case Some(c) => Some([Byte0(a, b), Byte1(b, c)])
         case None => None)
    case _ => None
  }

  function DecodeQuanta(s: string): Option<seq<Byte>> {
    if s == "" then Some([])
    else if |s| < 4 then None
    else
      Digit64Range(s[0]); Digit64Range(s[1]); Digit64Range(s[2]); Digit64Range(s[3]);
      match (Digit64(s[0]), Digit64(s[1]), Digit64(s[2]), Digit64(s[3]))
      case (Some(a), Some(b), Some(c), Some(d)) =>
        (match DecodeQuanta(s[4..])
         case Some(rest) => Some([Byte0(a, b), Byte1(b, c), Byte2(c, d)] + rest)
         case None => None)
      case _ => if |s| == 4 then DecodePadded(s) else None
  }

  function Decode64(s: string): Option<seq<Byte>> {
    DecodeQuanta(Unbroken(s))
  }

  // The digits of a group of bytes, and back.

  type Sextet = v: int | 0 <= v < 64

  function Sextet0(x: Byte): Sextet {
    x / 4
  }

  function Sextet1(x: Byte, y: Byte): Sextet {
    x % 4 * 16 + y / 16
  }

  function Sextet2(y: Byte, z: Byte): Sextet {
    y % 16 * 4 + z / 64
  }

  function Sextet3(z: Byte): Sextet {
    z % 64
  }

  lemma GroupRoundTrip(x: Byte, y: Byte, z: Byte)
    ensures Byte0(Sextet0(x), Sextet1(x, y)) == x
    ensures Byte1(Sextet1(x, y), Sextet2(y, z)) == y
    ensures Byte2(Sextet2(y, z), Sextet3(z)) == z
  {
  }

  function Encode64(b: seq<Byte>): string {
    if b == [] then ""
    else if |b| == 1 then [Char64(Sextet0(b[0])), Char64(Sextet1(b[0], 0)), '=', '=']
    else if |b| == 2 then [Char64(Sextet0(b[0])), Char64(Sextet1(b[0], b[1])), Char64(Sextet2(b[1], 0)), '=']
    else
      [Char64(Sextet0(b[0])), Char64(Sextet1(b[0], b[1])), Char64(Sextet2(b[1], b[2])), Char64(Sextet3(b[2]))]
      + Encode64(b[3..])
  }

  /** Table 1 of RFC 4648: the ends of its runs, between which the characters follow one another. */
  lemma Alphabet(v: int)
    requires 0 <= v < 63 && v != 25 && v != 51 && v != 61 && v != 62
    ensures Encode64([0x01, 0x96, 0xb3]) == "AZaz" && Encode64([0xd3, 0xdf, 0xbf]) == "09+/"
    ensures Char64(v + 1) as int == Char64(v) as int + 1
  {
    assert [0x01, 0x96, 0xb3][3..] == [] && [0xd3, 0xdf, 0xbf][3..] == [];
  }

  /** Three bytes and their four digits are one 24-bit number. */
  lemma GroupValue(x: Byte, y: Byte, z: Byte)
    ensures 0x1_0000 * x + 0x100 * y + z ==
            0x4_0000 * Sextet0(x) + 0x1000 * Sextet1(x, y) + 0x40 * Sextet2(y, z) + Sextet3(z)
  {
  }

  /** The vectors of section 10 of RFC 4648. */
  lemma Vectors()
    ensures var f, o, b, a, r := 'f' as int, 'o' as int, 'b' as int, 'a' as int, 'r' as int;
      && Encode64([f]) == "Zg==" && Encode64([f, o]) == "Zm8=" && Encode64([f, o, o]) == "Zm9v"
      && Encode64([f, o, o, b]) == "Zm9vYg==" && Encode64([f, o, o, b, a]) == "Zm9vYmE="
      && Encode64([f, o, o, b, a, r]) == "Zm9vYmFy"
  {
    var f, o, b, a, r := 'f' as int, 'o' as int, 'b' as int, 'a' as int, 'r' as int;
    assert Encode64([]) == "" && Encode64([f]) == "Zg==" && Encode64([f, o]) == "Zm8=";
    assert [f, o, o][3..] == [] && Encode64([f, o, o]) == "Zm9v";
    assert Encode64([b]) == "Yg==" && [f, o, o, b][3..] == [b] && Encode64([f, o, o, b]) == "Zm9vYg==";
    assert Encode64([b, a]) == "YmE=" && [f, o, o, b, a][3..] == [b, a] && Encode64([f, o, o, b, a]) == "Zm9vYmE=";
    assert [b, a, r][3..] == [] && Encode64([b, a, r]) == "YmFy";
    assert [f, o, o, b, a, r][3..] == [b, a, r] && Encode64([f, o, o, b, a, r]) == "Zm9vYmFy";
  }

  lemma PaddedRoundTrip(b: seq<Byte>)
    requires 1 <= |b| <= 2
    ensures DecodeQuanta(Encode64(b)) == Some(b)
  {
    hide Digit64, Char64, Byte0, Byte1, Byte2, Sextet0, Sextet1, Sextet2, Sextet3;
    Digit64Range('=');
    Char64Digit(Sextet0(b[0]));
    if |b| == 1 {
      GroupRoundTrip(b[0], 0, 0);
      Char64Digit(Sextet1(b[0], 0));
      assert b == [b[0]];
    } else {
      GroupRoundTrip(b[0], b[1], 0);
      Char64Digit(Sextet1(b[0], b[1]));
      Char64Digit(Sextet2(b[1], 0));
      assert b == [b[0], b[1]];
    }
    assert DecodePadded(Encode64(b)) == Some(b);
  }

  lemma {:induction false} QuantaRoundTrip(b: seq<Byte>)
    ensures DecodeQuanta(Encode64(b)) == Some(b)
    decreases |b|
  {
    hide Digit64, Char64, DecodePadded, Byte0, Byte1, Byte2, Sextet0, Sextet1, Sextet2, Sextet3;
    if 1 <= |b| <= 2 {
      PaddedRoundTrip(b);
    } else if b != [] {
      GroupRoundTrip(b[0], b[1], b[2]);
      Char64Digit(Sextet0(b[0]));
      Char64Digit(Sextet1(b[0], b[1]));
      Char64Digit(Sextet2(b[1], b[2]));
      Char64Digit(Sextet3(b[2]));
      QuantaRoundTrip(b[3..]);
      assert Encode64(b)[4..] == Encode64(b[3..]);
      assert b == [b[0], b[1], b[2]] + b[3..];
    }
  }

  /** Only padding makes a length that is not a multiple of three. */
  lemma {:induction false} OddLengthIsPadded(s: string)
    requires DecodeQuanta(s).Some? && |DecodeQuanta(s).value| % 3 != 0
    ensures '=' in s
    decreases |s|
  {
    hide Digit64, Byte0, Byte1, Byte2;
    if |s| >= 4 && Digit64(s[0]).Some? && Digit64(s[1]).Some? && Digit64(s[2]).Some? && Digit64(s[3]).Some? {
      OddLengthIsPadded(s[4..]);
    }
  }

  /** Every character base64 text is written with. */
  predicate IsBase64(c: char) {
    Digit64(c).Some? || c == '='
  }

  lemma {:induction false} EncodedAlphabet(b: seq<Byte>)
    ensures forall c :: c in Encode64(b) ==> IsBase64(c)
    ensures |b| % 3 != 0 ==> '=' in Encode64(b)
    ensures b != [] ==> Encode64(b) != ""
    decreases |b|
  {
    hide Digit64, Char64, Sextet0, Sextet1, Sextet2, Sextet3;
    if b != [] {
      Char64Digit(Sextet0(b[0]));
      if |b| == 1 {
        Char64Digit(Sextet1(b[0], 0));
      } else {
        Char64Digit(Sextet1(b[0], b[1]));
        if |b| == 2 {
          Char64Digit(Sextet2(b[1], 0));
        } else {
          Char64Digit(Sextet2(b[1], b[2]));
          Char64Digit(Sextet3(b[2]));
          EncodedAlphabet(b[3..]);
        }
      }
    }
  }

  lemma {:induction false} UnbrokenWhole(s: string)
    requires forall c :: c in s ==> !IsBreak(c)
    ensures Unbroken(s) == s
  {
    if s != "" {
      UnbrokenWhole(s[1..]);
      assert s == [s[0]] + s[1..];
    }
  }

  lemma {:induction false} UnbrokenKeeps(s: string, c: char)
    requires c in Unbroken(s)
    ensures c in s
  {
    if c in Unbroken(s[1..]) {
      UnbrokenKeeps(s[1..], c);
    }
  }

  /** The bits a padded quantum has to spare are ignored... */
  lemma SpareBits(a: Sextet, b: Sextet, c: Sextet)
    ensures DecodeQuanta([Char64(a), Char64(b), '=', '=']) == Some([a * 4 + b / 16])
    ensures DecodeQuanta([Char64(a), Char64(b), Char64(c), '=']) == Some([a * 4 + b / 16, b % 16 * 16 + c / 4])
  {
    hide Digit64, Char64;
    Digit64Range('=');
    Char64Digit(a);
    Char64Digit(b);
    Char64Digit(c);
  }

  lemma {:induction false} UnbrokenConcat(s: string, t: string)
    ensures Unbroken(s + t) == Unbroken(s) + Unbroken(t)
  {
    if s == "" {
      assert s + t == t;
    } else {
      assert (s + t)[1..] == s[1..] + t;
      UnbrokenConcat(s[1..], t);
    }
  }

  lemma UnbrokenBreak(c: char)
    requires c == '\r' || c == '\n'
    ensures Unbroken([c]) == ""
  {
  }

  /** ...and so are line breaks, wherever they stand. */
  lemma BreaksIgnored(s: string, t: string, c: char)
    requires c == '\r' || c == '\n'
    ensures Decode64(s + [c] + t) == Decode64(s + t)
  {
    hide Unbroken, DecodeQuanta;
    UnbrokenConcat(s + [c], t);
    UnbrokenConcat(s, [c]);
    UnbrokenConcat(s, t);
    UnbrokenBreak(c);
    assert Unbroken(s) + "" == Unbroken(s);
  }

  // Normalisation.

  datatype ChipError = WrongLength(bytes: nat) | NotAnEncoding

  function NormalizeChipId(chip: string): Result<string, ChipError> {
    var s := TrimSpace(chip);
    if s == "" then Ok("")
    else
      match DecodeHex(s)
      case Some(b) => if |b| != CHIP_ID_BYTES then Err(WrongLength(|b|)) else Ok(EncodeHex(b, false))
      case None =>
        match Decode64(s)
        case None => Err(NotAnEncoding)
        case Some(b) => if |b| != CHIP_ID_BYTES then Err(WrongLength(|b|)) else Ok(EncodeHex(b, false))
  }

  /** s, trimmed, spells the chip id b in one encoding or the other. */
  ghost predicate Spells(s: string, b: seq<Byte>) {
    |b| == CHIP_ID_BYTES && (DecodeHex(TrimSpace(s)) == Some(b) || Decode64(TrimSpace(s)) == Some(b))
  }

  /** No text is hex of anything and base64 of a chip id, so which is tried first never shows. */
  lemma EncodingsDisjoint(s: string)
    requires DecodeHex(s).Some? && Decode64(s).Some?
    ensures |Decode64(s).value| != CHIP_ID_BYTES
  {
    HexIsPlain(s);
    if |Decode64(s).value| == CHIP_ID_BYTES {
      OddLengthIsPadded(Unbroken(s));
      UnbrokenKeeps(s, '=');
    }
  }

  /** A text spells at most one chip id, and normalises to its lowercase hex; every other one is refused or empty. */
  lemma NormalizeIffSpells(s: string, b: seq<Byte>)
    ensures Spells(s, b) <==> |b| == CHIP_ID_BYTES && NormalizeChipId(s) == Ok(EncodeHex(b, false))
  {
    hide TrimSpace, DecodeHex, Decode64, EncodeHex;
    var t := TrimSpace(s);
    EmptyDecodes();
    if DecodeHex(t).Some? && Decode64(t).Some? {
      EncodingsDisjoint(t);
    }
    if DecodeHex(t).Some? {
      HexRoundTrip(DecodeHex(t).value, false);
    }
    if Decode64(t).Some? {
      HexRoundTrip(Decode64(t).value, false);
    }
    HexRoundTrip(b, false);
  }

  lemma EmptyDecodes()
    ensures DecodeHex("") == Some([]) && Decode64("") == Some([]) && EncodeHex([], false) == ""
  {
  }

  ghost predicate Accepted(s: string) {
    exists b :: Spells(s, b)
  }

  /** What is accepted, exactly: the empty text, and the spellings of a chip id. */
  lemma AcceptedIff(s: string)
    ensures NormalizeChipId(s).Ok? <==> TrimSpace(s) == "" || Accepted(s)
  {
    hide TrimSpace, DecodeHex, Decode64, EncodeHex;
    var t := TrimSpace(s);
    if NormalizeChipId(s).Ok? && t != "" {
      var b := if DecodeHex(t).Some? then DecodeHex(t).value else Decode64(t).value;
      assert Spells(s, b);
    } else if Accepted(s) {
      var b :| Spells(s, b);
      NormalizeIffSpells(s, b);
    }
  }

  /** Two spellings normalise alike exactly when they name the same chip. */
  lemma EqualIffSameChip(s: string, b: seq<Byte>, s': string, b': seq<Byte>)
    requires Spells(s, b) && Spells(s', b')
    ensures NormalizeChipId(s) == NormalizeChipId(s') <==> b == b'
  {
    NormalizeIffSpells(s, b);
    NormalizeIffSpells(s', b');
    HexRoundTrip(b, false);
    HexRoundTrip(b', false);
  }

  /** All three spellings of any chip id, with white space around them, come to the same lowercase hex. */
  lemma AllSpellings(b: seq<Byte>, before: string, after: string)
    requires |b| == CHIP_ID_BYTES && Spaces(before) && Spaces(after)
    ensures NormalizeChipId(before + EncodeHex(b, false) + after) == Ok(EncodeHex(b, false))
    ensures NormalizeChipId(before + EncodeHex(b, true) + after) == Ok(EncodeHex(b, false))
    ensures NormalizeChipId(before + Encode64(b) + after) == Ok(EncodeHex(b, false))
    ensures forall c :: c in EncodeHex(b, false) ==> '0' <= c <= '9' || 'a' <= c <= 'f'
    ensures forall c :: c in EncodeHex(b, true) ==> '0' <= c <= '9' || 'A' <= c <= 'F'
  {
    hide NormalizeChipId, TrimSpace, DecodeHex, EncodeHex, Encode64, DecodeQuanta;
    HexCase(b, false);
    HexCase(b, true);
    forall upper: bool ensures NormalizeChipId(before + EncodeHex(b, upper) + after) == Ok(EncodeHex(b, false)) {
      HexRoundTrip(b, upper);
      HexIsPlain(EncodeHex(b, upper));
      TrimPadded(before, EncodeHex(b, upper), after);
      NormalizeIffSpells(before + EncodeHex(b, upper) + after, b);
    }
    var s := Encode64(b);
    EncodedAlphabet(b);
    forall c | c in s ensures !IsSpace(c) && !IsBreak(c) {
      Digit64Range(c);
    }
    UnbrokenWhole(s);
    QuantaRoundTrip(b);
    TrimPadded(before, s, after);
    NormalizeIffSpells(before + s + after, b);
  }

  /** Every accepted text comes to nothing, or to 128 lowercase hex digits. */
  lemma NormalFormIsLowercase(s: string)
    requires NormalizeChipId(s).Ok?
    ensures var form := NormalizeChipId(s).value;
      && (form == "" <==> TrimSpace(s) == "")
      && (forall c :: c in form ==> '0' <= c <= '9' || 'a' <= c <= 'f')
      && (form != "" ==> |form| == 128)
  {
    hide TrimSpace, DecodeHex, Decode64, EncodeHex, NormalizeChipId, Spells;
    AcceptedIff(s);
    if TrimSpace(s) == "" {
      EmptyNormalizes(s);
    } else {
      var b :| Spells(s, b);
      NormalizeIffSpells(s, b);
      HexCase(b, false);
      HexLength(b, false);
    }
  }

  /** Byte i of the chip a text spells shows as digits 2i and 2i + 1 of its normal form. */
  lemma NormalFormAt(s: string, b: seq<Byte>, i: nat)
    requires Spells(s, b) && i < 64
    ensures var r := NormalizeChipId(s);
      && r.Ok? && |r.value| == 128
      && r.value[2 * i] == "0123456789abcdef"[b[i] / 16] && r.value[2 * i + 1] == "0123456789abcdef"[b[i] % 16]
  {
    hide TrimSpace, DecodeHex, Decode64, EncodeHex, NormalizeChipId;
    NormalizeIffSpells(s, b);
    HexText(b, false, i);
  }

  /** Every refusal: a text that decodes to another length than 64 bytes, with that length, or one that decodes in neither way. */
  lemma RefusedMeans(s: string, n: nat)
    ensures var t := TrimSpace(s);
      && (NormalizeChipId(s) == Err(NotAnEncoding) <==> t != "" && DecodeHex(t) == None && Decode64(t) == None)
      && (NormalizeChipId(s) == Err(WrongLength(n)) <==>
           && t != "" && n != 64
           && ((DecodeHex(t).Some? && |DecodeHex(t).value| == n)
               || (DecodeHex(t) == None && Decode64(t).Some? && |Decode64(t).value| == n)))
  {
  }

  /** Normalising twice changes nothing. */
  lemma NormalizeIdempotent(s: string)
    requires NormalizeChipId(s).Ok?
    ensures NormalizeChipId(NormalizeChipId(s).value) == NormalizeChipId(s)
  {
    hide NormalizeChipId, TrimSpace, DecodeHex, EncodeHex;
    AcceptedIff(s);
    if Accepted(s) {
      var b :| Spells(s, b);
      NormalizeIffSpells(s, b);
      AllSpellings(b, "", "");
      assert "" + EncodeHex(b, false) + "" == EncodeHex(b, false);
    } else {
      EmptyNormalizes(s);
      EmptyNormalizes("");
    }
  }

  lemma EmptyNormalizes(s: string)
    requires TrimSpace(s) == "" || s == ""
    ensures NormalizeChipId(s) == Ok("")
  {
  }
}
