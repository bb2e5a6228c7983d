/** CHARACTER SET NONE columns: the transcoders of the fetch path and the literal
    encoder of the pushdown path, two tables written independently. */
module NoneCharset {
  import opened Wrappers
  import opened Utf8

  datatype NoneEncoding = STRICT | WIN1252 | ISO_8859_1 | BLOB

  /** The encodings whose literals can be pushed. */
  predicate SingleByte(mode: NoneEncoding) { mode == WIN1252 || mode == ISO_8859_1 }

  // --- table 1: bytes 0x80..0x9F to code points (fetch path) --------------------------

  const CP1252_HIGH: seq<int> := [
    0x20AC, 0x0081, 0x201A, 0x0192, 0x201E, 0x2026, 0x2020, 0x2021,
    0x02C6, 0x2030, 0x0160, 0x2039, 0x0152, 0x008D, 0x017D, 0x008F,
    0x0090, 0x2018, 0x2019, 0x201C, 0x201D, 0x2022, 0x2013, 0x2014,
    0x02DC, 0x2122, 0x0161, 0x203A, 0x0153, 0x009D, 0x017E, 0x0178]

  // --- table 2: code points to bytes (pushdown path) -----------------------------------

  const WIN1252_SPECIAL: seq<(int, int)> := [
    (0x80, 0x20AC), (0x82, 0x201A), (0x83, 0x0192), (0x84, 0x201E), (0x85, 0x2026),
    (0x86, 0x2020), (0x87, 0x2021), (0x88, 0x02C6), (0x89, 0x2030), (0x8A, 0x0160),
    (0x8B, 0x2039), (0x8C, 0x0152), (0x8E, 0x017D), (0x91, 0x2018), (0x92, 0x2019),
    (0x93, 0x201C), (0x94, 0x201D), (0x95, 0x2022), (0x96, 0x2013), (0x97, 0x2014),
    (0x98, 0x02DC), (0x99, 0x2122), (0x9A, 0x0161), (0x9B, 0x203A), (0x9C, 0x0153),
    (0x9E, 0x017E), (0x9F, 0x0178)]

  /** The five byte values Windows-1252 leaves unassigned. */
  predicate Unassigned(b: int) {
    b == 0x81 || b == 0x8D || b == 0x8F || b == 0x90 || b == 0x9D
  }

  lemma TablesInverse(i: nat, b: int)
    requires i < |WIN1252_SPECIAL|
    requires 0x80 <= b < 0xA0
    ensures 0x80 <= WIN1252_SPECIAL[i].0 < 0xA0 && !Unassigned(WIN1252_SPECIAL[i].0)
    ensures CP1252_HIGH[b - 0x80] == WIN1252_SPECIAL[i].1 <==> b == WIN1252_SPECIAL[i].0
  {
    SpecialSlot(i);
    HighDistinct(b, WIN1252_SPECIAL[i].0);
  }

  /** The encoder's entry is what the decoder's table holds at that byte. */
  lemma SpecialSlot(i: nat)
    requires i < |WIN1252_SPECIAL|
    ensures 0x80 <= WIN1252_SPECIAL[i].0 < 0xA0 && !Unassigned(WIN1252_SPECIAL[i].0)
    ensures CP1252_HIGH[WIN1252_SPECIAL[i].0 - 0x80] == WIN1252_SPECIAL[i].1
  {
  }

  /** The slot of the first table that holds a code point. */
  function SlotOf(cp: int): int {
    match cp
    case 0x20AC => 0 case 0x0081 => 1 case 0x201A => 2 case 0x0192 => 3
    case 0x201E => 4 case 0x2026 => 5 case 0x2020 => 6 case 0x2021 => 7
    case 0x02C6 => 8 case 0x2030 => 9 case 0x0160 => 10 case 0x2039 => 11
    case 0x0152 => 12 case 0x008D => 13 case 0x017D => 14 case 0x008F => 15
    case 0x0090 => 16 case 0x2018 => 17 case 0x2019 => 18 case 0x201C => 19
    case 0x201D => 20 case 0x2022 => 21 case 0x2013 => 22 case 0x2014 => 23
    case 0x02DC => 24 case 0x2122 => 25 case 0x0161 => 26 case 0x203A => 27
    case 0x0153 => 28 case 0x009D => 29 case 0x017E => 30 case 0x0178 => 31
    case _ => -1
  }

  lemma SlotFound(i: nat)
    requires i < 32
    ensures SlotOf(CP1252_HIGH[i]) == i
  {
  }

  lemma HighDistinct(a: int, b: int)
    requires 0x80 <= a < 0xA0 && 0x80 <= b < 0xA0
    ensures CP1252_HIGH[a - 0x80] == CP1252_HIGH[b - 0x80] <==> a == b
  {
    SlotFound(a - 0x80);
    SlotFound(b - 0x80);
  }

  // --- fetch path: stored bytes to UTF-8 --------------------------------------------------

  /** The code point byte `b` stands for. */
  function CodePoint(mode: NoneEncoding, b: int): (cp: int)
    requires 0 <= b < 0x100
    ensures Scalar(cp) && cp < 0x10000
  {
    if mode == WIN1252 && 0x80 <= b < 0xA0 then CP1252_HIGH[b - 0x80] else b
  }

  function CodePoints(mode: NoneEncoding, s: string): (cps: seq<int>)
    requires ByteString(s)
    ensures |cps| == |s| && AllScalars(cps)
    ensures forall i :: 0 <= i < |s| ==> cps[i] == CodePoint(mode, s[i] as int)
  {
    seq(|s|, i requires 0 <= i < |s| => CodePoint(mode, s[i] as int))
  }

  /** What DuckDB sees of the stored bytes `s`. */
  function Transcode(mode: NoneEncoding, s: string): string
    requires ByteString(s)
  {
    EncodeAll(CodePoints(mode, s))
  }

  method AppendUtf8(out: string, cp: int) returns (out': string)
    requires Scalar(cp) && cp < 0x10000
    ensures out' == out + Encode(cp)
  {
    if cp < 0x80 {
      out' := out + [cp as char];
    } else if cp < 0x800 {
      out' := out + [(0xC0 + cp / 64) as char];
      out' := out' + [(0x80 + cp % 64) as char];
    } else {
      assert cp / 4096 == cp / 64 / 64;
      out' := out + [(0xE0 + cp / 4096) as char];
      out' := out' + [(0x80 + cp / 64 % 64) as char];
      out' := out' + [(0x80 + cp % 64) as char];
    }
  }

  lemma {:induction false} EncodeAllSnoc(cps: seq<int>, cp: int)
    requires AllScalars(cps) && Scalar(cp)
    ensures EncodeAll(cps + [cp]) == EncodeAll(cps) + Encode(cp)
  {
    if cps == [] {
      assert cps + [cp] == [cp];
    } else {
      assert (cps + [cp])[1..] == cps[1..] + [cp];
      EncodeAllSnoc(cps[1..], cp);
    }
  }

  lemma PrefixStep(cps: seq<int>, i: nat)
    requires i < |cps| && AllScalars(cps)
    ensures EncodeAll(cps[..i + 1]) == EncodeAll(cps[..i]) + Encode(cps[i])
  {
    assert cps[..i + 1] == cps[..i] + [cps[i]];
    EncodeAllSnoc(cps[..i], cps[i]);
  }

  method Win1252ToUtf8(s: string) returns (out: string)
    requires ByteString(s)
    ensures out == Transcode(WIN1252, s)
  {
    out := "";
    ghost var cps := CodePoints(WIN1252, s);
    assert cps[..0] == [];
    for i := 0 to |s|
      invariant out == EncodeAll(cps[..i])
    {
      var b := s[i] as int;
      PrefixStep(cps, i);
      if b < 0x80 {
        out := out + [s[i]];
      } else if b < 0xA0 {
        out := AppendUtf8(out, CP1252_HIGH[b - 0x80]);
      } else {
        out := AppendUtf8(out, b);
      }
    }
    assert cps[..|s|] == cps;
  }

  method Latin1ToUtf8(s: string) returns (out: string)
    requires ByteString(s)
    ensures out == Transcode(ISO_8859_1, s)
  {
    out := "";
    ghost var cps := CodePoints(ISO_8859_1, s);
    for i := 0 to |s|
      invariant out == EncodeAll(cps[..i])
    {
      PrefixStep(cps, i);
      if s[i] as int < 0x80 {
        out := out + [s[i]];
      } else {
        out := AppendUtf8(out, s[i] as int);
      }
    }
    assert cps[..|s|] == cps;
  }

  // --- pushdown path: UTF-8 literals to stored bytes -----------------------------------------

  /** First entry at or after `i` for a code point. */
  function Lookup(cp: int, i: nat): Option<int>
    requires i <= |WIN1252_SPECIAL|
    decreases |WIN1252_SPECIAL| - i
  {
    if i == |WIN1252_SPECIAL| then None
    else if WIN1252_SPECIAL[i].1 == cp then Some(WIN1252_SPECIAL[i].0)
    else Lookup(cp, i + 1)
  }

  /** The byte a code point is stored as, if it has one. */
  function EncodeByte(mode: NoneEncoding, cp: int): Option<int> {
    if mode == ISO_8859_1 then if 0 <= cp <= 0xFF then Some(cp) else None
    else if 0 <= cp < 0x80 || 0xA0 <= cp <= 0xFF then Some(cp)
    else Lookup(cp, 0)
  }

  lemma {:induction false} LookupEntry(cp: int, i: nat)
    requires i <= |WIN1252_SPECIAL|
    ensures Lookup(cp, i).Some? ==>
              exists j :: i <= j < |WIN1252_SPECIAL| && WIN1252_SPECIAL[j] == (Lookup(cp, i).value, cp)
    ensures Lookup(cp, i).None? ==> forall j :: i <= j < |WIN1252_SPECIAL| ==> WIN1252_SPECIAL[j].1 != cp
    decreases |WIN1252_SPECIAL| - i
  {
    if i == |WIN1252_SPECIAL| {
    } else {
      LookupEntry(cp, i + 1);
    }
  }

  /** Every assigned byte of the hole occurs in the second table. */
  lemma TableComplete(b: int) returns (i: nat)
    requires 0x80 <= b < 0xA0 && !Unassigned(b)
    ensures i < |WIN1252_SPECIAL| && WIN1252_SPECIAL[i].0 == b
  {
    i := if b == 0x80 then 0 else if b < 0x8D then b - 0x81 else if b == 0x8E then 12 else if b < 0x9D then b - 0x84 else b - 0x85;
  }

  /** The two tables are inverses of each other: a byte stands for the code point
      it encodes and for no other, and only the five unassigned bytes are lost. */
  lemma ByteInverse(mode: NoneEncoding, b: int, cp: int)
    requires SingleByte(mode) && 0 <= b < 0x100
    ensures EncodeByte(mode, cp).Some? ==>
              0 <= EncodeByte(mode, cp).value < 0x100 &&
              (CodePoint(mode, b) == cp <==> b == EncodeByte(mode, cp).value)
    ensures EncodeByte(mode, CodePoint(mode, b)) ==
              if mode == WIN1252 && Unassigned(b) then None else Some(b)
  {
    if mode == WIN1252 {
      HoleInverse(b, cp);
      if 0x80 <= b < 0xA0 {
        HoleInverse(b, CodePoint(mode, b));
        if !Unassigned(b) {
          var i := TableComplete(b);
          TablesInverse(i, b);
          LookupEntry(CodePoint(mode, b), 0);
        }
      }
    }
  }

  lemma HoleInverse(b: int, cp: int)
    requires 0 <= b < 0x100
    ensures EncodeByte(WIN1252, cp).Some? ==>
              0 <= EncodeByte(WIN1252, cp).value < 0x100 &&
              !Unassigned(EncodeByte(WIN1252, cp).value) &&
              (CodePoint(WIN1252, b) == cp <==> b == EncodeByte(WIN1252, cp).value)
  {
    if !(0 <= cp < 0x80 || 0xA0 <= cp <= 0xFF) && Lookup(cp, 0).Some? {
      LookupEntry(cp, 0);
      var j :| 0 <= j < |WIN1252_SPECIAL| && WIN1252_SPECIAL[j] == (Lookup(cp, 0).value, cp);
      if 0x80 <= b < 0xA0 { TablesInverse(j, b); } else { TablesInverse(j, 0x80); SpecialRange(j); }
    } else if 0x80 <= b < 0xA0 {
      HoleRange(b);
    }
  }

  lemma SpecialRange(i: nat)
    requires i < |WIN1252_SPECIAL|
    ensures WIN1252_SPECIAL[i].1 > 0xFF
  {
  }

  lemma HoleRange(b: int)
    requires 0x80 <= b < 0xA0
    ensures CP1252_HIGH[b - 0x80] > 0xFF || CP1252_HIGH[b - 0x80] == b
  {
  }

  function EncodeBytes(mode: NoneEncoding, cps: seq<int>): (r: Option<string>)
    requires SingleByte(mode)
    ensures r.Some? ==> |r.value| == |cps|
  {
    if cps == [] then Some("")
    else
      match EncodeByte(mode, cps[0])
      case None => None
      case Some(b) =>
        match EncodeBytes(mode, cps[1..])
        case None => None
        case Some(bs) => ByteInverse(mode, 0, cps[0]); Some([b as char] + bs)
  }

  /** The stored bytes of a UTF-8 literal, if every character has one. */
  function EncodeLiteral(mode: NoneEncoding, utf8: string): Option<string>
    requires SingleByte(mode)
  {
    match DecodeAll(utf8)
    case None => None
    case Some(cps) => EncodeBytes(mode, cps)
  }

  function Prefixed(out: string, r: Option<string>): Option<string> {
    match r
    case None => None
    case Some(bs) => Some(out + bs)
  }

  lemma PrefixedStep(out: string, b: char, r: Option<string>)
    ensures Prefixed(out, Prefixed([b], r)) == Prefixed(out + [b], r)
  {
    if r.Some? { assert out + ([b] + r.value) == out + [b] + r.value; }
  }

  lemma {:induction false} EncodeLiteralStep(mode: NoneEncoding, t: string, b: int)
    requires SingleByte(mode)
    requires Decode(t).Char? && 0 <= b < 0x100 && EncodeByte(mode, Decode(t).cp) == Some(b)
    ensures EncodeLiteral(mode, t) == Prefixed([b as char], EncodeLiteral(mode, t[Decode(t).len..]))
  {
    var rest := DecodeAll(t[Decode(t).len..]);
    if rest.Some? {
      assert DecodeAll(t) == Some([Decode(t).cp] + rest.value);
      assert ([Decode(t).cp] + rest.value)[1..] == rest.value;
    }
  }

  lemma EncodeLiteralFails(mode: NoneEncoding, t: string)
    requires SingleByte(mode) && t != ""
    requires Decode(t).Malformed? || EncodeByte(mode, Decode(t).cp).None?
    ensures EncodeLiteral(mode, t).None?
  {
  }

  method TryEncodeNoneLiteral(utf8: string, mode: NoneEncoding) returns (ok: bool, out: string)
    requires SingleByte(mode)
    ensures ok == EncodeLiteral(mode, utf8).Some?
    ensures ok ==> out == EncodeLiteral(mode, utf8).value
  {
    out := "";
    var pos := 0;
    assert utf8[0..] == utf8;
    assert EncodeLiteral(mode, utf8).Some? ==> "" + EncodeLiteral(mode, utf8).value == EncodeLiteral(mode, utf8).value;
    while pos < |utf8|
      invariant 0 <= pos <= |utf8|
      invariant EncodeLiteral(mode, utf8) == Prefixed(out, EncodeLiteral(mode, utf8[pos..]))
    {
      ghost var t := utf8[pos..];
      var decoded, next, cp := DecodeUtf8Codepoint(utf8, pos);
      if !decoded {
        EncodeLiteralFails(mode, t);
        return false, out;
      }
      var found, b := EncodeCodepoint(mode, cp);
      if !found {
        EncodeLiteralFails(mode, t);
        return false, out;
      }
      EncodeLiteralStep(mode, t, b);
      assert t[Decode(t).len..] == utf8[next..];
      PrefixedStep(out, b as char, EncodeLiteral(mode, utf8[next..]));
      out := out + [b as char];
      pos := next;
    }
    assert utf8[pos..] == "";
    ok := true;
  }

  method EncodeCodepoint(mode: NoneEncoding, cp: int) returns (found: bool, b: int)
    requires SingleByte(mode) && Scalar(cp)
    ensures found == EncodeByte(mode, cp).Some?
    ensures found ==> b == EncodeByte(mode, cp).value && 0 <= b < 0x100
  {
    ByteInverse(mode, 0, cp);
    if mode == ISO_8859_1 {
      return cp <= 0xFF, cp;
    }
    if cp < 0x80 || 0xA0 <= cp <= 0xFF {
      return true, cp;
    }
    for i := 0 to |WIN1252_SPECIAL|
      invariant Lookup(cp, 0) == Lookup(cp, i)
    {
      if WIN1252_SPECIAL[i].1 == cp {
        return true, WIN1252_SPECIAL[i].0;
      }
    }
    return false, 0;
  }

  // --- the two paths together --------------------------------------------------------------------

  lemma {:induction false} EncodeBytesAt(mode: NoneEncoding, cps: seq<int>, i: nat)
    requires SingleByte(mode) && EncodeBytes(mode, cps).Some? && i < |cps|
    ensures EncodeByte(mode, cps[i]) == Some(EncodeBytes(mode, cps).value[i] as int)
  {
    ByteInverse(mode, 0, cps[0]);
    if i == 0 {
    } else {
      EncodeBytesAt(mode, cps[1..], i - 1);
    }
  }

  lemma EncodeBytesExact(mode: NoneEncoding, cps: seq<int>, s: string)
    requires SingleByte(mode) && ByteString(s)
    requires EncodeBytes(mode, cps).Some?
    ensures s == EncodeBytes(mode, cps).value <==> CodePoints(mode, s) == cps
  {
    var e := EncodeBytes(mode, cps).value;
    if |s| == |cps| {
      forall i | 0 <= i < |s| ensures s[i] == e[i] <==> CodePoints(mode, s)[i] == cps[i] {
        EncodeBytesAt(mode, cps, i);
        ByteInverse(mode, s[i] as int, cps[i]);
      }
    }
  }

  /** The pushed byte comparison selects exactly the rows DuckDB's comparison of the
      transcoded text would: for every stored byte string and every literal that
      encodes, the bytes are equal iff the texts are. */
  lemma PushedEqualityExact(mode: NoneEncoding, stored: string, literal: string)
    requires SingleByte(mode) && ByteString(stored)
    requires EncodeLiteral(mode, literal).Some?
    ensures stored == EncodeLiteral(mode, literal).value <==> Transcode(mode, stored) == literal
  {
    var cps := DecodeAll(literal).value;
    DecodeAllSound(literal);
    EncodeBytesExact(mode, cps, stored);
    DecodeAllComplete(CodePoints(mode, stored));
  }

  predicate Assigned(mode: NoneEncoding, s: string) {
    mode == WIN1252 ==> forall i :: 0 <= i < |s| ==> !Unassigned(s[i] as int)
  }

  lemma {:induction false} EncodeBytesTotal(mode: NoneEncoding, s: string)
    requires SingleByte(mode) && ByteString(s) && Assigned(mode, s)
    ensures EncodeBytes(mode, CodePoints(mode, s)) == Some(s)
  {
    if s == "" {
    } else {
      ByteInverse(mode, s[0] as int, 0);
      EncodeBytesTotal(mode, s[1..]);
      assert CodePoints(mode, s)[1..] == CodePoints(mode, s[1..]);
      assert s == [s[0]] + s[1..];
    }
  }

  lemma {:induction false} EncodeBytesAssigned(mode: NoneEncoding, cps: seq<int>)
    requires SingleByte(mode) && EncodeBytes(mode, cps).Some?
    ensures ByteString(EncodeBytes(mode, cps).value) && Assigned(mode, EncodeBytes(mode, cps).value)
  {
    if cps == [] {
    } else {
      EncodeBytesAssigned(mode, cps[1..]);
      ByteInverse(mode, 0, cps[0]);
      HoleInverse(0, cps[0]);
    }
  }

  /** A literal encodes exactly when it is the text of some stored bytes, none of
      them one of the five unassigned values. */
  lemma EncodableIffStored(mode: NoneEncoding, literal: string)
    requires SingleByte(mode)
    ensures EncodeLiteral(mode, literal).Some? <==>
            exists s :: ByteString(s) && Assigned(mode, s) && Transcode(mode, s) == literal
  {
    if EncodeLiteral(mode, literal).Some? {
      var s := EncodeLiteral(mode, literal).value;
      EncodeBytesAssigned(mode, DecodeAll(literal).value);
      PushedEqualityExact(mode, s, literal);
    }
    if s :| ByteString(s) && Assigned(mode, s) && Transcode(mode, s) == literal {
      DecodeAllComplete(CodePoints(mode, s));
      EncodeBytesTotal(mode, s);
    }
  }

  // --- what a literal with a charset introducer says ------------------------------------------

  /** The text the bytes of a literal stand for in the character set it is marked with, the
      connection's UTF-8 without a mark; None when the server does not know the character
      set or the bytes are malformed in it. */
  function DenotedText(charset: string, bytes: string): Option<seq<int>> {
    if charset == "" || charset == "_UTF8" then DecodeAll(bytes)
    else if charset == "_WIN1252" then InSingleByte(WIN1252, bytes)
    else if charset == "_ISO8859_1" then InSingleByte(ISO_8859_1, bytes)
    else None
  }

  function InSingleByte(mode: NoneEncoding, bytes: string): Option<seq<int>> {
    if ByteString(bytes) && Assigned(mode, bytes) then Some(CodePoints(mode, bytes)) else None
  }

  /** The bytes of an encoded literal stand for its text. */
  lemma EncodedDenotes(mode: NoneEncoding, literal: string)
    requires SingleByte(mode) && EncodeLiteral(mode, literal).Some?
    ensures DecodeAll(literal).Some? && InSingleByte(mode, EncodeLiteral(mode, literal).value) == DecodeAll(literal)
  {
    var cps := DecodeAll(literal).value;
    EncodeBytesAssigned(mode, cps);
    EncodeBytesExact(mode, cps, EncodeLiteral(mode, literal).value);
  }

  /** Transcoded text is valid UTF-8, whatever the stored bytes. */
  lemma TranscodeValid(mode: NoneEncoding, s: string)
    requires ByteString(s)
    ensures Valid(Transcode(mode, s))
  {
    DecodeAllComplete(CodePoints(mode, s));
  }
}
