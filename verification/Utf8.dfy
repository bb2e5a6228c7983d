/** UTF-8 (sections 3 and 4 of RFC 3629) and the three decoders of the extension,
    each with its own loop. A string's characters are bytes; the source's bit
    masks are written as ranges and its shifts as multiplications. */
module Utf8 {
  import opened Wrappers

  // --- the encoding, from the standard ---------------------------------------------

  predicate Scalar(cp: int) {
    0 <= cp <= 0x10FFFF && !(0xD800 <= cp <= 0xDFFF)
  }

  function Tail(v: int): char
    requires v >= 0
  {
    (0x80 + v % 64) as char
  }

  function Encode(cp: int): (s: string)
    requires Scalar(cp)
    ensures 1 <= |s| <= 4
  {
    if cp < 0x80 then [cp as char]
    else if cp < 0x800 then [(0xC0 + cp / 64) as char, Tail(cp)]
    else if cp < 0x10000 then [(0xE0 + cp / 64 / 64) as char, Tail(cp / 64), Tail(cp)]
    else [(0xF0 + cp / 64 / 64 / 64) as char, Tail(cp / 64 / 64), Tail(cp / 64), Tail(cp)]
  }

  predicate AllScalars(cps: seq<int>) {
    forall i :: 0 <= i < |cps| ==> Scalar(cps[i])
  }

  function EncodeAll(cps: seq<int>): string
    requires AllScalars(cps)
  {
    if cps == [] then "" else Encode(cps[0]) + EncodeAll(cps[1..])
  }

  // --- decoding one sequence ----------------------------------------------------------

  /** Continuation bytes announced by a lead byte, or -1. */
  function Announced(c: char): int {
    var b := c as int;
    if b < 0x80 then 0
    else if 0xC0 <= b < 0xE0 then 1
    else if 0xE0 <= b < 0xF0 then 2
    else if 0xF0 <= b < 0xF8 then 3
    else -1
  }

  predicate Continues(c: char) { 0x80 <= c as int < 0xC0 }

  function LeadBits(c: char): int {
    var b := c as int;
    if b < 0x80 then b else if b < 0xE0 then b - 0xC0 else if b < 0xF0 then b - 0xE0 else b - 0xF0
  }

  function TailBits(c: char): int { c as int - 0x80 }

  /** Value of the first `1 + k` bytes. */
  function Gathered(s: string, k: nat): int
    requires k < |s|
  {
    if k == 0 then LeadBits(s[0]) else Gathered(s, k - 1) * 64 + TailBits(s[k])
  }

  const MIN_CP := [0, 0x80, 0x800, 0x10000]

  datatype Decoded = Malformed | Char(cp: int, len: nat)

  /** The first character of `s`. */
  function Decode(s: string): (r: Decoded)
    ensures r.Char? ==> 1 <= r.len <= |s|
  {
    if s == "" then Malformed
    else
      var k := Announced(s[0]);
      if k < 0 || k >= |s| then Malformed
      else if exists i :: 1 <= i <= k && !Continues(s[i]) then Malformed
      else
        var cp := Gathered(s, k);
        if cp < MIN_CP[k] || !Scalar(cp) then Malformed else Char(cp, 1 + k)
  }

  lemma {:induction false} GatheredTwo(s: string)
    requires |s| >= 2
    ensures Gathered(s, 1) == LeadBits(s[0]) * 64 + TailBits(s[1])
  {
    assert Gathered(s, 0) == LeadBits(s[0]);
  }

  lemma GatheredThree(s: string)
    requires |s| >= 3
    ensures Gathered(s, 2) == (LeadBits(s[0]) * 64 + TailBits(s[1])) * 64 + TailBits(s[2])
  {
    GatheredTwo(s);
  }

  lemma GatheredFour(s: string)
    requires |s| >= 4
    ensures Gathered(s, 3) == ((LeadBits(s[0]) * 64 + TailBits(s[1])) * 64 + TailBits(s[2])) * 64 + TailBits(s[3])
  {
    GatheredThree(s);
  }

  /** Every encoded character decodes to itself, whatever follows it. */
  lemma {:induction false} DecodeEncode(cp: int, rest: string)
    requires Scalar(cp)
    ensures Decode(Encode(cp) + rest) == Char(cp, |Encode(cp)|)
  {
    var s := Encode(cp) + rest;
    if cp < 0x80 {
      assert Gathered(s, 0) == cp;
    } else if cp < 0x800 {
      GatheredTwo(s);
    } else if cp < 0x10000 {
      GatheredThree(s);
    } else {
      GatheredFour(s);
    }
  }

  lemma Sextet(a: int, b: int)
    requires 0 <= b < 64
    ensures (a * 64 + b) / 64 == a && (a * 64 + b) % 64 == b
  {
  }

  lemma {:induction false} SoundTwo(s: string)
    requires |s| >= 2 && Announced(s[0]) == 1 && Continues(s[1])
    requires Gathered(s, 1) >= 0x80
    ensures Scalar(Gathered(s, 1)) && s[..2] == Encode(Gathered(s, 1))
  {
    GatheredTwo(s);
    Sextet(LeadBits(s[0]), TailBits(s[1]));
  }

  lemma {:induction false} SoundThree(s: string)
    requires |s| >= 3 && Announced(s[0]) == 2 && Continues(s[1]) && Continues(s[2])
    requires Gathered(s, 2) >= 0x800 && Scalar(Gathered(s, 2))
    ensures s[..3] == Encode(Gathered(s, 2))
  {
    GatheredThree(s);
    var a := LeadBits(s[0]) * 64 + TailBits(s[1]);
    Sextet(LeadBits(s[0]), TailBits(s[1]));
    Sextet(a, TailBits(s[2]));
    assert Gathered(s, 2) < 0x10000;
  }

  lemma {:induction false} SoundFour(s: string)
    requires |s| >= 4 && Announced(s[0]) == 3 && Continues(s[1]) && Continues(s[2]) && Continues(s[3])
    requires Gathered(s, 3) >= 0x10000 && Scalar(Gathered(s, 3))
    ensures s[..4] == Encode(Gathered(s, 3))
  {
    GatheredFour(s);
    var a := LeadBits(s[0]) * 64 + TailBits(s[1]);
    var b := a * 64 + TailBits(s[2]);
    Sextet(LeadBits(s[0]), TailBits(s[1]));
    Sextet(a, TailBits(s[2]));
    Sextet(b, TailBits(s[3]));
  }

  /** A decoded character is the encoding of a scalar value: no overlong form,
      no surrogate, nothing above U+10FFFF. */
  lemma DecodeSound(s: string)
    requires Decode(s).Char?
    ensures Scalar(Decode(s).cp) && s[..Decode(s).len] == Encode(Decode(s).cp)
  {
    var k := Announced(s[0]);
    if k == 1 {
      assert Continues(s[1]);
      SoundTwo(s);
    } else if k == 2 {
      assert Continues(s[1]) && Continues(s[2]);
      SoundThree(s);
    } else if k == 3 {
      assert Continues(s[1]) && Continues(s[2]) && Continues(s[3]);
      SoundFour(s);
    }
  }

  // --- whole strings --------------------------------------------------------------------

  function DecodeAll(s: string): Option<seq<int>> {
    if s == "" then Some([])
    else match Decode(s)
      case Malformed => None
      case Char(cp, n) =>
        match DecodeAll(s[n..])
        case None => None
        case Some(cps) => Some([cp] + cps)
  }

  predicate Valid(s: string) { DecodeAll(s).Some? }

  lemma {:induction false} EncodeCons(cp: int, cps: seq<int>)
    requires Scalar(cp) && AllScalars(cps)
    ensures AllScalars([cp] + cps) && EncodeAll([cp] + cps) == Encode(cp) + EncodeAll(cps)
  {
    assert ([cp] + cps)[1..] == cps;
  }

  lemma {:induction false} DecodeAllSound(s: string)
    requires Valid(s)
    ensures AllScalars(DecodeAll(s).value) && EncodeAll(DecodeAll(s).value) == s
  {
    if s == "" {
    } else {
      DecodeSound(s);
      var first, rest := s[..Decode(s).len], s[Decode(s).len..];
      assert s == first + rest;
      DecodeAllSound(rest);
      EncodeCons(Decode(s).cp, DecodeAll(rest).value);
    }
  }

  lemma {:induction false} DecodeAllComplete(cps: seq<int>)
    requires AllScalars(cps)
    ensures DecodeAll(EncodeAll(cps)) == Some(cps)
  {
    if cps == [] {
    } else {
      var rest := EncodeAll(cps[1..]);
      DecodeEncode(cps[0], rest);
      assert EncodeAll(cps)[|Encode(cps[0])|..] == rest;
      DecodeAllComplete(cps[1..]);
      assert [cps[0]] + cps[1..] == cps;
    }
  }

  /** A string is accepted exactly when it is the encoding of some scalar values. */
  lemma ValidIffEncoded(s: string)
    ensures Valid(s) <==> exists cps :: AllScalars(cps) && EncodeAll(cps) == s
  {
    if Valid(s) { DecodeAllSound(s); }
    if cps :| AllScalars(cps) && EncodeAll(cps) == s { DecodeAllComplete(cps); }
  }

  // --- decoder 1: the validator of the row-fetch path --------------------------------------

  lemma {:induction false} ValidStep(data: string, p: nat)
    requires p < |data|
    ensures data[p] as int < 0x80 ==> Valid(data[p..]) == Valid(data[p + 1..])
    ensures Decode(data[p..]).Malformed? ==> !Valid(data[p..])
    ensures Decode(data[p..]).Char? ==> p + Decode(data[p..]).len <= |data| && Valid(data[p..]) == Valid(data[p + Decode(data[p..]).len..])
  {
    var s := data[p..];
    if data[p] as int < 0x80 {
      assert Gathered(s, 0) == s[0] as int;
      assert s[1..] == data[p + 1..];
    }
    match Decode(s)
    case Malformed =>
    case Char(_, n) => assert s[n..] == data[p + n..];
  }

  method IsValidUtf8(data: string) returns (ok: bool)
    ensures ok == Valid(data)
    ensures ok <==> exists cps :: AllScalars(cps) && EncodeAll(cps) == data
  {
    ok := Validate(data);
    ValidIffEncoded(data);
  }

  method Validate(data: string) returns (ok: bool)
    ensures ok == Valid(data)
  {
    var p := 0;
    while p < |data|
      invariant 0 <= p <= |data|
      invariant Valid(data) == Valid(data[p..])
    {
      ValidStep(data, p);
      if data[p] as int < 0x80 {
        p := p + 1;
        continue;
      }
      var len := MultiByte(data, p);
      if len == 0 {
        return false;
      }
      p := p + len;
    }
    assert data[p..] == "";
    return true;
  }

  /** The body of the validator's loop for a lead byte above 0x7F; 0 rejects. */
  method MultiByte(data: string, p: nat) returns (len: nat)
    requires p < |data| && data[p] as int >= 0x80
    ensures len == match Decode(data[p..]) case Malformed => 0 case Char(_, n) => n
  {
    ghost var s := data[p..];
    var c := data[p] as int;
    var want: nat;
    if 0xC0 <= c < 0xE0 { want := 1; }
    else if 0xE0 <= c < 0xF0 { want := 2; }
    else if 0xF0 <= c < 0xF8 { want := 3; }
    else { return 0; }
    if p + 1 + want > |data| { return 0; }
    var cp := LeadBits(data[p]);
    for i := 1 to want + 1
      invariant cp == Gathered(s, i - 1)
      invariant forall j :: 1 <= j < i ==> Continues(s[j])
    {
      if !Continues(data[p + i]) {
        assert !Continues(s[i]);
        return 0;
      }
      cp := cp * 64 + TailBits(data[p + i]);
    }
    if cp < MIN_CP[want] || 0xD800 <= cp <= 0xDFFF || cp > 0x10FFFF { return 0; }
    return 1 + want;
  }

  // --- decoder 2: the strict decoder of filter literals ---------------------------------------

  /** On failure the position does not move. */
  method DecodeUtf8Codepoint(s: string, pos: nat) returns (ok: bool, pos': nat, cp: int)
    requires pos < |s|
    ensures ok == Decode(s[pos..]).Char?
    ensures ok ==> cp == Decode(s[pos..]).cp && pos' == pos + Decode(s[pos..]).len
    ensures !ok ==> pos' == pos
  {
    ghost var t := s[pos..];
    var lead := s[pos] as int;
    pos', cp, ok := pos, LeadBits(s[pos]), false;
    var len: nat;
    if lead < 0x80 {
      assert Gathered(t, 0) == lead;
      return true, pos + 1, lead;
    } else if 0xC0 <= lead < 0xE0 { len := 2; }
    else if 0xE0 <= lead < 0xF0 { len := 3; }
    else if 0xF0 <= lead < 0xF8 { len := 4; }
    else { return; }
    if pos + len > |s| { return; }
    for i := 1 to len
      invariant cp == Gathered(t, i - 1)
      invariant forall j :: 1 <= j < i ==> Continues(t[j])
    {
      if !Continues(s[pos + i]) {
        assert !Continues(t[i]);
        return;
      }
      cp := cp * 64 + TailBits(s[pos + i]);
    }
    if cp < MIN_CP[len - 1] || cp > 0x10FFFF { return; }
    if 0xD800 <= cp <= 0xDFFF { return; }
    assert Decode(t) == Char(cp, len);
    return true, pos + len, cp;
  }

  // --- decoder 3: the telemetry escaper ----------------------------------------------------------

  predicate IsAscii(s: string) {
    forall i :: 0 <= i < |s| ==> s[i] as int < 0x80
  }

  predicate ByteString(s: string) {
    forall i :: 0 <= i < |s| ==> s[i] as int < 0x100
  }

  const HEX := "0123456789ABCDEF"

  function Escaped(c: char): string {
    ['\\', 'x', HEX[c as int / 16 % 16], HEX[c as int % 16]]
  }

  /** Whether the escaper copies the character at the head of `s`. */
  predicate Copies(s: string) {
    Decode(s).Char? && s[0] != '\0'
  }

  function Sanitized(s: string): string
    decreases |s|
  {
    if s == "" then ""
    else if Copies(s) then s[..Decode(s).len] + Sanitized(s[Decode(s).len..])
    else Escaped(s[0]) + Sanitized(s[1..])
  }

  function TelemetrySafe(s: string): string {
    if IsAscii(s) then s else Sanitized(s)
  }

  method MakeTelemetrySafeUtf8(s: string) returns (out: string)
    ensures out == TelemetrySafe(s)
  {
    var ascii := AllAscii(s);
    out := s;
    if !ascii { out := EscapeInvalid(s); }
  }

  /** The fast path: nothing to check in a text without bytes above 0x7F. */
  method AllAscii(s: string) returns (ascii: bool)
    ensures ascii == IsAscii(s)
  {
    for i := 0 to |s|
      invariant IsAscii(s[..i])
    {
      if s[i] as int >= 0x80 { return false; }
    }
    assert s[..|s|] == s;
    return true;
  }

  method EscapeInvalid(s: string) returns (out: string)
    ensures out == Sanitized(s)
  {
    out := "";
    var i := 0;
    assert s[0..] == s && out + Sanitized(s) == Sanitized(s);
    while i < |s|
      invariant 0 <= i <= |s|
      invariant Sanitized(s) == out + Sanitized(s[i..])
    {
      var piece, n := EscapeOne(s, i);
      Appended(out, piece, Sanitized(s[i + n..]));
      out, i := out + piece, i + n;
    }
    assert s[i..] == "" && out + "" == out;
  }

  lemma Appended(a: string, b: string, c: string)
    ensures a + (b + c) == a + b + c
  {
  }

  /** One turn of the loop: a whole sequence copied, or one byte escaped. */
  method EscapeOne(s: string, i: nat) returns (piece: string, n: nat)
    requires i < |s|
    ensures 0 < n <= |s| - i && Sanitized(s[i..]) == piece + Sanitized(s[i + n..])
  {
    n := CopyLength(s, i);
    SanitizedStep(s[i..]);
    if n > 0 {
      piece := s[i..i + n];
    } else {
      piece, n := Escaped(s[i]), 1;
    }
    PieceAt(s, i, n);
  }

  lemma PieceAt(s: string, i: nat, n: nat)
    requires i < |s| && 0 < n <= |s| - i
    ensures s[i..][..n] == s[i..i + n] && s[i..][n..] == s[i + n..] && s[i..][0] == s[i]
  {
  }

  lemma SanitizedStep(t: string)
    requires t != ""
    ensures Sanitized(t) == if Copies(t) then t[..Decode(t).len] + Sanitized(t[Decode(t).len..]) else Escaped(t[0]) + Sanitized(t[1..])
    ensures Copies(t) ==> 0 < Decode(t).len <= |t|
  {
  }

  /** Bytes to copy unchanged at `i`; 0 when the byte has to be escaped. */
  method CopyLength(s: string, i: nat) returns (len: nat)
    requires i < |s|
    ensures len == if Copies(s[i..]) then Decode(s[i..]).len else 0
  {
    var cp: int;
    len, cp := ReadSequence(s, i);
    var minimum := if len == 1 then 1 else if len >= 2 then MIN_CP[len - 1] else 0;
    if !(len != 0 && cp >= minimum && cp <= 0x10FFFF && !(0xD800 <= cp <= 0xDFFF)) {
      len := 0;
    }
  }

  /** The escaper's own decoding step: length 0 when a byte is missing or is no
      continuation. */
  method ReadSequence(s: string, i: nat) returns (len: nat, cp: int)
    requires i < |s|
    ensures len <= 4 && i + len <= |s|
    ensures len == 0 <==> (Announced(s[i]) < 0 || Announced(s[i]) >= |s| - i ||
                           exists j :: 1 <= j <= Announced(s[i]) && !Continues(s[i..][j]))
    ensures len > 0 ==> len == Announced(s[i]) + 1 && cp == Gathered(s[i..], len - 1)
  {
    ghost var t := s[i..];
    var lead := s[i] as int;
    len, cp := 0, 0;
    if lead < 0x80 {
      len, cp := 1, lead;
    } else if 0xC0 <= lead < 0xE0 && i + 1 < |s| && Continues(s[i + 1]) {
      GatheredTwo(t);
      len, cp := 2, (lead - 0xC0) * 64 + TailBits(s[i + 1]);
    } else if 0xE0 <= lead < 0xF0 && i + 2 < |s| && Continues(s[i + 1]) && Continues(s[i + 2]) {
      GatheredThree(t);
      len, cp := 3, (lead - 0xE0) * 4096 + TailBits(s[i + 1]) * 64 + TailBits(s[i + 2]);
    } else if 0xF0 <= lead < 0xF8 && i + 3 < |s| && Continues(s[i + 1]) && Continues(s[i + 2]) && Continues(s[i + 3]) {
      GatheredFour(t);
      len, cp := 4, (lead - 0xF0) * 262144 + TailBits(s[i + 1]) * 4096 + TailBits(s[i + 2]) * 64 + TailBits(s[i + 3]);
    } else {
      assert forall j :: 1 <= j < |t| ==> t[j] == s[i + j];
    }
  }

  /** Decoding a character looks at no byte behind it. */
  lemma DecodePrefix(s: string, rest: string)
    requires Decode(s).Char?
    ensures Decode(s[..Decode(s).len] + rest) == Decode(s)
  {
    DecodeSound(s);
    DecodeEncode(Decode(s).cp, rest);
    DecodeEncode(Decode(s).cp, s[Decode(s).len..]);
    assert s == s[..Decode(s).len] + s[Decode(s).len..];
  }

  lemma AsciiFirst(c: char, rest: string)
    requires 0 < c as int < 0x80 && Valid(rest) && '\0' !in rest
    ensures Valid([c] + rest) && '\0' !in [c] + rest
  {
    var s := [c] + rest;
    assert Gathered(s, 0) == c as int;
    assert s[1..] == rest;
  }

  lemma {:induction false} AsciiPair(a: char, b: char, rest: string)
    requires 0 < a as int < 0x80 && 0 < b as int < 0x80 && Valid(rest) && '\0' !in rest
    ensures Valid([a, b] + rest) && '\0' !in [a, b] + rest
  {
    AsciiFirst(b, rest);
    AsciiFirst(a, [b] + rest);
    assert [a, b] + rest == [a] + ([b] + rest);
  }

  lemma HexIsAscii(d: nat)
    requires d < 16
    ensures 0 < HEX[d] as int < 0x80
  {
  }

  lemma EscapedFirst(c: char, rest: string)
    requires Valid(rest) && '\0' !in rest
    ensures Valid(Escaped(c) + rest) && '\0' !in Escaped(c) + rest
  {
    var i, j := c as int / 16 % 16, c as int % 16;
    HexIsAscii(i);
    HexIsAscii(j);
    EscapeForm(HEX[i], HEX[j], rest);
  }

  lemma EscapeForm(h: char, l: char, rest: string)
    requires 0 < h as int < 0x80 && 0 < l as int < 0x80 && Valid(rest) && '\0' !in rest
    ensures Valid(['\\', 'x', h, l] + rest) && '\0' !in ['\\', 'x', h, l] + rest
  {
    AsciiPair(h, l, rest);
    AsciiPair('\\', 'x', [h, l] + rest);
    assert ['\\', 'x', h, l] + rest == ['\\', 'x'] + ([h, l] + rest);
  }

  lemma CopiedFirst(s: string, rest: string)
    requires Copies(s) && Valid(rest) && '\0' !in rest
    ensures Valid(s[..Decode(s).len] + rest) && '\0' !in s[..Decode(s).len] + rest
  {
    var n := Decode(s).len;
    var t := s[..n] + rest;
    DecodePrefix(s, rest);
    assert t[n..] == rest;
    forall i | 0 <= i < n ensures s[i] != '\0' {
      if i > 0 { assert Continues(s[i]); }
    }
  }

  lemma {:induction false} SanitizedValid(s: string)
    ensures Valid(Sanitized(s)) && '\0' !in Sanitized(s)
    decreases |s|
  {
    if s == "" {
    } else {
      if Copies(s) {
        SanitizedValid(s[Decode(s).len..]);
        CopiedFirst(s, Sanitized(s[Decode(s).len..]));
      } else {
        SanitizedValid(s[1..]);
        EscapedFirst(s[0], Sanitized(s[1..]));
      }
    }
  }

  lemma {:induction false} SanitizedIdentity(s: string)
    ensures |Sanitized(s)| >= |s|
    ensures Sanitized(s) == s <==> Valid(s) && '\0' !in s
    decreases |s|
  {
    if s == "" {
    } else {
      if Copies(s) {
        var n := Decode(s).len;
        SanitizedIdentity(s[n..]);
        assert s == s[..n] + s[n..];
        CopiedFirst(s, "");
        assert s[..n] + "" == s[..n];
      } else {
        SanitizedIdentity(s[1..]);
        assert |Sanitized(s)| > |s|;
      }
    }
  }

  lemma {:induction false} AsciiValid(s: string)
    requires IsAscii(s)
    ensures Valid(s)
  {
    if s == "" {
    } else {
      assert Gathered(s, 0) == s[0] as int;
      AsciiValid(s[1..]);
    }
  }

  /** The display form always is valid UTF-8; it differs from the text exactly when
      the text has a byte above 0x7F and is not valid, NUL-free UTF-8; and
      displaying it again changes nothing. */
  lemma TelemetrySafeCorrect(s: string)
    ensures Valid(TelemetrySafe(s))
    ensures TelemetrySafe(s) == s <==> IsAscii(s) || (Valid(s) && '\0' !in s)
    ensures TelemetrySafe(TelemetrySafe(s)) == TelemetrySafe(s)
  {
    if IsAscii(s) {
      AsciiValid(s);
    } else {
      SanitizedValid(s);
      SanitizedIdentity(s);
      SanitizedIdentity(Sanitized(s));
    }
  }

  // --- nothing is lost by escaping --------------------------------------------------------------

  predicate IsHex(c: char) { '0' <= c <= '9' || 'A' <= c <= 'F' }

  function HexValue(c: char): int
    requires IsHex(c)
  {
    if c <= '9' then c as int - '0' as int else c as int - 'A' as int + 10
  }

  /** Reads escapes back as the bytes they stand for. */
  function Unescaped(s: string): string {
    if s == "" then ""
    else if |s| >= 4 && s[0] == '\\' && s[1] == 'x' && IsHex(s[2]) && IsHex(s[3])
    then [(HexValue(s[2]) * 16 + HexValue(s[3])) as char] + Unescaped(s[4..])
    else [s[0]] + Unescaped(s[1..])
  }

  lemma {:induction false} UnescapedCopy(a: string, rest: string)
    requires '\\' !in a
    ensures Unescaped(a + rest) == a + Unescaped(rest)
  {
    if a == "" {
      assert a + rest == rest;
    } else {
      assert (a + rest)[0] == a[0] && (a + rest)[1..] == a[1..] + rest;
      UnescapedCopy(a[1..], rest);
    }
  }

  lemma HexDigit(d: nat)
    requires d < 16
    ensures IsHex(HEX[d]) && HexValue(HEX[d]) == d
  {
  }

  lemma UnescapedEscape(c: char, rest: string)
    requires c as int < 0x100
    ensures Unescaped(Escaped(c) + rest) == [c] + Unescaped(rest)
  {
    HexDigit(c as int / 16);
    HexDigit(c as int % 16);
    var t := Escaped(c) + rest;
    assert t[4..] == rest && t[0] == '\\' && t[1] == 'x' && t[2] == HEX[c as int / 16] && t[3] == HEX[c as int % 16];
  }

  lemma {:induction false} UnescapedSanitized(s: string)
    requires ByteString(s) && '\\' !in s
    ensures Unescaped(Sanitized(s)) == s
  {
    if s == "" {
    } else {
      var n := if Copies(s) then Decode(s).len else 1;
      UnescapedSanitized(s[n..]);
      assert s == s[..n] + s[n..];
      if Copies(s) { UnescapedCopy(s[..n], Sanitized(s[n..])); } else { UnescapedEscape(s[0], Sanitized(s[n..])); }
    }
  }

  /** The escapes name the bytes they replace: a text without backslashes can be read back
      from what is displayed. */
  lemma EscapesReadBack(s: string)
    requires ByteString(s) && '\\' !in s
    ensures Unescaped(TelemetrySafe(s)) == s
  {
    UnescapedSanitized(s);
    UnescapedCopy(s, "");
    assert s + "" == s;
  }
}
