/** The gzip (RFC 1952) and zlib (RFC 1950) wrappers around a DEFLATE stream. */
module Containers {
  import opened Words
  import opened BitReading
  import opened Inflate
  import opened Options

  /** Flag bit `k` of a byte. */
  predicate Flag(flags: nat, k: nat) {
    And(flags, Pow2(k)) != 0
  }

  lemma {:induction false} FlagIsBit(flags: nat, k: nat)
    ensures Flag(flags, k) <==> Shr(flags, k) % 2 == 1
  {
    if flags == 0 {
      ShrZero(k);
    } else if k > 0 {
      FlagIsBit(flags / 2, k - 1);
    } else {
      assert And(flags / 2, 0) == 0;
    }
  }

  lemma {:induction false} ShrZero(k: nat)
    ensures Shr(0, k) == 0
  {
    if k > 0 { ShrZero(k - 1); }
  }

  // ----- gzip: the format -----

  /** The optional parts of a gzip header. */
  datatype GzipHeader = GzipHeader(
    text: bool,
    fixedPart: seq<byte>,
    extra: Option<seq<byte>>,
    name: Option<seq<byte>>,
    comment: Option<seq<byte>>,
    headerCrc: Option<seq<byte>>)

  predicate ZeroFree(s: seq<byte>) {
    forall i :: 0 <= i < |s| ==> s[i] != 0
  }

  ghost predicate GzipHeaderOk(h: GzipHeader) {
    && |h.fixedPart| == 6
    && (h.extra.Some? ==> |h.extra.value| < 65536)
    && (h.name.Some? ==> ZeroFree(h.name.value))
    && (h.comment.Some? ==> ZeroFree(h.comment.value))
    && (h.headerCrc.Some? ==> |h.headerCrc.value| == 2)
  }

  function Bit(b: bool): nat {
    if b then 1 else 0
  }

  function Flags(h: GzipHeader): byte {
    Bit(h.text) + 2 * Bit(h.headerCrc.Some?) + 4 * Bit(h.extra.Some?) + 8 * Bit(h.name.Some?) +
      16 * Bit(h.comment.Some?)
  }

  function ExtraField(e: Option<seq<byte>>): seq<byte>
    requires e.Some? ==> |e.value| < 65536
  {
    if e.None? then [] else [|e.value| % 256, |e.value| / 256] + e.value
  }

  function StringField(s: Option<seq<byte>>): seq<byte> {
    if s.None? then [] else s.value + [0]
  }

  function CrcField(s: Option<seq<byte>>): seq<byte> {
    if s.None? then [] else s.value
  }

  function GzipBytes(h: GzipHeader, payload: seq<byte>, trailer: seq<byte>): seq<byte>
    requires GzipHeaderOk(h)
  {
    [0x1f, 0x8b, 8, Flags(h)] + h.fixedPart +
    (ExtraField(h.extra) + (StringField(h.name) +
                            (StringField(h.comment) + (CrcField(h.headerCrc) + (payload + trailer)))))
  }

  // ----- gzip: what the source does -----

  /** Past the next zero byte at or after `i`, or past the end. */
  function SkipString(input: seq<byte>, i: nat): (r: nat)
    ensures i < r
    decreases |input| - i
  {
    if i < |input| && input[i] != 0 then SkipString(input, i + 1) else i + 1
  }

  function LittleEndian16(low: nat, high: nat): nat {
    low + 256 * high
  }

  /** A byte moved to the high half of a 16-bit word. */
  function HighByte(b: nat): nat {
    b * 256
  }

  /** Where the payload starts, after the fields the flags announce. */
  function PayloadStart(input: seq<byte>): Result<nat>
    requires |input| >= 10
  {
    var flg := input[3];
    if Flag(flg, 2) && 12 > |input| then Err(BadContainer)
    else
      var i1 := if Flag(flg, 2) then 12 + LittleEndian16(input[10], input[11]) else 10;
      var i2 := if Flag(flg, 3) then SkipString(input, i1) else i1;
      var i3 := if Flag(flg, 4) then SkipString(input, i2) else i2;
      var i4 := if Flag(flg, 1) then i3 + 2 else i3;
      Ok(i4)
  }

  function GzipPayload(input: seq<byte>): Result<seq<byte>> {
    if |input| < 10 || input[0] != 0x1f || input[1] != 0x8b then Err(BadContainer)
    else if input[2] != 8 then Err(BadContainer)
    else
      var i :- PayloadStart(input);
      if i + 8 > |input| then Err(BadContainer) else Ok(input[i..|input| - 8])
  }

  /** Nothing shorter than an empty header and trailer is taken. */
  lemma GzipIsLong(input: seq<byte>)
    requires GzipPayload(input).Ok?
    ensures |input| >= 18 && input[0] == 0x1f && input[1] == 0x8b && input[2] == 8
  {
    hide SkipString, Flag, LittleEndian16;
  }

  method SkipZeroTerminated(input: seq<byte>, i0: nat) returns (i: nat)
    ensures i == SkipString(input, i0)
  {
    i := i0;
    while i < |input| && input[i] != 0
      invariant SkipString(input, i) == SkipString(input, i0)
      decreases |input| - i
    {
      i := i + 1;
    }
    i := i + 1;
  }

  /** Skips the optional header fields. */
  method FindPayload(input: seq<byte>) returns (r: Result<nat>)
    requires |input| >= 10
    ensures r == PayloadStart(input)
  {
    hide SkipString, LittleEndian16;
    var flg := input[3];
    var i: nat := 10;
    assert Pow2(1) == 2 && Pow2(2) == 4 && Pow2(3) == 8 && Pow2(4) == 16;
    if And(flg, 4) != 0 {
      if i + 2 > |input| {
        return Err(BadContainer);
      }
      var xlen := LittleEndian16(input[i], input[i + 1]);
      i := i + 2 + xlen;
    }
    if And(flg, 8) != 0 {
      i := SkipZeroTerminated(input, i);
    }
    if And(flg, 16) != 0 {
      i := SkipZeroTerminated(input, i);
    }
    if And(flg, 2) != 0 {
      i := i + 2;
    }
    return Ok(i);
  }

  method Gunzip(input: seq<byte>) returns (r: Result<seq<byte>>)
    ensures GzipPayload(input).Err? ==> r == Err(GzipPayload(input).error)
    ensures GzipPayload(input).Ok? ==> r == InflateBits(StreamBits(GzipPayload(input).value), [])
  {
    hide PayloadStart, InflateBits;
    if |input| < 10 || input[0] != 0x1f || input[1] != 0x8b {
      return Err(BadContainer);
    }
    if input[2] != 8 {
      return Err(BadContainer);
    }
    var i :- FindPayload(input);
    if i + 8 > |input| {
      return Err(BadContainer);
    }
    r := InflateRaw(input[i..|input| - 8]);
  }

  // ----- gzip: the wrapper comes off -----

  lemma FlagsSay(h: GzipHeader)
    ensures Flag(Flags(h), 1) == h.headerCrc.Some? && Flag(Flags(h), 2) == h.extra.Some?
    ensures Flag(Flags(h), 3) == h.name.Some? && Flag(Flags(h), 4) == h.comment.Some?
  {
    var f := Flags(h);
    FlagIsBit(f, 1);
    FlagIsBit(f, 2);
    FlagIsBit(f, 3);
    FlagIsBit(f, 4);
    hide Flag, Flags;
    ShrOnce(f, 1);
    ShrOnce(f, 2);
    ShrOnce(f, 3);
    ShrOnce(f, 4);
    var b := Bit(h.comment.Some?);
    var c := 2 * b + Bit(h.name.Some?);
    var d := 2 * c + Bit(h.extra.Some?);
    var e := 2 * d + Bit(h.headerCrc.Some?);
    assert f == 2 * e + Bit(h.text);
    assert Shr(f, 1) == e && Shr(f, 2) == d && Shr(f, 3) == c && Shr(f, 4) == b;
  }

  lemma {:induction false} ShrOnce(v: nat, n: nat)
    requires n > 0
    ensures Shr(v, n) == Shr(v, n - 1) / 2
  {
    if n > 1 { ShrOnce(v / 2, n - 1); }
  }

  lemma {:induction false} SkipsString(input: seq<byte>, i: nat, s: seq<byte>)
    requires i + |s| < |input| && input[i..i + |s|] == s && ZeroFree(s) && input[i + |s|] == 0
    ensures SkipString(input, i) == i + |s| + 1
    decreases |s|
  {
    if s != [] {
      assert input[i] == s[0];
      assert input[i + 1..i + |s|] == s[1..];
      SkipsString(input, i + 1, s[1..]);
    }
  }

  lemma SkipsField(input: seq<byte>, before: seq<byte>, f: Option<seq<byte>>, rest: seq<byte>)
    requires input == before + (StringField(f) + rest) && (f.Some? ==> ZeroFree(f.value))
    ensures (if f.Some? then SkipString(input, |before|) else |before|) == |before| + |StringField(f)|
    ensures input == before + StringField(f) + rest
  {
    if f.Some? {
      assert input[|before|..|before| + |f.value|] == f.value;
      SkipsString(input, |before|, f.value);
    }
  }

  lemma SkipsExtra(input: seq<byte>, before: seq<byte>, e: Option<seq<byte>>, rest: seq<byte>)
    requires |before| == 10 && (e.Some? ==> |e.value| < 65536) && input == before + (ExtraField(e) + rest)
    ensures e.Some? ==> |input| >= 12 && 12 + LittleEndian16(input[10], input[11]) == 10 + |ExtraField(e)|
    ensures e.None? ==> |ExtraField(e)| == 0
    ensures input == before + ExtraField(e) + rest
  {
  }

  /** The fixed part of a header. */
  function GzipStart(h: GzipHeader): seq<byte> {
    [0x1f, 0x8b, 8, Flags(h)] + h.fixedPart
  }

  lemma PayloadStartIs(h: GzipHeader, payload: seq<byte>, trailer: seq<byte>)
    requires GzipHeaderOk(h)
    ensures |GzipBytes(h, payload, trailer)| >= 10
    ensures PayloadStart(GzipBytes(h, payload, trailer)) ==
            Ok(|GzipBytes(h, payload, trailer)| - |payload| - |trailer|)
  {
    hide Flag, SkipString, StringField, Flags, ExtraField, ZeroFree, LittleEndian16;
    var input, p0 := GzipBytes(h, payload, trailer), GzipStart(h);
    var t3 := CrcField(h.headerCrc) + (payload + trailer);
    var t2 := StringField(h.comment) + t3;
    var t1 := StringField(h.name) + t2;
    assert |p0| == 10 && input == p0 + (ExtraField(h.extra) + t1);
    assert input[3] == p0[3] == Flags(h);
    FlagsSay(h);
    SkipsExtra(input, p0, h.extra, t1);
    var p1 := p0 + ExtraField(h.extra);
    SkipsField(input, p1, h.name, t2);
    SkipsField(input, p1 + StringField(h.name), h.comment, t3);
  }

  /** Unwrapping a gzip member, whatever its optional header fields, leaves its payload. */
  lemma GunzipUndoesGzip(h: GzipHeader, payload: seq<byte>, trailer: seq<byte>)
    requires GzipHeaderOk(h) && |trailer| == 8
    ensures GzipPayload(GzipBytes(h, payload, trailer)) == Ok(payload)
  {
    hide PayloadStart, Flags, ExtraField, StringField, ZeroFree;
    PayloadStartIs(h, payload, trailer);
    var input := GzipBytes(h, payload, trailer);
    var i := |input| - |payload| - 8;
    assert input[i..] == payload + trailer;
    assert input[i..|input| - 8] == payload;
  }

  // ----- gzip: nothing else is taken for it -----

  lemma {:induction false} SkippedString(input: seq<byte>, i: nat)
    requires SkipString(input, i) <= |input|
    ensures input[SkipString(input, i) - 1] == 0 && ZeroFree(input[i..SkipString(input, i) - 1])
    decreases |input| - i
  {
    var r := SkipString(input, i);
    if i < |input| && input[i] != 0 {
      SkippedString(input, i + 1);
      assert input[i..r - 1] == [input[i]] + input[i + 1..r - 1];
    }
  }

  /** The string field between two places, if the flag announces one. */
  lemma StringBetween(input: seq<byte>, flag: bool, i: nat, r: nat, s: Option<seq<byte>>)
    requires i <= r <= |input| && r == (if flag then SkipString(input, i) else i)
    requires s == if flag then Some(input[i..r - 1]) else None
    ensures StringField(s) == input[i..r] && (s.Some? ==> ZeroFree(s.value))
  {
    if flag { SkippedString(input, i); }
  }

  lemma FlagBits(f: nat, h: GzipHeader)
    requires f < 32 && h.text == (f % 2 == 1) && h.headerCrc.Some? == Flag(f, 1) && h.extra.Some? == Flag(f, 2)
    requires h.name.Some? == Flag(f, 3) && h.comment.Some? == Flag(f, 4)
    ensures Flags(h) == f
  {
    FlagIsBit(f, 1);
    FlagIsBit(f, 2);
    FlagIsBit(f, 3);
    FlagIsBit(f, 4);
    hide Flag;
    assert Shr(f, 1) == f / 2 && Shr(f, 2) == f / 2 / 2 by { ShrOnce(f, 1); ShrOnce(f, 2); }
    assert Shr(f, 3) == f / 2 / 2 / 2 && Shr(f, 4) == f / 2 / 2 / 2 / 2 by { ShrOnce(f, 3); ShrOnce(f, 4); }
    hide Shr;
    FiveBits(f);
  }

  lemma FiveBits(f: nat)
    requires f < 32
    ensures f == f % 2 + 2 * (f / 2 % 2) + 4 * (f / 2 / 2 % 2) + 8 * (f / 2 / 2 / 2 % 2) + 16 * (f / 2 / 2 / 2 / 2 % 2)
  {
  }

  /** The extra field between two places, if the flag announces one. */
  lemma ExtraBetween(input: seq<byte>, flag: bool, r: nat, e: Option<seq<byte>>)
    requires 10 <= r <= |input| && (flag ==> 12 <= |input| && r == 12 + LittleEndian16(input[10], input[11]))
    requires !flag ==> r == 10
    requires e == if flag then Some(input[12..r]) else None
    ensures (e.Some? ==> |e.value| < 65536) && ExtraField(e) == input[10..r]
  {
    if flag {
      var n := r - 12;
      DivModUnique(n, 256, input[11], input[10]);
      assert input[10..r] == [input[10], input[11]] + input[12..r];
    }
  }

  lemma Places(input: seq<byte>) returns (i1: nat, i2: nat, i3: nat, i4: nat)
    requires GzipPayload(input).Ok?
    ensures |input| >= 10 && input[..3] == [0x1f, 0x8b, 8] && 10 <= i1 <= i2 <= i3 <= i4 <= |input| - 8
    ensures GzipPayload(input) == Ok(input[i4..|input| - 8])
    ensures var f := input[3];
            && (Flag(f, 2) ==> 12 <= |input| && i1 == 12 + LittleEndian16(input[10], input[11]))
            && (!Flag(f, 2) ==> i1 == 10)
            && i2 == (if Flag(f, 3) then SkipString(input, i1) else i1)
            && i3 == (if Flag(f, 4) then SkipString(input, i2) else i2)
            && i4 == (if Flag(f, 1) then i3 + 2 else i3)
  {
    hide Flag, SkipString;
    var f := input[3];
    i1 := if Flag(f, 2) then 12 + LittleEndian16(input[10], input[11]) else 10;
    i2 := if Flag(f, 3) then SkipString(input, i1) else i1;
    i3 := if Flag(f, 4) then SkipString(input, i2) else i2;
    i4 := if Flag(f, 1) then i3 + 2 else i3;
  }

  lemma GzipBytesAre(h: GzipHeader, input: seq<byte>, i1: nat, i2: nat, i3: nat, i4: nat, payload: seq<byte>,
                     trailer: seq<byte>)
    requires GzipHeaderOk(h) && 10 <= i1 <= i2 <= i3 <= i4 <= |input|
    requires [0x1f, 0x8b, 8, Flags(h)] + h.fixedPart == input[..10] && ExtraField(h.extra) == input[10..i1]
    requires StringField(h.name) == input[i1..i2] && StringField(h.comment) == input[i2..i3]
    requires CrcField(h.headerCrc) == input[i3..i4] && payload + trailer == input[i4..]
    ensures GzipBytes(h, payload, trailer) == input
  {
    hide Flags, ExtraField, StringField, CrcField;
    Rejoined(input, i1, i2, i3, i4);
  }

  /** Every input that is taken for gzip, reserved flags aside, is a gzip member of the format around that payload. */
  lemma OnlyGzipIsTaken(input: seq<byte>) returns (h: GzipHeader, trailer: seq<byte>)
    requires GzipPayload(input).Ok? && input[3] < 32
    ensures GzipHeaderOk(h) && |trailer| == 8 && input == GzipBytes(h, GzipPayload(input).value, trailer)
  {
    hide Flag, SkipString, GzipPayload, GzipBytes, LittleEndian16, ExtraField, StringField, ZeroFree, Flags;
    var i1, i2, i3, i4 := Places(input);
    var f := input[3];
    var extra := if Flag(f, 2) then Some(input[12..i1]) else None;
    var name := if Flag(f, 3) then Some(input[i1..i2 - 1]) else None;
    var comment := if Flag(f, 4) then Some(input[i2..i3 - 1]) else None;
    var crc := if Flag(f, 1) then Some(input[i3..i4]) else None;
    h := GzipHeader(f % 2 == 1, input[4..10], extra, name, comment, crc);
    trailer := input[|input| - 8..];
    ExtraBetween(input, Flag(f, 2), i1, extra);
    StringBetween(input, Flag(f, 3), i1, i2, name);
    StringBetween(input, Flag(f, 4), i2, i3, comment);
    FlagBits(f, h);
    assert [0x1f, 0x8b, 8, f] + input[4..10] == input[..10] by { assert input[..10] == input[..3] + input[3..10]; }
    GzipBytesAre(h, input, i1, i2, i3, i4, input[i4..|input| - 8], trailer);
  }

  lemma Rejoined(input: seq<byte>, i1: nat, i2: nat, i3: nat, i4: nat)
    requires 10 <= i1 <= i2 <= i3 <= i4 <= |input|
    ensures input[..10] + (input[10..i1] + (input[i1..i2] + (input[i2..i3] + (input[i3..i4] + input[i4..])))) == input
  {
    assert input[i3..i4] + input[i4..] == input[i3..];
    assert input[i2..i3] + input[i3..] == input[i2..];
    assert input[i1..i2] + input[i2..] == input[i1..];
    assert input[10..i1] + input[i1..] == input[10..];
  }

  // ----- zlib -----

  /** A zlib stream: method 8, a header that is a multiple of 31, an optional dictionary id, a checksum. */
  ghost predicate ZlibHeaderOk(cmf: byte, flg: byte, dict: Option<seq<byte>>) {
    && cmf % 16 == 8
    && (256 * cmf + flg) % 31 == 0
    && (Flag(flg, 5) <==> dict.Some?)
    && (dict.Some? ==> |dict.value| == 4)
  }

  function ZlibBytes(cmf: byte, flg: byte, dict: Option<seq<byte>>, payload: seq<byte>, trailer: seq<byte>): seq<byte> {
    [cmf, flg] + CrcField(dict) + (payload + trailer)
  }

  /** Which bytes are inflated, after whatever wrapper is recognised. */
  function AutoPayload(input: seq<byte>): Result<seq<byte>> {
    if |input| >= 2 && input[0] == 0x1f && input[1] == 0x8b then GzipPayload(input)
    else if |input| >= 2 && And(input[0], 0x0f) == 8 && Or(HighByte(input[0]), input[1]) % 31 == 0 then
      var off := if Flag(input[1], 5) then 6 else 2;
      if off >= |input| then Err(BadContainer)
      else
        var end := if |input| >= off + 4 then |input| - 4 else |input|;
        Ok(input[off..if end < off then off else end])
    else Ok(input)
  }

  method InflateAuto(input: seq<byte>) returns (r: Result<seq<byte>>)
    ensures AutoPayload(input).Err? ==> r == Err(AutoPayload(input).error)
    ensures AutoPayload(input).Ok? ==> r == InflateBits(StreamBits(AutoPayload(input).value), [])
  {
    if |input| >= 2 && input[0] == 0x1f && input[1] == 0x8b {
      r := Gunzip(input);
      return;
    }
    if |input| >= 2 && And(input[0], 0x0f) == 8 {
      var check := Or(HighByte(input[0]), input[1]);
      if check % 31 == 0 {
        var flg := input[1];
        var off := 2;
        assert Pow2(5) == 32;
        if And(flg, 0x20) != 0 {
          off := off + 4;
        }
        if off >= |input| {
          return Err(BadContainer);
        }
        var end := if |input| >= off + 4 then |input| - 4 else |input|;
        r := InflateRaw(input[off..if end < off then off else end]);
        return;
      }
    }
    r := InflateRaw(input);
  }

  lemma ZlibChecks(cmf: byte, flg: byte)
    ensures And(cmf, 0x0f) == cmf % 16 && Or(HighByte(cmf), flg) == 256 * cmf + flg
  {
    assert Pow2(4) - 1 == 0x0f && Pow2(8) == 256;
    AndMask(cmf, 4);
    LowIsMod(cmf);
    OrDisjoint(flg, cmf, 8);
    OrCommutes(flg, HighByte(cmf));
  }

  /** The first two bytes are a zlib header. */
  predicate LikeZlib(a: nat, b: nat) {
    a % 16 == 8 && (256 * a + b) % 31 == 0
  }

  /**
   * Which inputs are taken for zlib, and which of their bytes are inflated; short trailers are inflated with the
   * rest.
   */
  lemma AutoIs(input: seq<byte>, a: nat, b: nat)
    requires |input| >= 2 && a == input[0] && b == input[1]
    ensures a == 0x1f && b == 0x8b ==> AutoPayload(input) == GzipPayload(input)
    ensures LikeZlib(a, b) ==>
              var off := if b / 32 % 2 == 1 then 6 else 2;
              AutoPayload(input) == if |input| <= off then Err(BadContainer)
                                    else if |input| < off + 4 then Ok(input[off..])
                                    else Ok(input[off..|input| - 4])
    ensures !(a == 0x1f && b == 0x8b) && !LikeZlib(a, b) ==> AutoPayload(input) == Ok(input)
  {
    ZlibChecks(input[0], input[1]);
    DictionaryFlag(b);
    NotBoth(a, b);
    hide Flag, And, Or, HighByte, GzipPayload;
    var off := if b / 32 % 2 == 1 then 6 else 2;
    if off < |input| { assert input[off..|input|] == input[off..]; }
  }

  lemma DictionaryFlag(b: nat)
    ensures Flag(b, 5) <==> b / 32 % 2 == 1
  {
    FlagIsBit(b, 5);
    ShrIsDiv(b, 5);
    SmallPowers();
    hide Flag, Shr, Pow2;
  }

  lemma NotBoth(a: nat, b: nat)
    ensures a == 0x1f ==> a % 16 != 8
  {
  }

  /** One byte or none is inflated as it is. */
  lemma AutoShort(input: seq<byte>)
    requires |input| < 2
    ensures AutoPayload(input) == Ok(input)
  {
  }

  /** Unwrapping a zlib stream, with or without a dictionary id, leaves its payload. */
  lemma AutoUndoesZlib(cmf: byte, flg: byte, dict: Option<seq<byte>>, payload: seq<byte>, trailer: seq<byte>)
    requires ZlibHeaderOk(cmf, flg, dict) && |trailer| == 4
    ensures AutoPayload(ZlibBytes(cmf, flg, dict, payload, trailer)) == Ok(payload)
  {
    hide Flag, And, Or, HighByte;
    var input := ZlibBytes(cmf, flg, dict, payload, trailer);
    ZlibChecks(cmf, flg);
    var off := 2 + |CrcField(dict)|;
    assert input[0] == cmf && input[1] == flg && |input| == off + |payload| + 4;
    assert cmf != 0x1f;
    assert input[off..] == payload + trailer;
    assert input[off..|input| - 4] == payload;
  }
}
