/** The buffered bit reader of the inflater, refined to a plain sequence of bits. */
module BitReading {
  import opened Words

  datatype Error =
    | UnexpectedEnd
    | StoredLengthMismatch
    | BadBlockType
    | OutputTooLarge
    | BadCodeLength
    | NoSuchCode
    | BadHuffmanSymbol
    | BadLengths
    | BadCodeLengthSymbol
    | BadDistanceSymbol
    | BadDistance
    | BadLiteralSymbol
    | BadContainer

  datatype Result<+T> = Ok(value: T) | Err(error: Error) {
    predicate IsFailure() { Err? }

    function PropagateFailure<U>(): Result<U>
      requires Err?
    {
      Err(error)
    }

    function Extract(): T
      requires Ok?
    {
      value
    }
  }

  // ----- the reader as a function on bit sequences -----

  /** The next `n` bits as a number, and the bits after them. */
  function TakeBits(bits: seq<bool>, n: nat): (r: Result<(nat, seq<bool>)>)
    ensures r.Ok? ==> r.value.0 < Pow2(n)
  {
    if |bits| < n then Err(UnexpectedEnd) else Ok((Val(bits[..n]), bits[n..]))
  }

  /** What is left after dropping bits up to the next byte boundary. */
  function Align(bits: seq<bool>): (r: seq<bool>)
    ensures |r| % 8 == 0 && |bits| - |r| < 8
  {
    bits[|bits| % 8..]
  }

  /** The next whole byte after the next byte boundary. */
  function TakeByte(bits: seq<bool>): Result<(nat, seq<bool>)> {
    TakeBits(Align(bits), 8)
  }

  lemma TakeBitsOf(v: nat, n: nat, rest: seq<bool>)
    requires v < Pow2(n)
    ensures TakeBits(BitsOf(v, n) + rest, n) == Ok((v, rest))
  {
    ValBitsOf(v, n);
    assert (BitsOf(v, n) + rest)[..n] == BitsOf(v, n);
    assert (BitsOf(v, n) + rest)[n..] == rest;
  }

  // ----- the reader's state as a value -----

  /** The bits a reader has left: those in its buffer, then those of the unread bytes. */
  function Left(bitbuf: nat, bitcnt: nat, data: seq<byte>, pos: nat): (r: seq<bool>)
    requires pos <= |data|
    ensures |r| == bitcnt + 8 * (|data| - pos)
  {
    BitsOf(bitbuf, bitcnt) + StreamBits(data[pos..])
  }

  lemma {:induction false} ScaleBound(d: nat, m: nat, n: nat)
    requires d < Pow2(n)
    ensures d * Pow2(m) + Pow2(m) <= Pow2(m + n)
  {
    if m > 0 {
      ScaleBound(d, m - 1, n);
      TimesDouble(d, Pow2(m - 1));
    }
  }

  /** `left` is what remains of `data` after its first bits have been consumed. */
  ghost predicate Suffix(left: seq<bool>, data: seq<byte>) {
    |left| <= 8 * |data| && left == StreamBits(data)[8 * |data| - |left|..]
  }

  lemma SuffixDrop(left: seq<bool>, data: seq<byte>, n: nat)
    requires Suffix(left, data) && n <= |left|
    ensures Suffix(left[n..], data)
  {
  }

  /** Or-ing `n` more bits above the buffered ones puts them after these. */
  lemma AppendBits(buf: nat, cnt: nat, d: nat, n: nat, width: nat)
    requires buf < Pow2(cnt) && d < Pow2(n) && cnt + n <= width
    ensures Or(buf, Shl(d, cnt, width)) < Pow2(cnt + n)
    ensures BitsOf(Or(buf, Shl(d, cnt, width)), cnt + n) == BitsOf(buf, cnt) + BitsOf(d, n)
  {
    ScaleBound(d, cnt, n);
    Pow2Monotone(cnt + n, width);
    LowFits(d * Pow2(cnt), width);
    OrDisjoint(buf, d, cnt);
    BitsOfJoin(buf, d, cnt, n);
  }

  lemma NextByteBits(data: seq<byte>, pos: nat)
    requires pos < |data|
    ensures StreamBits(data[pos..]) == BitsOf(data[pos], 8) + StreamBits(data[pos + 1..])
  {
    hide BitsOf;
    assert data[pos..][1..] == data[pos + 1..];
  }

  lemma LoadByte(buf: nat, cnt: nat, data: seq<byte>, pos: nat)
    requires buf < Pow2(cnt) && cnt <= 24 && pos < |data|
    ensures var loaded := Or(buf, Shl(data[pos], cnt, 32));
            loaded < Pow2(cnt + 8) && Left(loaded, cnt + 8, data, pos + 1) == Left(buf, cnt, data, pos)
  {
    assert Pow2(8) == 256;
    hide Or, Shl, BitsOf, Pow2, StreamBits;
    AppendBits(buf, cnt, data[pos], 8, 32);
    NextByteBits(data, pos);
    var low, high, rest := BitsOf(buf, cnt), BitsOf(data[pos], 8), StreamBits(data[pos + 1..]);
    assert low + high + rest == low + (high + rest);
  }

  lemma DropBits(buf: nat, cnt: nat, n: nat, data: seq<byte>, pos: nat)
    requires n <= cnt && buf < Pow2(cnt) && pos <= |data|
    ensures Shr(buf, n) < Pow2(cnt - n)
    ensures And(buf, Pow2(n) - 1) == Val(Left(buf, cnt, data, pos)[..n])
    ensures Left(Shr(buf, n), cnt - n, data, pos) == Left(buf, cnt, data, pos)[n..]
  {
    hide Pow2, BitsOf, Shr, And, Val, Low, StreamBits;
    AndMask(buf, n);
    ValBitsOfLow(buf, n);
    BitsOfSplit(buf, n, cnt - n);
    ShrBound(buf, n, cnt - n);
    assert Left(buf, cnt, data, pos) == BitsOf(buf, n) + Left(Shr(buf, n), cnt - n, data, pos);
  }

  /** Dropping the odd bits of the buffer aligns the whole stream: unread bytes are whole. */
  lemma DropToByte(buf: nat, cnt: nat, data: seq<byte>, pos: nat)
    requires buf < Pow2(cnt) && pos <= |data|
    ensures Left(Shr(buf, cnt % 8), cnt - cnt % 8, data, pos) == Align(Left(buf, cnt, data, pos))
    ensures Left(buf, cnt, data, pos)[cnt % 8..] == Align(Left(buf, cnt, data, pos))
    ensures Shr(buf, cnt % 8) < Pow2(cnt - cnt % 8)
  {
    var drop := cnt % 8;
    hide Left, Shr, Pow2;
    DropBits(buf, cnt, drop, data, pos);
    WholeBytes(cnt, |data| - pos);
  }

  lemma WholeBytes(cnt: nat, unread: nat)
    ensures (cnt + 8 * unread) % 8 == cnt % 8
  {
    DivModUnique(cnt + 8 * unread, 8, cnt / 8 + unread, cnt % 8);
  }

  lemma TakeBufferedByte(buf: nat, cnt: nat, data: seq<byte>, pos: nat)
    requires buf < Pow2(cnt) && pos <= |data| && cnt >= 8
    ensures Shr(buf, 8) < Pow2(cnt - 8) && And(buf, 0xff) < 256
    ensures Left(Shr(buf, 8), cnt - 8, data, pos) == Left(buf, cnt, data, pos)[8..]
    ensures And(buf, 0xff) == Val(Left(buf, cnt, data, pos)[..8])
  {
    assert Pow2(8) - 1 == 0xff;
    DropBits(buf, cnt, 8, data, pos);
  }

  lemma SkipByte(buf: nat, cnt: nat, data: seq<byte>, pos: nat)
    requires pos < |data| && cnt == 0
    ensures data[pos] == Val(Left(buf, cnt, data, pos)[..8])
    ensures Left(buf, cnt, data, pos + 1) == Left(buf, cnt, data, pos)[8..]
  {
    assert Pow2(8) == 256;
    ValBitsOf(data[pos], 8);
    NextByteBits(data, pos);
    assert BitsOf(buf, cnt) == [];
    assert Left(buf, cnt, data, pos) == BitsOf(data[pos], 8) + StreamBits(data[pos + 1..]);
  }

  class BitReader {
    const data: seq<byte>
    var pos: nat
    var bitbuf: nat
    var bitcnt: nat
    /** The bits not yet consumed. */
    ghost var left: seq<bool>

    ghost predicate Valid()
      reads this
    {
      && pos <= |data|
      && bitcnt <= 32
      && bitbuf < Pow2(bitcnt)
      && left == Left(bitbuf, bitcnt, data, pos)
      && Suffix(left, data)
    }

    /** The number of bits consumed: what is left is the stream from there on. */
    ghost function Consumed(): (n: int)
      requires Valid()
      reads this
      ensures 0 <= n <= 8 * |data| && left == StreamBits(data)[n..]
      ensures n == 8 * pos - bitcnt
    {
      8 * |data| - |left|
    }

    constructor (data: seq<byte>)
      ensures Valid() && this.data == data && left == StreamBits(data)
    {
      this.data := data;
      pos, bitbuf, bitcnt := 0, 0, 0;
      left := StreamBits(data);
      new;
      assert data[0..] == data;
      assert BitsOf(0, 0) == [];
    }

    /** The buffer takes whole bytes while at least eight of its 32 bits are free. */
    method Fill()
      requires Valid()
      modifies this
      ensures Valid() && left == old(left)
      ensures bitcnt > 24 || pos == |data|
    {
      hide Left, Suffix, Shl, Or, Pow2;
      while bitcnt <= 24 && pos < |data|
        invariant Valid() && left == old(left)
        decreases |data| - pos
      {
        LoadByte(bitbuf, bitcnt, data, pos);
        bitbuf := Or(bitbuf, Shl(data[pos], bitcnt, 32));
        bitcnt := bitcnt + 8;
        pos := pos + 1;
      }
    }

    /** The next `n` bits, least significant first; nothing is consumed on failure. */
    method Bits(n: nat) returns (r: Result<nat>)
      requires Valid() && n <= 25
      modifies this
      ensures Valid()
      ensures r.Ok? <==> n <= |old(left)|
      ensures r.Ok? ==> TakeBits(old(left), n) == Ok((r.value, left)) && r.value < Pow2(n)
      ensures r.Err? ==> r.error == UnexpectedEnd && left == old(left)
      ensures r.Err? ==> TakeBits(old(left), n) == Err(r.error)
    {
      hide Left, Suffix, Shr, And, Val;
      Fill();
      if bitcnt < n {
        return Err(UnexpectedEnd);
      }
      DropBits(bitbuf, bitcnt, n, data, pos);
      SuffixDrop(left, data, n);
      var v := And(bitbuf, Pow2(n) - 1);
      bitbuf := Shr(bitbuf, n);
      bitcnt := bitcnt - n;
      left := left[n..];
      return Ok(v);
    }

    /** Consumption rounds up to a whole number of bytes. */
    method AlignByte()
      requires Valid()
      modifies this
      ensures Valid() && left == Align(old(left)) && bitcnt % 8 == 0
    {
      hide Left, Suffix, Align, Shr, Pow2;
      DropToByte(bitbuf, bitcnt, data, pos);
      SuffixDrop(left, data, bitcnt % 8);
      var drop := bitcnt % 8;
      if drop != 0 {
        bitbuf := Shr(bitbuf, drop);
        bitcnt := bitcnt - drop;
        left := left[drop..];
      }
    }

    /** The next whole byte, after aligning. */
    method Byte() returns (r: Result<byte>)
      requires Valid()
      modifies this
      ensures Valid()
      ensures r.Ok? ==> TakeByte(old(left)) == Ok((r.value, left))
      ensures r.Err? ==> TakeByte(old(left)) == Err(r.error) && left == Align(old(left))
    {
      hide Left, Suffix, Align, Shr, Pow2, And, Val;
      AlignByte();
      if bitcnt >= 8 {
        TakeBufferedByte(bitbuf, bitcnt, data, pos);
        SuffixDrop(left, data, 8);
        var v: byte := And(bitbuf, 0xff);
        bitbuf := Shr(bitbuf, 8);
        bitcnt := bitcnt - 8;
        left := left[8..];
        return Ok(v);
      }
      if pos >= |data| {
        return Err(UnexpectedEnd);
      }
      SkipByte(bitbuf, bitcnt, data, pos);
      SuffixDrop(left, data, 8);
      var v := data[pos];
      pos := pos + 1;
      left := left[8..];
      return Ok(v);
    }
  }
}
