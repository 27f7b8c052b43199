/** Decoding one symbol: the search of the source, and that it finds exactly the canonical codes. */
module HuffmanDecode {
  import opened Words
  import opened Canonical
  import opened BitReading
  import opened HuffmanTable

  ghost predicate Shaped(h: Huffman) {
    h.maxBits <= 15 && |h.counts| == h.maxBits + 1
  }

  /** The least offset from `k` on whose code word has been read, or `count` if there is none. */
  function FindOffset(read: seq<bool>, first: nat, count: nat, k: nat): (r: nat)
    requires k <= count
    ensures k <= r <= count
    decreases count - k
  {
    if k == count || read == CodeWord(Low(first + k, 16), |read|) then k
    else FindOffset(read, first, count, k + 1)
  }

  /** Reads on after the bits `read` until they are a code word. */
  function Walk(h: Huffman, bits: seq<bool>, read: seq<bool>, first: nat, index: nat): Result<(nat, seq<bool>)>
    requires Shaped(h)
    decreases h.maxBits - |read|
  {
    if |read| >= h.maxBits then Err(NoSuchCode)
    else if bits == [] then Err(UnexpectedEnd)
    else
      var read' := read + [bits[0]];
      var count := h.counts[|read'|];
      var k := FindOffset(read', first, count, 0);
      if k == count then
        Walk(h, bits[1..], read', NextFirst(first, count), index + count)
      else if index + k < |h.symbols| then
        Ok((h.symbols[index + k], bits[1..]))
      else
        Err(BadHuffmanSymbol)
  }

  function DecodeBits(h: Huffman, bits: seq<bool>): Result<(nat, seq<bool>)>
    requires Shaped(h)
  {
    Walk(h, bits, [], 0, 0)
  }

  lemma {:induction false} WalkProgress(h: Huffman, bits: seq<bool>, read: seq<bool>, first: nat, index: nat)
    requires Shaped(h) && Walk(h, bits, read, first, index).Ok?
    ensures var rest := Walk(h, bits, read, first, index).value.1;
            |rest| < |bits| && rest == bits[|bits| - |rest|..]
    decreases h.maxBits - |read|
  {
    var read' := read + [bits[0]];
    var count := h.counts[|read'|];
    if FindOffset(read', first, count, 0) == count {
      WalkProgress(h, bits[1..], read', NextFirst(first, count), index + count);
    }
  }

  /** Decoding a symbol takes at least one bit. */
  lemma DecodeShorter(h: Huffman, bits: seq<bool>)
    requires Shaped(h) && DecodeBits(h, bits).Ok?
    ensures |DecodeBits(h, bits).value.1| < |bits|
  {
    WalkProgress(h, bits, [], 0, 0);
  }

  // ----- the loops of the source -----

  /** Turns the low `bits` bits of `value` around, in a 16-bit word. */
  method ReverseBits(value: nat, bits: nat) returns (out: nat)
    requires bits <= 16
    ensures out == Val(CodeWord(value, bits))
  {
    out := 0;
    var v := value;
    for k := 0 to bits
      invariant v == Shr(value, k)
      invariant out == Val(CodeWord(value, k))
    {
      ReverseStep(value, k);
      ShrStep(value, k);
      out := Or(Shl(out, 1, 16), And(v, 1));
      v := Shr(v, 1);
    }
  }

  lemma {:induction false} ShrStep(v: nat, k: nat)
    ensures Shr(v, k + 1) == Shr(Shr(v, k), 1)
  {
    if k > 0 { ShrStep(v / 2, k - 1); }
  }

  lemma AndOne(v: nat)
    ensures And(v, 1) == v % 2
  {
  }

  lemma ReverseStep(value: nat, k: nat)
    requires k < 16
    ensures Or(Shl(Val(CodeWord(value, k)), 1, 16), And(Shr(value, k), 1)) == Val(CodeWord(value, k + 1))
  {
    var v, w := Shr(value, k), CodeWord(value, k);
    AndOne(v);
    BitsOfSplit(value, k, 1);
    assert BitsOf(v, 1) == [v % 2 == 1];
    ReverseAppend(BitsOf(value, k), BitsOf(v, 1));
    assert Reverse(BitsOf(v, 1)) == [v % 2 == 1];
    assert CodeWord(value, k + 1) == [v % 2 == 1] + w;
    assert ([v % 2 == 1] + w)[1..] == w;
    assert Pow2(1) == 2;
    Pow2Monotone(k + 1, 16);
    LowFits(Val(w) * Pow2(1), 16);
    OrLowBit(Val(w), v % 2);
  }

  lemma SameWord(a: seq<bool>, b: seq<bool>)
    requires |a| == |b|
    ensures Val(a) == Val(b) <==> a == b
  {
    BitsOfVal(a);
    BitsOfVal(b);
  }

  lemma AppendBit(read: seq<bool>, b: bool)
    requires |read| < 16
    ensures Or(Val(read), Shl(if b then 1 else 0, |read|, 16)) == Val(read + [b])
  {
    var bit, n := if b then 1 else 0, |read|;
    ValAppend(read, [b]);
    assert Val([b]) == bit;
    assert bit * Pow2(n) == Pow2(n) * bit == if b then Pow2(n) else 0;
    ShiftedBit(bit, n, 16);
    OrDisjoint(Val(read), bit, n);
  }

  lemma ShiftedBit(bit: nat, n: nat, width: nat)
    requires bit < 2 && n < width
    ensures Shl(bit, n, width) == bit * Pow2(n)
  {
    Pow2Monotone(n + 1, width);
    assert bit * Pow2(n) == if bit == 0 then 0 else Pow2(n);
    LowFits(bit * Pow2(n), width);
  }

  /** Tries the codes of one length in turn; returns `count` when none of them is `code`. */
  method TryCodes(code: nat, len: nat, first: nat, count: nat, ghost read: seq<bool>) returns (offset: nat)
    requires |read| == len <= 16 && code == Val(read)
    ensures offset == FindOffset(read, first, count, 0)
  {
    offset := 0;
    while offset < count
      invariant 0 <= offset <= count
      invariant FindOffset(read, first, count, offset) == FindOffset(read, first, count, 0)
    {
      var canonical := Low(first + offset, 16);
      var reversed := ReverseBits(canonical, len);
      SameWord(read, CodeWord(canonical, len));
      if code == reversed {
        return;
      }
      offset := offset + 1;
    }
  }

  lemma WalkHit(h: Huffman, bits: seq<bool>, read: seq<bool>, first: nat, index: nat, k: nat)
    requires Shaped(h) && |read| < h.maxBits && bits != []
    requires k == FindOffset(read + [bits[0]], first, h.counts[|read| + 1], 0) < h.counts[|read| + 1]
    requires index + k < |h.symbols|
    ensures Walk(h, bits, read, first, index) == Ok((h.symbols[index + k], bits[1..]))
  {
  }

  lemma WalkMiss(h: Huffman, bits: seq<bool>, read: seq<bool>, first: nat, index: nat, count: nat)
    requires Shaped(h) && |read| < h.maxBits && bits != [] && count == h.counts[|read| + 1]
    requires count == FindOffset(read + [bits[0]], first, count, 0)
    ensures Walk(h, bits, read, first, index) ==
      Walk(h, bits[1..], read + [bits[0]], NextFirst(first, count), index + count)
  {
  }

  lemma WalkEnds(h: Huffman, bits: seq<bool>, read: seq<bool>, first: nat, index: nat)
    requires Shaped(h)
    ensures |read| >= h.maxBits ==> Walk(h, bits, read, first, index) == Err(NoSuchCode)
    ensures |read| < h.maxBits && bits == [] ==> Walk(h, bits, read, first, index) == Err(UnexpectedEnd)
    ensures |read| < h.maxBits && bits != [] ==>
      var k := FindOffset(read + [bits[0]], first, h.counts[|read| + 1], 0);
      k < h.counts[|read| + 1] && index + k >= |h.symbols| ==>
      Walk(h, bits, read, first, index) == Err(BadHuffmanSymbol)
  {
  }

  lemma DecodeStart(h: Huffman, bits: seq<bool>)
    requires Shaped(h)
    ensures DecodeBits(h, bits) == Walk(h, bits, [], 0, 0)
    ensures h.maxBits <= 15 && |h.counts| == h.maxBits + 1 && Val([]) == 0
  {
  }

  /** One symbol from the reader, bit by bit. */
  method Decode(h: Huffman, br: BitReader) returns (r: Result<nat>)
    requires br.Valid() && Shaped(h)
    modifies br
    ensures br.Valid()
    ensures r.Ok? ==> DecodeBits(h, old(br.left)) == Ok((r.value, br.left))
    ensures r.Err? ==> DecodeBits(h, old(br.left)) == Err(r.error)
  {
    hide *;
    var code: nat, first: nat, index: nat := 0, 0, 0;
    ghost var read: seq<bool> := [];
    ghost var goal := DecodeBits(h, br.left);
    DecodeStart(h, br.left);
    for len := 1 to h.maxBits + 1
      invariant br.Valid()
      invariant |read| == len - 1 && code == Val(read)
      invariant Walk(h, br.left, read, first, index) == goal
    {
      ghost var left, before := br.left, read;
      WalkEnds(h, left, before, first, index);
      var b := br.Bits(1);
      if b.Err? {
        return Err(b.error);
      }
      OneBit(left);
      AppendBit(before, left[0]);
      code := Or(code, Shl(b.value, len - 1, 16));
      read := before + [left[0]];
      var count := h.counts[len];
      var offset := TryCodes(code, len, first, count, read);
      if offset < count {
        if index + offset < |h.symbols| {
          WalkHit(h, left, before, first, index, offset);
          return Ok(h.symbols[index + offset]);
        }
        return Err(BadHuffmanSymbol);
      }
      WalkMiss(h, left, before, first, index, count);
      index := index + count;
      first := NextFirst(first, count);
    }
    WalkEnds(h, br.left, read, first, index);
    return Err(NoSuchCode);
  }

  lemma OneBit(bits: seq<bool>)
    requires bits != []
    ensures TakeBits(bits, 1) == Ok((if bits[0] then 1 else 0, bits[1..]))
  {
    assert bits[..1] == [bits[0]];
    assert Val([bits[0]]) == if bits[0] then 1 else 0;
  }

  // ----- decoding finds the canonical codes and nothing else -----

  /** The stream starts with the code word of symbol `s`. */
  ghost predicate Starts(lengths: seq<nat>, s: nat, bits: seq<bool>) {
    s < |lengths| && lengths[s] > 0 && SymbolBits(lengths, s) <= bits
  }

  lemma {:induction false} FindOffsetIs(read: seq<bool>, first: nat, count: nat, k: nat, v: nat)
    requires k <= count && v < Pow2(|read|) && read == CodeWord(v, |read|)
    requires first + count <= Pow2(|read|) && |read| <= 15
    requires v < first || first + k <= v
    ensures FindOffset(read, first, count, k) == if first + k <= v < first + count then v - first else count
    decreases count - k
  {
    hide CodeWord, Low, Pow2;
    if k < count {
      Pow2Monotone(|read|, 15);
      Pow2Of15();
      FitsU16(first + k);
      if read == CodeWord(first + k, |read|) {
        CodeWordInjective(v, first + k, |read|);
      } else {
        FindOffsetIs(read, first, count, k + 1, v);
      }
    }
  }

  lemma WordOf(read: seq<bool>) returns (v: nat)
    ensures v < Pow2(|read|) && read == CodeWord(v, |read|)
  {
    v := Val(Reverse(read));
    BitsOfVal(Reverse(read));
    ReverseTwice(read);
  }

  /** What decoding needs of a table: counts per length, and the symbols in rank order. */
  ghost predicate IsTableFor(h: Huffman, lengths: seq<nat>) {
    && Shaped(h)
    && h.maxBits == MaxLength(lengths)
    && (forall l :: 0 <= l <= h.maxBits ==> h.counts[l] == Used(lengths, l))
    && (forall s :: 0 <= s < |lengths| && lengths[s] > 0 ==>
          Rank(lengths, s) < |h.symbols| && h.symbols[Rank(lengths, s)] == s)
  }

  lemma TableOfIsTable(lengths: seq<nat>)
    requires WellFormed(lengths)
    ensures IsTableFor(TableOf(lengths), lengths)
  {
    MaxLengthBound(lengths);
    forall s | 0 <= s < |lengths| && lengths[s] > 0
      ensures Rank(lengths, s) < |TableOf(lengths).symbols| && TableOf(lengths).symbols[Rank(lengths, s)] == s
    {
      SymbolAtRank(lengths, s);
    }
  }

  /** The symbol a code in the range of length `l` belongs to. */
  lemma SymbolOf(h: Huffman, lengths: seq<nat>, l: nat, k: nat) returns (s: nat)
    requires IsTableFor(h, lengths) && l > 0 && k < Used(lengths, l)
    ensures s < |lengths| && lengths[s] == l && SymbolBits(lengths, s) == CodeWord(FirstCode(lengths, l) + k, l)
    ensures Below(lengths, l) + k < |h.symbols| && h.symbols[Below(lengths, l) + k] == s
  {
    s := Nth(lengths, l, k);
    assert Rank(lengths, s) == Below(lengths, l) + k;
    assert Code(lengths, s) == FirstCode(lengths, l) + k;
  }

  /** No symbol whose code is at most as long as `read` starts it. */
  ghost predicate NoneYet(lengths: seq<nat>, read: seq<bool>) {
    forall s: nat {:trigger Starts(lengths, s, read)} :: !Starts(lengths, s, read)
  }

  lemma NotAtLevel(lengths: seq<nat>, read: seq<bool>, v: nat, s: nat)
    requires WellFormed(lengths) && s < |lengths| && lengths[s] == |read| > 0
    requires v < Pow2(|read|) && read == CodeWord(v, |read|)
    requires !(FirstCode(lengths, |read|) <= v < EndCode(lengths, |read|))
    ensures SymbolBits(lengths, s) != read
  {
    CodeInRange(lengths, s);
    CodeFits(lengths, s);
    if SymbolBits(lengths, s) == read {
      CodeWordInjective(v, Code(lengths, s), |read|);
    }
  }

  lemma NoneAtLevel(lengths: seq<nat>, read: seq<bool>, v: nat)
    requires WellFormed(lengths) && read != [] && NoneYet(lengths, read[..|read| - 1])
    requires v < Pow2(|read|) && read == CodeWord(v, |read|)
    requires !(FirstCode(lengths, |read|) <= v < EndCode(lengths, |read|))
    ensures NoneYet(lengths, read)
  {
    hide CodeWord, WellFormed, FirstCode, EndCode, SymbolBits, Pow2;
    forall s: nat
      ensures !Starts(lengths, s, read)
    {
      assert !Starts(lengths, s, read[..|read| - 1]);
      if s < |lengths| && lengths[s] == |read| {
        NotAtLevel(lengths, read, v, s);
      }
    }
  }

  lemma NoneLonger(lengths: seq<nat>, read: seq<bool>, bits: seq<bool>)
    requires NoneYet(lengths, read) && |read| >= MaxLength(lengths)
    ensures NoneYet(lengths, read + bits)
  {
    MaxLengthBound(lengths);
    forall s: nat
      ensures !Starts(lengths, s, read + bits)
    {
      assert !Starts(lengths, s, read);
    }
  }

  /** The outcome the canonical code prescribes when the unread bits are `bits`, after `read`. */
  ghost predicate Prescribed(lengths: seq<nat>, all: seq<bool>, r: Result<(nat, seq<bool>)>) {
    match r
    case Ok((s, rest)) => Starts(lengths, s, all) && all == SymbolBits(lengths, s) + rest
    case Err(e) =>
      NoneYet(lengths, all) && e == if |all| < MaxLength(lengths) then UnexpectedEnd else NoSuchCode
  }

  /** At one length: the search finds the symbol with this code word, or no symbol has it. */
  lemma SearchLevel(lengths: seq<nat>, read: seq<bool>) returns (v: nat, k: nat)
    requires WellFormed(lengths) && 0 < |read| <= 15
    ensures v < Pow2(|read|) && read == CodeWord(v, |read|)
    ensures k == FindOffset(read, FirstCode(lengths, |read|), Used(lengths, |read|), 0)
    ensures k < Used(lengths, |read|) <==> FirstCode(lengths, |read|) <= v < EndCode(lengths, |read|)
    ensures k < Used(lengths, |read|) ==> v == FirstCode(lengths, |read|) + k
  {
    v := WordOf(read);
    EndCodeFits(lengths, |read|);
    FindOffsetIs(read, FirstCode(lengths, |read|), Used(lengths, |read|), 0, v);
    k := FindOffset(read, FirstCode(lengths, |read|), Used(lengths, |read|), 0);
  }

  lemma EndCodeIs(lengths: seq<nat>, l: nat)
    ensures EndCode(lengths, l) == FirstCode(lengths, l) + Used(lengths, l)
  {
  }

  lemma NextFirstIs(lengths: seq<nat>, l: nat)
    requires WellFormed(lengths) && l < 15
    ensures NextFirst(FirstCode(lengths, l), Used(lengths, l)) == FirstCode(lengths, l + 1)
  {
    NoWrap(lengths, l);
    NoWrap(lengths, l + 1);
  }

  lemma FoundIsPrescribed(lengths: seq<nat>, read: seq<bool>, rest: seq<bool>, s: nat)
    requires s < |lengths| && lengths[s] > 0 && SymbolBits(lengths, s) == read
    ensures Prescribed(lengths, read + rest, Ok((s, rest)))
  {
  }

  lemma TableShape(h: Huffman, lengths: seq<nat>, l: nat)
    requires IsTableFor(h, lengths) && l <= h.maxBits
    ensures Shaped(h) && h.maxBits == MaxLength(lengths) && h.maxBits <= 15 && |h.counts| == h.maxBits + 1
    ensures h.counts[l] == Used(lengths, l) && Below(lengths, l + 1) == Below(lengths, l) + Used(lengths, l)
  {
  }

  lemma WalkFinds(h: Huffman, lengths: seq<nat>, bits: seq<bool>, read: seq<bool>, v: nat, k: nat)
    requires IsTableFor(h, lengths) && |read| < h.maxBits && bits != []
    requires k == FindOffset(read + [bits[0]], FirstCode(lengths, |read| + 1), Used(lengths, |read| + 1), 0)
    requires k < Used(lengths, |read| + 1) && v == FirstCode(lengths, |read| + 1) + k
    requires read + [bits[0]] == CodeWord(v, |read| + 1)
    ensures Prescribed(lengths, read + bits,
                       Walk(h, bits, read, FirstCode(lengths, |read| + 1), Below(lengths, |read| + 1)))
  {
    hide *;
    var l := |read| + 1;
    TableShape(h, lengths, l);
    var s := SymbolOf(h, lengths, l, k);
    WalkHit(h, bits, read, FirstCode(lengths, l), Below(lengths, l), k);
    FoundIsPrescribed(lengths, read + [bits[0]], bits[1..], s);
    assert read + bits == read + [bits[0]] + bits[1..];
  }

  lemma WalkStops(h: Huffman, lengths: seq<nat>, bits: seq<bool>, read: seq<bool>, first: nat, index: nat)
    requires IsTableFor(h, lengths) && NoneYet(lengths, read)
    requires |read| == h.maxBits || (|read| < h.maxBits && bits == [])
    ensures Prescribed(lengths, read + bits, Walk(h, bits, read, first, index))
  {
    if |read| == h.maxBits {
      NoneLonger(lengths, read, bits);
    } else {
      assert read + bits == read;
    }
  }

  lemma {:induction false} WalkCorrect(h: Huffman, lengths: seq<nat>, bits: seq<bool>, read: seq<bool>, first: nat,
                                       index: nat)
    requires WellFormed(lengths) && IsTableFor(h, lengths) && |read| <= h.maxBits && NoneYet(lengths, read)
    requires |read| < h.maxBits ==> first == FirstCode(lengths, |read| + 1)
    requires index == Below(lengths, |read| + 1)
    ensures Prescribed(lengths, read + bits, Walk(h, bits, read, first, index))
    decreases h.maxBits - |read|
  {
    hide *;
    if |read| == h.maxBits || bits == [] {
      WalkStops(h, lengths, bits, read, first, index);
      return;
    }
    var read' := read + [bits[0]];
    var l := |read'|;
    TableShape(h, lengths, l);
    var v, k := SearchLevel(lengths, read');
    if k < Used(lengths, l) {
      WalkFinds(h, lengths, bits, read, v, k);
      return;
    }
    assert read'[..|read|] == read;
    NoneAtLevel(lengths, read', v);
    EndCodeIs(lengths, l);
    if l < h.maxBits { NextFirstIs(lengths, l); }
    WalkMiss(h, bits, read, first, index, k);
    WalkCorrect(h, lengths, bits[1..], read', NextFirst(first, k), index + k);
    assert read + bits == read' + bits[1..];
  }

  /** On any bits, decoding does what the canonical code prescribes. */
  lemma DecodeCorrect(h: Huffman, lengths: seq<nat>, bits: seq<bool>)
    requires WellFormed(lengths) && IsTableFor(h, lengths)
    ensures Prescribed(lengths, bits, DecodeBits(h, bits))
  {
    assert [] + bits == bits;
    assert FirstCode(lengths, 0) + Used(lengths, 0) == 0 && Below(lengths, 0) + Used(lengths, 0) == 0;
    WalkCorrect(h, lengths, bits, [], 0, 0);
  }

  /** A symbol is decoded exactly when the next bits are its code word, and only they are consumed. */
  lemma DecodesExactly(lengths: seq<nat>, bits: seq<bool>, s: nat, rest: seq<bool>)
    requires WellFormed(lengths)
    ensures Shaped(TableOf(lengths))
    ensures DecodeBits(TableOf(lengths), bits) == Ok((s, rest)) <==>
      s < |lengths| && lengths[s] > 0 && bits == SymbolBits(lengths, s) + rest
  {
    TableOfIsTable(lengths);
    DecodesExactlyWith(TableOf(lengths), lengths, bits, s, rest);
  }

  lemma DecodesExactlyWith(h: Huffman, lengths: seq<nat>, bits: seq<bool>, s: nat, rest: seq<bool>)
    requires WellFormed(lengths) && IsTableFor(h, lengths)
    ensures DecodeBits(h, bits) == Ok((s, rest)) <==>
      s < |lengths| && lengths[s] > 0 && bits == SymbolBits(lengths, s) + rest
  {
    DecodeCorrect(h, lengths, bits);
    var r := DecodeBits(h, bits);
    if s < |lengths| && lengths[s] > 0 && bits == SymbolBits(lengths, s) + rest {
      assert Starts(lengths, s, bits);
      var t := r.value.0;
      if t != s {
        PrefixFree(lengths, s, t);
        PrefixFree(lengths, t, s);
      }
      assert bits[lengths[s]..] == rest == r.value.1;
    }
  }
}
