/** Recipes of byte transformations, and the layers they peel off. */
module Recipe {
  import opened Words
  import opened Options
  import opened BitReading
  import opened Inflate
  import opened Deflate
  import opened RoundTrip
  import opened Containers
  import Base64
  import ChaCha
  import Ciphers
  import Modes
  import Rc4
  import Streams

  // ----- operations -----

  datatype Failure =
    | NotBase64(c: byte)
    | NotInflated(error: Error)
    | EmptyKey
    | SizesWrong
    | CounterTooLarge
    | CounterExhausted
    | NotDeciphered(refusal: Modes.Refusal)
    | OtherFailure(code: nat)

  datatype OpResult = Out(data: seq<byte>) | Fail(why: Failure)

  /** The operations modelled here, each with its parameters; any other one is some function of the bytes. */
  datatype Op =
    | FromBase64
    | Gunzip
    | Inflate
    | XorOp(key: seq<byte>)
    | Rc4Op(key: seq<byte>)
    | ChaChaOp(key: seq<byte>, nonce: seq<byte>, counter: nat)
    | DecryptOp(cipher: Ciphers.Cipher, key: seq<byte>, iv: Option<seq<byte>>)
    | Rot13Op
    | ReverseOp
    | OtherOp(run: seq<byte> -> OpResult)

  /** A repeating key; an empty one changes nothing. */
  function XorKey(data: seq<byte>, key: seq<byte>): (r: seq<byte>)
    ensures |r| == |data|
  {
    if key == [] then data
    else seq(|data|, i requires 0 <= i < |data| => Streams.XorByte(data[i], key[i % |key|]))
  }

  lemma XorKeyTwice(data: seq<byte>, key: seq<byte>)
    ensures XorKey(XorKey(data, key), key) == data
  {
    hide Streams.XorByte;
    if key != [] {
      forall i | 0 <= i < |data|
        ensures XorKey(XorKey(data, key), key)[i] == data[i]
      {
        Streams.XorByteTwice(data[i], key[i % |key|]);
      }
    }
  }

  /** Letters move thirteen places on within their case. */
  function Rotated(c: byte): byte {
    if 65 <= c <= 77 || 97 <= c <= 109 then c + 13
    else if 78 <= c <= 90 || 110 <= c <= 122 then c - 13
    else c
  }

  function Rot13(data: seq<byte>): (r: seq<byte>)
    ensures |r| == |data|
  {
    seq(|data|, i requires 0 <= i < |data| => Rotated(data[i]))
  }

  function Reversed(data: seq<byte>): (r: seq<byte>)
    ensures |r| == |data|
  {
    seq(|data|, i requires 0 <= i < |data| => data[|data| - 1 - i])
  }

  lemma Rot13Twice(data: seq<byte>)
    ensures Rot13(Rot13(data)) == data
  {
  }

  lemma ReversedTwice(data: seq<byte>)
    ensures Reversed(Reversed(data)) == data
  {
  }

  /** Letters turn halfway round their alphabet; nothing else changes. */
  lemma RotatedIs(c: byte)
    ensures 'A' as int <= c <= 'Z' as int ==> Rotated(c) == 'A' as int + (c - 'A' as int + 13) % 26
    ensures 'a' as int <= c <= 'z' as int ==> Rotated(c) == 'a' as int + (c - 'a' as int + 13) % 26
    ensures !('A' as int <= c <= 'Z' as int || 'a' as int <= c <= 'z' as int) ==> Rotated(c) == c
  {
  }

  /** Reversal puts the parts of its input in the opposite order. */
  lemma ReversedParts(a: seq<byte>, b: seq<byte>, c: byte)
    ensures Reversed(a + b) == Reversed(b) + Reversed(a) && Reversed([c]) == [c]
  {
  }

  /** Within the key's length the data gets the key from its beginning. */
  lemma XorKeyFirst(data: seq<byte>, key: seq<byte>)
    requires key != [] && |data| <= |key|
    ensures XorKey(data, key) == Streams.XorBytes(data, key)
  {
    hide Streams.XorByte;
    forall i | 0 <= i < |data|
      ensures i % |key| == i
    {
      DivModUnique(i, |key|, 0, i);
    }
  }

  /** After a whole number of keys' lengths the key starts again. */
  lemma XorKeyAgain(a: seq<byte>, b: seq<byte>, key: seq<byte>, times: nat)
    requires key != [] && |a| == times * |key| && |b| <= |key|
    ensures XorKey(a + b, key) == XorKey(a, key) + XorKey(b, key)
  {
    hide XorKey;
    forall i | 0 <= i < |a|
      ensures XorKey(a + b, key)[i] == XorKey(a, key)[i]
    {
      XorKeyAt(a + b, key, i);
      XorKeyAt(a, key, i);
    }
    forall i | 0 <= i < |b|
      ensures XorKey(a + b, key)[|a| + i] == XorKey(b, key)[i]
    {
      XorKeyAt(a + b, key, |a| + i);
      XorKeyAt(b, key, i);
      StartsAgain(times, |key|, i);
    }
    hide *;
    assert forall k :: |a| <= k < |a| + |b| ==> XorKey(a + b, key)[k] == XorKey(a + b, key)[|a| + (k - |a|)];
  }

  lemma XorKeyAt(data: seq<byte>, key: seq<byte>, i: nat)
    requires key != [] && i < |data|
    ensures XorKey(data, key)[i] == Streams.XorByte(data[i], key[i % |key|])
  {
    hide Streams.XorByte;
  }

  lemma StartsAgain(times: nat, n: nat, i: nat)
    requires i < n
    ensures (times * n + i) % n == i % n
  {
    DivModUnique(times * n + i, n, times, i);
    DivModUnique(i, n, 0, i);
  }

  function Deciphering(r: Modes.Outcome): OpResult {
    if r.Refused? then Fail(NotDeciphered(r.why)) else Out(Ciphers.FromBits(r.data))
  }

  function Inflating(payload: Result<seq<byte>>): OpResult {
    if payload.Err? then Fail(NotInflated(payload.error))
    else
      var r := InflateBits(StreamBits(payload.value), []);
      if r.Err? then Fail(NotInflated(r.error)) else Out(r.value)
  }

  function Apply(data: seq<byte>, op: Op): OpResult {
    match op
    case FromBase64 =>
      var r := Base64.Decode(data);
      if r.Ok? then Out(r.data) else Fail(NotBase64(r.c))
    case Gunzip => Inflating(GzipPayload(data))
    case Inflate => Inflating(AutoPayload(data))
    case XorOp(key) => Out(XorKey(data, key))
    case Rc4Op(key) => if key == [] then Fail(EmptyKey) else Out(Rc4.Crypt(data, key))
    case ChaChaOp(key, nonce, counter) =>
      if counter >= 0x1_0000_0000 then Fail(CounterTooLarge)
      else if |key| != 32 || |nonce| != 12 then Fail(SizesWrong)
      else if counter + ChaCha.Blocks(|data|) >= 0x1_0000_0000 then Fail(CounterExhausted)
      else Out(ChaCha.Crypt(data, key, nonce, counter))
    case DecryptOp(cipher, key, iv) => Deciphering(Ciphers.Opened(cipher, key, iv, data))
    case Rot13Op => Out(Rot13(data))
    case ReverseOp => Out(Reversed(data))
    case OtherOp(run) => run(data)
  }

  /** Which inputs the keyed stream ciphers refuse, and in which order they look. */
  lemma RefusedKeys(data: seq<byte>, key: seq<byte>, nonce: seq<byte>, counter: nat)
    ensures Apply(data, Rc4Op(key)).Fail? <==> key == []
    ensures var r := Apply(data, ChaChaOp(key, nonce, counter));
            && (r == Fail(CounterTooLarge) <==> counter >= 0x1_0000_0000)
            && (r == Fail(SizesWrong) <==> counter < 0x1_0000_0000 && (|key| != 32 || |nonce| != 12))
            && (r == Fail(CounterExhausted) <==>
                 counter < 0x1_0000_0000 && |key| == 32 && |nonce| == 12 &&
                 64 * (0x1_0000_0000 - counter) < |data| + 64)
            && (r.Fail? ==> r.why in {CounterTooLarge, SizesWrong, CounterExhausted})
  {
    hide Rc4.Crypt, ChaCha.Crypt;
  }

  /** Gunzip takes nothing but gzip; inflating also takes zlib and bare streams. */
  lemma WrappersTaken(data: seq<byte>)
    ensures Apply(data, Gunzip).Out? ==> |data| >= 18 && data[0] == 0x1f && data[1] == 0x8b && data[2] == 8
    ensures |data| >= 2 && data[0] == 0x1f && data[1] == 0x8b ==> Apply(data, Inflate) == Apply(data, Gunzip)
    ensures |data| < 2 || (data[0] % 16 != 8 && data[0] != 0x1f) ==> Apply(data, Inflate) == Inflating(Result.Ok(data))
  {
    if GzipPayload(data).Ok? { GzipIsLong(data); }
    hide InflateBits, GzipPayload, AutoPayload;
    if |data| < 2 {
      AutoShort(data);
    } else {
      AutoIs(data, data[0], data[1]);
    }
  }

  // ----- recipes -----

  /** The bytes reached, the operations that succeeded, and why the next one did not. */
  datatype BakeResult = BakeResult(output: seq<byte>, applied: seq<Op>, failure: Option<Failure>)

  function Baked(input: seq<byte>, ops: seq<Op>): BakeResult
    decreases |ops|
  {
    if ops == [] then BakeResult(input, [], None)
    else
      var r := Apply(input, ops[0]);
      if r.Fail? then BakeResult(input, [], Some(r.why))
      else
        var rest := Baked(r.data, ops[1..]);
        BakeResult(rest.output, [ops[0]] + rest.applied, rest.failure)
  }

  /** No operation leaves the input; one is applied, or fails and leaves the input. */
  lemma BakeOne(input: seq<byte>, op: Op)
    ensures Baked(input, []) == BakeResult(input, [], None)
    ensures var r := Apply(input, op);
            Baked(input, [op]) ==
            if r.Out? then BakeResult(r.data, [op], None) else BakeResult(input, [], Some(r.why))
  {
    hide Apply;
  }

  /** A recipe in two parts: the second part runs on what the first one leaves, if that succeeds. */
  lemma {:induction false} BakeInTwoSteps(input: seq<byte>, a: seq<Op>, b: seq<Op>)
    ensures var first := Baked(input, a);
            Baked(input, a + b) ==
            if first.failure.Some? then first
            else
              var second := Baked(first.output, b);
              BakeResult(second.output, a + second.applied, second.failure)
    decreases |a|
  {
    hide Apply;
    if a == [] {
      assert a + b == b;
      assert [] + Baked(input, b).applied == Baked(input, b).applied;
    } else {
      var r := Apply(input, a[0]);
      assert (a + b)[1..] == a[1..] + b;
      if r.Out? {
        BakeInTwoSteps(r.data, a[1..], b);
        var second := Baked(Baked(r.data, a[1..]).output, b);
        assert a + second.applied == [a[0]] + (a[1..] + second.applied);
      }
    }
  }

  /** What was applied is a prefix of the recipe, all of it exactly on success. */
  lemma {:induction false} AppliedIsPrefix(input: seq<byte>, ops: seq<Op>)
    ensures var r := Baked(input, ops);
            r.applied <= ops && (r.failure.None? <==> |r.applied| == |ops|)
    decreases |ops|
  {
    hide Apply;
    if ops != [] && Apply(input, ops[0]).Out? {
      AppliedIsPrefix(Apply(input, ops[0]).data, ops[1..]);
    }
  }

  // ----- layers: what a recipe peels off -----

  /** A way of wrapping bytes that one of the operations undoes. */
  datatype Layer =
    | Base64Layer(urlSafe: bool, padded: bool)
    | XorLayer(key: seq<byte>)
    | Rc4Layer(key: seq<byte>)
    | ChaChaLayer(key: seq<byte>, nonce: seq<byte>, counter: nat)
    | CipherLayer(cipher: Ciphers.Cipher, key: seq<byte>, iv: Option<seq<byte>>)
    | Rot13Layer
    | ReverseLayer
    | GzipLayer(header: GzipHeader, blocks: seq<Block>, payload: seq<byte>, tail: seq<bool>, trailer: seq<byte>)
    | ZlibLayer(cmf: byte, flg: byte, dict: Option<seq<byte>>, blocks: seq<Block>, payload: seq<byte>, tail: seq<bool>,
                trailer: seq<byte>)

  /** The blocks, stored in `payload`, stand for `inner`. */
  ghost predicate Deflates(blocks: seq<Block>, payload: seq<byte>, tail: seq<bool>, inner: seq<byte>) {
    StreamOk(blocks, 0, []) && WithinCap(blocks, 0, []) && Inflated(blocks, 0, []) == inner &&
    StreamBits(payload) == DeflateBits(blocks, 0, []) + tail
  }

  ghost predicate Wraps(layer: Layer, inner: seq<byte>, outer: seq<byte>) {
    match layer
    case Base64Layer(urlSafe, padded) => Base64.WithoutSpace(outer) == Base64.Encode(inner, urlSafe, padded)
    case XorLayer(key) => outer == XorKey(inner, key)
    case Rc4Layer(key) => key != [] && outer == Rc4.Crypt(inner, key)
    case ChaChaLayer(key, nonce, counter) =>
      |key| == 32 && |nonce| == 12 && counter + ChaCha.Blocks(|inner|) < 0x1_0000_0000 &&
      outer == ChaCha.Crypt(inner, key, nonce, counter)
    case CipherLayer(cipher, key, iv) =>
      Ciphers.CipherOk(cipher) && Ciphers.Suits(cipher, key, iv, inner) &&
      outer == Ciphers.Sealed(cipher, key, iv, inner)
    case Rot13Layer => outer == Rot13(inner)
    case ReverseLayer => outer == Reversed(inner)
    case GzipLayer(header, blocks, payload, tail, trailer) =>
      GzipHeaderOk(header) && |trailer| == 8 && Deflates(blocks, payload, tail, inner) &&
      outer == GzipBytes(header, payload, trailer)
    case ZlibLayer(cmf, flg, dict, blocks, payload, tail, trailer) =>
      ZlibHeaderOk(cmf, flg, dict) && |trailer| == 4 && Deflates(blocks, payload, tail, inner) &&
      outer == ZlibBytes(cmf, flg, dict, payload, trailer)
  }

  function OpFor(layer: Layer): Op {
    match layer
    case Base64Layer(_, _) => FromBase64
    case XorLayer(key) => XorOp(key)
    case Rc4Layer(key) => Rc4Op(key)
    case ChaChaLayer(key, nonce, counter) => ChaChaOp(key, nonce, counter)
    case CipherLayer(cipher, key, iv) => DecryptOp(cipher, key, iv)
    case Rot13Layer => Rot13Op
    case ReverseLayer => ReverseOp
    case GzipLayer(_, _, _, _, _) => Gunzip
    case ZlibLayer(_, _, _, _, _, _, _) => Inflate
  }

  lemma InflatingDeflated(blocks: seq<Block>, payload: seq<byte>, tail: seq<bool>, inner: seq<byte>)
    requires Deflates(blocks, payload, tail, inner)
    ensures Inflating(Ok(payload)) == Out(inner)
  {
    hide StreamOk, WithinCap, Inflated, DeflateBits, InflateBits, StreamBits;
    InflateUndoesDeflate(payload, blocks, tail);
  }

  /** Each operation undoes its layer. */
  lemma OpPeels(layer: Layer, inner: seq<byte>, outer: seq<byte>)
    requires Wraps(layer, inner, outer)
    ensures Apply(outer, OpFor(layer)) == Out(inner)
  {
    hide GzipHeaderOk, ZlibHeaderOk, Deflates, GzipBytes, ZlibBytes, GzipPayload, AutoPayload, Inflating;
    hide Base64.Decode, Base64.Encode, Base64.WithoutSpace, Rc4.Crypt, ChaCha.Crypt, XorKey, Rot13, Reversed;
    hide Ciphers.CipherOk, Ciphers.Suits, Ciphers.Sealed, Ciphers.Opened, Ciphers.FromBits, Ciphers.ToBits;
    match layer
    case Base64Layer(urlSafe, padded) => Base64.DecodeUndoesEncode(outer, inner, urlSafe, padded);
    case XorLayer(key) => XorKeyTwice(inner, key);
    case Rc4Layer(key) => Rc4.CryptTwice(inner, key);
    case ChaChaLayer(key, nonce, counter) =>
      ChaCha.CryptTwice(inner, key, nonce, counter);
      ChaCha.CryptLength(inner, key, nonce, counter);
    case CipherLayer(cipher, key, iv) =>
      Ciphers.OpensSealed(cipher, key, iv, inner);
      Ciphers.FromToBits(inner);
    case Rot13Layer => Rot13Twice(inner);
    case ReverseLayer => ReversedTwice(inner);
    case GzipLayer(header, blocks, payload, tail, trailer) =>
      GunzipUndoesGzip(header, payload, trailer);
      InflatingDeflated(blocks, payload, tail, inner);
    case ZlibLayer(cmf, flg, dict, blocks, payload, tail, trailer) =>
      AutoUndoesZlib(cmf, flg, dict, payload, trailer);
      InflatingDeflated(blocks, payload, tail, inner);
  }

  /** `stages[i + 1]` is `stages[i]` wrapped in layer `i`. */
  ghost predicate Tower(layers: seq<Layer>, stages: seq<seq<byte>>) {
    |stages| == |layers| + 1 && forall i :: 0 <= i < |layers| ==> Wraps(layers[i], stages[i], stages[i + 1])
  }

  /** The operations for the layers, outermost first. */
  function PeelRecipe(layers: seq<Layer>): (ops: seq<Op>)
    ensures |ops| == |layers|
  {
    if layers == [] then [] else [OpFor(layers[|layers| - 1])] + PeelRecipe(layers[..|layers| - 1])
  }

  /** Baking the outermost bytes of any tower of layers gives back the innermost ones. */
  lemma {:induction false} BakePeelsTower(layers: seq<Layer>, stages: seq<seq<byte>>)
    requires Tower(layers, stages)
    ensures Baked(stages[|layers|], PeelRecipe(layers)) == BakeResult(stages[0], PeelRecipe(layers), None)
  {
    hide Wraps, Apply, OpFor;
    if layers != [] {
      var n := |layers| - 1;
      OpPeels(layers[n], stages[n], stages[n + 1]);
      assert PeelRecipe(layers)[1..] == PeelRecipe(layers[..n]);
      BakePeelsTower(layers[..n], stages[..n + 1]);
    }
  }

  // ----- the loop of the source -----

  method RunOp(data: seq<byte>, op: Op) returns (r: OpResult)
    ensures r == Apply(data, op)
  {
    hide GzipPayload, AutoPayload, InflateBits, StreamBits, Base64.Decode, Rc4.Crypt, ChaCha.Crypt, Streams.XorByte;
    hide Ciphers.Opened, Ciphers.FromBits, Rot13, Reversed;
    match op {
      case FromBase64 =>
        var d := Base64.B64Decode(data);
        return if d.Ok? then Out(d.data) else Fail(NotBase64(d.c));
      case Gunzip =>
        var g := Containers.Gunzip(data);
        return if g.Ok? then Out(g.value) else Fail(NotInflated(g.error));
      case Inflate =>
        var g := InflateAuto(data);
        return if g.Ok? then Out(g.value) else Fail(NotInflated(g.error));
      case XorOp(key) =>
        return Out(XorKey(data, key));
      case Rc4Op(key) =>
        var c := Rc4.Rc4(data, key);
        return if c.Ok? then Out(c.data) else Fail(EmptyKey);
      case ChaChaOp(key, nonce, counter) =>
        if counter >= 0x1_0000_0000 { return Fail(CounterTooLarge); }
        var c := ChaCha.ChaCha20(data, key, nonce, counter);
        return match c
          case Ok(d) => Out(d)
          case BadSizes => Fail(SizesWrong)
          case CounterExhausted => Fail(CounterExhausted);
      case DecryptOp(cipher, key, iv) =>
        var d := Ciphers.Decipher(cipher, key, iv, data);
        return Deciphering(d);
      case Rot13Op =>
        return Out(Rot13(data));
      case ReverseOp =>
        return Out(Reversed(data));
      case OtherOp(run) =>
        return run(data);
    }
  }

  method Bake(input: seq<byte>, ops: seq<Op>) returns (r: BakeResult)
    ensures r == Baked(input, ops)
  {
    hide Apply, Baked;
    var cur, applied := input, [];
    assert ops[0..] == ops;
    for i := 0 to |ops|
      invariant applied == ops[..i]
      invariant var rest := Baked(cur, ops[i..]);
                Baked(input, ops) == BakeResult(rest.output, applied + rest.applied, rest.failure)
    {
      var op := ops[i];
      assert ops[i..] == [op] + ops[i + 1..];
      BakeFirst(cur, op, ops[i + 1..]);
      var next := RunOp(cur, op);
      if next.Fail? {
        return BakeResult(cur, applied, Some(next.why));
      }
      applied := applied + [op];
      cur := next.data;
    }
    assert ops[|ops|..] == [];
    BakeNothing(cur);
    return BakeResult(cur, applied, None);
  }

  lemma BakeNothing(input: seq<byte>)
    ensures Baked(input, []) == BakeResult(input, [], None)
  {
  }

  lemma BakeFirst(input: seq<byte>, op: Op, rest: seq<Op>)
    ensures var r := Apply(input, op);
            Baked(input, [op] + rest) ==
            if r.Fail? then BakeResult(input, [], Some(r.why))
            else
              var after := Baked(r.data, rest);
              BakeResult(after.output, [op] + after.applied, after.failure)
  {
    hide Apply;
    assert ([op] + rest)[1..] == rest;
  }
}
