/** Block cipher modes (NIST SP 800-38A), for any block length and any pair of block functions. */
module Modes {
  import Words
  import opened Counter

  /** Why a cipher operation refuses its input. */
  datatype Refusal = KeyLength | Empty | NotWholeBlocks | IvMissing | IvLength | UnsupportedMode

  datatype Outcome = Plain(data: seq<bv8>) | Refused(why: Refusal)

  /** What a mode makes of one chunk: its output, and the state it hands to the next chunk. */
  datatype Stage = Stage(out: seq<bv8>, next: seq<bv8>)

  type Step = (seq<bv8>, seq<bv8>) -> Stage

  type Transform = seq<bv8> -> seq<bv8>

  /** Exclusive or, as long as the shorter operand. */
  function Xor(a: seq<bv8>, b: seq<bv8>): (r: seq<bv8>)
    ensures |r| == if |a| <= |b| then |a| else |b|
  {
    seq(if |a| <= |b| then |a| else |b|, i requires 0 <= i < |a| && i < |b| => a[i] ^ b[i])
  }

  lemma XorTwice(a: seq<bv8>, b: seq<bv8>)
    requires |a| <= |b|
    ensures Xor(Xor(a, b), b) == a
  {
    forall i | 0 <= i < |a|
      ensures Xor(Xor(a, b), b)[i] == a[i]
    {
      assert (a[i] ^ b[i]) ^ b[i] == a[i];
    }
  }

  /** Data cut into chunks of `n` bytes, the last one perhaps shorter, each put through the step in turn. */
  function Chain(step: Step, n: nat, state: seq<bv8>, data: seq<bv8>): seq<bv8>
    requires n > 0
    decreases |data|
  {
    if data == [] then []
    else
      var k := if n <= |data| then n else |data|;
      var stage := step(state, data[..k]);
      stage.out + Chain(step, n, stage.next, data[k..])
  }

  // ----- the five modes, one chunk at a time (sections 6.1 to 6.5 of NIST SP 800-38A) -----

  function Ecb(f: Transform): Step {
    (state: seq<bv8>, chunk: seq<bv8>) => Stage(f(chunk), state)
  }

  function CbcEncryption(e: Transform): Step {
    (state: seq<bv8>, chunk: seq<bv8>) => Stage(e(Xor(chunk, state)), e(Xor(chunk, state)))
  }

  function CbcDecryption(d: Transform): Step {
    (state: seq<bv8>, chunk: seq<bv8>) => Stage(Xor(d(chunk), state), chunk)
  }

  /** The feedback register takes the ciphertext; after a short chunk the rest of the register stays. */
  function Feedback(state: seq<bv8>, c: seq<bv8>): seq<bv8> {
    if |c| <= |state| then c + state[|c|..] else c
  }

  function CfbEncryption(e: Transform): Step {
    (state: seq<bv8>, chunk: seq<bv8>) => Stage(Xor(chunk, e(state)), Feedback(state, Xor(chunk, e(state))))
  }

  function CfbDecryption(e: Transform): Step {
    (state: seq<bv8>, chunk: seq<bv8>) => Stage(Xor(chunk, e(state)), Feedback(state, chunk))
  }

  function Ofb(e: Transform): Step {
    (state: seq<bv8>, chunk: seq<bv8>) => Stage(Xor(chunk, e(state)), e(state))
  }

  function Ctr(e: Transform): Step {
    (state: seq<bv8>, chunk: seq<bv8>) => Stage(Xor(chunk, e(state)), Increment(state))
  }

  // ----- one step that undoes another makes a mode that undoes another -----

  /** On states of `n` bytes, `dec` recovers the chunk and the state that `enc` went on with. */
  ghost predicate StepUndoes(enc: Step, dec: Step, n: nat, whole: bool) {
    forall s: seq<bv8>, chunk: seq<bv8> ::
      |s| == n && 0 < |chunk| <= n && (whole ==> |chunk| == n) ==>
        var stage := enc(s, chunk);
        |stage.out| == |chunk| && |stage.next| == n && dec(s, stage.out) == Stage(chunk, stage.next)
  }

  lemma ShorterByBlock(a: nat, n: nat)
    requires n > 0 && a % n == 0
    ensures a < n ==> a == 0
    ensures a >= n ==> (a - n) % n == 0
  {
    if a >= n {
      var q := a / n;
      assert a - n == (q - 1) * n + 0;
      Words.DivModUnique(a - n, n, q - 1, 0);
    }
  }

  lemma ChainStep(step: Step, n: nat, s: seq<bv8>, data: seq<bv8>)
    requires n > 0 && data != []
    ensures var k := if n <= |data| then n else |data|;
            var stage := step(s, data[..k]);
            Chain(step, n, s, data) == stage.out + Chain(step, n, stage.next, data[k..])
  {
  }

  /** Chaining on a first chunk put in front of the rest. */
  lemma ChainFirst(step: Step, n: nat, s: seq<bv8>, chunk: seq<bv8>, rest: seq<bv8>)
    requires 0 < |chunk| <= n && (|chunk| < n ==> rest == [])
    ensures Chain(step, n, s, chunk + rest) == step(s, chunk).out + Chain(step, n, step(s, chunk).next, rest)
  {
    var data := chunk + rest;
    assert data[..|chunk|] == chunk && data[|chunk|..] == rest;
  }

  lemma {:induction false} ChainUndoes(enc: Step, dec: Step, n: nat, whole: bool, s: seq<bv8>, data: seq<bv8>)
    requires n > 0 && |s| == n && StepUndoes(enc, dec, n, whole)
    requires whole ==> |data| % n == 0
    ensures |Chain(enc, n, s, data)| == |data|
    ensures Chain(dec, n, s, Chain(enc, n, s, data)) == data
    decreases |data|
  {
    if data != [] {
      if whole { ShorterByBlock(|data|, n); }
      var k := if n <= |data| then n else |data|;
      var stage := enc(s, data[..k]);
      var rest := Chain(enc, n, stage.next, data[k..]);
      ChainUndoes(enc, dec, n, whole, stage.next, data[k..]);
      ChainFirst(dec, n, s, stage.out, rest);
      assert data == data[..k] + data[k..];
    }
  }

  // ----- the modes -----

  /** `f` maps blocks of `n` bytes to blocks of `n` bytes. */
  ghost predicate OnBlocks(f: Transform, n: nat) {
    forall b: seq<bv8> :: |b| == n ==> |f(b)| == n
  }

  /** `d` undoes `e` on blocks of `n` bytes. */
  ghost predicate BlockInverse(e: Transform, d: Transform, n: nat) {
    OnBlocks(e, n) && forall b: seq<bv8> :: |b| == n ==> d(e(b)) == b
  }

  lemma EcbUndoes(e: Transform, d: Transform, n: nat, s: seq<bv8>, p: seq<bv8>)
    requires n > 0 && |s| == n && BlockInverse(e, d, n) && |p| % n == 0
    ensures Chain(Ecb(d), n, s, Chain(Ecb(e), n, s, p)) == p
    ensures |Chain(Ecb(e), n, s, p)| == |p|
  {
    ChainUndoes(Ecb(e), Ecb(d), n, true, s, p);
  }

  lemma CbcUndoes(e: Transform, d: Transform, n: nat, iv: seq<bv8>, p: seq<bv8>)
    requires n > 0 && |iv| == n && BlockInverse(e, d, n) && |p| % n == 0
    ensures Chain(CbcDecryption(d), n, iv, Chain(CbcEncryption(e), n, iv, p)) == p
    ensures |Chain(CbcEncryption(e), n, iv, p)| == |p|
  {
    forall s: seq<bv8>, chunk: seq<bv8> | |s| == n && |chunk| == n
      ensures var stage := CbcEncryption(e)(s, chunk);
              |stage.out| == |chunk| && |stage.next| == n && CbcDecryption(d)(s, stage.out) == Stage(chunk, stage.next)
    {
      XorTwice(chunk, s);
    }
    ChainUndoes(CbcEncryption(e), CbcDecryption(d), n, true, iv, p);
  }

  lemma CfbUndoes(e: Transform, n: nat, iv: seq<bv8>, p: seq<bv8>)
    requires n > 0 && |iv| == n && OnBlocks(e, n)
    ensures Chain(CfbDecryption(e), n, iv, Chain(CfbEncryption(e), n, iv, p)) == p
    ensures |Chain(CfbEncryption(e), n, iv, p)| == |p|
  {
    forall s: seq<bv8>, chunk: seq<bv8> | |s| == n && 0 < |chunk| <= n
      ensures var stage := CfbEncryption(e)(s, chunk);
              |stage.out| == |chunk| && |stage.next| == n && CfbDecryption(e)(s, stage.out) == Stage(chunk, stage.next)
    {
      XorTwice(chunk, e(s));
    }
    ChainUndoes(CfbEncryption(e), CfbDecryption(e), n, false, iv, p);
  }

  lemma OfbUndoes(e: Transform, n: nat, iv: seq<bv8>, p: seq<bv8>)
    requires n > 0 && |iv| == n && OnBlocks(e, n)
    ensures Chain(Ofb(e), n, iv, Chain(Ofb(e), n, iv, p)) == p
    ensures |Chain(Ofb(e), n, iv, p)| == |p|
  {
    forall s: seq<bv8>, chunk: seq<bv8> | |s| == n && 0 < |chunk| <= n
      ensures var stage := Ofb(e)(s, chunk);
              |stage.out| == |chunk| && |stage.next| == n && Ofb(e)(s, stage.out) == Stage(chunk, stage.next)
    {
      XorTwice(chunk, e(s));
    }
    ChainUndoes(Ofb(e), Ofb(e), n, false, iv, p);
  }

  lemma CtrUndoes(e: Transform, n: nat, iv: seq<bv8>, p: seq<bv8>)
    requires n > 0 && |iv| == n && OnBlocks(e, n)
    ensures Chain(Ctr(e), n, iv, Chain(Ctr(e), n, iv, p)) == p
    ensures |Chain(Ctr(e), n, iv, p)| == |p|
  {
    forall s: seq<bv8>, chunk: seq<bv8> | |s| == n && 0 < |chunk| <= n
      ensures var stage := Ctr(e)(s, chunk);
              |stage.out| == |chunk| && |stage.next| == n && Ctr(e)(s, stage.out) == Stage(chunk, stage.next)
    {
      XorTwice(chunk, e(s));
    }
    ChainUndoes(Ctr(e), Ctr(e), n, false, iv, p);
  }

  // ----- counter mode by block number (section 6.5 of NIST SP 800-38A) -----

  /** Byte `i` of block `b` is the data byte added to byte `i` of the encrypted counter `b`. */
  lemma {:induction false} CtrByte(e: Transform, n: nat, iv: seq<bv8>, data: seq<bv8>, b: nat, i: nat)
    requires n > 0 && |iv| == n && OnBlocks(e, n) && i < n && b * n + i < |data|
    ensures |Chain(Ctr(e), n, iv, data)| == |data|
    ensures Chain(Ctr(e), n, iv, data)[b * n + i] == data[b * n + i] ^ e(Advance(iv, b))[i]
    decreases b
  {
    hide Chain, Increment, Advance;
    CtrUndoes(e, n, iv, data);
    ChainStep(Ctr(e), n, iv, data);
    AdvanceStep(iv, b);
    if b > 0 {
      Words.AtLeastOne(b, n);
      var rest := data[n..];
      assert (b - 1) * n + i == b * n + i - n;
      CtrByte(e, n, Increment(iv), rest, b - 1, i);
      assert Chain(Ctr(e), n, iv, data) == Xor(data[..n], e(iv)) + Chain(Ctr(e), n, Increment(iv), rest);
    }
  }

  lemma AdvanceStep(s: seq<bv8>, i: nat)
    ensures Advance(s, i) == if i == 0 then s else Advance(Increment(s), i - 1)
  {
  }

  // ----- the other modes by block number (sections 6.1 to 6.4 of NIST SP 800-38A) -----

  function Plus(a: bv8, b: bv8): bv8 {
    a ^ b
  }

  /** A step gives as many bytes as it takes, and a whole state. */
  ghost predicate StepKeeps(step: Step, n: nat, whole: bool) {
    forall s: seq<bv8>, chunk: seq<bv8> ::
      |s| == n && 0 < |chunk| <= n && (whole ==> |chunk| == n) ==>
        |step(s, chunk).out| == |chunk| && |step(s, chunk).next| == n
  }

  lemma {:induction false} ChainLength(step: Step, n: nat, whole: bool, s: seq<bv8>, data: seq<bv8>)
    requires n > 0 && |s| == n && StepKeeps(step, n, whole) && (whole ==> |data| % n == 0)
    ensures |Chain(step, n, s, data)| == |data|
    decreases |data|
  {
    if data != [] {
      if whole { ShorterByBlock(|data|, n); }
      var k := if n <= |data| then n else |data|;
      ChainLength(step, n, whole, step(s, data[..k]).next, data[k..]);
    }
  }

  /** Byte `i` of block `b` comes out of the first block of what is left after `b` blocks. */
  lemma LaterByte(step: Step, n: nat, s: seq<bv8>, data: seq<bv8>, b: nat, i: nat)
    requires n > 0 && 0 < b && b * n + i < |data| && |step(s, data[..if n <= |data| then n else |data|]).out| == n
    ensures n <= |data| && 0 <= (b - 1) * n + i < |data[n..]|
    ensures var stage := step(s, data[..n]);
            var rest := Chain(step, n, stage.next, data[n..]);
            |rest| == |data| - n && |Chain(step, n, s, data)| == |data| ==>
              Chain(step, n, s, data)[b * n + i] == rest[(b - 1) * n + i]
  {
    hide Chain;
    Words.AtLeastOne(b, n);
    ChainStep(step, n, s, data);
    assert (b - 1) * n + i == b * n + i - n;
  }

  /** The bytes of block `b`, or for the first block those of the IV. */
  function BlockBefore(iv: seq<bv8>, data: seq<bv8>, n: nat, b: nat): seq<bv8>
    requires b * n <= |data|
  {
    if b == 0 then iv
    else
      assert (b - 1) * n == b * n - n && (b - 1) * n <= b * n;
      if b * n < n then [] else data[b * n - n..b * n]
  }

  lemma ShiftBefore(iv: seq<bv8>, data: seq<bv8>, n: nat, b: nat)
    requires 0 < b && b * n <= |data| && n <= |data|
    ensures (b - 1) * n <= |data[n..]| && BlockBefore(data[..n], data[n..], n, b - 1) == BlockBefore(iv, data, n, b)
  {
    Words.AtLeastOne(b, n);
    assert (b - 1) * n == b * n - n;
    if b > 1 {
      Words.AtLeastOne(b - 1, n);
      assert data[n..][b * n - n - n..b * n - n] == data[b * n - n..b * n];
    } else {
      assert b * n == n;
    }
  }

  lemma FirstBefore(iv: seq<bv8>, data: seq<bv8>, n: nat)
    ensures BlockBefore(iv, data, n, 0) == iv
  {
  }

  /** A step as it is on whole blocks: one byte of its output, and its next state. */
  ghost predicate StepIs(step: Step, n: nat, s: seq<bv8>, chunk: seq<bv8>, out: bv8, i: nat, next: seq<bv8>) {
    |s| == n && 0 < |chunk| <= n && i < |chunk| == |step(s, chunk).out| && step(s, chunk).out[i] == out &&
    |step(s, chunk).next| == n && (|chunk| == n ==> step(s, chunk).next == next)
  }

  lemma FirstByte(step: Step, n: nat, s: seq<bv8>, data: seq<bv8>, out: bv8, i: nat, next: seq<bv8>)
    requires n > 0 && data != [] && StepIs(step, n, s, data[..if n <= |data| then n else |data|], out, i, next)
    ensures i < |Chain(step, n, s, data)| && Chain(step, n, s, data)[i] == out
  {
    hide Chain;
    ChainStep(step, n, s, data);
  }

  lemma CfbStep(e: Transform, n: nat, s: seq<bv8>, chunk: seq<bv8>, i: nat)
    requires |s| == n && 0 < |chunk| <= n && i < |chunk| && OnBlocks(e, n)
    ensures StepIs(CfbDecryption(e), n, s, chunk, Plus(chunk[i], e(s)[i]), i, chunk)
  {
  }

  lemma CfbLength(e: Transform, n: nat, iv: seq<bv8>, data: seq<bv8>)
    requires n > 0 && |iv| == n && OnBlocks(e, n)
    ensures |Chain(CfbDecryption(e), n, iv, data)| == |data|
  {
    hide Chain;
    assert StepKeeps(CfbDecryption(e), n, false);
    ChainLength(CfbDecryption(e), n, false, iv, data);
  }

  /** CFB: the data byte added to the encryption of the ciphertext block before. */
  lemma {:induction false} CfbByte(e: Transform, n: nat, iv: seq<bv8>, data: seq<bv8>, b: nat, i: nat)
    requires n > 0 && |iv| == n && OnBlocks(e, n) && i < n && b * n + i < |data|
    ensures b * n <= |data| && |BlockBefore(iv, data, n, b)| == n && |Chain(CfbDecryption(e), n, iv, data)| == |data|
    ensures Chain(CfbDecryption(e), n, iv, data)[b * n + i] == Plus(data[b * n + i], e(BlockBefore(iv, data, n, b))[i])
    decreases b
  {
    hide Chain, BlockBefore, CfbDecryption, StepIs, Plus;
    var step := CfbDecryption(e);
    CfbLength(e, n, iv, data);
    var k := if n <= |data| then n else |data|;
    if b == 0 {
      FirstBefore(iv, data, n);
      CfbStep(e, n, iv, data[..k], i);
      FirstByte(step, n, iv, data, Plus(data[i], e(iv)[i]), i, data[..k]);
    } else {
      Words.AtLeastOne(b, n);
      CfbStep(e, n, iv, data[..n], 0);
      NextIs(step, n, iv, data[..n], Plus(data[0], e(iv)[0]), 0, data[..n]);
      LaterByte(step, n, iv, data, b, i);
      ShiftBefore(iv, data, n, b);
      CfbLength(e, n, data[..n], data[n..]);
      assert (b - 1) * n + i == b * n + i - n;
      CfbByte(e, n, data[..n], data[n..], b - 1, i);
    }
  }

  lemma NextIs(step: Step, n: nat, s: seq<bv8>, chunk: seq<bv8>, out: bv8, i: nat, next: seq<bv8>)
    requires StepIs(step, n, s, chunk, out, i, next) && |chunk| == n
    ensures step(s, chunk).next == next && |step(s, chunk).out| == n
  {
  }

  /** `f` applied `k` times. */
  function Iterated(f: Transform, s: seq<bv8>, k: nat): seq<bv8>
    decreases k
  {
    if k == 0 then s else Iterated(f, f(s), k - 1)
  }

  lemma OfbStep(e: Transform, n: nat, s: seq<bv8>, chunk: seq<bv8>, i: nat)
    requires |s| == n && 0 < |chunk| <= n && i < |chunk| && OnBlocks(e, n)
    ensures StepIs(Ofb(e), n, s, chunk, Plus(chunk[i], e(s)[i]), i, e(s))
  {
  }

  lemma OfbLength(e: Transform, n: nat, iv: seq<bv8>, data: seq<bv8>)
    requires n > 0 && |iv| == n && OnBlocks(e, n)
    ensures |Chain(Ofb(e), n, iv, data)| == |data|
  {
    hide Chain;
    assert StepKeeps(Ofb(e), n, false);
    ChainLength(Ofb(e), n, false, iv, data);
  }

  /** OFB: the data byte added to the IV encrypted once more than there are blocks before. */
  lemma {:induction false} OfbByte(e: Transform, n: nat, iv: seq<bv8>, data: seq<bv8>, b: nat, i: nat)
    requires n > 0 && |iv| == n && OnBlocks(e, n) && i < n && b * n + i < |data|
    ensures |Iterated(e, iv, b + 1)| == n && |Chain(Ofb(e), n, iv, data)| == |data|
    ensures Chain(Ofb(e), n, iv, data)[b * n + i] == Plus(data[b * n + i], Iterated(e, iv, b + 1)[i])
    decreases b
  {
    assert Iterated(e, iv, b + 1) == Iterated(e, e(iv), b);
    hide Chain, Ofb, StepIs, Plus;
    var step := Ofb(e);
    OfbLength(e, n, iv, data);
    var k := if n <= |data| then n else |data|;
    if b == 0 {
      assert Iterated(e, e(iv), 0) == e(iv);
      OfbStep(e, n, iv, data[..k], i);
      FirstByte(step, n, iv, data, Plus(data[i], e(iv)[i]), i, e(iv));
    } else {
      Words.AtLeastOne(b, n);
      OfbStep(e, n, iv, data[..n], 0);
      NextIs(step, n, iv, data[..n], Plus(data[0], e(iv)[0]), 0, e(iv));
      LaterByte(step, n, iv, data, b, i);
      OfbLength(e, n, e(iv), data[n..]);
      assert (b - 1) * n + i == b * n + i - n;
      OfbByte(e, n, e(iv), data[n..], b - 1, i);
    }
  }

  lemma CbcStep(d: Transform, n: nat, s: seq<bv8>, chunk: seq<bv8>, i: nat)
    requires |s| == n == |chunk| && i < n && OnBlocks(d, n)
    ensures StepIs(CbcDecryption(d), n, s, chunk, Plus(d(chunk)[i], s[i]), i, chunk)
  {
  }

  lemma CbcLength(d: Transform, n: nat, iv: seq<bv8>, data: seq<bv8>)
    requires n > 0 && |iv| == n && OnBlocks(d, n) && |data| % n == 0
    ensures |Chain(CbcDecryption(d), n, iv, data)| == |data|
  {
    hide Chain;
    assert StepKeeps(CbcDecryption(d), n, true);
    ChainLength(CbcDecryption(d), n, true, iv, data);
  }

  /** The bytes of block `b`. */
  function BlockAt(data: seq<bv8>, n: nat, b: nat): (r: seq<bv8>)
    requires b * n + n <= |data|
    ensures |r| == n
  {
    data[b * n..b * n + n]
  }

  lemma ShiftBlock(data: seq<bv8>, n: nat, b: nat)
    requires n > 0 && 0 < b && b * n + n <= |data|
    ensures n <= |data| && (b - 1) * n + n <= |data[n..]|
    ensures BlockAt(data[n..], n, b - 1) == BlockAt(data, n, b)
  {
    Words.AtLeastOne(b, n);
    assert (b - 1) * n == b * n - n;
  }

  /** CBC: the decrypted block added to the ciphertext block before. */
  lemma {:induction false} CbcByte(d: Transform, n: nat, iv: seq<bv8>, data: seq<bv8>, b: nat, i: nat)
    requires n > 0 && |iv| == n && OnBlocks(d, n) && i < n && |data| % n == 0 && b * n + n <= |data|
    ensures |BlockBefore(iv, data, n, b)| == n && |Chain(CbcDecryption(d), n, iv, data)| == |data|
    ensures Chain(CbcDecryption(d), n, iv, data)[b * n + i] ==
            Plus(d(BlockAt(data, n, b))[i], BlockBefore(iv, data, n, b)[i])
    decreases b
  {
    hide Chain, BlockBefore, BlockAt, CbcDecryption, StepIs, Plus;
    var step := CbcDecryption(d);
    CbcLength(d, n, iv, data);
    if b == 0 {
      FirstBefore(iv, data, n);
      FirstBlock(data, n);
      CbcStep(d, n, iv, data[..n], i);
      FirstByte(step, n, iv, data, Plus(d(data[..n])[i], iv[i]), i, data[..n]);
    } else {
      ShiftBlock(data, n, b);
      CbcStep(d, n, iv, data[..n], 0);
      NextIs(step, n, iv, data[..n], Plus(d(data[..n])[0], iv[0]), 0, data[..n]);
      LaterByte(step, n, iv, data, b, i);
      ShiftBefore(iv, data, n, b);
      ShorterByBlock(|data|, n);
      CbcLength(d, n, data[..n], data[n..]);
      assert (b - 1) * n + i == b * n + i - n;
      CbcByte(d, n, data[..n], data[n..], b - 1, i);
    }
  }

  lemma FirstBlock(data: seq<bv8>, n: nat)
    requires n <= |data|
    ensures BlockAt(data, n, 0) == data[..n]
  {
  }

  lemma EcbStep(d: Transform, n: nat, s: seq<bv8>, chunk: seq<bv8>, i: nat)
    requires |s| == n == |chunk| && i < n && OnBlocks(d, n)
    ensures StepIs(Ecb(d), n, s, chunk, d(chunk)[i], i, s)
  {
  }

  lemma EcbLength(d: Transform, n: nat, s: seq<bv8>, data: seq<bv8>)
    requires n > 0 && |s| == n && OnBlocks(d, n) && |data| % n == 0
    ensures |Chain(Ecb(d), n, s, data)| == |data|
  {
    hide Chain;
    assert StepKeeps(Ecb(d), n, true);
    ChainLength(Ecb(d), n, true, s, data);
  }

  /** ECB: the decrypted block. */
  lemma {:induction false} EcbByte(d: Transform, n: nat, s: seq<bv8>, data: seq<bv8>, b: nat, i: nat)
    requires n > 0 && |s| == n && OnBlocks(d, n) && i < n && |data| % n == 0 && b * n + n <= |data|
    ensures |Chain(Ecb(d), n, s, data)| == |data| && Chain(Ecb(d), n, s, data)[b * n + i] == d(BlockAt(data, n, b))[i]
    decreases b
  {
    hide Chain, BlockAt, Ecb, StepIs;
    var step := Ecb(d);
    EcbLength(d, n, s, data);
    if b == 0 {
      FirstBlock(data, n);
      EcbStep(d, n, s, data[..n], i);
      FirstByte(step, n, s, data, d(data[..n])[i], i, s);
    } else {
      ShiftBlock(data, n, b);
      EcbStep(d, n, s, data[..n], 0);
      NextIs(step, n, s, data[..n], d(data[..n])[0], 0, s);
      LaterByte(step, n, s, data, b, i);
      ShorterByBlock(|data|, n);
      EcbLength(d, n, s, data[n..]);
      assert (b - 1) * n + i == b * n + i - n;
      EcbByte(d, n, s, data[n..], b - 1, i);
    }
  }

  // ----- loops over chunks -----

  method XorChunk(chunk: seq<bv8>, stream: seq<bv8>) returns (out: seq<bv8>)
    requires |chunk| <= |stream|
    ensures out == Xor(chunk, stream)
  {
    out := [];
    for i := 0 to |chunk|
      invariant out == Xor(chunk, stream)[..i]
    {
      out := out + [chunk[i] ^ stream[i]];
    }
  }

  lemma NextChunk(step: Step, n: nat, s: seq<bv8>, data: seq<bv8>, pos: nat)
    requires n > 0 && pos < |data|
    ensures var k := if pos + n <= |data| then pos + n else |data|;
            var stage := step(s, data[pos..k]);
            Chain(step, n, s, data[pos..]) == stage.out + Chain(step, n, stage.next, data[k..])
  {
    var k := if pos + n <= |data| then pos + n else |data|;
    ChainStep(step, n, s, data[pos..]);
    assert data[pos..][..k - pos] == data[pos..k] && data[pos..][k - pos..] == data[k..];
  }

  lemma NoMoreChunks(step: Step, n: nat, s: seq<bv8>, data: seq<bv8>)
    requires n > 0
    ensures data[|data|..] == [] && Chain(step, n, s, []) == [] && data[0..] == data
  {
  }
}
