/** RC4: key scheduling, keystream, and the cipher. */
module Rc4 {
  import opened Words
  import opened Streams

  type Table = s: seq<byte> | |s| == 256 witness seq(256, _ => 0)

  /** Every byte value stands in exactly one place. */
  ghost predicate Permutation(s: Table) {
    (forall i, j :: 0 <= i < j < 256 ==> s[i] != s[j]) && (forall v :: 0 <= v < 256 ==> v in s)
  }

  /** The table with two of the 256 counters that walk it. */
  datatype State = State(s: Table, i: byte, j: byte)

  function Swapped(s: Table, i: byte, j: byte): Table {
    s[i := s[j]][j := s[i]]
  }

  lemma SwapPermutes(s: Table, i: byte, j: byte)
    requires Permutation(s)
    ensures Permutation(Swapped(s, i, j))
  {
    var t := Swapped(s, i, j);
    forall v | 0 <= v < 256
      ensures v in t
    {
      assert v in s;
      var k :| 0 <= k < |s| && s[k] == v;
      assert t[if k == i then j else if k == j then i else k] == v;
    }
  }

  function Identity(): Table {
    seq(256, i requires 0 <= i < 256 => i)
  }

  // ----- key scheduling -----

  /** The table after `n` steps of key scheduling. */
  function Scheduled(key: seq<byte>, n: nat): State
    requires key != [] && n <= 256
  {
    if n == 0 then State(Identity(), 0, 0)
    else
      var before := Scheduled(key, n - 1);
      var j := (before.j + before.s[n - 1] + key[(n - 1) % |key|]) % 256;
      State(Swapped(before.s, n - 1, j), 0, j)
  }

  lemma {:induction false} ScheduledPermutes(key: seq<byte>, n: nat)
    requires key != [] && n <= 256
    ensures Permutation(Scheduled(key, n).s)
  {
    hide Permutation;
    if n == 0 {
      IdentityPermutes();
    } else {
      ScheduledPermutes(key, n - 1);
      var before := Scheduled(key, n - 1);
      SwapPermutes(before.s, n - 1, (before.j + before.s[n - 1] + key[(n - 1) % |key|]) % 256);
    }
  }

  lemma IdentityPermutes()
    ensures Permutation(Identity())
  {
    forall v | 0 <= v < 256
      ensures v in Identity()
    {
      assert Identity()[v] == v;
    }
  }

  // ----- keystream -----

  function AddMod(a: int, b: int): byte {
    (a + b) % 256
  }

  function Next(st: State): State {
    var i := (st.i + 1) % 256;
    var j := (st.j + st.s[i]) % 256;
    State(Swapped(st.s, i, j), i, j)
  }

  /** The byte given out by a state that has just been stepped. */
  function Output(st: State): byte {
    st.s[AddMod(st.s[st.i], st.s[st.j])]
  }

  function After(st: State, n: nat): State {
    if n == 0 then st else Next(After(st, n - 1))
  }

  function Keystream(st: State, n: nat): (r: seq<byte>)
    ensures |r| == n
  {
    if n == 0 then [] else Keystream(st, n - 1) + [Output(After(st, n))]
  }

  lemma NextPermutes(st: State)
    requires Permutation(st.s)
    ensures Permutation(Next(st).s)
  {
    hide Permutation, Swapped;
    var i: byte := (st.i + 1) % 256;
    SwapPermutes(st.s, i, (st.j + st.s[i]) % 256);
  }

  /** The table is a permutation after any number of keystream bytes. */
  lemma {:induction false} KeystreamPermutes(key: seq<byte>, n: nat)
    requires key != []
    ensures Permutation(After(Start(key), n).s)
  {
    hide Permutation, Next, Scheduled;
    if n == 0 {
      ScheduledPermutes(key, 256);
    } else {
      KeystreamPermutes(key, n - 1);
      NextPermutes(After(Start(key), n - 1));
    }
  }

  /** After key scheduling both counters start again from zero. */
  function Start(key: seq<byte>): State
    requires key != []
  {
    State(Scheduled(key, 256).s, 0, 0)
  }

  function Crypt(data: seq<byte>, key: seq<byte>): seq<byte>
    requires key != []
  {
    XorBytes(data, Keystream(Start(key), |data|))
  }

  /** The cipher is its own inverse. */
  lemma CryptTwice(data: seq<byte>, key: seq<byte>)
    requires key != []
    ensures Crypt(Crypt(data, key), key) == data
  {
    hide Scheduled, Keystream, XorBytes;
    XorBytesTwice(data, Keystream(Start(key), |data|));
  }

  // ----- the runs of both loops, step by step -----

  /** Two entries change places, and nothing else changes. */
  ghost predicate Exchanges(s: Table, t: Table, i: byte, j: byte) {
    t[i] == s[j] && t[j] == s[i] && forall k :: 0 <= k < 256 && k != i && k != j ==> t[k] == s[k]
  }

  /** One step of key scheduling. */
  ghost predicate KeyStep(key: seq<byte>, n: nat, s: Table, j: byte, t: Table, j': byte)
    requires key != [] && n < 256
  {
    j' == (j + s[n] + key[n % |key|]) % 256 && Exchanges(s, t, n, j')
  }

  /** One step of the keystream, and the byte it gives. */
  ghost predicate StreamStep(n: nat, s: Table, j: byte, t: Table, j': byte, k: byte) {
    var i: byte := (n + 1) % 256;
    j' == (j + s[i]) % 256 && Exchanges(s, t, i, j') && k == t[AddMod(t[i], t[j'])]
  }

  /** The table that the key leaves: 256 steps from the table of all bytes in order. */
  lemma KeyRun(key: seq<byte>) returns (tables: seq<Table>, js: seq<byte>)
    requires key != []
    ensures |tables| == |js| == 257 && js[0] == 0 && forall i :: 0 <= i < 256 ==> tables[0][i] == i
    ensures forall n: nat :: n < 256 ==> KeyStep(key, n, tables[n], js[n], tables[n + 1], js[n + 1])
    ensures Start(key).s == tables[256]
  {
    var count := 256;
    tables := seq(count + 1, n requires 0 <= n <= 256 => Scheduled(key, n).s);
    js := seq(count + 1, n requires 0 <= n <= 256 => Scheduled(key, n).j);
    forall n: nat | n < 256
      ensures KeyStep(key, n, tables[n], js[n], tables[n + 1], js[n + 1])
    {
      ScheduledStep(key, n);
    }
  }

  lemma ScheduledStep(key: seq<byte>, n: nat)
    requires key != [] && n < 256
    ensures KeyStep(key, n, Scheduled(key, n).s, Scheduled(key, n).j, Scheduled(key, n + 1).s, Scheduled(key, n + 1).j)
  {
  }

  /** The ciphertext: each byte with the byte of its own step added. */
  lemma StreamRun(data: seq<byte>, key: seq<byte>) returns (tables: seq<Table>, js: seq<byte>, ks: seq<byte>)
    requires key != []
    ensures |tables| == |js| == |data| + 1 && |ks| == |data| == |Crypt(data, key)|
    ensures tables[0] == Start(key).s && js[0] == 0
    ensures forall n: nat :: n < |data| ==> StreamStep(n, tables[n], js[n], tables[n + 1], js[n + 1], ks[n])
    ensures forall n: nat :: n < |data| ==> Crypt(data, key)[n] == XorByte(data[n], ks[n])
  {
    hide Start, XorByte, Next;
    var st := Start(key);
    StartsAtZero(key);
    tables := seq(|data| + 1, n requires 0 <= n => After(st, n).s);
    js := seq(|data| + 1, n requires 0 <= n => After(st, n).j);
    ks := Keystream(st, |data|);
    forall n: nat | n < |data|
      ensures StreamStep(n, tables[n], js[n], tables[n + 1], js[n + 1], ks[n])
    {
      CountsSteps(st, n);
      NextIsStep(After(st, n), n);
      StreamByte(st, |data|, n);
      hide After, StreamStep;
      assert After(st, n + 1) == Next(After(st, n)) by { OneMore(st, n); }
    }
  }

  lemma StartsAtZero(key: seq<byte>)
    requires key != []
    ensures Start(key).i == 0 && Start(key).j == 0
  {
  }

  lemma OneMore(st: State, n: nat)
    ensures After(st, n + 1) == Next(After(st, n))
  {
  }

  lemma {:induction false} CountsSteps(st: State, n: nat)
    requires st.i == 0
    ensures After(st, n).i == n % 256
  {
    if n > 0 {
      CountsSteps(st, n - 1);
      CountsOn(After(st, n - 1), n);
    }
  }

  lemma CountsOn(st: State, n: nat)
    requires n > 0 && st.i == (n - 1) % 256
    ensures Next(st).i == n % 256
  {
    hide Swapped;
  }

  lemma NextIsStep(st: State, n: nat)
    requires st.i == n % 256
    ensures StreamStep(n, st.s, st.j, Next(st).s, Next(st).j, Output(Next(st)))
  {
    assert (st.i + 1) % 256 == (n + 1) % 256;
  }

  // ----- the source's loops -----

  datatype Rc4Result = Ok(data: seq<byte>) | KeyEmpty

  method Swap(s: array<byte>, i: byte, j: byte)
    requires s.Length == 256
    modifies s
    ensures s[..] == Swapped(old(s[..]), i, j)
  {
    s[i], s[j] := s[j], s[i];
  }

  method Schedule(key: seq<byte>) returns (s: array<byte>)
    requires key != []
    ensures fresh(s) && s.Length == 256 && s[..] == Start(key).s
  {
    hide Swapped;
    s := new byte[256](i requires 0 <= i < 256 => i);
    assert s[..] == Identity();
    var j: byte := 0;
    for i := 0 to 256
      invariant s[..] == Scheduled(key, i).s && j == Scheduled(key, i).j
    {
      j := (j + s[i] + key[i % |key|]) % 256;
      Swap(s, i, j);
    }
  }

  method Rc4(data: seq<byte>, key: seq<byte>) returns (r: Rc4Result)
    ensures r == if key == [] then KeyEmpty else Ok(Crypt(data, key))
  {
    hide Swapped, Scheduled, XorByte, Keystream, XorBytes, After, Start;
    if key == [] { return KeyEmpty; }
    var s := Schedule(key);
    ghost var start := Start(key);
    ghost var stream := Keystream(start, |data|);
    var i: byte, j: byte := 0, 0;
    var out := [];
    StartsAtZero(key);
    NoneYet(start);
    for pos := 0 to |data|
      invariant State(s[..], i, j) == After(start, pos)
      invariant out == XorBytes(data, stream)[..pos]
    {
      i := (i + 1) % 256;
      j := (j + s[i]) % 256;
      Swap(s, i, j);
      var k := s[AddMod(s[i], s[j])];
      StreamByte(start, |data|, pos);
      OneMore(start, pos);
      XorBytesNext(data, stream, pos);
      out := out + [XorByte(data[pos], k)];
    }
    return Ok(out);
  }

  lemma NoneYet(st: State)
    ensures After(st, 0) == st
  {
  }

  lemma XorBytesNext(data: seq<byte>, stream: seq<byte>, pos: nat)
    requires pos < |data| <= |stream|
    ensures XorBytes(data, stream)[..pos + 1] == XorBytes(data, stream)[..pos] + [XorByte(data[pos], stream[pos])]
  {
    hide XorByte;
  }

  lemma {:induction false} StreamByte(st: State, n: nat, pos: nat)
    requires pos < n
    ensures Keystream(st, n)[pos] == Output(After(st, pos + 1))
  {
    hide Output, After;
    if pos < n - 1 { StreamByte(st, n - 1, pos); }
  }
}
