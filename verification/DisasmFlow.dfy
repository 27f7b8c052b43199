/** The breadth-first disassembly walk over a control-flow graph. */
module DisasmFlow {
  import opened Options
  import opened Sorting
  import opened Words

  type Va = x: nat | x < 0x1_0000_0000_0000_0000

  /** A decoded instruction: its direct branch targets, and whether control never falls through it. */
  datatype Insn = Insn(address: Va, length: nat, terminal: bool, targets: seq<Va>)

  /** What the walk sees of a program: a deterministic decoder, int3 padding, and known function entries. */
  datatype Image = Image(decode: Va -> Option<Insn>, int3: Va -> bool, entries: set<Va>)

  /** The decoder gives an instruction the address it was asked for. */
  ghost predicate ImageOk(image: Image) {
    forall va: Va :: image.decode(va).Some? ==> image.decode(va).value.address == va
  }

  /** One request: where to start, how many instructions, and the bounds. */
  datatype Walk = Walk(image: Image, start: Va, maxInsns: nat, skipBad: bool, boundEnd: Option<Va>,
                       selfEntry: Option<Va>)

  datatype StopReason = Count | FunctionEnd | Int3 | NextSeed | DecodeFail

  datatype FlowResult =
    | Listing(insns: seq<Insn>, decodeGaps: nat, firstGap: Option<Va>, stop: StopReason)
    | NoInstructions

  // ----- the graph -----

  predicate InBounds(w: Walk, va: Va) {
    w.boundEnd.None? || w.start <= va < w.boundEnd.value
  }

  predicate IsNextSeed(w: Walk, va: Va) {
    va in w.image.entries && w.selfEntry != Some(va)
  }

  /** The walk looks at the bytes here: in bounds, not another function's entry, not padding. */
  predicate Live(w: Walk, va: Va) {
    InBounds(w, va) && !(va != w.start && IsNextSeed(w, va)) && !w.image.int3(va)
  }

  predicate Decodes(w: Walk, va: Va) {
    w.image.decode(va).Some?
  }

  predicate Listed(w: Walk, va: Va) {
    Live(w, va) && Decodes(w, va)
  }

  /** A hole that is skipped, when holes are skipped. */
  predicate Gap(w: Walk, va: Va) {
    Live(w, va) && !Decodes(w, va) && w.skipBad
  }

  /** Addition in 64 bits, by at least one. */
  function Advance(va: Va, length: nat): Va {
    (va + if length == 0 then 1 else length) % U64
  }

  function Within(w: Walk, targets: seq<Va>): seq<Va> {
    if targets == [] then []
    else
      var front, last := targets[..|targets| - 1], targets[|targets| - 1];
      if InBounds(w, last) then Within(w, front) + [last] else Within(w, front)
  }

  /** The addresses an instruction leads to: branch targets, then the fallthrough. */
  function After(w: Walk, insn: Insn, va: Va): seq<Va> {
    Within(w, insn.targets) +
    if !insn.terminal && InBounds(w, Advance(va, insn.length)) then [Advance(va, insn.length)] else []
  }

  /** The addresses that a visited address leads to. */
  function Successors(w: Walk, va: Va): seq<Va> {
    if Listed(w, va) then After(w, w.image.decode(va).value, va)
    else if Gap(w, va) && InBounds(w, Advance(va, 1)) then [Advance(va, 1)]
    else []
  }

  ghost predicate Path(w: Walk, p: seq<Va>) {
    p != [] && p[0] == w.start && forall i :: 0 <= i < |p| - 1 ==> p[i + 1] in Successors(w, p[i])
  }

  /** Some path of successors leads from the start to this address. */
  ghost predicate Reached(w: Walk, va: Va) {
    exists p: seq<Va> :: Path(w, p) && p[|p| - 1] == va
  }

  lemma StartReached(w: Walk)
    ensures Reached(w, w.start)
  {
    var p: seq<Va> := [w.start];
    assert Path(w, p) && p[|p| - 1] == w.start;
  }

  lemma ReachedNext(w: Walk, va: Va, next: Va)
    requires Reached(w, va) && next in Successors(w, va)
    ensures Reached(w, next)
  {
    hide Successors;
    var p: seq<Va> :| Path(w, p) && p[|p| - 1] == va;
    var q: seq<Va> := p + [next];
    assert Path(w, q) && q[|q| - 1] == next;
  }

  /** A set that holds the start and every successor of its members holds everything reached. */
  lemma {:induction false} ClosedHoldsPath(w: Walk, visited: set<Va>, p: seq<Va>)
    requires w.start in visited && Path(w, p)
    requires forall v: Va, t: Va :: v in visited && t in Successors(w, v) ==> t in visited
    ensures p[|p| - 1] in visited
    decreases |p|
  {
    hide Successors;
    if |p| > 1 {
      ClosedHoldsPath(w, visited, p[..|p| - 1]);
      assert p[|p| - 2 + 1] in Successors(w, p[|p| - 2]);
    }
  }

  // ----- breadth-first order -----

  /** Everything queued once these addresses have been visited: the start, then the successors of each. */
  function Waiting(w: Walk, order: seq<Va>): seq<Va> {
    if order == [] then [w.start]
    else Waiting(w, order[..|order| - 1]) + Successors(w, order[|order| - 1])
  }

  function FirstNew(s: seq<Va>, seen: seq<Va>): Option<Va> {
    if s == [] then None else if s[0] in seen then FirstNew(s[1..], seen) else Some(s[0])
  }

  /** The first `n` addresses in breadth-first order, or all of them: each is the first new one among those waiting. */
  function Order(w: Walk, n: nat): (order: seq<Va>)
    ensures |order| <= n
  {
    if n == 0 then []
    else
      var before := Order(w, n - 1);
      var next := FirstNew(Waiting(w, before), before);
      if next.Some? then before + [next.value] else before
  }

  /** The instructions at these addresses, for those that are listed. */
  function InsnsAt(w: Walk, order: seq<Va>): seq<Insn> {
    if order == [] then []
    else
      var front, va := InsnsAt(w, order[..|order| - 1]), order[|order| - 1];
      if Listed(w, va) then front + [w.image.decode(va).value] else front
  }

  /** The skipped holes among these addresses. */
  function GapsAt(w: Walk, order: seq<Va>): seq<Va> {
    if order == [] then []
    else
      var front, va := GapsAt(w, order[..|order| - 1]), order[|order| - 1];
      if Gap(w, va) then front + [va] else front
  }

  /** The reason left by these addresses: that of the last one in bounds that was turned away. */
  function ReasonAt(w: Walk, order: seq<Va>): StopReason {
    if order == [] then Count
    else
      var front, va := order[..|order| - 1], order[|order| - 1];
      if !InBounds(w, va) then ReasonAt(w, front)
      else if va != w.start && IsNextSeed(w, va) then
        if InsnsAt(w, front) == [] then ReasonAt(w, front) else NextSeed
      else if w.image.int3(va) then Int3
      else if Decodes(w, va) || w.skipBad then ReasonAt(w, front)
      else DecodeFail
  }

  function Address(insn: Insn): int {
    insn.address
  }

  /** The walk visits exactly `n` addresses: it is full for the first time, or nothing new is waiting. */
  ghost predicate Visits(w: Walk, n: nat) {
    && |Order(w, n)| == n
    && (|InsnsAt(w, Order(w, n))| >= w.maxInsns || FirstNew(Waiting(w, Order(w, n)), Order(w, n)).None?)
    && forall k: nat :: k < n ==> |InsnsAt(w, Order(w, k))| < w.maxInsns
  }

  function FirstOf(gaps: seq<Va>): Option<Va> {
    if gaps == [] then None else Some(gaps[0])
  }

  /** The reason reported at the end. */
  function FinalStop(w: Walk, n: nat, stop: StopReason): StopReason {
    if n >= w.maxInsns then Count
    else if w.boundEnd.Some? && stop == Count then FunctionEnd
    else stop
  }

  /** The result of visiting `n` addresses in breadth-first order. */
  ghost predicate Tells(w: Walk, n: nat, r: FlowResult) {
    var order := Order(w, n);
    var insns := InsnsAt(w, order);
    if insns == [] then r == NoInstructions
    else
      && r.Listing? && StrictlySorted(r.insns, Address) && (forall insn :: insn in r.insns <==> insn in insns)
      && r.decodeGaps == |GapsAt(w, order)| && r.firstGap == FirstOf(GapsAt(w, order))
      && r.stop == FinalStop(w, |insns|, ReasonAt(w, order))
  }

  lemma {:induction false} FirstNewSkips(done: seq<Va>, rest: seq<Va>, seen: seq<Va>)
    requires forall v :: v in done ==> v in seen
    ensures FirstNew(done + rest, seen) == FirstNew(rest, seen)
    decreases |done|
  {
    if done == [] {
      assert done + rest == rest;
    } else {
      assert (done + rest)[1..] == done[1..] + rest;
      FirstNewSkips(done[1..], rest, seen);
    }
  }

  lemma {:induction false} FirstNewAt(s: seq<Va>, seen: seq<Va>) returns (k: nat)
    requires FirstNew(s, seen).Some?
    ensures k < |s| && FirstNew(s, seen) == Some(s[k]) && s[k] !in seen && forall v :: v in s[..k] ==> v in seen
    decreases |s|
  {
    if s[0] in seen {
      var j := FirstNewAt(s[1..], seen);
      k := j + 1;
      assert s[..k] == [s[0]] + s[1..][..j];
    } else {
      k := 0;
    }
  }

  lemma {:induction false} WaitingHolds(w: Walk, order: seq<Va>, l: nat, t: Va)
    requires l < |order| && t in Successors(w, order[l])
    ensures t in Waiting(w, order)
    decreases |order|
  {
    hide Successors;
    if l < |order| - 1 { WaitingHolds(w, order[..|order| - 1], l, t); }
  }

  /** A waiting address was queued by some visited one, after all that went before it there and before that one. */
  lemma {:induction false} QueuedBy(w: Walk, order: seq<Va>, k: nat) returns (j: nat, q: nat)
    requires 0 < k < |Waiting(w, order)|
    ensures j < |order| && q < |Successors(w, order[j])| && Waiting(w, order)[k] == Successors(w, order[j])[q]
    ensures forall t :: t in Successors(w, order[j])[..q] ==> t in Waiting(w, order)[..k]
    ensures forall l: nat, t: Va :: l < j && t in Successors(w, order[l]) ==> t in Waiting(w, order)[..k]
    decreases |order|
  {
    hide Successors;
    var front := order[..|order| - 1];
    var n := |Waiting(w, front)|;
    if k < n {
      j, q := QueuedBy(w, front, k);
      assert Waiting(w, order)[..k] == Waiting(w, front)[..k];
    } else {
      j, q := |order| - 1, k - n;
      assert Waiting(w, order)[..k] == Waiting(w, front) + Successors(w, order[j])[..q];
      forall l: nat, t: Va | l < j && t in Successors(w, order[l])
        ensures t in Waiting(w, order)[..k]
      {
        WaitingHolds(w, front, l, t);
      }
    }
  }

  lemma {:induction false} OrderStalls(w: Walk, n: nat)
    requires |Order(w, n)| < n
    ensures FirstNew(Waiting(w, Order(w, n)), Order(w, n)).None?
  {
    hide Waiting, FirstNew;
    if |Order(w, n - 1)| < n - 1 { OrderStalls(w, n - 1); }
  }

  lemma {:induction false} OrderPrefix(w: Walk, n: nat, i: nat)
    requires i <= |Order(w, n)|
    ensures Order(w, i) == Order(w, n)[..i]
    decreases n
  {
    hide Waiting, FirstNew;
    if i < n {
      if |Order(w, n - 1)| < n - 1 { OrderStalls(w, n - 1); }
      assert i <= |Order(w, n - 1)|;
      OrderPrefix(w, n - 1, i);
      assert Order(w, n)[..i] == Order(w, n - 1)[..i];
    }
  }

  /** Each address after the first is waiting when its turn comes, and is the first new one. */
  lemma TakenNext(w: Walk, n: nat, i: nat) returns (k: nat)
    requires i < |Order(w, n)|
    ensures var before := Order(w, n)[..i];
            && k < |Waiting(w, before)| && Waiting(w, before)[k] == Order(w, n)[i] && Order(w, n)[i] !in before
            && forall v :: v in Waiting(w, before)[..k] ==> v in before
  {
    hide Waiting, FirstNew;
    OrderPrefix(w, n, i);
    OrderPrefix(w, n, i + 1);
    k := FirstNewAt(Waiting(w, Order(w, i)), Order(w, i));
  }

  lemma StartFirst(w: Walk, order: seq<Va>)
    ensures |Waiting(w, order)| > 0 && Waiting(w, order)[0] == w.start
  {
  }

  /** A path to address `i` of the order that is no longer than any path to an address not before it. */
  lemma {:induction false} PathTo(w: Walk, n: nat, i: nat) returns (q: seq<Va>)
    requires i < |Order(w, n)|
    ensures Path(w, q) && q[|q| - 1] == Order(w, n)[i]
    ensures forall p: seq<Va> :: Path(w, p) && |p| < |q| ==> p[|p| - 1] in Order(w, n)[..i]
    decreases i
  {
    hide Successors, Waiting, FirstNew, Order;
    var order := Order(w, n);
    var k := TakenNext(w, n, i);
    StartFirst(w, order[..i]);
    if k == 0 {
      q := [order[i]];
    } else {
      var j, _ := QueuedBy(w, order[..i], k);
      var front := PathTo(w, n, j);
      q := front + [order[i]];
      forall p: seq<Va> | Path(w, p) && |p| < |q|
        ensures p[|p| - 1] in order[..i]
      {
        NearerIsBefore(w, order[..i], j, k, p, |front|);
      }
    }
  }

  lemma NearerIsBefore(w: Walk, before: seq<Va>, j: nat, k: nat, p: seq<Va>, len: nat)
    requires Path(w, p) && |p| <= len && j < |before| && 0 < k < |Waiting(w, before)|
    requires forall v :: v in Waiting(w, before)[..k] ==> v in before
    requires forall l: nat, t: Va :: l < j && t in Successors(w, before[l]) ==> t in Waiting(w, before)[..k]
    requires forall o: seq<Va> :: Path(w, o) && |o| < len ==> o[|o| - 1] in before[..j]
    ensures p[|p| - 1] in before
  {
    hide Successors, Waiting;
    if |p| == 1 {
      StartFirst(w, before);
      assert w.start in Waiting(w, before)[..k];
    } else {
      var o := p[..|p| - 1];
      assert Path(w, o) && |o| < len;
      var l: nat :| l < j && before[..j][l] == o[|o| - 1];
      assert p[|p| - 2 + 1] in Successors(w, p[|p| - 2]);
    }
  }

  /** Nearest first: what is not visited before an address is no nearer to the start than that address. */
  lemma NearestFirst(w: Walk, n: nat, i: nat, p: seq<Va>)
    requires i < |Order(w, n)| && Path(w, p) && p[|p| - 1] !in Order(w, n)[..i]
    ensures exists q: seq<Va> :: Path(w, q) && q[|q| - 1] == Order(w, n)[i] && |q| <= |p|
  {
    hide Order, Path;
    var q := PathTo(w, n, i);
  }

  lemma {:induction false} InsnFrom(w: Walk, order: seq<Va>, insn: Insn) returns (i: nat)
    requires insn in InsnsAt(w, order)
    ensures i < |order| && Listed(w, order[i]) && insn == w.image.decode(order[i]).value
    decreases |order|
  {
    hide Live;
    if insn in InsnsAt(w, order[..|order| - 1]) {
      i := InsnFrom(w, order[..|order| - 1], insn);
    } else {
      i := |order| - 1;
    }
  }

  lemma {:induction false} InsnHeld(w: Walk, order: seq<Va>, va: Va)
    requires va in order && Listed(w, va)
    ensures w.image.decode(va).value in InsnsAt(w, order)
    decreases |order|
  {
    hide Live;
    if va != order[|order| - 1] { InsnHeld(w, order[..|order| - 1], va); }
  }

  lemma {:induction false} FirstGapAt(w: Walk, order: seq<Va>) returns (i: nat)
    requires GapsAt(w, order) != []
    ensures i < |order| && Gap(w, order[i]) && GapsAt(w, order)[0] == order[i]
    ensures forall v :: v in order[..i] ==> !Gap(w, v)
    decreases |order|
  {
    hide Gap;
    var front := order[..|order| - 1];
    if GapsAt(w, front) != [] {
      i := FirstGapAt(w, front);
      assert order[..i] == front[..i];
    } else {
      i := |order| - 1;
      NoGapAt(w, front);
    }
  }

  lemma {:induction false} NoGapAt(w: Walk, order: seq<Va>)
    requires GapsAt(w, order) == []
    ensures forall v :: v in order ==> !Gap(w, v)
    decreases |order|
  {
    hide Gap;
    if order != [] { NoGapAt(w, order[..|order| - 1]); }
  }

  /** A listing cut by the limit keeps the nearest: what it leaves out is no nearer than anything it lists. */
  lemma NearestListed(w: Walk, n: nat, r: FlowResult, insn: Insn, p: seq<Va>)
    requires Tells(w, n, r) && r.Listing? && insn in r.insns && ImageOk(w.image)
    requires Path(w, p) && Listed(w, p[|p| - 1]) && w.image.decode(p[|p| - 1]).value !in r.insns
    ensures exists q: seq<Va> :: Path(w, q) && q[|q| - 1] == insn.address && |q| <= |p|
  {
    hide Order, InsnsAt, Live, Successors;
    var order, va := Order(w, n), p[|p| - 1];
    var i := InsnFrom(w, order, insn);
    if va in order { InsnHeld(w, order, va); }
    NearestFirst(w, n, i, p);
  }

  /** The first hole of the listing is a nearest one. */
  lemma FirstGapNearest(w: Walk, n: nat, r: FlowResult, p: seq<Va>)
    requires Tells(w, n, r) && r.Listing? && r.firstGap.Some? && Path(w, p) && Gap(w, p[|p| - 1])
    ensures Gap(w, r.firstGap.value)
    ensures exists q: seq<Va> :: Path(w, q) && q[|q| - 1] == r.firstGap.value && |q| <= |p|
  {
    hide Order, GapsAt, InsnsAt, ReasonAt, Path, Gap;
    var i := FirstGapAt(w, Order(w, n));
    NearestFirst(w, n, i, p);
  }

  /** The number of visits and the result are fixed by the request. */
  lemma FlowOnce(w: Walk, n: nat, r: FlowResult, m: nat, s: FlowResult)
    requires Visits(w, n) && Tells(w, n, r) && Visits(w, m) && Tells(w, m, s)
    ensures n == m && r == s
  {
    hide Waiting, InsnsAt, FirstNew, GapsAt, ReasonAt, Reached;
    VisitsOnce(w, n, m);
    VisitsOnce(w, m, n);
    if r.Listing? && s.Listing? { StrictlySortedUnique(r.insns, s.insns, Address); }
  }

  lemma VisitsOnce(w: Walk, n: nat, m: nat)
    requires Visits(w, n) && Visits(w, m)
    ensures m <= n
  {
    hide Waiting, FirstNew, InsnsAt;
    if n < m { OrderPrefix(w, m, n + 1); }
  }

  // ----- the state of the walk -----

  ghost predicate AllReached(w: Walk, visited: set<Va>, queue: seq<Va>) {
    (w.start in visited || w.start in queue) &&
    (forall v: Va :: v in visited ==> Reached(w, v)) && (forall v: Va :: v in queue ==> Reached(w, v))
  }

  /** Successors of visited addresses are visited or waiting. */
  ghost predicate Followed(w: Walk, visited: set<Va>, queue: seq<Va>) {
    forall v: Va, t: Va :: v in visited && t in Successors(w, v) ==> t in visited || t in queue
  }

  /** The output lists the visited addresses that are live and decode, each once. */
  ghost predicate Lists(w: Walk, visited: set<Va>, out: seq<Insn>) {
    DistinctKeys(out, Address) &&
    (forall insn :: insn in out ==>
      insn.address in visited && Listed(w, insn.address) && insn == w.image.decode(insn.address).value) &&
    forall v: Va :: v in visited && Listed(w, v) ==> w.image.decode(v).value in out
  }

  lemma VisitNothing(w: Walk, visited: set<Va>, queue: seq<Va>, va: Va, out: seq<Insn>)
    requires AllReached(w, visited, [va] + queue) && Followed(w, visited, [va] + queue) && Lists(w, visited, out)
    requires Successors(w, va) == [] && !Listed(w, va)
    ensures AllReached(w, visited + {va}, queue) && Followed(w, visited + {va}, queue) && Lists(w, visited + {va}, out)
  {
    hide Reached, Successors, Listed;
  }

  lemma VisitAgain(w: Walk, visited: set<Va>, queue: seq<Va>, va: Va)
    requires AllReached(w, visited, [va] + queue) && Followed(w, visited, [va] + queue) && va in visited
    ensures AllReached(w, visited, queue) && Followed(w, visited, queue)
  {
    hide Reached, Successors;
  }

  /** Visiting an address and queueing its successors. */
  lemma VisitOne(w: Walk, visited: set<Va>, queue: seq<Va>, va: Va)
    requires AllReached(w, visited, [va] + queue) && Followed(w, visited, [va] + queue)
    ensures AllReached(w, visited + {va}, queue + Successors(w, va)) &&
            Followed(w, visited + {va}, queue + Successors(w, va))
  {
    hide Reached, Successors;
    assert va in [va] + queue;
    forall t: Va | t in Successors(w, va)
      ensures Reached(w, t)
    {
      ReachedNext(w, va, t);
    }
  }

  lemma ListOne(w: Walk, visited: set<Va>, out: seq<Insn>, va: Va)
    requires ImageOk(w.image) && Lists(w, visited, out) && va !in visited && Listed(w, va)
    ensures Lists(w, visited + {va}, out + [w.image.decode(va).value])
  {
    hide Live;
    var insn := w.image.decode(va).value;
    forall i | 0 <= i < |out|
      ensures Address(out[i]) != Address(insn)
    {
      assert out[i] in out;
    }
  }

  lemma ListNone(w: Walk, visited: set<Va>, out: seq<Insn>, va: Va)
    requires Lists(w, visited, out) && !Listed(w, va)
    ensures Lists(w, visited + {va}, out)
  {
    hide Listed;
  }

  /**
   * The visited addresses are the first in breadth-first order; all that was queued is visited or still in the queue.
   */
  ghost predicate InOrder(w: Walk, order: seq<Va>, done: seq<Va>, queue: seq<Va>, visited: set<Va>) {
    && order == Order(w, |order|) && Waiting(w, order) == done + queue
    && (forall v :: v in done ==> v in order) && (forall v :: v in order <==> v in visited)
    && forall k: nat :: k < |order| ==> |InsnsAt(w, Order(w, k))| < w.maxInsns
  }

  /** The counts so far are those of the visited addresses. */
  ghost predicate Tallied(w: Walk, order: seq<Va>, out: seq<Insn>, count: int, first: Option<Va>, stop: StopReason) {
    && out == InsnsAt(w, order) && count == |GapsAt(w, order)| && first == FirstOf(GapsAt(w, order))
    && stop == ReasonAt(w, order)
  }

  lemma BeginInOrder(w: Walk)
    ensures InOrder(w, [], [], [w.start], {}) && Tallied(w, [], [], 0, None, Count)
  {
  }

  lemma PassInOrder(w: Walk, order: seq<Va>, done: seq<Va>, queue: seq<Va>, visited: set<Va>, va: Va)
    requires InOrder(w, order, done, [va] + queue, visited) && va in visited
    ensures InOrder(w, order, done + [va], queue, visited)
  {
    hide Order, Waiting, InsnsAt;
    assert done + ([va] + queue) == done + [va] + queue;
  }

  lemma VisitInOrder(w: Walk, order: seq<Va>, done: seq<Va>, queue: seq<Va>, visited: set<Va>, va: Va)
    requires InOrder(w, order, done, [va] + queue, visited) && va !in visited && |InsnsAt(w, order)| < w.maxInsns
    ensures InOrder(w, order + [va], done + [va], queue + Successors(w, va), visited + {va})
  {
    hide Order, Waiting, InsnsAt, FirstNew, Successors;
    FirstNewSkips(done, [va] + queue, order);
    FirstNewHead(va, queue, order);
    WaitingStep(w, order, va);
    OrderStep(w, order, va);
    assert done + ([va] + queue) + Successors(w, va) == done + [va] + (queue + Successors(w, va));
  }

  lemma OrderStep(w: Walk, order: seq<Va>, va: Va)
    requires order == Order(w, |order|) && FirstNew(Waiting(w, order), order) == Some(va)
    ensures Order(w, |order| + 1) == order + [va]
  {
    hide Waiting, FirstNew;
  }

  lemma FirstNewHead(va: Va, queue: seq<Va>, seen: seq<Va>)
    requires va !in seen
    ensures FirstNew([va] + queue, seen) == Some(va)
  {
  }

  lemma WaitingStep(w: Walk, order: seq<Va>, va: Va)
    ensures Waiting(w, order + [va]) == Waiting(w, order) + Successors(w, va)
  {
    assert (order + [va])[..|order|] == order;
  }

  /** What one more visit adds to the counts. */
  lemma TallyOne(w: Walk, order: seq<Va>, out: seq<Insn>, count: int, first: Option<Va>, stop: StopReason, va: Va)
    requires Tallied(w, order, out, count, first, stop)
    ensures
      Tallied(w, order + [va],
        if Listed(w, va) then out + [w.image.decode(va).value] else out,
        if Gap(w, va) then count + 1 else count,
        if Gap(w, va) && first.None? then Some(va) else first,
        if !InBounds(w, va) then stop
        else if va != w.start && IsNextSeed(w, va) then if out == [] then stop else NextSeed
        else if w.image.int3(va) then Int3
        else if w.image.decode(va).Some? || w.skipBad then stop
        else DecodeFail)
  {
    hide Live, InBounds, IsNextSeed;
    assert (order + [va])[..|order|] == order;
  }

  lemma DropInOrder(w: Walk, order: seq<Va>, done: seq<Va>, queue: seq<Va>, visited: set<Va>, va: Va)
    requires InOrder(w, order, done, [va] + queue, visited) && va !in visited && |InsnsAt(w, order)| < w.maxInsns
    requires !Listed(w, va) && !Gap(w, va)
    ensures InOrder(w, order + [va], done + [va], queue, visited + {va})
  {
    hide InOrder, Listed, Gap, InsnsAt;
    VisitInOrder(w, order, done, queue, visited, va);
    assert queue + Successors(w, va) == queue;
  }

  lemma TalliedOut(w: Walk, order: seq<Va>, out: seq<Insn>, count: int, first: Option<Va>, stop: StopReason)
    requires Tallied(w, order, out, count, first, stop)
    ensures out == InsnsAt(w, order)
  {
    hide InsnsAt, GapsAt, ReasonAt;
  }

  /** The loop ends with the walk's whole story told. */
  lemma Told(w: Walk, order: seq<Va>, done: seq<Va>, queue: seq<Va>, visited: set<Va>, out: seq<Insn>, count: int,
             first: Option<Va>, stop: StopReason, insns: seq<Insn>)
    requires InOrder(w, order, done, queue, visited) && Tallied(w, order, out, count, first, stop) && count >= 0
    requires |out| >= w.maxInsns || queue == []
    requires StrictlySorted(insns, Address) && forall insn :: insn in insns <==> insn in out
    ensures Visits(w, |order|)
    ensures Tells(w, |order|, if out == [] then NoInstructions
                              else Listing(insns, count, first, FinalStop(w, |out|, stop)))
  {
    hide Order, InsnsAt, GapsAt, ReasonAt, Waiting, FinalStop, StrictlySorted;
    if queue == [] {
      FirstNewSkips(done, [], order);
      assert done + [] == done;
    }
  }

  // ----- what the walk returns -----

  /** Every listed address is reached, live and decoded as listed; the listing is in address order without repeats. */
  ghost predicate Sound(w: Walk, insns: seq<Insn>) {
    StrictlySorted(insns, Address) && |insns| <= w.maxInsns &&
    forall insn :: insn in insns ==>
      Reached(w, insn.address) && Listed(w, insn.address) && insn == w.image.decode(insn.address).value
  }

  /** Everything reached that is live and decodes is listed. */
  ghost predicate Complete(w: Walk, insns: seq<Insn>) {
    forall va: Va :: Reached(w, va) && Listed(w, va) ==> w.image.decode(va).value in insns
  }

  /** Some reached address explains the reason. */
  ghost predicate Explains(w: Walk, stop: StopReason, va: Va) {
    match stop
    case NextSeed => InBounds(w, va) && va != w.start && IsNextSeed(w, va)
    case Int3 => InBounds(w, va) && w.image.int3(va)
    case DecodeFail => Live(w, va) && !Decodes(w, va) && !w.skipBad
    case _ => false
  }

  /** No reached address in bounds was turned away: each is listed or a skipped hole. */
  ghost predicate NothingTurnedAway(w: Walk) {
    forall va: Va :: Reached(w, va) && InBounds(w, va) ==> Listed(w, va) || Gap(w, va)
  }

  ghost predicate ReasonOk(w: Walk, insns: seq<Insn>, stop: StopReason) {
    if |insns| >= w.maxInsns then stop == Count
    else if stop == Count then w.boundEnd.None? && NothingTurnedAway(w)
    else if stop == FunctionEnd then w.boundEnd.Some? && NothingTurnedAway(w)
    else exists va: Va :: Reached(w, va) && Explains(w, stop, va)
  }

  /** The count of holes, and one of them. */
  ghost predicate GapsAre(w: Walk, gaps: set<Va>, count: nat, first: Option<Va>) {
    |gaps| == count && (first.None? <==> gaps == {}) && (first.Some? ==> first.value in gaps)
  }

  /** Exactly the reached holes. */
  ghost predicate AllGaps(w: Walk, gaps: set<Va>) {
    forall va: Va :: va in gaps <==> Reached(w, va) && Gap(w, va)
  }

  // ----- bookkeeping of holes and reasons -----

  ghost predicate GapsSeen(w: Walk, visited: set<Va>, gaps: set<Va>) {
    forall va: Va :: va in gaps <==> va in visited && Gap(w, va)
  }

  lemma SeeGap(w: Walk, visited: set<Va>, gaps: set<Va>, va: Va)
    requires GapsSeen(w, visited, gaps)
    ensures GapsSeen(w, visited + {va}, if Gap(w, va) then gaps + {va} else gaps)
  {
    hide Gap;
  }

  /** Nothing visited was turned away. */
  ghost predicate NoneTurnedAway(w: Walk, visited: set<Va>) {
    forall va: Va :: va in visited && InBounds(w, va) ==> Listed(w, va) || Gap(w, va)
  }

  lemma TurnNoneAway(w: Walk, visited: set<Va>, va: Va)
    requires NoneTurnedAway(w, visited) && (InBounds(w, va) ==> Listed(w, va) || Gap(w, va))
    ensures NoneTurnedAway(w, visited + {va})
  {
    hide Listed, Gap;
  }

  ghost predicate Explained(w: Walk, stop: StopReason) {
    exists va: Va :: Reached(w, va) && Explains(w, stop, va)
  }

  /** While no reason is recorded nothing was turned away, unless the walk found nothing and has nowhere to go. */
  ghost predicate ReasonSoFar(w: Walk, visited: set<Va>, queue: seq<Va>, out: seq<Insn>, stop: StopReason) {
    match stop
    case Count => NoneTurnedAway(w, visited) || (out == [] && queue == [])
    case FunctionEnd => false
    case _ => Explained(w, stop)
  }

  // ----- termination: there are only 2^64 addresses -----

  lemma {:induction false} FewerThan(s: set<Va>, n: nat)
    requires forall v: Va :: v in s ==> v < n
    ensures |s| <= n
    decreases n
  {
    if n > 0 {
      if n - 1 < U64 && n - 1 in s {
        FewerThan(s - {n - 1}, n - 1);
      } else {
        FewerThan(s, n - 1);
      }
    } else {
      assert s == {};
    }
  }

  lemma AddressesFew(s: set<Va>)
    ensures |s| <= U64
  {
    FewerThan(s, U64);
  }

  // ----- the walk -----

  method PushAll(w: Walk, queue: seq<Va>, targets: seq<Va>) returns (r: seq<Va>)
    ensures r == queue + Within(w, targets)
  {
    hide InBounds;
    r := queue;
    for i := 0 to |targets|
      invariant r == queue + Within(w, targets[..i])
    {
      assert targets[..i + 1][..i] == targets[..i];
      if InBounds(w, targets[i]) {
        r := r + [targets[i]];
      }
    }
    assert targets[..|targets|] == targets;
  }

  /** Queues what an instruction leads to. */
  method PushAfter(w: Walk, queue: seq<Va>, insn: Insn, va: Va) returns (r: seq<Va>)
    ensures r == queue + After(w, insn, va)
  {
    hide InBounds, Within, Advance;
    r := PushAll(w, queue, insn.targets);
    var fallthrough := Advance(va, insn.length);
    if !insn.terminal && InBounds(w, fallthrough) {
      r := r + [fallthrough];
    }
  }

  ghost predicate Inv(w: Walk, visited: set<Va>, queue: seq<Va>, out: seq<Insn>, gaps: set<Va>, stop: StopReason) {
    AllReached(w, visited, queue) && Followed(w, visited, queue) && Lists(w, visited, out) &&
      GapsSeen(w, visited, gaps) &&
    ReasonSoFar(w, visited, queue, out, stop) && (out == [] ==> |queue| <= 1)
  }

  /** An address that leads nowhere is dropped, for a recorded reason or for none. */
  lemma Drop(w: Walk, visited: set<Va>, queue: seq<Va>, out: seq<Insn>, gaps: set<Va>, stop: StopReason, va: Va,
             next: StopReason)
    requires Inv(w, visited, [va] + queue, out, gaps, stop) && va !in visited && !Listed(w, va) && !Gap(w, va)
    requires (next == stop && (!InBounds(w, va) || (out == [] && queue == []))) || Explains(w, next, va)
    ensures Inv(w, visited + {va}, queue, out, gaps, next)
  {
    hide Reached, Live, Decodes, InBounds, Explains;
    DropReason(w, visited, queue, out, stop, va, next);
    assert Successors(w, va) == [];
    hide Listed, Gap, Successors;
    VisitNothing(w, visited, queue, va, out);
    SeeGap(w, visited, gaps, va);
  }

  lemma DropReason(w: Walk, visited: set<Va>, queue: seq<Va>, out: seq<Insn>, stop: StopReason, va: Va,
                   next: StopReason)
    requires AllReached(w, visited, [va] + queue) && ReasonSoFar(w, visited, [va] + queue, out, stop)
    requires (next == stop && (!InBounds(w, va) || (out == [] && queue == []))) || Explains(w, next, va)
    ensures ReasonSoFar(w, visited + {va}, queue, out, next)
  {
    hide Reached, Listed, Gap;
    assert va in [va] + queue;
  }

  lemma TakeInsn(w: Walk, visited: set<Va>, queue: seq<Va>, out: seq<Insn>, gaps: set<Va>, stop: StopReason, va: Va)
    requires ImageOk(w.image) && Inv(w, visited, [va] + queue, out, gaps, stop) && va !in visited && Listed(w, va)
    ensures Successors(w, va) == After(w, w.image.decode(va).value, va)
    ensures Inv(w, visited + {va}, queue + Successors(w, va), out + [w.image.decode(va).value], gaps, stop)
  {
    hide Reached, Live, Within, ImageOk, InBounds;
    assert !Gap(w, va);
    VisitOne(w, visited, queue, va);
    ListOne(w, visited, out, va);
    SeeGap(w, visited, gaps, va);
    if stop == Count {
      hide Listed, Gap, Successors;
      TurnNoneAway(w, visited, va);
    }
  }

  lemma TakeGap(w: Walk, visited: set<Va>, queue: seq<Va>, out: seq<Insn>, gaps: set<Va>, stop: StopReason, va: Va)
    requires Inv(w, visited, [va] + queue, out, gaps, stop) && va !in visited && Gap(w, va)
    ensures Inv(w, visited + {va}, queue + Successors(w, va), out, gaps + {va}, stop)
  {
    hide Reached, Live, Within, InBounds;
    assert |Successors(w, va)| <= 1 && !Listed(w, va);
    VisitOne(w, visited, queue, va);
    SeeGap(w, visited, gaps, va);
    hide Listed, Gap, Successors;
    ListNone(w, visited, out, va);
    if stop == Count {
      TurnNoneAway(w, visited, va);
    }
  }

  lemma SkipVisited(w: Walk, visited: set<Va>, queue: seq<Va>, out: seq<Insn>, gaps: set<Va>, stop: StopReason, va: Va)
    requires Inv(w, visited, [va] + queue, out, gaps, stop) && va in visited
    ensures Inv(w, visited, queue, out, gaps, stop)
  {
    hide Reached, Successors, Listed, Gap, InBounds;
    VisitAgain(w, visited, queue, va);
  }

  lemma Begin(w: Walk)
    ensures Inv(w, {}, [w.start], [], {}, Count)
  {
    hide Reached;
    StartReached(w);
  }

  /** Sorting the output loses nothing. */
  lemma SortedListing(w: Walk, visited: set<Va>, out: seq<Insn>)
    requires Lists(w, visited, out)
    ensures var insns := DedupBy(SortBy(out, Address), Address);
            StrictlySorted(insns, Address) && |insns| == |out| && forall insn :: insn in insns <==> insn in out
  {
    hide Listed;
    SortDistinct(out, Address);
    DedupStrict(SortBy(out, Address), Address);
    forall insn
      ensures insn in SortBy(out, Address) <==> insn in out
    {
      SameElements(out, Address, insn);
    }
  }

  /** With the queue empty, the visited addresses are the reached ones. */
  lemma VisitedIsReached(w: Walk, visited: set<Va>, va: Va)
    requires AllReached(w, visited, []) && Followed(w, visited, [])
    ensures va in visited <==> Reached(w, va)
  {
    hide Successors;
    if Reached(w, va) {
      var p: seq<Va> :| Path(w, p) && p[|p| - 1] == va;
      ClosedHoldsPath(w, visited, p);
    }
  }

  /** What an exhausted walk found. */
  lemma Exhausted(w: Walk, visited: set<Va>, out: seq<Insn>, gaps: set<Va>, stop: StopReason)
    requires Inv(w, visited, [], out, gaps, stop)
    ensures Complete(w, out) && AllGaps(w, gaps)
    ensures stop == Count && out != [] ==> NothingTurnedAway(w)
    ensures out == [] <==> forall va: Va :: Reached(w, va) ==> !Listed(w, va)
  {
    hide Reached, Successors, Listed, Gap, Explained;
    forall va: Va
      ensures va in visited <==> Reached(w, va)
    {
      VisitedIsReached(w, visited, va);
    }
    if out != [] {
      assert out[0] in out;
    }
  }

  lemma OneLeft(w: Walk, visited: set<Va>, queue: seq<Va>, out: seq<Insn>, gaps: set<Va>, stop: StopReason, va: Va)
    requires Inv(w, visited, [va] + queue, out, gaps, stop) && out == []
    ensures queue == []
  {
    assert |[va] + queue| <= 1;
  }

  /** Which of the checks of the walk an address falls to. */
  lemma Checks(w: Walk, va: Va)
    ensures !InBounds(w, va) ==> !Listed(w, va) && !Gap(w, va)
    ensures InBounds(w, va) && va != w.start && IsNextSeed(w, va) ==>
      !Listed(w, va) && !Gap(w, va) && Explains(w, NextSeed, va)
    ensures InBounds(w, va) && w.image.int3(va) ==> !Listed(w, va) && !Gap(w, va) && Explains(w, Int3, va)
  {
  }

  lemma Alive(w: Walk, va: Va)
    requires InBounds(w, va) && !(va != w.start && IsNextSeed(w, va)) && !w.image.int3(va)
    ensures Listed(w, va) <==> w.image.decode(va).Some?
    ensures Gap(w, va) <==> w.image.decode(va).None? && w.skipBad
    ensures w.image.decode(va).None? && !w.skipBad ==> Explains(w, DecodeFail, va)
  {
  }

  lemma AfterGap(w: Walk, visited: set<Va>, gaps: set<Va>, va: Va)
    requires GapsSeen(w, visited, gaps) && va !in visited && Gap(w, va)
    ensures va !in gaps
    ensures Successors(w, va) == if InBounds(w, Advance(va, 1)) then [Advance(va, 1)] else []
  {
    hide Live, InBounds, Advance;
  }

  /** Anything in the output is a reached address that is listed; sorted, it is a sound listing. */
  lemma SoundListing(w: Walk, visited: set<Va>, queue: seq<Va>, out: seq<Insn>)
    requires AllReached(w, visited, queue) && Lists(w, visited, out) && |out| <= w.maxInsns
    ensures Sound(w, DedupBy(SortBy(out, Address), Address))
    ensures out != [] ==> exists va: Va :: Reached(w, va) && Listed(w, va)
  {
    hide Reached, Listed, SortBy, DedupBy;
    SortedListing(w, visited, out);
    if out != [] {
      assert out[0] in out;
      assert Reached(w, out[0].address);
    }
  }

  lemma CompleteListing(w: Walk, out: seq<Insn>, visited: set<Va>)
    requires Complete(w, out) && Lists(w, visited, out)
    ensures Complete(w, DedupBy(SortBy(out, Address), Address))
  {
    hide Reached, Listed, SortBy, DedupBy;
    SortedListing(w, visited, out);
  }

  lemma FinalReason(w: Walk, visited: set<Va>, queue: seq<Va>, out: seq<Insn>, insns: seq<Insn>, stop: StopReason)
    requires ReasonSoFar(w, visited, queue, out, stop) && |insns| == |out|
    requires |out| < w.maxInsns && stop == Count ==> NothingTurnedAway(w)
    ensures ReasonOk(w, insns, FinalStop(w, |out|, stop))
  {
    hide Reached, NothingTurnedAway, Explains, NoneTurnedAway;
  }

  lemma NoGaps(w: Walk)
    ensures GapsAre(w, {}, 0, None)
  {
  }

  lemma OneMoreGap(w: Walk, gaps: set<Va>, count: nat, first: Option<Va>, va: Va)
    requires GapsAre(w, gaps, count, first) && va !in gaps
    ensures GapsAre(w, gaps + {va}, count + 1, if first.None? then Some(va) else first)
  {
  }

  lemma GapsOf(w: Walk, visited: set<Va>, queue: seq<Va>, out: seq<Insn>, gaps: set<Va>, stop: StopReason)
    requires Inv(w, visited, queue, out, gaps, stop)
    ensures GapsSeen(w, visited, gaps)
  {
  }

  lemma SplitInv(w: Walk, visited: set<Va>, queue: seq<Va>, out: seq<Insn>, gaps: set<Va>, stop: StopReason)
    requires Inv(w, visited, queue, out, gaps, stop)
    ensures AllReached(w, visited, queue) && Lists(w, visited, out) && ReasonSoFar(w, visited, queue, out, stop)
  {
  }

  // ----- the listing as a closed part of the program -----

  predicate Bounded(w: Walk, t: Va) {
    w.boundEnd.None? || w.start <= t < w.boundEnd.value
  }

  /** Control can pass from an instruction to an address in bounds: by a branch, or by falling through. */
  predicate LeadsTo(w: Walk, insn: Insn, t: Va) {
    Bounded(w, t) &&
    (t in insn.targets ||
     (!insn.terminal && t == (insn.address + if insn.length == 0 then 1 else insn.length) % 0x1_0000_0000_0000_0000))
  }

  /** The byte after a skipped hole. */
  predicate PastHole(w: Walk, h: Va, t: Va) {
    Bounded(w, t) && t == (h + 1) % 0x1_0000_0000_0000_0000
  }

  /** The walk does not enter here: another function's entry, padding, or a hole that is not skipped. */
  predicate Barred(w: Walk, t: Va) {
    || (t != w.start && t in w.image.entries && w.selfEntry != Some(t))
    || w.image.int3(t)
    || (w.image.decode(t).None? && !w.skipBad)
  }

  ghost predicate LedTo(w: Walk, insns: seq<Insn>, holes: set<Va>, t: Va) {
    (exists insn :: insn in insns && LeadsTo(w, insn, t)) || exists h :: h in holes && PastHole(w, h, t)
  }

  ghost predicate Shown(insns: seq<Insn>, holes: set<Va>, t: Va) {
    t in holes || exists insn :: insn in insns && insn.address == t
  }

  /** Instructions and holes are what the image has there, in bounds and not barred. */
  ghost predicate Proper(w: Walk, insns: seq<Insn>, holes: set<Va>) {
    (forall insn :: insn in insns ==>
      w.image.decode(insn.address) == Some(insn) && Bounded(w, insn.address) && !Barred(w, insn.address)) &&
    forall h: Va :: h in holes ==> w.image.decode(h).None? && Bounded(w, h) && !Barred(w, h)
  }

  /** The start is shown, and everything else shown is led to by something shown. */
  ghost predicate Supported(w: Walk, insns: seq<Insn>, holes: set<Va>) {
    Shown(insns, holes, w.start) && forall t: Va :: Shown(insns, holes, t) && t != w.start ==> LedTo(w, insns, holes, t)
  }

  /** Everything that something shown leads to is shown or barred. */
  ghost predicate Closed(w: Walk, insns: seq<Insn>, holes: set<Va>) {
    forall t: Va :: LedTo(w, insns, holes, t) ==> Shown(insns, holes, t) || Barred(w, t)
  }

  lemma {:induction false} WithinIs(w: Walk, targets: seq<Va>, t: Va)
    ensures t in Within(w, targets) <==> t in targets && Bounded(w, t)
  {
    hide InBounds;
    assert InBounds(w, t) <==> Bounded(w, t) by { BoundedIs(w, t); }
    if targets != [] {
      var front, last := targets[..|targets| - 1], targets[|targets| - 1];
      WithinIs(w, front, t);
      assert targets == front + [last];
    }
  }

  lemma BoundedIs(w: Walk, t: Va)
    ensures InBounds(w, t) <==> Bounded(w, t)
  {
  }

  lemma AfterIs(w: Walk, insn: Insn, t: Va)
    ensures t in After(w, insn, insn.address) <==> LeadsTo(w, insn, t)
  {
    hide Within;
    WithinIs(w, insn.targets, t);
  }

  /** What visiting an address queues, in terms of its instruction or hole. */
  lemma SuccessorsAre(w: Walk, va: Va, t: Va)
    requires ImageOk(w.image)
    ensures t in Successors(w, va) <==>
            (Listed(w, va) && LeadsTo(w, w.image.decode(va).value, t)) || (Gap(w, va) && PastHole(w, va, t))
  {
    hide After, Live, InBounds;
    BoundedIs(w, Advance(va, 1));
    if Listed(w, va) { AfterIs(w, w.image.decode(va).value, t); }
  }

  lemma ListedIs(w: Walk, va: Va)
    ensures Listed(w, va) <==> Bounded(w, va) && !Barred(w, va) && Decodes(w, va)
    ensures Gap(w, va) <==> Bounded(w, va) && !Barred(w, va) && !Decodes(w, va)
  {
  }

  /** The instructions and holes of some visited addresses. */
  ghost predicate ShowsVisited(w: Walk, visited: set<Va>, insns: seq<Insn>, holes: set<Va>) {
    (forall insn :: insn in insns ==>
      insn.address in visited && Listed(w, insn.address) && insn == w.image.decode(insn.address).value) &&
    (forall v: Va :: v in visited && Listed(w, v) ==> w.image.decode(v).value in insns) &&
    forall v: Va :: v in holes <==> v in visited && Gap(w, v)
  }

  lemma ShownIs(w: Walk, visited: set<Va>, insns: seq<Insn>, holes: set<Va>, t: Va)
    requires ImageOk(w.image) && ShowsVisited(w, visited, insns, holes)
    ensures Shown(insns, holes, t) <==> t in visited && (Listed(w, t) || Gap(w, t))
  {
    hide Live;
    if t in visited && Listed(w, t) {
      assert w.image.decode(t).value in insns;
    }
  }

  lemma ShownLeads(w: Walk, visited: set<Va>, insns: seq<Insn>, holes: set<Va>, va: Va, t: Va)
    requires ImageOk(w.image) && ShowsVisited(w, visited, insns, holes) && va in visited && t in Successors(w, va)
    ensures LedTo(w, insns, holes, t) && Shown(insns, holes, va)
  {
    hide Live, Successors, LeadsTo, PastHole;
    SuccessorsAre(w, va, t);
    ShownIs(w, visited, insns, holes, va);
    if Listed(w, va) {
      assert w.image.decode(va).value in insns;
    } else {
      assert va in holes;
    }
  }

  lemma LedFrom(w: Walk, visited: set<Va>, insns: seq<Insn>, holes: set<Va>, t: Va) returns (va: Va)
    requires ImageOk(w.image) && ShowsVisited(w, visited, insns, holes) && LedTo(w, insns, holes, t)
    ensures va in visited && t in Successors(w, va)
  {
    hide Listed, Gap, Successors, LeadsTo, PastHole;
    if insn :| insn in insns && LeadsTo(w, insn, t) {
      va := insn.address;
    } else {
      va :| va in holes && PastHole(w, va, t);
    }
    SuccessorsAre(w, va, t);
  }

  /** The reason is that of the last address in bounds that is barred: entry before padding before hole. */
  lemma {:induction false} ReasonIsLast(w: Walk, order: seq<Va>, i: nat)
    requires i < |order| && Bounded(w, order[i]) && Barred(w, order[i]) && InsnsAt(w, order[..i]) != []
    requires forall k :: i < k < |order| && Bounded(w, order[k]) ==> !Barred(w, order[k])
    ensures ReasonAt(w, order) ==
            var t := order[i];
            if t != w.start && t in w.image.entries && w.selfEntry != Some(t) then NextSeed
            else if w.image.int3(t) then Int3 else DecodeFail
    decreases |order|
  {
    hide InsnsAt;
    var front := order[..|order| - 1];
    if i < |order| - 1 {
      assert front[..i] == order[..i];
      ReasonIsLast(w, front, i);
    }
  }

  // ----- the order of discovery -----

  /** Visiting an address finds another: its instruction leads there, or it is a skipped hole just before. */
  ghost predicate Finds(w: Walk, va: Va, t: Va) {
    Bounded(w, va) && !Barred(w, va) &&
    match w.image.decode(va)
    case Some(insn) => LeadsTo(w, insn, t)
    case None => PastHole(w, va, t)
  }

  /** Of the visited addresses, the `j`-th is the first that finds the `k`-th. */
  ghost predicate FoundBy(w: Walk, order: seq<Va>, j: nat, k: nat) {
    && j < |order| && k < |order| && Finds(w, order[j], order[k])
    && forall l: nat :: l < j ==> !Finds(w, order[l], order[k])
  }

  lemma FindsIs(w: Walk, va: Va, t: Va)
    requires ImageOk(w.image)
    ensures Finds(w, va, t) <==> t in Successors(w, va)
  {
    hide Live, Successors, LeadsTo, PastHole;
    SuccessorsAre(w, va, t);
    ListedIs(w, va);
  }

  /** The first bounded occurrence of a target comes after the bounded ones queued before it. */
  lemma {:induction false} WithinPlace(w: Walk, targets: seq<Va>, q: nat) returns (a: nat)
    requires q < |Within(w, targets)|
    ensures a < |targets| && targets[a] == Within(w, targets)[q]
    ensures forall t :: t in targets[..a] && Bounded(w, t) ==> t in Within(w, targets)[..q]
  {
    hide InBounds;
    var front, last := targets[..|targets| - 1], targets[|targets| - 1];
    BoundedIs(w, last);
    if q < |Within(w, front)| {
      a := WithinPlace(w, front, q);
      assert targets[..a] == front[..a] && Within(w, targets)[..q] == Within(w, front)[..q];
    } else {
      a := |front|;
      assert Within(w, targets)[..q] == Within(w, front);
      forall t | t in targets[..a] && Bounded(w, t)
        ensures t in Within(w, targets)[..q]
      {
        WithinIs(w, front, t);
      }
    }
  }

  /** Among what one address queues, what is not among the first `q` is no target before the `q`-th. */
  lemma QueuedLater(w: Walk, va: Va, q: nat, t: Va) returns (a: nat)
    requires q < |Successors(w, va)| && t in Successors(w, va) && t !in Successors(w, va)[..q + 1]
    ensures w.image.decode(va).Some?
    ensures a < |w.image.decode(va).value.targets| && w.image.decode(va).value.targets[a] == Successors(w, va)[q]
    ensures t !in w.image.decode(va).value.targets[..a]
  {
    hide Live, InBounds, Within;
    assert Listed(w, va);
    var targets := w.image.decode(va).value.targets;
    var inside := Within(w, targets);
    assert q < |inside|;
    a := WithinPlace(w, targets, q);
    assert Successors(w, va)[..q] == inside[..q];
    assert t in targets[..a] ==> t in targets;
    WithinIs(w, targets, t);
    var fall := Advance(va, w.image.decode(va).value.length);
    BoundedIs(w, fall);
    assert t in inside || t == fall;
  }

  /** Where the `k`-th address was queued, seen from a later one. */
  lemma QueuedFirst(w: Walk, n: nat, k: nat, l: nat) returns (j: nat, q: nat)
    requires 0 < k < l < |Order(w, n)|
    ensures j < k && q < |Successors(w, Order(w, n)[j])| && Successors(w, Order(w, n)[j])[q] == Order(w, n)[k]
    ensures Order(w, n)[l] !in Successors(w, Order(w, n)[j])[..q + 1]
    ensures forall i: nat :: i < j ==> Order(w, n)[l] !in Successors(w, Order(w, n)[i])
  {
    hide Order, Waiting, Successors;
    var order := Order(w, n);
    var p := TakenNext(w, n, k);
    var start := TakenNext(w, n, 0);
    var later := TakenNext(w, n, l);
    StartFirst(w, order[..k]);
    StartOnly(w, order[..0]);
    assert order[..l][0] == order[..k][0] == order[0] == w.start;
    assert order[..l][k] == order[k];
    j, q := QueuedBy(w, order[..k], p);
    assert Successors(w, order[j])[..q + 1] == Successors(w, order[j])[..q] + [order[k]];
    assert forall v :: v in order[..k] ==> v in order[..l];
  }

  lemma StartOnly(w: Walk, order: seq<Va>)
    requires order == []
    ensures Waiting(w, order) == [w.start]
  {
  }

  /**
   * Of two visited addresses the earlier was found by the earlier one, or both by the same instruction: then the
   * earlier is one of its targets, and the later is no target before that one.
   */
  lemma DiscoveryOrder(w: Walk, n: nat, j: nat, k: nat, i: nat, l: nat)
    requires ImageOk(w.image) && 0 < k < l < |Order(w, n)|
    requires FoundBy(w, Order(w, n), j, k) && FoundBy(w, Order(w, n), i, l)
    ensures j <= i && j < k
    ensures j == i ==> w.image.decode(Order(w, n)[j]).Some?
    ensures j == i ==>
              var targets := w.image.decode(Order(w, n)[j]).value.targets;
              exists a :: 0 <= a < |targets| && targets[a] == Order(w, n)[k] && Order(w, n)[l] !in targets[..a]
  {
    hide Order, Successors, Finds;
    var order := Order(w, n);
    var j0, q := QueuedFirst(w, n, k, l);
    FindsIs(w, order[j0], order[k]);
    FindsIs(w, order[i], order[l]);
    assert j <= j0 <= i;
    if j == i {
      var a := QueuedLater(w, order[j], q, order[l]);
    }
  }

  /** The start comes first, and everything else visited is new and was found by something visited before it. */
  lemma FoundBefore(w: Walk, n: nat, k: nat) returns (j: nat)
    requires ImageOk(w.image) && 0 < k < |Order(w, n)|
    ensures j < k && FoundBy(w, Order(w, n), j, k)
    ensures Order(w, n)[0] == w.start && Order(w, n)[k] !in Order(w, n)[..k]
  {
    hide Order, Waiting, Successors, Finds;
    var order := Order(w, n);
    var p := TakenNext(w, n, k);
    var start := TakenNext(w, n, 0);
    StartFirst(w, order[..k]);
    StartOnly(w, order[..0]);
    assert order[..k][0] == order[0];
    var j0, q := QueuedBy(w, order[..k], p);
    FindsIs(w, order[j0], order[k]);
    j := 0;
    while !Finds(w, order[j], order[k])
      invariant j <= j0 && forall l: nat :: l < j ==> !Finds(w, order[l], order[k])
      decreases j0 - j
    {
      j := j + 1;
    }
  }

  /** Whatever the walk visited shows a supported part of the program. */
  lemma VisitedSupported(w: Walk, order: seq<Va>, visited: set<Va>, insns: seq<Insn>, holes: set<Va>)
    requires ImageOk(w.image) && ShowsVisited(w, visited, insns, holes) && insns != []
    requires order == Order(w, |order|) && forall v :: v in order <==> v in visited
    ensures Supported(w, insns, holes) && Proper(w, insns, holes)
  {
    hide Order, Waiting, FirstNew, Listed, Gap, Successors, LeadsTo, PastHole, Barred, Shown, LedTo, Bounded;
    forall t: Va | Shown(insns, holes, t)
      ensures Shown(insns, holes, w.start) && (t != w.start ==> LedTo(w, insns, holes, t))
    {
      ShownIs(w, visited, insns, holes, t);
      var i: nat :| i < |order| && order[i] == t;
      ShownFrom(w, order, visited, insns, holes, i);
    }
    assert insns[0] in insns;
    ShownIs(w, visited, insns, holes, insns[0].address);
    forall va: Va
      ensures Listed(w, va) <==> Bounded(w, va) && !Barred(w, va) && Decodes(w, va)
      ensures Gap(w, va) <==> Bounded(w, va) && !Barred(w, va) && !Decodes(w, va)
    {
      ListedIs(w, va);
    }
  }

  lemma {:induction false} ShownFrom(w: Walk, order: seq<Va>, visited: set<Va>, insns: seq<Insn>, holes: set<Va>,
                                     i: nat)
    requires ImageOk(w.image) && ShowsVisited(w, visited, insns, holes) && i < |order|
    requires order == Order(w, |order|) && forall v :: v in order <==> v in visited
    requires Shown(insns, holes, order[i])
    ensures Shown(insns, holes, w.start) && (order[i] != w.start ==> LedTo(w, insns, holes, order[i]))
    decreases i
  {
    hide Order, Waiting, FirstNew, Listed, Gap, Successors, ShowsVisited, Shown, LedTo;
    var k := TakenNext(w, |order|, i);
    StartFirst(w, order[..i]);
    if k > 0 {
      var j, _ := QueuedBy(w, order[..i], k);
      assert order[j] in order;
      ShownLeads(w, visited, insns, holes, order[j], order[i]);
      ShownFrom(w, order, visited, insns, holes, j);
    }
  }

  /** A walk with nothing left to visit shows a closed part of the program. */
  lemma VisitedClosed(w: Walk, visited: set<Va>, insns: seq<Insn>, holes: set<Va>)
    requires ImageOk(w.image) && ShowsVisited(w, visited, insns, holes) && Followed(w, visited, [])
    ensures Closed(w, insns, holes)
  {
    hide Listed, Gap, Successors, ShowsVisited, Shown, LedTo, Bounded, Barred;
    forall t: Va | LedTo(w, insns, holes, t)
      ensures Shown(insns, holes, t) || Barred(w, t)
    {
      var va := LedFrom(w, visited, insns, holes, t);
      assert t in visited;
      ShownIs(w, visited, insns, holes, t);
      ListedIs(w, t);
      SuccessorsAre(w, va, t);
      LedIsBounded(w, va, t);
    }
  }

  lemma LedIsBounded(w: Walk, va: Va, t: Va)
    requires ImageOk(w.image) && t in Successors(w, va)
    ensures Bounded(w, t)
  {
    SuccessorsAre(w, va, t);
    hide Successors;
  }

  /** What the finished walk shows. */
  lemma ShowsAll(w: Walk, visited: set<Va>, queue: seq<Va>, out: seq<Insn>, gaps: set<Va>, stop: StopReason,
                 insns: seq<Insn>)
    requires Inv(w, visited, queue, out, gaps, stop) && forall insn :: insn in insns <==> insn in out
    ensures ShowsVisited(w, visited, insns, gaps) && (queue == [] ==> Followed(w, visited, []))
  {
    hide Listed, Gap, Successors, Reached;
  }

  /** The listing and its holes are the part of the program that the walk shows. */
  lemma GraphOf(w: Walk, order: seq<Va>, done: seq<Va>, visited: set<Va>, queue: seq<Va>, out: seq<Insn>, gaps: set<Va>,
                stop: StopReason, insns: seq<Insn>)
    requires ImageOk(w.image) && Inv(w, visited, queue, out, gaps, stop) && InOrder(w, order, done, queue, visited)
    requires out != [] && |insns| == |out| && forall insn :: insn in insns <==> insn in out
    ensures Supported(w, insns, gaps) && Proper(w, insns, gaps) && (queue == [] ==> Closed(w, insns, gaps))
  {
    ShowsAll(w, visited, queue, out, gaps, stop, insns);
    InOrderMeans(w, order, done, queue, visited);
    hide *;
    VisitedSupported(w, order, visited, insns, gaps);
    if queue == [] { VisitedClosed(w, visited, insns, gaps); }
  }

  lemma InOrderMeans(w: Walk, order: seq<Va>, done: seq<Va>, queue: seq<Va>, visited: set<Va>)
    requires InOrder(w, order, done, queue, visited)
    ensures order == Order(w, |order|) && forall v :: v in order <==> v in visited
  {
    hide Order, Waiting, InsnsAt;
  }

  lemma GapsCounted(w: Walk, gaps: set<Va>, count: nat, first: Option<Va>)
    requires GapsAre(w, gaps, count, first)
    ensures |gaps| == count
  {
  }

  /**
   * The listing is that of the addresses visited in breadth-first order until it is full or nothing new is waiting.
   * It is sound; below the limit it is complete and its holes and stop reason are exactly accounted for. There is
   * none exactly when nothing reached can be listed. Listing and holes are led to from the start, and below the limit
   * they are left only where the walk is barred.
   */
  method DisasmFlow(w: Walk) returns (r: FlowResult)
    requires ImageOk(w.image)
    ensures exists n: nat :: Visits(w, n) && Tells(w, n, r)
    ensures r.NoInstructions? <==> w.maxInsns == 0 || forall va: Va :: Reached(w, va) ==> !Listed(w, va)
    ensures r.Listing? ==> Sound(w, r.insns) && ReasonOk(w, r.insns, r.stop)
    ensures r.Listing? && |r.insns| < w.maxInsns ==>
      Complete(w, r.insns) && exists gaps: set<Va> :: AllGaps(w, gaps) && GapsAre(w, gaps, r.decodeGaps, r.firstGap)
    ensures r.Listing? ==> exists holes: set<Va> ::
      && |holes| == r.decodeGaps && Proper(w, r.insns, holes) && Supported(w, r.insns, holes)
      && (|r.insns| < w.maxInsns ==> Closed(w, r.insns, holes))
  {
    hide *;
    var out: seq<Insn>, queue: seq<Va> := [], [w.start];
    var decodeGaps, firstGap, stop := 0, None, Count;
    var visited: set<Va> := {};
    ghost var gaps: set<Va> := {};
    ghost var order: seq<Va>, done: seq<Va> := [], [];
    Begin(w);
    NoGaps(w);
    BeginInOrder(w);
    while |out| < w.maxInsns && queue != []
      invariant Inv(w, visited, queue, out, gaps, stop) && |out| <= w.maxInsns && GapsAre(w, gaps, decodeGaps, firstGap)
      invariant InOrder(w, order, done, queue, visited) && Tallied(w, order, out, decodeGaps, firstGap, stop)
      invariant decodeGaps >= 0
      decreases U64 - |visited|, |queue|
    {
      var va := queue[0];
      assert queue == [va] + queue[1..];
      queue := queue[1..];
      if va in visited {
        SkipVisited(w, visited, queue, out, gaps, stop, va);
        PassInOrder(w, order, done, queue, visited, va);
        done := done + [va];
        continue;
      }
      AddressesFew(visited + {va});
      ghost var before := visited;
      visited := visited + {va};
      Checks(w, va);
      TalliedOut(w, order, out, decodeGaps, firstGap, stop);
      TallyOne(w, order, out, decodeGaps, firstGap, stop, va);
      if !Listed(w, va) && !Gap(w, va) {
        DropInOrder(w, order, done, queue, before, va);
      } else {
        VisitInOrder(w, order, done, queue, before, va);
      }
      order, done := order + [va], done + [va];
      if !InBounds(w, va) {
        Drop(w, before, queue, out, gaps, stop, va, stop);
        continue;
      }
      if va != w.start && IsNextSeed(w, va) {
        if out == [] {
          OneLeft(w, before, queue, out, gaps, stop, va);
          Drop(w, before, queue, out, gaps, stop, va, stop);
          continue;
        }
        Drop(w, before, queue, out, gaps, stop, va, NextSeed);
        stop := NextSeed;
        continue;
      }
      if w.image.int3(va) {
        Drop(w, before, queue, out, gaps, stop, va, Int3);
        stop := Int3;
        continue;
      }
      Alive(w, va);
      var decoded := w.image.decode(va);
      if decoded.Some? {
        TakeInsn(w, before, queue, out, gaps, stop, va);
        out := out + [decoded.value];
        queue := PushAfter(w, queue, decoded.value, va);
      } else if w.skipBad {
        GapsOf(w, before, [va] + queue, out, gaps, stop);
        AfterGap(w, before, gaps, va);
        TakeGap(w, before, queue, out, gaps, stop, va);
        OneMoreGap(w, gaps, decodeGaps, firstGap, va);
        if firstGap.None? { firstGap := Some(va); }
        decodeGaps := decodeGaps + 1;
        gaps := gaps + {va};
        var next := Advance(va, 1);
        assert queue + [] == queue;
        if InBounds(w, next) {
          queue := queue + [next];
        }
      } else {
        if out == [] { OneLeft(w, before, queue, out, gaps, stop, va); }
        Drop(w, before, queue, out, gaps, stop, va, DecodeFail);
        stop := DecodeFail;
        if out == [] { break; }
      }
    }
    SplitInv(w, visited, queue, out, gaps, stop);
    SoundListing(w, visited, queue, out);
    if queue == [] { Exhausted(w, visited, out, gaps, stop); }
    SortedListing(w, visited, out);
    Told(w, order, done, queue, visited, out, decodeGaps, firstGap, stop, DedupBy(SortBy(out, Address), Address));
    if out == [] { return NoInstructions; }
    FinalReason(w, visited, queue, out, DedupBy(SortBy(out, Address), Address), stop);
    GraphOf(w, order, done, visited, queue, out, gaps, stop, DedupBy(SortBy(out, Address), Address));
    GapsCounted(w, gaps, decodeGaps, firstGap);
    if queue == [] { CompleteListing(w, out, visited); }
    r := Listing(DedupBy(SortBy(out, Address), Address), decodeGaps, firstGap, FinalStop(w, |out|, stop));
  }
}
