/** The straight-line disassembly walks: the plain one, and the one that stops at bounds, entries and padding. */
module DisasmLinear {
  import opened Options
  import opened Words
  import opened DisasmFlow

  datatype LineResult =
    | Lines(insns: seq<Insn>, decodeGaps: nat, firstGap: Option<Va>, stop: StopReason)
    | NoLines

  /** The address after this one: past the instruction, or one byte on over a hole. */
  function Next(w: Walk, va: Va): Va {
    if Decodes(w, va) then Advance(va, w.image.decode(va).value.length) else Advance(va, 1)
  }

  /** The address reached after `n` steps. */
  function Position(w: Walk, n: nat): Va {
    if n == 0 then w.start else Next(w, Position(w, n - 1))
  }

  /** The instructions met in the first `n` steps, holes left out. */
  function Met(w: Walk, n: nat): seq<Insn> {
    if n == 0 then []
    else if Decodes(w, Position(w, n - 1)) then Met(w, n - 1) + [w.image.decode(Position(w, n - 1)).value]
    else Met(w, n - 1)
  }

  /** The holes met in the first `n` steps. */
  function Holes(w: Walk, n: nat): seq<Va> {
    if n == 0 then []
    else if Decodes(w, Position(w, n - 1)) then Holes(w, n - 1)
    else Holes(w, n - 1) + [Position(w, n - 1)]
  }

  /** At most eight steps an instruction when holes are skipped; the product stays below 2^64. */
  function MaxSteps(w: Walk): nat {
    if !w.skipBad then w.maxInsns
    else if 8 * w.maxInsns < U64 then 8 * w.maxInsns else if w.maxInsns < U64 then U64 - 1 else w.maxInsns
  }

  /** A hole that is not skipped ends the walk. */
  predicate Breaks(w: Walk, va: Va) {
    !Decodes(w, va) && !w.skipBad
  }

  /** Where the bounded walk stops before looking at the bytes, and why. */
  function Halt(w: Walk, va: Va): Option<StopReason> {
    if w.boundEnd.Some? && va >= w.boundEnd.value then Some(FunctionEnd)
    else if va != w.start && IsNextSeed(w, va) then Some(NextSeed)
    else if w.image.int3(va) then Some(Int3)
    else None
  }

  /** A walk may take step `n`: the limits allow it and no hole ends it; the bounded walk also wants no halt. */
  predicate Goes(w: Walk, bounded: bool, n: nat) {
    n < MaxSteps(w) && |Met(w, n)| < w.maxInsns && !Breaks(w, Position(w, n)) &&
    !(bounded && Halt(w, Position(w, n)).Some?)
  }

  /** The walk takes exactly `n` steps. */
  ghost predicate Takes(w: Walk, bounded: bool, n: nat) {
    (forall k: nat :: k < n ==> Goes(w, bounded, k)) && !Goes(w, bounded, n)
  }

  /** Why a walk of `n` steps ended. */
  function Why(w: Walk, bounded: bool, n: nat): StopReason {
    var va := Position(w, n);
    if |Met(w, n)| >= w.maxInsns || n >= MaxSteps(w) then Count
    else if bounded && Halt(w, va).Some? then Halt(w, va).value
    else DecodeFail
  }

  ghost predicate Describes(w: Walk, bounded: bool, r: LineResult) {
    exists n: nat :: Takes(w, bounded, n) &&
      if Met(w, n) == [] then r == NoLines
      else r == Lines(Met(w, n), |Holes(w, n)|, FirstOf(Holes(w, n)), Why(w, bounded, n))
  }

  lemma {:induction false} MetGrows(w: Walk, n: nat, m: nat)
    requires n <= m
    ensures Met(w, n) <= Met(w, m)
    decreases m - n
  {
    if n < m { MetGrows(w, n, m - 1); }
  }

  lemma TakesOnce(w: Walk, bounded: bool, n: nat, m: nat)
    requires Takes(w, bounded, n) && Takes(w, bounded, m)
    ensures n == m
  {
    hide Goes;
    assert n < m ==> Goes(w, bounded, n);
    assert m < n ==> Goes(w, bounded, m);
  }

  /** The description leaves no choice: it fixes the listing, the holes and the reason. */
  lemma DescribesOnce(w: Walk, bounded: bool, r: LineResult, s: LineResult)
    requires Describes(w, bounded, r) && Describes(w, bounded, s)
    ensures r == s
  {
    hide Takes, Met, Holes, Why;
    var n: nat :| Takes(w, bounded, n) &&
      if Met(w, n) == [] then r == NoLines
      else r == Lines(Met(w, n), |Holes(w, n)|, FirstOf(Holes(w, n)), Why(w, bounded, n));
    var m: nat :| Takes(w, bounded, m) &&
      if Met(w, m) == [] then s == NoLines
      else s == Lines(Met(w, m), |Holes(w, m)|, FirstOf(Holes(w, m)), Why(w, bounded, m));
    TakesOnce(w, bounded, n, m);
  }

  /**
   * The bounded walk is the plain walk cut short: the same instructions from the start, ended by the first halt it
   * meets.
   */
  lemma BoundedIsPrefix(w: Walk, n: nat, m: nat)
    requires Takes(w, true, n) && Takes(w, false, m)
    ensures n <= m && Met(w, n) <= Met(w, m)
    ensures n < m ==> Halt(w, Position(w, n)).Some? && Why(w, true, n) == Halt(w, Position(w, n)).value
    ensures forall k: nat :: k < n ==> Halt(w, Position(w, k)).None?
  {
    hide Position, Met, MaxSteps, Breaks, Halt;
    forall k: nat | k < n
      ensures Goes(w, false, k) && Halt(w, Position(w, k)).None?
    {
      assert Goes(w, true, k);
    }
    assert m < n ==> Goes(w, false, m);
    assert n < m ==> Goes(w, false, n);
    MetGrows(w, n, m);
  }

  lemma {:induction false} MetAt(w: Walk, bounded: bool, n: nat, k: nat)
    requires !w.skipBad && (forall j: nat :: j < n ==> Goes(w, bounded, j)) && k < n
    ensures |Met(w, n)| == n && Decodes(w, Position(w, k)) && Met(w, n)[k] == w.image.decode(Position(w, k)).value
    decreases n
  {
    hide Halt, MaxSteps, Advance, Position;
    assert Goes(w, bounded, n - 1);
    if n > 1 { MetAt(w, bounded, n - 1, if k < n - 1 then k else 0); }
  }

  /** Without skipping, each instruction starts where the one before it ends. */
  lemma MetIsChain(w: Walk, bounded: bool, n: nat, k: nat)
    requires ImageOk(w.image) && !w.skipBad && (forall j: nat :: j < n ==> Goes(w, bounded, j)) && k + 1 < n
    ensures |Met(w, n)| == n
    ensures var (insn, next) := (Met(w, n)[k], Met(w, n)[k + 1]);
            next.address == (insn.address + if insn.length == 0 then 1 else insn.length) % 0x1_0000_0000_0000_0000
  {
    hide Goes, Met;
    MetAt(w, bounded, n, k);
    MetAt(w, bounded, n, k + 1);
  }

  /** The walk goes on past an instruction, or one byte past a hole; it collects the one and counts the other. */
  lemma StepIs(w: Walk, n: nat)
    ensures Position(w, 0) == w.start && Met(w, 0) == [] && Holes(w, 0) == []
    ensures var va := Position(w, n);
            match w.image.decode(va)
            case Some(insn) =>
              Met(w, n + 1) == Met(w, n) + [insn] && Holes(w, n + 1) == Holes(w, n) &&
              Position(w, n + 1) == (va + if insn.length == 0 then 1 else insn.length) % 0x1_0000_0000_0000_0000
            case None =>
              Met(w, n + 1) == Met(w, n) && Holes(w, n + 1) == Holes(w, n) + [va] &&
              Position(w, n + 1) == (va + 1) % 0x1_0000_0000_0000_0000
  {
  }

  /** A walk that runs out before its listing is full: after eight steps an instruction, if holes are skipped. */
  lemma StepLimit(w: Walk, n: nat)
    requires Takes(w, false, n) && |Met(w, n)| < w.maxInsns
    ensures w.skipBad && 8 * w.maxInsns < 0x1_0000_0000_0000_0000 ==> n == 8 * w.maxInsns
    ensures !w.skipBad ==> n < w.maxInsns && w.image.decode(Position(w, n)).None?
  {
    hide Position, Halt;
    if n > 0 { assert Goes(w, false, n - 1); }
    if !w.skipBad { AllMet(w, n); }
  }

  lemma {:induction false} AllMet(w: Walk, n: nat)
    requires !w.skipBad && forall k: nat :: k < n ==> Goes(w, false, k)
    ensures |Met(w, n)| == n
  {
    hide Position, Halt, MaxSteps;
    if n > 0 {
      AllMet(w, n - 1);
      assert Goes(w, false, n - 1);
    }
  }

  /** Why a bounded walk ends: the bound comes before another entry, that before padding, and that before a hole. */
  lemma StopIs(w: Walk, n: nat)
    requires Takes(w, true, n)
    ensures forall k: nat :: k < n ==> Unhalted(w, Position(w, k))
    ensures var (va, why) := (Position(w, n), Why(w, true, n));
            match why
            case FunctionEnd => w.boundEnd.Some? && va >= w.boundEnd.value
            case NextSeed => (w.boundEnd.Some? ==> va < w.boundEnd.value) && va != w.start && Entered(w, va)
            case Int3 =>
              (w.boundEnd.Some? ==> va < w.boundEnd.value) && !(va != w.start && Entered(w, va)) && w.image.int3(va)
            case DecodeFail => Unhalted(w, va) && w.image.decode(va).None? && !w.skipBad
            case Count => |Met(w, n)| >= w.maxInsns || n >= MaxSteps(w)
  {
    hide Position, Met, MaxSteps;
    forall k: nat | k < n
      ensures Unhalted(w, Position(w, k))
    {
      assert Goes(w, true, k);
    }
  }

  /** A known entry other than the function's own. */
  predicate Entered(w: Walk, va: Va) {
    va in w.image.entries && w.selfEntry != Some(va)
  }

  /** Below the bound, not another function's entry, not padding. */
  predicate Unhalted(w: Walk, va: Va) {
    (w.boundEnd.Some? ==> va < w.boundEnd.value) && !(va != w.start && Entered(w, va)) && !w.image.int3(va)
  }

  // ----- the loop both walks run -----

  method WalkLine(w: Walk, bounded: bool) returns (r: LineResult)
    ensures Describes(w, bounded, r)
  {
    hide MaxSteps, IsNextSeed, Advance, Describes;
    var out: seq<Insn>, va, steps, decodeGaps, firstGap, stop := [], w.start, 0, 0, None, Count;
    while |out| < w.maxInsns && steps < MaxSteps(w)
      invariant 0 <= steps && va == Position(w, steps) && out == Met(w, steps)
      invariant decodeGaps == |Holes(w, steps)| && firstGap == FirstOf(Holes(w, steps)) && stop == Count
      invariant forall k: nat :: k < steps ==> Goes(w, bounded, k)
      decreases MaxSteps(w) - steps
    {
      var halt := Halt(w, va);
      if bounded && halt.Some? {
        stop := halt.value;
        break;
      }
      var insn := w.image.decode(va);
      if insn.Some? {
        out := out + [insn.value];
        va := Advance(va, insn.value.length);
      } else if w.skipBad {
        if firstGap.None? { firstGap := Some(va); }
        decodeGaps := decodeGaps + 1;
        va := Advance(va, 1);
      } else {
        stop := DecodeFail;
        break;
      }
      steps := steps + 1;
    }
    assert Takes(w, bounded, steps) && stop == Why(w, bounded, steps);
    r := if out == [] then NoLines else Lines(out, decodeGaps, firstGap, stop);
    Described(w, bounded, steps, r);
  }

  lemma Described(w: Walk, bounded: bool, n: nat, r: LineResult)
    requires Takes(w, bounded, n)
    requires if Met(w, n) == [] then r == NoLines
             else r == Lines(Met(w, n), |Holes(w, n)|, FirstOf(Holes(w, n)), Why(w, bounded, n))
    ensures Describes(w, bounded, r)
  {
    hide Takes, Why, Met, Holes;
  }
}
