/** Function bodies and the function table: growing, creating, resolving, and the truncation check. */
module FunctionTable {
  import opened Options
  import opened Sorting
  import opened Words
  import D = DisasmFlow

  // ----- growing a body -----

  /** What the bytes at an address are to the grower. */
  datatype Cell = Unmapped | Padding | Insn(length: nat, isRet: bool) | Undecodable

  type Code = nat -> Cell

  /** Nothing is mapped at the last address, which no block holds, and no instruction runs past it. */
  ghost predicate CodeOk(code: Code) {
    forall va: nat :: (va >= U64 - 1 ==> code(va).Unmapped?) && (code(va).Insn? ==> va + code(va).length < U64)
  }

  /** Where the walk stops that has reached `va` with `fuel` steps left, before a hard end if there is one. */
  function Ends(code: Code, va: nat, skipped: nat, fuel: nat, hard: Option<nat>): nat
    decreases fuel
  {
    if fuel == 0 || (hard.Some? && va >= hard.value) then va
    else
      match code(va)
      case Unmapped => va
      case Padding => va
      case Insn(length, isRet) =>
        if hard.Some? && va + length > hard.value then hard.value
        else if isRet then va + length
        else Ends(code, va + length, 0, fuel - 1, hard)
      case Undecodable =>
        if skipped >= 16 then va else Ends(code, va + 1, skipped + 1, fuel - 1, hard)
  }

  /** The end of a body: never before one byte, and never past a hard end that leaves that much room. */
  function Grown(code: Code, entry: nat, hard: Option<nat>): nat {
    var grown := Max(Ends(code, entry, 0, 4096, hard), entry + 1);
    if hard.Some? then Max(Min(grown, hard.value), entry + 1) else grown
  }

  /** A hard end only cuts the walk short. */
  lemma {:induction false} EndsCut(code: Code, va: nat, skipped: nat, fuel: nat, h: nat)
    ensures va <= Ends(code, va, skipped, fuel, None)
    ensures Min(Ends(code, va, skipped, fuel, Some(h)), h) == Min(Ends(code, va, skipped, fuel, None), h)
    decreases fuel
  {
    if fuel > 0 {
      match code(va)
      case Unmapped =>
      case Padding =>
      case Insn(length, isRet) =>
        EndsCut(code, va + length, 0, fuel - 1, h);
      case Undecodable =>
        EndsCut(code, va + 1, skipped + 1, fuel - 1, h);
    }
  }

  /** Growth under a hard end is unbounded growth cut to that end, but never below one byte. */
  lemma HardEndClamps(code: Code, entry: nat, h: nat)
    ensures Grown(code, entry, Some(h)) == Max(Min(Grown(code, entry, None), h), entry + 1)
  {
    EndsCut(code, entry, 0, 4096, h);
  }

  /** No addition of the walk leaves 64 bits. */
  predicate Stays(code: Code, va: nat, skipped: nat, fuel: nat, hard: Option<nat>)
    decreases fuel
  {
    fuel == 0 || (hard.Some? && va >= hard.value) ||
    match code(va)
    case Unmapped => true
    case Padding => true
    case Insn(length, isRet) =>
      va + length < U64 &&
      ((hard.Some? && va + length > hard.value) || isRet || Stays(code, va + length, 0, fuel - 1, hard))
    case Undecodable =>
      skipped >= 16 || (va + 1 < U64 && Stays(code, va + 1, skipped + 1, fuel - 1, hard))
  }

  lemma {:induction false} CodeStays(code: Code, va: nat, skipped: nat, fuel: nat, hard: Option<nat>)
    requires CodeOk(code)
    ensures Stays(code, va, skipped, fuel, hard)
    decreases fuel
  {
    if fuel > 0 && code(va).Insn? {
      CodeStays(code, va + code(va).length, 0, fuel - 1, hard);
    } else if fuel > 0 && code(va).Undecodable? {
      CodeStays(code, va + 1, skipped + 1, fuel - 1, hard);
    }
  }

  lemma EndsStep(code: Code, va: nat, skipped: nat, fuel: nat, hard: Option<nat>)
    ensures fuel == 0 || (hard.Some? && va >= hard.value) || code(va).Unmapped? || code(va).Padding? ==>
              Ends(code, va, skipped, fuel, hard) == va
    ensures fuel > 0 && !(hard.Some? && va >= hard.value) && code(va).Insn? ==>
              var next := va + code(va).length;
              Ends(code, va, skipped, fuel, hard) ==
              if hard.Some? && next > hard.value then hard.value
              else if code(va).isRet then next
              else Ends(code, next, 0, fuel - 1, hard)
    ensures fuel > 0 && !(hard.Some? && va >= hard.value) && code(va).Undecodable? ==>
              Ends(code, va, skipped, fuel, hard) ==
              if skipped >= 16 then va else Ends(code, va + 1, skipped + 1, fuel - 1, hard)
  {
  }

  lemma StaysStep(code: Code, va: nat, skipped: nat, fuel: nat, hard: Option<nat>)
    requires Stays(code, va, skipped, fuel, hard) && fuel > 0 && !(hard.Some? && va >= hard.value)
    ensures code(va).Insn? ==>
              var next := va + code(va).length;
              next < U64 &&
              ((hard.Some? && next > hard.value) || code(va).isRet || Stays(code, next, 0, fuel - 1, hard))
    ensures code(va).Undecodable? && skipped < 16 ==>
              va + 1 < U64 && Stays(code, va + 1, skipped + 1, fuel - 1, hard)
  {
  }

  /** The loop of the source, wherever its 64-bit additions do not overflow. */
  method GrowFunction(code: Code, entry: nat, hard: Option<nat>) returns (grown: nat)
    requires entry + 1 < U64 && Stays(code, entry, 0, 4096, hard)
    ensures grown == Grown(code, entry, hard)
  {
    hide Ends, Stays;
    var va, end, skipped := entry, entry, 0;
    var i := 0;
    ghost var goal := Ends(code, entry, 0, 4096, hard);
    while i < 4096
      invariant 0 <= i <= 4096 && 0 <= skipped <= 16 && va == end && entry <= va < U64
      invariant Stays(code, va, skipped, 4096 - i, hard)
      invariant Ends(code, va, skipped, 4096 - i, hard) == goal
    {
      EndsStep(code, va, skipped, 4096 - i, hard);
      if hard.Some? && va >= hard.value { break; }
      StaysStep(code, va, skipped, 4096 - i, hard);
      var cell := code(va);
      if cell.Unmapped? { break; }
      if cell.Padding? { break; }
      if cell.Insn? {
        skipped := 0;
        var next := va + cell.length;
        assert next < U64;
        if hard.Some? && next > hard.value {
          end := hard.value;
          break;
        }
        end := next;
        if cell.isRet { break; }
        va := end;
      } else {
        skipped := skipped + 1;
        if skipped > 16 { break; }
        va := va + 1;
        // The address was below the hard end, so one step cannot take it past that end.
        if hard.Some? && va > hard.value { assert false; }
        end := Max(end, va);
      }
      i := i + 1;
    }
    EndsStep(code, va, skipped, 4096 - i, hard);
    assert end == goal;
    grown := Max(end, entry + 1);
    if hard.Some? {
      grown := Max(Min(grown, hard.value), entry + 1);
    }
  }

  // ----- growth, told by the addresses it goes through -----

  /** How many undecodable addresses directly precede place `i` of a walk. */
  function Skips(code: Code, vas: seq<nat>, i: nat): nat
    requires i < |vas|
  {
    if i == 0 || !code(vas[i - 1]).Undecodable? then 0 else Skips(code, vas, i - 1) + 1
  }

  /** A walk from an entry: over whole instructions that are no return, and over at most sixteen bad bytes in a row. */
  ghost predicate Trace(code: Code, entry: nat, vas: seq<nat>) {
    0 < |vas| <= 4097 && vas[0] == entry && forall i: nat :: i + 1 < |vas| ==> Steps(code, vas, i)
  }

  ghost predicate Steps(code: Code, vas: seq<nat>, i: nat)
    requires i + 1 < |vas|
  {
    match code(vas[i])
    case Unmapped => false
    case Padding => false
    case Insn(length, isRet) => !isRet && vas[i + 1] == vas[i] + length
    case Undecodable => Skips(code, vas, i) < 16 && vas[i + 1] == vas[i] + 1
  }

  /** Where a walk ends that goes no further: past the first return, or where no byte can be taken. */
  ghost predicate Stops(code: Code, vas: seq<nat>, end: nat)
    requires vas != []
  {
    var n := |vas| - 1;
    if n == 4096 then end == vas[n]
    else
      match code(vas[n])
      case Unmapped => end == vas[n]
      case Padding => end == vas[n]
      case Insn(length, isRet) => isRet && end == vas[n] + length
      case Undecodable => Skips(code, vas, n) >= 16 && end == vas[n]
  }

  lemma {:induction false} EndsOnTrace(code: Code, entry: nat, vas: seq<nat>, end: nat, i: nat, fuel: nat)
    requires Trace(code, entry, vas) && Stops(code, vas, end) && i < |vas| && fuel == 4096 - i
    ensures Ends(code, vas[i], Skips(code, vas, i), fuel, None) == end
    decreases fuel
  {
    if i < |vas| - 1 {
      assert Steps(code, vas, i);
      EndsOnTrace(code, entry, vas, end, i + 1, fuel - 1);
    }
  }

  /** The grown end is the end of the walk from the entry, and at least one byte on. */
  lemma GrownIs(code: Code, entry: nat, vas: seq<nat>, end: nat)
    requires Trace(code, entry, vas) && Stops(code, vas, end)
    ensures Grown(code, entry, None) == if end > entry then end else entry + 1
  {
    var fuel := 4096;
    EndsOnTrace(code, entry, vas, end, 0, fuel);
    hide Ends, Trace, Stops;
  }

  /** Every entry has such a walk. */
  lemma GrowthTrace(code: Code, entry: nat) returns (vas: seq<nat>, end: nat)
    ensures Trace(code, entry, vas) && Stops(code, vas, end)
  {
    vas := [entry];
    while |vas| < 4097 && Continues(code, vas)
      invariant Trace(code, entry, vas)
      decreases 4097 - |vas|
    {
      var n := |vas| - 1;
      var next := vas + [vas[n] + if code(vas[n]).Insn? then code(vas[n]).length else 1];
      forall i: nat | i + 1 < |next|
        ensures Steps(code, next, i)
      {
        SkipsPrefix(code, vas, next, i);
        assert i < n ==> Steps(code, vas, i);
      }
      vas := next;
    }
    var n := |vas| - 1;
    end := if n < 4096 && code(vas[n]).Insn? then vas[n] + code(vas[n]).length else vas[n];
  }

  /** The walk can take another step. */
  predicate Continues(code: Code, vas: seq<nat>)
    requires vas != []
  {
    var n := |vas| - 1;
    (code(vas[n]).Insn? && !code(vas[n]).isRet) || (code(vas[n]).Undecodable? && Skips(code, vas, n) < 16)
  }

  lemma {:induction false} SkipsPrefix(code: Code, vas: seq<nat>, more: seq<nat>, i: nat)
    requires vas <= more && i < |vas|
    ensures Skips(code, more, i) == Skips(code, vas, i)
  {
    if i > 0 { SkipsPrefix(code, vas, more, i - 1); }
  }

  // ----- the table -----

  datatype Kind = Manual | Pdata | Synthesized | OtherKind

  datatype Func = Func(entry: nat, end: nat, kind: Option<Kind>)

  function Entry(f: Func): int {
    f.entry
  }

  /** Entries in order, each once. */
  ghost predicate TableOk(t: seq<Func>) {
    StrictlySorted(t, Entry)
  }

  /** The place of the function with this entry, or the length of the table. */
  function Place(t: seq<Func>, entry: nat): (i: nat)
    ensures i <= |t| && (i < |t| ==> t[i].entry == entry)
    ensures forall k :: 0 <= k < i ==> t[k].entry != entry
  {
    if t == [] then 0 else if t[0].entry == entry then 0 else 1 + Place(t[1..], entry)
  }

  predicate Has(t: seq<Func>, entry: nat) {
    Place(t, entry) < |t|
  }

  function At(t: seq<Func>, entry: nat): Func
    requires Has(t, entry)
  {
    t[Place(t, entry)]
  }

  lemma HasIff(t: seq<Func>, entry: nat)
    ensures Has(t, entry) <==> exists f :: f in t && f.entry == entry
  {
    if Has(t, entry) {
      assert At(t, entry) in t;
    }
  }

  /** Addition of one that stays at the top. */
  function SatNext(a: nat): nat {
    if a + 1 < U64 then a + 1 else U64 - 1
  }

  // ----- creating a function -----

  function WithKind(f: Func, kind: Kind): Func {
    if f.kind.None? then f.(kind := Some(kind)) else f
  }

  /** What an existing entry becomes. */
  function Healed(code: Code, f: Func, endOpt: Option<nat>, kind: Kind): Func {
    if endOpt.Some? then WithKind(f.(end := Max(f.end, endOpt.value)), kind)
    else
      var grown := Grown(code, f.entry, None);
      if grown > f.end then WithKind(f.(end := grown), kind) else f
  }

  function Fresh(code: Code, addr: nat, endOpt: Option<nat>, kind: Kind): Func {
    var end := if endOpt.Some? then endOpt.value else Grown(code, addr, None);
    Func(addr, Max(end, SatNext(addr)), Some(kind))
  }

  /** The table after creating or refreshing a function. */
  function Created(t: seq<Func>, code: Code, addr: nat, endOpt: Option<nat>, kind: Kind): seq<Func> {
    var i := Place(t, addr);
    if i < |t| then t[i := Healed(code, t[i], endOpt, kind)]
    else SortBy(t + [Fresh(code, addr, endOpt, kind)], Entry)
  }

  lemma AppendedDistinct(t: seq<Func>, f: Func)
    requires DistinctKeys(t, Entry) && forall g :: g in t ==> g.entry != f.entry
    ensures DistinctKeys(t + [f], Entry)
  {
  }

  lemma StrictIsDistinct(t: seq<Func>)
    requires TableOk(t)
    ensures DistinctKeys(t, Entry)
  {
  }

  lemma CreatedMembers(t: seq<Func>, code: Code, addr: nat, endOpt: Option<nat>, kind: Kind, f: Func)
    requires !Has(t, addr)
    ensures f in Created(t, code, addr, endOpt, kind) <==> f in t || f == Fresh(code, addr, endOpt, kind)
  {
    hide Fresh;
    SameElements(t + [Fresh(code, addr, endOpt, kind)], Entry, f);
  }

  /** Entries stay in order and unique. */
  lemma CreatedOk(t: seq<Func>, code: Code, addr: nat, endOpt: Option<nat>, kind: Kind)
    requires TableOk(t)
    ensures TableOk(Created(t, code, addr, endOpt, kind))
  {
    hide Grown, SortBy;
    if !Has(t, addr) {
      StrictIsDistinct(t);
      forall g | g in t
        ensures g.entry != addr
      {
        HasIff(t, addr);
      }
      AppendedDistinct(t, Fresh(code, addr, endOpt, kind));
      SortDistinct(t + [Fresh(code, addr, endOpt, kind)], Entry);
    }
  }

  /** Every function of the old table is still there, ending no earlier, and nothing but the new entry was added. */
  ghost predicate OnlyGrows(before: seq<Func>, after: seq<Func>, addr: nat) {
    (forall f :: f in before ==>
      exists g :: g in after && g.entry == f.entry && g.end >= f.end && (f.entry != addr ==> g == f)) &&
    (forall g :: g in after && g.entry != addr ==> g in before)
  }

  lemma CreatedOnlyGrows(t: seq<Func>, code: Code, addr: nat, endOpt: Option<nat>, kind: Kind)
    requires TableOk(t)
    ensures OnlyGrows(t, Created(t, code, addr, endOpt, kind), addr)
  {
    hide Grown, SortBy;
    var after := Created(t, code, addr, endOpt, kind);
    if Has(t, addr) {
      var i := Place(t, addr);
      forall f | f in t
        ensures exists g :: g in after && g.entry == f.entry && g.end >= f.end && (f.entry != addr ==> g == f)
      {
        var k :| 0 <= k < |t| && t[k] == f;
        assert after[k] in after && after[k].entry == f.entry && after[k].end >= f.end;
      }
    } else {
      forall f
        ensures f in after <==> f in t || f == Fresh(code, addr, endOpt, kind)
      {
        CreatedMembers(t, code, addr, endOpt, kind, f);
      }
      HasIff(t, addr);
    }
  }

  /** After creating a function it is in the table, at least as long as asked for or as grown. */
  lemma CreatedHas(t: seq<Func>, code: Code, addr: nat, endOpt: Option<nat>, kind: Kind)
    requires TableOk(t)
    ensures var after := Created(t, code, addr, endOpt, kind);
            Has(after, addr) &&
            At(after, addr).end >= (if endOpt.Some? then endOpt.value else Grown(code, addr, None)) &&
            At(after, addr) == if Has(t, addr) then Healed(code, At(t, addr), endOpt, kind)
              else Fresh(code, addr, endOpt, kind)
  {
    hide Grown, SortBy;
    var after := Created(t, code, addr, endOpt, kind);
    CreatedOk(t, code, addr, endOpt, kind);
    if Has(t, addr) {
      PlaceIs(after, Place(t, addr), addr);
    } else {
      CreatedMembers(t, code, addr, endOpt, kind, Fresh(code, addr, endOpt, kind));
      var k :| 0 <= k < |after| && after[k] == Fresh(code, addr, endOpt, kind);
      PlaceIs(after, k, addr);
    }
  }

  /** The entry and end of the created or refreshed function, and which kind it keeps or gets. */
  lemma CreatedExactly(t: seq<Func>, code: Code, addr: nat, endOpt: Option<nat>, kind: Kind)
    requires TableOk(t) && addr < U64
    ensures var after := Created(t, code, addr, endOpt, kind);
            var wanted := if endOpt.Some? then endOpt.value else Grown(code, addr, None);
            Has(after, addr) && At(after, addr).entry == addr &&
            (!Has(t, addr) ==>
              At(after, addr).end == Max(wanted, Min(addr + 1, U64 - 1)) && At(after, addr).kind == Some(kind)) &&
            (Has(t, addr) ==>
              At(after, addr).end == Max(wanted, At(t, addr).end) &&
              At(after, addr).kind ==
              if At(t, addr).kind.None? && (endOpt.Some? || wanted > At(t, addr).end) then Some(kind)
              else At(t, addr).kind)
  {
    hide Grown, Created;
    CreatedHas(t, code, addr, endOpt, kind);
  }

  lemma CreatedHasEntry(t: seq<Func>, code: Code, addr: nat, endOpt: Option<nat>, kind: Kind)
    ensures Has(Created(t, code, addr, endOpt, kind), addr)
  {
    hide Grown, SortBy;
    var after := Created(t, code, addr, endOpt, kind);
    HasIff(after, addr);
    if Has(t, addr) {
      assert after[Place(t, addr)] in after;
    } else {
      CreatedMembers(t, code, addr, endOpt, kind, Fresh(code, addr, endOpt, kind));
    }
  }

  lemma PlaceIs(t: seq<Func>, k: nat, entry: nat)
    requires TableOk(t) && k < |t| && t[k].entry == entry
    ensures Place(t, entry) == k
  {
    assert Place(t, entry) <= k;
    assert Place(t, entry) < k ==> Entry(t[Place(t, entry)]) < Entry(t[k]);
  }

  /** Creating again with the same arguments changes nothing. */
  lemma CreateTwice(t: seq<Func>, code: Code, addr: nat, endOpt: Option<nat>, kind: Kind)
    requires TableOk(t)
    ensures var after := Created(t, code, addr, endOpt, kind);
            Created(after, code, addr, endOpt, kind) == after
  {
    hide Grown, SortBy;
    var after := Created(t, code, addr, endOpt, kind);
    CreatedHas(t, code, addr, endOpt, kind);
    var f := At(after, addr);
    assert f.entry == addr;
    assert Healed(code, f, endOpt, kind) == f;
  }

  // ----- the truncation check -----

  datatype Honesty = Honest | Suspect(suggestedEnd: nat)

  const SHORT_SPAN: nat := 0x40

  /** A return that ends here, or padding that starts here; the listing decoder may differ from the grower's. */
  predicate CleanEnd(listing: Code, end: nat) {
    listing(end).Padding? || exists back: nat :: 1 <= back <= 15 && EndsAt(listing, back, end)
  }

  /** A return decoded `back` bytes before `end`, or at zero, ends there. */
  predicate EndsAt(listing: Code, back: nat, end: nat) {
    var va := if end >= back then end - back else 0;
    listing(va).Insn? && va + listing(va).length == end && listing(va).isRet
  }

  /** Whether a stored range looks cut short, as growth sees it. */
  function Assess(code: Code, listing: Code, entry: Option<nat>, storedEnd: Option<nat>, insnCount: nat,
                  stop: D.StopReason): Honesty
  {
    if entry.None? || storedEnd.None? || storedEnd.value <= entry.value then Honest
    else
      var e, s := entry.value, storedEnd.value;
      var grown := Grown(code, e, None);
      var past := grown >= SatAdd(e, SHORT_SPAN) && grown > s;
      var shortSpan := s - e < SHORT_SPAN && stop == D.FunctionEnd && past;
      var shortCount := insnCount < 8 && stop == D.FunctionEnd && past;
      var unclean := past && s - e < SHORT_SPAN && !CleanEnd(listing, s);
      if shortSpan || shortCount || unclean then Suspect(grown) else Honest
  }

  /** A range is suspect only when growth really goes past its end, and then growth is what is suggested. */
  lemma SuspectMeansTruncated(code: Code, listing: Code, entry: nat, storedEnd: nat, insnCount: nat, stop: D.StopReason)
    ensures var h := Assess(code, listing, Some(entry), Some(storedEnd), insnCount, stop);
            h.Suspect? ==> entry < storedEnd < h.suggestedEnd == Grown(code, entry, None)
  {
  }

  /** A return at an address, at most fifteen bytes before `end`, that ends there. */
  predicate ReturnsTo(listing: Code, va: nat, end: nat) {
    end <= va + 15 && va < end && listing(va).Insn? && listing(va).isRet && va + listing(va).length == end
  }

  lemma CleanIff(listing: Code, end: nat)
    requires end > 0
    ensures CleanEnd(listing, end) <==> (listing(end).Padding? || exists va: nat :: ReturnsTo(listing, va, end))
  {
    if va: nat :| ReturnsTo(listing, va, end) {
      assert EndsAt(listing, end - va, end);
    }
    if back: nat :| 1 <= back <= 15 && EndsAt(listing, back, end) {
      var va := if end >= back then end - back else 0;
      assert ReturnsTo(listing, va, end);
    }
  }

  /**
   * Exactly when a range is suspect: growth goes past its end and 64 bytes from the entry, or to the top of the address
   * space if that is nearer; and either the listing ran into the end with few instructions or few bytes, or few bytes
   * end neither at padding nor after a return.
   */
  lemma SuspectIff(code: Code, listing: Code, entry: nat, storedEnd: nat, insnCount: nat, stop: D.StopReason)
    ensures Assess(code, listing, Some(entry), Some(storedEnd), insnCount, stop).Suspect? <==>
            && entry < storedEnd < Grown(code, entry, None)
            && Min(entry + 64, 0xffff_ffff_ffff_ffff) <= Grown(code, entry, None)
            && ((stop.FunctionEnd? && insnCount < 8) || (storedEnd < entry + 64 &&
                 (stop.FunctionEnd? ||
                  (!listing(storedEnd).Padding? && forall va: nat :: !ReturnsTo(listing, va, storedEnd)))))
    ensures Assess(code, listing, None, Some(storedEnd), insnCount, stop) == Honest
    ensures Assess(code, listing, Some(entry), None, insnCount, stop) == Honest
  {
    hide Grown;
    if storedEnd > 0 { CleanIff(listing, storedEnd); }
  }

  /** The decompiler's check: a short range, and either decoding went 16 bytes past it or growth past 64 bytes. */
  lemma DecompileSuspectIff(code: Code, entry: nat, storedEnd: nat, decodedEnd: nat)
    ensures var h := AssessDecompile(code, entry, Some(storedEnd), decodedEnd);
            (h.Suspect? <==>
              && storedEnd < entry + 64
              && (decodedEnd > Min(storedEnd + 16, 0xffff_ffff_ffff_ffff) ||
                  (Grown(code, entry, None) > storedEnd &&
                   Grown(code, entry, None) >= Min(entry + 64, 0xffff_ffff_ffff_ffff)))) &&
            (h.Suspect? ==> h.suggestedEnd == Max(Grown(code, entry, None), decodedEnd))
  {
    hide Grown;
  }

  /** Taking the suggestion, or creating the function without an end, clears the suspicion for every listing. */
  lemma CreateClearsSuspicion(t: seq<Func>, code: Code, listing: Code, addr: nat, kind: Kind, insnCount: nat,
                              stop: D.StopReason)
    requires TableOk(t)
    ensures var after := Created(t, code, addr, None, kind);
            Has(after, addr) &&
            Assess(code, listing, Some(addr), Some(At(after, addr).end), insnCount, stop) == Honest
  {
    hide Grown, CleanEnd;
    CreatedHas(t, code, addr, None, kind);
    hide Created;
  }

  /** The check of the decompiler, which also looks at how far it decoded. */
  function AssessDecompile(code: Code, entry: nat, storedEnd: Option<nat>, decodedEnd: nat): Honesty {
    if storedEnd.None? then Honest
    else
      var s := storedEnd.value;
      var span := if s >= entry then s - entry else 0;
      var grown := Grown(code, entry, None);
      if span < SHORT_SPAN && (decodedEnd > SatAdd(s, 0x10) || (grown > s && grown >= SatAdd(entry, SHORT_SPAN)))
      then Suspect(Max(grown, decodedEnd)) else Honest
  }

  /** After creating the function, only a short body decoded well past its end is still suspect to the decompiler. */
  lemma CreateAndDecompile(t: seq<Func>, code: Code, addr: nat, kind: Kind, decodedEnd: nat)
    requires TableOk(t)
    ensures var after := Created(t, code, addr, None, kind);
            Has(after, addr) &&
            (AssessDecompile(code, addr, Some(At(after, addr).end), decodedEnd).Suspect? <==>
             At(after, addr).end < addr + SHORT_SPAN && decodedEnd > SatAdd(At(after, addr).end, 0x10))
  {
    hide Grown;
    CreatedHas(t, code, addr, None, kind);
    hide Created;
  }

  // ----- resolving an address -----

  datatype Status =
    | ExactEntry
    | Containing
    | Ambiguous
    | NoContainingFunction
    | NotExecutable
    | UnmappedAddress
    | SynthesizedFunction

  datatype Resolved =
    | Found(entry: nat, end: nat, status: Status, candidates: seq<Func>)
    | Failed(why: Status)
    | AnalyzerFailed

  datatype MemoryBlock = MemoryBlock(va: nat, size: nat, executable: bool)

  datatype Pdata = Range(begin: nat, end: nat)

  /** The fixed parts of a program, and what re-running the analyzers does to the table. */
  datatype Memory = Memory(blocks: seq<MemoryBlock>, pdata: seq<Pdata>, code: Code,
                           analyze: seq<Func> -> (seq<Func>, bool))

  /** The analyzers leave the table in order and without repeats. */
  ghost predicate MemoryOk(m: Memory) {
    CodeOk(m.code) && forall t: seq<Func> :: TableOk(t) ==> TableOk(m.analyze(t).0)
  }

  predicate InBlock(b: MemoryBlock, addr: nat) {
    b.va <= addr < if b.va + b.size < U64 then b.va + b.size else U64 - 1
  }

  predicate Mapped(m: Memory, addr: nat) {
    exists b :: b in m.blocks && InBlock(b, addr)
  }

  /** No block holds the last address. */
  lemma MappedInside(m: Memory, addr: nat)
    ensures Mapped(m, addr) ==> addr + 1 < U64
  {
  }

  predicate Executable(m: Memory, addr: nat) {
    exists b :: b in m.blocks && b.executable && InBlock(b, addr)
  }

  predicate Covers(f: Func, addr: nat) {
    f.entry <= addr < Max(f.end, SatNext(f.entry))
  }

  function Covering(t: seq<Func>, addr: nat): seq<Func> {
    if t == [] then []
    else if Covers(t[0], addr) then [t[0]] + Covering(t[1..], addr) else Covering(t[1..], addr)
  }

  lemma {:induction false} CoveringIs(t: seq<Func>, addr: nat, f: Func)
    ensures f in Covering(t, addr) <==> f in t && Covers(f, addr)
  {
    hide Covers;
    if t != [] { CoveringIs(t[1..], addr, f); }
  }

  function Span(f: Func): nat {
    if f.end >= f.entry then f.end - f.entry else 0
  }

  /** Shorter first; between equal lengths the later entry. */
  predicate Tighter(f: Func, g: Func) {
    Span(f) < Span(g) || (Span(f) == Span(g) && f.entry > g.entry)
  }

  function Tightest(c: seq<Func>): (f: Func)
    requires c != []
    ensures f in c && forall g :: g in c ==> !Tighter(g, f)
  {
    if |c| == 1 then c[0]
    else
      var rest := Tightest(c[1..]);
      assert c == [c[0]] + c[1..];
      if Tighter(rest, c[0]) then rest else c[0]
  }

  predicate CanResolve(t: seq<Func>, addr: nat) {
    Has(t, addr) || Covering(t, addr) != []
  }

  /** An exact entry, or the tightest covering function. */
  function Covered(t: seq<Func>, addr: nat): (r: Resolved)
    requires CanResolve(t, addr)
    ensures r.Found?
  {
    if Has(t, addr) then Found(addr, At(t, addr).end, ExactEntry, [])
    else
      var c := Covering(t, addr);
      Found(Tightest(c).entry, Tightest(c).end, if |c| > 1 then Ambiguous else Containing, c)
  }

  /** The first unwind range that holds the address, or the number of ranges. */
  function PdataPlace(pdata: seq<Pdata>, addr: nat): (i: nat)
    ensures i <= |pdata| && (i < |pdata| ==> pdata[i].begin <= addr < pdata[i].end)
  {
    if pdata == [] then 0
    else if pdata[0].begin <= addr < pdata[0].end then 0
    else 1 + PdataPlace(pdata[1..], addr)
  }

  /** A fresh function for an orphan: the unwind range that holds it, or one grown from the address. */
  function Healing(m: Memory, t: seq<Func>, addr: nat): (r: (seq<Func>, Resolved))
    ensures r.1.Found?
  {
    var i := PdataPlace(m.pdata, addr);
    if i < |m.pdata| then
      var after := Created(t, m.code, m.pdata[i].begin, Some(m.pdata[i].end), Kind.Pdata);
      CreatedHasEntry(t, m.code, m.pdata[i].begin, Some(m.pdata[i].end), Kind.Pdata);
      (after, FoundAt(after, m.pdata[i].begin))
    else
      var after := Created(t, m.code, addr, None, Synthesized);
      CreatedHasEntry(t, m.code, addr, None, Synthesized);
      (after, FoundAt(after, addr))
  }

  function FoundAt(t: seq<Func>, entry: nat): Resolved
    requires Has(t, entry)
  {
    Found(entry, At(t, entry).end, SynthesizedFunction, [])
  }

  /** The table and the answer after resolving an address. */
  function Resolve(m: Memory, t: seq<Func>, addr: nat): (seq<Func>, Resolved) {
    if !Mapped(m, addr) then (t, Failed(UnmappedAddress))
    else if !Executable(m, addr) && !Has(t, addr) then (t, Failed(NotExecutable))
    else
      var (t1, ok1) := if t == [] then m.analyze(t) else (t, true);
      if !ok1 then (t1, AnalyzerFailed)
      else if CanResolve(t1, addr) then (t1, Covered(t1, addr))
      else if !Executable(m, addr) then (t1, Failed(NoContainingFunction))
      else
        var (t2, ok2) := m.analyze(t1);
        if !ok2 then (t2, AnalyzerFailed)
        else if CanResolve(t2, addr) then (t2, Covered(t2, addr))
        else Healing(m, t2, addr)
  }

  /** The function is in the table, it ends where the answer says, and its interval holds the address. */
  ghost predicate Holds(t: seq<Func>, r: Resolved, addr: nat)
    requires r.Found?
  {
    Has(t, r.entry) && At(t, r.entry).end == r.end && (addr == r.entry || Covers(At(t, r.entry), addr))
  }

  lemma CoveredHolds(t: seq<Func>, addr: nat)
    requires TableOk(t) && CanResolve(t, addr)
    ensures Covered(t, addr).Found? && Holds(t, Covered(t, addr), addr)
  {
    if !Has(t, addr) {
      var f := Tightest(Covering(t, addr));
      CoveringIs(t, addr, f);
      var k :| 0 <= k < |t| && t[k] == f;
      PlaceIs(t, k, f.entry);
    }
  }

  lemma HealingHolds(m: Memory, t: seq<Func>, addr: nat)
    requires TableOk(t) && addr + 1 < U64
    ensures var (after, r) := Healing(m, t, addr); TableOk(after) && r.Found? && Holds(after, r, addr)
  {
    hide Created, Grown;
    var i := PdataPlace(m.pdata, addr);
    if i < |m.pdata| {
      CreatedOk(t, m.code, m.pdata[i].begin, Some(m.pdata[i].end), Kind.Pdata);
      CreatedHas(t, m.code, m.pdata[i].begin, Some(m.pdata[i].end), Kind.Pdata);
    } else {
      CreatedOk(t, m.code, addr, None, Synthesized);
      CreatedHas(t, m.code, addr, None, Synthesized);
    }
  }

  /** On every path, an answer names a function of the table whose interval holds the address. */
  lemma ResolveHolds(m: Memory, t: seq<Func>, addr: nat)
    requires MemoryOk(m) && TableOk(t)
    ensures var (after, r) := Resolve(m, t, addr); TableOk(after) && (r.Found? ==> Holds(after, r, addr))
  {
    hide Covered, CanResolve, Healing, Holds, Mapped, Executable, TableOk;
    var (t1, ok1) := if t == [] then m.analyze(t) else (t, true);
    if CanResolve(t1, addr) {
      CoveredHolds(t1, addr);
    } else {
      var (t2, ok2) := m.analyze(t1);
      if CanResolve(t2, addr) {
        CoveredHolds(t2, addr);
      } else {
        if Mapped(m, addr) {
          MappedInside(m, addr);
          HealingHolds(m, t2, addr);
        }
      }
    }
  }

  // ----- resolving again -----

  lemma {:induction false} NoneCover(t: seq<Func>, addr: nat)
    requires forall g :: g in t ==> !Covers(g, addr)
    ensures Covering(t, addr) == []
  {
    hide Covers;
    if t != [] { NoneCover(t[1..], addr); }
  }

  /** The only function that covers an address is listed once. */
  lemma {:induction false} OneCovers(t: seq<Func>, addr: nat, f: Func)
    requires TableOk(t) && f in t && Covers(f, addr) && forall g :: g in t && Covers(g, addr) ==> g == f
    ensures Covering(t, addr) == [f]
  {
    hide Covers;
    if t[0] == f {
      forall g | g in t[1..]
        ensures Entry(f) < Entry(g)
      {
      }
      NoneCover(t[1..], addr);
    } else {
      assert f in t[1..];
      OneCovers(t[1..], addr, f);
    }
  }

  lemma SameEntry(t: seq<Func>, f: Func, g: Func)
    requires TableOk(t) && f in t && g in t && f.entry == g.entry
    ensures f == g
  {
    var i: nat :| i < |t| && t[i] == f;
    var j: nat :| j < |t| && t[j] == g;
    EntriesRise(t, i, j);
    EntriesRise(t, j, i);
  }

  lemma EntriesRise(t: seq<Func>, i: nat, j: nat)
    requires TableOk(t)
    ensures i < j < |t| ==> t[i].entry < t[j].entry
  {
    if i < j < |t| { assert Entry(t[i]) < Entry(t[j]); }
  }

  /** When nothing held an address, a function created around it is found by its own entry. */
  lemma CreatedIsFound(t: seq<Func>, code: Code, begin: nat, endOpt: Option<nat>, kind: Kind, addr: nat)
    requires TableOk(t) && !CanResolve(t, addr)
    requires var after := Created(t, code, begin, endOpt, kind);
             Has(after, begin) && (addr == begin || Covers(At(after, begin), addr))
    ensures var after := Created(t, code, begin, endOpt, kind);
            CanResolve(after, addr) && Covered(after, addr).entry == begin &&
              Covered(after, addr).end == At(after, begin).end
  {
    hide Grown, SortBy, Covers;
    var after := Created(t, code, begin, endOpt, kind);
    CreatedOk(t, code, begin, endOpt, kind);
    CreatedOnlyGrows(t, code, begin, endOpt, kind);
    hide Created;
    if addr != begin {
      var f := At(after, begin);
      HasIff(after, addr);
      HasIff(t, addr);
      assert !Has(after, addr);
      assert f in after;
      forall g | g in after && Covers(g, addr)
        ensures g == f
      {
        CoveringIs(t, addr, g);
        assert g in t ==> g in Covering(t, addr);
        assert g.entry == begin;
        SameEntry(after, f, g);
      }
      OneCovers(after, addr, f);
    }
  }

  lemma HealingIsFound(m: Memory, t: seq<Func>, addr: nat)
    requires TableOk(t) && !CanResolve(t, addr) && addr + 1 < U64
    ensures var (after, r) := Healing(m, t, addr);
            r.Found? && CanResolve(after, addr) && Covered(after, addr).entry == r.entry &&
              Covered(after, addr).end == r.end
  {
    hide Created, Grown, CanResolve, Covered;
    HealingHolds(m, t, addr);
    var i := PdataPlace(m.pdata, addr);
    if i < |m.pdata| {
      CreatedIsFound(t, m.code, m.pdata[i].begin, Some(m.pdata[i].end), Kind.Pdata, addr);
    } else {
      CreatedIsFound(t, m.code, addr, None, Synthesized, addr);
    }
  }

  lemma ResolvesItself(m: Memory, t: seq<Func>, addr: nat)
    requires Mapped(m, addr) && (Executable(m, addr) || Has(t, addr)) && CanResolve(t, addr)
    ensures Resolve(m, t, addr) == (t, Covered(t, addr))
  {
    hide Covered, Mapped, Executable;
    assert t != [];
  }

  /** A second call finds the same function and leaves the table alone. */
  lemma ResolveAgain(m: Memory, t: seq<Func>, addr: nat)
    requires MemoryOk(m) && TableOk(t)
    ensures var (after, r) := Resolve(m, t, addr);
            r.Found? ==>
              var (again, r2) := Resolve(m, after, addr);
              again == after && r2.Found? && r2.entry == r.entry && r2.end == r.end
  {
    var (after, r) := Resolve(m, t, addr);
    if r.Found? {
      ResolveFinal(m, t, addr);
      hide *;
      ResolvesItself(m, after, addr);
    }
  }

  /** A found answer leaves a table in which the lookup alone gives it. */
  lemma ResolveFinal(m: Memory, t: seq<Func>, addr: nat)
    requires MemoryOk(m) && TableOk(t) && Resolve(m, t, addr).1.Found?
    ensures var (after, r) := Resolve(m, t, addr);
            Mapped(m, addr) && (Executable(m, addr) || Has(after, addr)) && CanResolve(after, addr) &&
            Covered(after, addr).Found? && Covered(after, addr).entry == r.entry && Covered(after, addr).end == r.end
  {
    hide Covered, Healing, Mapped, Executable, TableOk, Covering;
    var (t1, ok1) := if t == [] then m.analyze(t) else (t, true);
    if !CanResolve(t1, addr) {
      var (t2, ok2) := m.analyze(t1);
      if !CanResolve(t2, addr) {
        MappedInside(m, addr);
        HealingIsFound(m, t2, addr);
      } else {
        CoveredHolds(t2, addr);
      }
    } else {
      CoveredHolds(t1, addr);
    }
  }

  /** Some block holds the address, or some executable one; no block holds the last address. */
  ghost predicate Inside(blocks: seq<MemoryBlock>, addr: nat, executable: bool) {
    exists b :: b in blocks && (executable ==> b.executable) && b.va <= addr < b.va + b.size && addr < U64 - 1
  }

  /**
   * Resolution fails exactly for addresses outside all blocks, and for addresses outside executable blocks that are no
   * entry. Otherwise it finds a function unless the analyzers fail.
   */
  lemma FailsExactly(m: Memory, t: seq<Func>, addr: nat)
    ensures var r := Resolve(m, t, addr).1;
            && (r == Failed(UnmappedAddress) <==> !Inside(m.blocks, addr, false))
            && (r == Failed(NotExecutable) <==>
                 Inside(m.blocks, addr, false) && !Inside(m.blocks, addr, true) &&
                 forall f :: f in t ==> f.entry != addr)
            && (r.Failed? ==> r == Failed(UnmappedAddress) || r == Failed(NotExecutable))
            && (r.AnalyzerFailed? ==> exists u :: !m.analyze(u).1)
  {
    hide Covering, Healing, Created;
    HasIff(t, addr);
    assert Mapped(m, addr) <==> Inside(m.blocks, addr, false) by {
      forall b | b in m.blocks
        ensures InBlock(b, addr) <==> b.va <= addr < b.va + b.size && addr < U64 - 1
      {
      }
    }
    assert Executable(m, addr) <==> Inside(m.blocks, addr, true) by {
      forall b | b in m.blocks
        ensures InBlock(b, addr) <==> b.va <= addr < b.va + b.size && addr < U64 - 1
      {
      }
    }
    hide Mapped, Executable, Inside;
    assert Has(t, addr) ==> t != [] && CanResolve(t, addr);
  }

  // ----- which function an address gets -----

  ghost predicate FirstRange(pdata: seq<Pdata>, addr: nat, k: int) {
    0 <= k < |pdata| && pdata[k].begin <= addr < pdata[k].end &&
    forall j :: 0 <= j < k ==> !(pdata[j].begin <= addr < pdata[j].end)
  }

  /**
   * A synthesized answer: the first unwind range around the address if there is one, with all of that range, and else
   * a function grown from the address; and no other function of the table holds the address.
   */
  ghost predicate Orphan(m: Memory, t: seq<Func>, r: Resolved, addr: nat)
    requires r.Found?
  {
    && (exists f :: f in t && f.entry == r.entry && f.end == r.end) && r.candidates == []
    && (forall f :: f in t && f.entry <= addr && (addr < f.end || addr == f.entry) ==> f.entry == r.entry)
    && (forall k :: FirstRange(m.pdata, addr, k) ==> r.entry == m.pdata[k].begin && r.end >= m.pdata[k].end)
    && ((forall k :: 0 <= k < |m.pdata| ==> !(m.pdata[k].begin <= addr < m.pdata[k].end)) ==>
        r.entry == addr && r.end == Max(Grown(m.code, addr, None), addr + 1))
  }

  /** How long a function is, or zero if it ends before it begins. */
  function Length(entry: nat, end: nat): nat {
    if end <= entry then 0 else end - entry
  }

  /** An answer out of the table: the entry itself, or the shortest function around the address, later starts first. */
  ghost predicate Chosen(t: seq<Func>, r: Resolved, addr: nat)
    requires r.Found?
  {
    && (exists f :: f in t && f.entry == r.entry && f.end == r.end)
    && (r.status.ExactEntry? <==> exists f :: f in t && f.entry == addr)
    && (r.status.ExactEntry? ==> r.entry == addr && r.candidates == [])
    && (!r.status.ExactEntry? ==>
         && r.entry <= addr < r.end
         && (forall g :: g in r.candidates <==> g in t && g.entry <= addr < g.end)
         && (forall g :: g in t && g.entry <= addr < g.end ==>
              Length(r.entry, r.end) < Length(g.entry, g.end) ||
              (Length(r.entry, r.end) == Length(g.entry, g.end) && r.entry >= g.entry))
         && (r.status == if |r.candidates| > 1 then Ambiguous else Containing))
  }

  /** An answer is out of the table, or for an orphan. */
  ghost predicate Answers(m: Memory, t: seq<Func>, r: Resolved, addr: nat)
    requires r.Found?
  {
    if r.status == SynthesizedFunction then Orphan(m, t, r, addr) else Chosen(t, r, addr)
  }

  lemma CoveredIsChosen(t: seq<Func>, addr: nat)
    requires TableOk(t) && CanResolve(t, addr) && addr + 1 < U64
    ensures Covered(t, addr).status != SynthesizedFunction && Chosen(t, Covered(t, addr), addr)
  {
    HasIff(t, addr);
    if Has(t, addr) {
      assert At(t, addr) in t;
    } else {
      var c := Covering(t, addr);
      forall g
        ensures g in c <==> g in t && g.entry <= addr < g.end
      {
        CoveringIs(t, addr, g);
      }
      hide Covering, TableOk;
      var f := Tightest(c);
      assert f in t;
      hide Tightest;
      forall g | g in t && g.entry <= addr < g.end
        ensures !Tighter(g, f)
      {
        assert g in c;
      }
    }
  }

  lemma NoneHold(t: seq<Func>, addr: nat)
    requires !CanResolve(t, addr) && addr + 1 < U64
    ensures forall f :: f in t ==> !(f.entry <= addr && (addr < f.end || addr == f.entry))
  {
    HasIff(t, addr);
    forall f | f in t
      ensures !(f.entry <= addr && (addr < f.end || addr == f.entry))
    {
      CoveringIs(t, addr, f);
    }
  }

  lemma HealingIsOrphan(m: Memory, t: seq<Func>, addr: nat)
    requires TableOk(t) && !CanResolve(t, addr) && addr + 1 < U64
    ensures var (after, r) := Healing(m, t, addr);
            r.Found? && r.status == SynthesizedFunction && Orphan(m, after, r, addr)
  {
    var i := PdataPlace(m.pdata, addr);
    NoPlaceBefore(m.pdata, addr);
    var (begin, endOpt, kind) :=
      if i < |m.pdata| then (m.pdata[i].begin, Some(m.pdata[i].end), Kind.Pdata) else (addr, None, Synthesized);
    var after := Created(t, m.code, begin, endOpt, kind);
    CreatedOk(t, m.code, begin, endOpt, kind);
    CreatedOnlyGrows(t, m.code, begin, endOpt, kind);
    CreatedExactly(t, m.code, begin, endOpt, kind);
    NoneHold(t, addr);
    hide Created, Grown, TableOk, CanResolve, PdataPlace;
    assert At(after, begin) in after;
  }

  lemma {:induction false} NoPlaceBefore(pdata: seq<Pdata>, addr: nat)
    ensures forall j :: 0 <= j < PdataPlace(pdata, addr) ==> !(pdata[j].begin <= addr < pdata[j].end)
  {
    if pdata != [] { NoPlaceBefore(pdata[1..], addr); }
  }

  /** Every answer is the one described, on every path. */
  lemma ResolveAnswers(m: Memory, t: seq<Func>, addr: nat)
    requires MemoryOk(m) && TableOk(t)
    ensures var (after, r) := Resolve(m, t, addr); r.Found? ==> Answers(m, after, r, addr)
  {
    hide Covered, CanResolve, Healing, Mapped, Executable, TableOk, Orphan, Chosen;
    var (t1, ok1) := if t == [] then m.analyze(t) else (t, true);
    if Mapped(m, addr) {
      MappedInside(m, addr);
      if CanResolve(t1, addr) {
        CoveredIsChosen(t1, addr);
      } else {
        var (t2, ok2) := m.analyze(t1);
        if CanResolve(t2, addr) {
          CoveredIsChosen(t2, addr);
        } else {
          HealingIsOrphan(m, t2, addr);
        }
      }
    }
  }

  /** Some function of the table begins at the address or holds it. */
  ghost predicate Known(t: seq<Func>, addr: nat) {
    exists f :: f in t && f.entry <= addr && (addr < f.end || addr == f.entry)
  }

  lemma KnownIff(t: seq<Func>, addr: nat)
    requires addr + 1 < U64
    ensures CanResolve(t, addr) <==> Known(t, addr)
  {
    if CanResolve(t, addr) {
      HasIff(t, addr);
      if !Has(t, addr) {
        CoveringIs(t, addr, Covering(t, addr)[0]);
      }
    } else {
      NoneHold(t, addr);
    }
  }

  /** Nothing is analyzed for an address that resolution refuses. */
  lemma RefusedUntouched(m: Memory, t: seq<Func>, addr: nat)
    ensures Resolve(m, t, addr).1.Failed? ==> Resolve(m, t, addr).0 == t
  {
    hide Covering, Healing, Created, Mapped, Executable;
    assert Has(t, addr) ==> t != [] && CanResolve(t, addr);
  }

  /**
   * The analyzers run on an empty table, and once more when what is there does not know the address. Only when that
   * does not help is a function made for it, and then nothing else is lost or changed.
   */
  lemma AnalyzedFirst(m: Memory, t: seq<Func>, addr: nat)
    requires MemoryOk(m) && TableOk(t)
    ensures var (after, r) := Resolve(m, t, addr);
            var (first, firstOk) := if t == [] then m.analyze([]) else (t, true);
            var (second, secondOk) := m.analyze(first);
            !r.Failed? ==>
              if !firstOk then r.AnalyzerFailed? && after == first
              else if Known(first, addr) then r.Found? && r.status != SynthesizedFunction && after == first
              else if !secondOk then r.AnalyzerFailed? && after == second
              else if Known(second, addr) then r.Found? && r.status != SynthesizedFunction && after == second
              else r.Found? && r.status == SynthesizedFunction && OnlyGrows(second, after, r.entry)
  {
    hide Covered, CanResolve, Healing, Executable, TableOk, OnlyGrows, Known;
    hide Mapped;
    var (t1, ok1) := if t == [] then m.analyze(t) else (t, true);
    var (t2, ok2) := m.analyze(t1);
    if Mapped(m, addr) {
      MappedInside(m, addr);
      KnownIff(t1, addr);
      KnownIff(t2, addr);
      if CanResolve(t1, addr) { CoveredIsChosen(t1, addr); }
      if CanResolve(t2, addr) { CoveredIsChosen(t2, addr); }
      HealingGrows(m, t2, addr);
    }
  }

  lemma HealingGrows(m: Memory, t: seq<Func>, addr: nat)
    requires TableOk(t)
    ensures var (after, r) := Healing(m, t, addr);
            r.Found? && r.status == SynthesizedFunction && OnlyGrows(t, after, r.entry)
  {
    var i := PdataPlace(m.pdata, addr);
    var (begin, endOpt, kind) :=
      if i < |m.pdata| then (m.pdata[i].begin, Some(m.pdata[i].end), Kind.Pdata) else (addr, None, Synthesized);
    CreatedOnlyGrows(t, m.code, begin, endOpt, kind);
    hide Created, Grown, TableOk, PdataPlace, OnlyGrows;
  }

  // ----- the other lookup: the covering function that starts last -----

  function Latest(c: seq<Func>): (f: Func)
    requires c != []
    ensures f in c && forall g :: g in c ==> g.entry <= f.entry
  {
    if |c| == 1 then c[0]
    else
      var rest := Latest(c[1..]);
      assert c == [c[0]] + c[1..];
      if rest.entry >= c[0].entry then rest else c[0]
  }

  /** What the table alone says contains an address. */
  function FunctionContaining(t: seq<Func>, addr: nat): Option<Func> {
    var c := Covering(t, addr);
    if c == [] then None else Some(Latest(c))
  }

  /**
   * The second starts later and is longer, and both hold the address: the lookups would choose between them
   * differently.
   */
  predicate Conflict(f: Func, g: Func, addr: nat) {
    Covers(f, addr) && Covers(g, addr) && f.entry < g.entry && Span(f) < Span(g)
  }

  /** This lookup names the function that starts last among those that hold the address, or none. */
  lemma ContainingIs(t: seq<Func>, addr: nat)
    requires addr + 1 < U64
    ensures match FunctionContaining(t, addr)
            case None => forall g :: g in t ==> !(g.entry <= addr && (addr < g.end || addr == g.entry))
            case Some(f) =>
              f in t && f.entry <= addr && (addr < f.end || addr == f.entry) &&
              forall g :: g in t && g.entry <= addr && (addr < g.end || addr == g.entry) ==> g.entry <= f.entry
  {
    hide Latest;
    forall g
      ensures g in Covering(t, addr) <==> g in t && g.entry <= addr && (addr < g.end || addr == g.entry)
    {
      CoveringIs(t, addr, g);
    }
    hide Covering;
  }

  /**
   * The two lookups agree at an address exactly if it is an entry, or if every two functions of the table that
   * conflict there are followed by one that starts later still and holds the address too.
   */
  lemma LookupsAgreeIff(t: seq<Func>, addr: nat)
    requires TableOk(t) && CanResolve(t, addr) && addr + 1 < U64
    ensures FunctionContaining(t, addr).Some?
    ensures FunctionContaining(t, addr).value.entry == Covered(t, addr).entry <==>
            Has(t, addr) ||
            forall f, g :: f in t && g in t && Conflict(f, g, addr) ==>
              exists h :: h in t && Covers(h, addr) && h.entry > g.entry
  {
    var c := Covering(t, addr);
    forall g
      ensures g in c <==> g in t && Covers(g, addr)
    {
      CoveringIs(t, addr, g);
    }
    if Has(t, addr) {
      assert At(t, addr) in t && Covers(At(t, addr), addr);
    } else {
      LatestIsTightestIff(t, c, addr);
    }
  }

  lemma LatestIsTightestIff(t: seq<Func>, c: seq<Func>, addr: nat)
    requires TableOk(t) && c != [] && forall g :: g in c <==> g in t && Covers(g, addr)
    ensures Latest(c).entry == Tightest(c).entry <==>
            forall f, g :: f in t && g in t && Conflict(f, g, addr) ==>
              exists h :: h in t && Covers(h, addr) && h.entry > g.entry
  {
    hide Latest, Tightest, Covers;
    var last, tight := Latest(c), Tightest(c);
    if last.entry == tight.entry {
      SameEntry(t, last, tight);
      forall f, g | f in t && g in t && Conflict(f, g, addr)
        ensures exists h :: h in t && Covers(h, addr) && h.entry > g.entry
      {
        assert !Tighter(f, last);
        if last.entry == g.entry { SameEntry(t, last, g); }
        assert last.entry > g.entry;
      }
    } else {
      assert !Tighter(last, tight);
      assert Conflict(tight, last, addr);
    }
  }

  /** An entry at the last address of all is found by its entry alone: no 64-bit end lies past it. */
  lemma LookupsAtLast(t: seq<Func>, addr: nat)
    requires addr == U64 - 1 && TableOk(t) && forall f :: f in t ==> f.end < U64
    ensures FunctionContaining(t, addr) == None
    ensures CanResolve(t, addr) <==> Has(t, addr)
  {
    NoneCovering(t, addr);
  }

  lemma {:induction false} NoneCovering(t: seq<Func>, addr: nat)
    requires forall f :: f in t ==> !Covers(f, addr)
    ensures Covering(t, addr) == []
  {
    hide Covers;
    if t != [] { NoneCovering(t[1..], addr); }
  }

  /** No function ends inside a later-starting one. */
  ghost predicate Nested(t: seq<Func>) {
    forall f, g :: f in t && g in t && f.entry < g.entry < Max(f.end, SatNext(f.entry)) ==> g.end <= f.end
  }

  /** Functions that nest properly give one answer at every address. */
  lemma NestedLookupsAgree(t: seq<Func>, addr: nat)
    requires TableOk(t) && CanResolve(t, addr) && addr + 1 < U64 && Nested(t)
    ensures FunctionContaining(t, addr).Some? && FunctionContaining(t, addr).value.entry == Covered(t, addr).entry
  {
    LookupsAgreeIff(t, addr);
    forall f, g | f in t && g in t
      ensures !Conflict(f, g, addr)
    {
      NestedNeverConflict(t, f, g, addr);
    }
  }

  lemma NestedNeverConflict(t: seq<Func>, f: Func, g: Func, addr: nat)
    requires Nested(t) && f in t && g in t
    ensures !Conflict(f, g, addr)
  {
  }

  /** Two functions that cross: one lookup names the later start, the other the shorter body. */
  lemma CrossingLookupsDiffer()
    ensures var t := [Func(0, 100, None), Func(10, 200, None)];
            TableOk(t) && CanResolve(t, 50) && FunctionContaining(t, 50) == Some(t[1]) &&
              Covered(t, 50).entry == t[0].entry
  {
    var t := [Func(0, 100, None), Func(10, 200, None)];
    assert Covering(t[1..][1..], 50) == [];
    assert Covering(t[1..], 50) == [t[1]];
    assert Covering(t, 50) == [t[0], t[1]];
    assert Place(t[1..][1..], 50) == 0;
  }

  // ----- the program whose table the source changes -----

  class Program {
    var functions: seq<Func>
    const memory: Memory

    constructor (memory: Memory, functions: seq<Func>)
      ensures this.memory == memory && this.functions == functions
    {
      this.memory := memory;
      this.functions := functions;
    }

    method CreateFunction(addr: nat, endOpt: Option<nat>, kind: Kind) returns (f: Func)
      requires endOpt.None? ==> addr + 1 < U64 && Stays(memory.code, addr, 0, 4096, None)
      modifies this`functions
      ensures functions == Created(old(functions), memory.code, addr, endOpt, kind)
      ensures Has(functions, addr) && (TableOk(old(functions)) ==> f == At(functions, addr))
    {
      hide Grown, SortBy;
      CreatedHasEntry(functions, memory.code, addr, endOpt, kind);
      var i := Find(addr);
      if i < |functions| {
        f := functions[i];
        if endOpt.Some? {
          if endOpt.value > f.end {
            f := f.(end := endOpt.value);
          }
          if f.kind.None? {
            f := f.(kind := Some(kind));
          }
          functions := functions[i := f];
        } else {
          var grown := GrowFunction(memory.code, addr, None);
          if grown > f.end {
            f := WithKind(f.(end := grown), kind);
            functions := functions[i := f];
          }
        }
      } else {
        var end;
        if endOpt.Some? { end := endOpt.value; } else { end := GrowFunction(memory.code, addr, None); }
        end := Max(end, SatNext(addr));
        f := Func(addr, end, Some(kind));
        functions := SortBy(functions + [f], Entry);
      }
      ghost var was := old(functions);
      if TableOk(was) { CreatedHas(was, memory.code, addr, endOpt, kind); }
    }

    method Find(addr: nat) returns (i: nat)
      ensures i == Place(functions, addr)
    {
      i := 0;
      assert functions[0..] == functions;
      while i < |functions| && functions[i].entry != addr
        invariant i <= |functions| && Place(functions, addr) == i + Place(functions[i..], addr)
      {
        assert functions[i..][1..] == functions[i + 1..];
        i := i + 1;
      }
    }

    /** The exact entry, or the tightest function around the address. */
    method TryResolveCovering(addr: nat) returns (r: Option<Resolved>)
      ensures r == if CanResolve(functions, addr) then Some(Covered(functions, addr)) else None
    {
      hide Covers;
      var i := Find(addr);
      if i < |functions| {
        return Some(Found(addr, functions[i].end, ExactEntry, []));
      }
      var covering := Covering(functions, addr);
      if covering == [] { return None; }
      var primary := Tightest(covering);
      return Some(Found(primary.entry, primary.end, if |covering| > 1 then Ambiguous else Containing, covering));
    }

    method RunAnalyzers() returns (ok: bool)
      modifies this`functions
      ensures (functions, ok) == memory.analyze(old(functions))
    {
      var (t, done) := memory.analyze(functions);
      functions := t;
      ok := done;
    }

    method ResolveFunction(addr: nat) returns (r: Resolved)
      requires MemoryOk(memory) && TableOk(functions)
      modifies this`functions
      ensures (functions, r) == Resolve(memory, old(functions), addr)
      ensures TableOk(functions) && (r.Found? ==> Holds(functions, r, addr) && Answers(memory, functions, r, addr))
    {
      hide Covered, CanResolve, Mapped, Executable, Created, Holds, Grown, Answers;
      ghost var t0 := functions;
      ResolveHolds(memory, t0, addr);
      ResolveAnswers(memory, t0, addr);
      if !Mapped(memory, addr) { return Failed(UnmappedAddress); }
      var inExec := Executable(memory, addr);
      if !inExec {
        var i := Find(addr);
        if i == |functions| { return Failed(NotExecutable); }
      }
      if functions == [] {
        var ok := RunAnalyzers();
        if !ok { return AnalyzerFailed; }
      }
      var first := TryResolveCovering(addr);
      if first.Some? { return first.value; }
      if !inExec { return Failed(NoContainingFunction); }
      var ok := RunAnalyzers();
      if !ok { return AnalyzerFailed; }
      var second := TryResolveCovering(addr);
      if second.Some? { return second.value; }
      var i := PdataPlace(memory.pdata, addr);
      if i < |memory.pdata| {
        var f := CreateFunction(memory.pdata[i].begin, Some(memory.pdata[i].end), Kind.Pdata);
        return Found(f.entry, f.end, SynthesizedFunction, []);
      }
      MappedInside(memory, addr);
      CodeStays(memory.code, addr, 0, 4096, None);
      var f := CreateFunction(addr, None, Synthesized);
      return Found(f.entry, f.end, SynthesizedFunction, []);
    }
  }
}
