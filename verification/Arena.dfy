/** The tiered slab allocator of benchmarks/c10m/arena_exhaustion.rs. */
module Arena {
  import opened Wrappers
  import opened PowersOfTwo
  import opened Bitmaps

  const SLAB_64_COUNT := 8192
  const SLAB_512_COUNT := 2048

  /** The scan for a free slot, from word `i` on. */
  function FirstFree(bm: seq<nat>, i: nat): Option<nat>
    requires i <= |bm|
    decreases |bm| - i
  {
    if i == |bm| then None
    else if bm[i] != 0 then Some(i * BITS + TrailingZeros(bm[i]))
    else FirstFree(bm, i + 1)
  }

  /** The scan hands out the lowest free slot, and fails exactly when there is none. */
  lemma {:induction false} FirstFreeIsLowest(bm: seq<nat>, i: nat)
    requires Words(bm) && i <= |bm| && forall j :: 0 <= j < i ==> bm[j] == 0
    ensures FirstFree(bm, i).None? <==> CountFree(bm) == 0
    ensures match FirstFree(bm, i)
            case None => forall k: nat :: !Free(bm, k)
            case Some(k) => IsLowest(bm, k) && k < |bm| * BITS
    decreases |bm| - i
  {
    hide Free, IsLowest, CountFree, Words;
    NoneFree(bm);
    if i == |bm| {
      AllZero(bm);
    } else if bm[i] != 0 {
      FirstWordIsLowest(bm, i);
    } else {
      FirstFreeIsLowest(bm, i + 1);
    }
  }

  // The state of an arena as a value, and its operations.

  datatype State = State(small: seq<nat>, large: seq<nat>, allocs64: int, allocs512: int, frees: int)

  datatype Op = Alloc64 | Alloc512 | Free64(idx: nat) | Free512(idx: nat)

  function AfterAlloc(bm: seq<nat>): seq<nat>
    requires Words(bm)
  {
    FirstFreeIsLowest(bm, 0);
    match FirstFree(bm, 0)
    case None => bm
    case Some(k) => Take(bm, k)
  }

  function AfterFree(bm: seq<nat>, k: nat): seq<nat> {
    if k / BITS < |bm| then Give(bm, k) else bm
  }

  function Tick(happened: bool): int {
    if happened then 1 else 0
  }

  predicate Sound(st: State) {
    Words(st.small) && Words(st.large)
  }

  function Apply(st: State, op: Op): State
    requires Sound(st)
  {
    match op
    case Alloc64 =>
      st.(small := AfterAlloc(st.small), allocs64 := st.allocs64 + Tick(FirstFree(st.small, 0).Some?))
    case Alloc512 =>
      st.(large := AfterAlloc(st.large), allocs512 := st.allocs512 + Tick(FirstFree(st.large, 0).Some?))
    case Free64(k) =>
      st.(small := AfterFree(st.small, k), frees := st.frees + Tick(k / BITS < |st.small|))
    case Free512(k) =>
      st.(large := AfterFree(st.large, k), frees := st.frees + Tick(k / BITS < |st.large|))
  }

  lemma ApplyIsSound(st: State, op: Op)
    requires Sound(st)
    ensures Sound(Apply(st, op))
    ensures Accounts(Apply(st, op)) == Accounts(st) - Tick(Redundant(st, op))
  {
    match op
    case Alloc64 => AllocAccounts(st.small);
    case Alloc512 => AllocAccounts(st.large);
    case Free64(k) => FreeAccounts(st.small, k);
    case Free512(k) => FreeAccounts(st.large, k);
  }

  lemma AllocAccounts(bm: seq<nat>)
    requires Words(bm)
    ensures Words(AfterAlloc(bm))
    ensures CountFree(AfterAlloc(bm)) == CountFree(bm) - Tick(FirstFree(bm, 0).Some?)
  {
    hide Words, CountFree, FirstFree, Take;
    FirstFreeIsLowest(bm, 0);
    if FirstFree(bm, 0).Some? {
      TakeClears(bm, FirstFree(bm, 0).value);
    }
  }

  lemma FreeAccounts(bm: seq<nat>, k: nat)
    requires Words(bm)
    ensures Words(AfterFree(bm, k))
    ensures CountFree(AfterFree(bm, k)) == CountFree(bm) + Tick(k / BITS < |bm| && !Free(bm, k))
  {
    assert k / BITS < |bm| ==> |Give(bm, k)| == |bm|;
    hide Words, CountFree, Give;
    if k / BITS < |bm| {
      GiveSets(bm, k);
      if Free(bm, k) {
        assert forall j: nat :: Free(Give(bm, k), j) <==> Free(bm, j);
        SameFree(bm, Give(bm, k));
      }
    }
  }

  /** A free that names a slot which is free already. */
  predicate Redundant(st: State, op: Op) {
    match op
    case Free64(k) => Free(st.small, k)
    case Free512(k) => Free(st.large, k)
    case _ => false
  }

  /** Handed out and not returned, plus free. */
  function Accounts(st: State): int {
    st.allocs64 + st.allocs512 - st.frees + CountFree(st.small) + CountFree(st.large)
  }

  function Run(st: State, ops: seq<Op>): State
    requires Sound(st)
    decreases |ops|
  {
    if ops == [] then st
    else
      ApplyIsSound(st, ops[0]);
      Run(Apply(st, ops[0]), ops[1..])
  }

  function RedundantFrees(st: State, ops: seq<Op>): nat
    requires Sound(st)
    decreases |ops|
  {
    if ops == [] then 0
    else
      ApplyIsSound(st, ops[0]);
      Tick(Redundant(st, ops[0])) + RedundantFrees(Apply(st, ops[0]), ops[1..])
  }

  /** Over every run, slots handed out and not returned plus free slots make up the capacity,
      short by one for each redundant free. */
  lemma {:induction false} RunAccounts(st: State, ops: seq<Op>)
    requires Sound(st)
    ensures Sound(Run(st, ops)) && Accounts(Run(st, ops)) == Accounts(st) - RedundantFrees(st, ops)
    decreases |ops|
  {
    hide Apply, Accounts, Redundant, Sound;
    if ops != [] {
      ApplyIsSound(st, ops[0]);
      RunAccounts(Apply(st, ops[0]), ops[1..]);
    }
  }

  // The allocator.

  /** One size of slots. The source spells its two sizes out separately, in the same words. */
  class Tier {
    const frameSize: nat
    const bitmap: array<nat>
    const slab: array<seq<int>>
    var allocCount: int

    ghost predicate Valid()
      reads bitmap
    {
      bitmap.Length * BITS == slab.Length && Words(bitmap[..])
    }

    constructor (slots: nat, frameSize: nat)
      requires slots % BITS == 0
      ensures Valid() && fresh(bitmap) && fresh(slab)
      ensures this.frameSize == frameSize && slab.Length == slots && allocCount == 0
      ensures CountFree(bitmap[..]) == slots
    {
      this.frameSize := frameSize;
      bitmap := new nat[slots / BITS](_ => Pow2(BITS) - 1);
      slab := new seq<int>[slots](_ => seq(frameSize, _ => 0));
      allocCount := 0;
      new;
      AllFree(bitmap[..]);
    }

    method Alloc() returns (r: Option<nat>)
      requires Valid()
      modifies `allocCount, bitmap
      ensures Valid()
      ensures r == FirstFree(old(bitmap[..]), 0)
      ensures bitmap[..] == AfterAlloc(old(bitmap[..]))
      ensures allocCount == old(allocCount) + Tick(r.Some?)
    {
      hide Words, CountFree, TrailingZeros, AndNot, IsLowest, Pow2;
      ghost var bm := bitmap[..];
      AllocAccounts(bm);
      FirstFreeIsLowest(bm, 0);
      for i := 0 to bitmap.Length
        invariant bitmap[..] == bm
        invariant FirstFree(bm, i) == FirstFree(bm, 0)
      {
        if bitmap[i] != 0 {
          var bit := TrailingZeros(bitmap[i]);
          BitInWord(bm, i);
          bitmap[i] := AndNot(bitmap[i], Pow2(bit));
          allocCount := allocCount + 1;
          return Some(i * BITS + bit);
        }
      }
      r := None;
    }

    method Free(idx: nat) returns (done: bool)
      requires Valid()
      modifies bitmap
      ensures Valid()
      ensures done <==> idx < slab.Length
      ensures bitmap[..] == AfterFree(old(bitmap[..]), idx)
    {
      hide Words, BitOr, Pow2;
      FreeAccounts(bitmap[..], idx);
      done := idx < slab.Length;
      if done {
        bitmap[idx / BITS] := BitOr(bitmap[idx / BITS], Pow2(idx % BITS));
      }
    }

    method Touch(idx: nat, val: int)
      requires idx < slab.Length
      modifies slab
      ensures slab[..] == old(slab[..])[idx := seq(frameSize, _ => val)]
    {
      slab[idx] := seq(frameSize, _ => val);
    }
  }

  lemma {:induction false} AllFree(bm: seq<nat>)
    requires forall i :: 0 <= i < |bm| ==> bm[i] == Pow2(BITS) - 1
    ensures Words(bm) && CountFree(bm) == |bm| * BITS
  {
    hide Pow2;
    if bm != [] {
      OnesOfAllOnes(BITS);
      AllFree(bm[1..]);
    }
  }

  lemma BitInWord(bm: seq<nat>, i: nat)
    requires Words(bm) && i < |bm| && bm[i] != 0
    ensures TrailingZeros(bm[i]) < BITS
    ensures (i * BITS + TrailingZeros(bm[i])) / BITS == i
            && (i * BITS + TrailingZeros(bm[i])) % BITS == TrailingZeros(bm[i])
  {
    hide TrailingZeros, Pow2;
    LowestSetBit(bm[i], BITS);
  }

  class TieredArena {
    const small: Tier
    const large: Tier
    var freeCount: int

    ghost predicate Valid()
      reads small.bitmap, large.bitmap
    {
      && small != large && small.bitmap != large.bitmap && small.slab != large.slab
      && small.Valid() && large.Valid()
    }

    ghost function Value(): State
      reads this, small, large, small.bitmap, large.bitmap
    {
      State(small.bitmap[..], large.bitmap[..], small.allocCount, large.allocCount, freeCount)
    }

    constructor ()
      ensures Valid() && fresh(small) && fresh(large)
      ensures small.slab.Length == 8192 && large.slab.Length == 2048 && Accounts(Value()) == 8192 + 2048
      ensures small.frameSize == 64 && large.frameSize == 512
      ensures freeCount == 0
    {
      var s := new Tier(SLAB_64_COUNT, 64);
      var l := new Tier(SLAB_512_COUNT, 512);
      small, large, freeCount := s, l, 0;
    }

    method Alloc64() returns (r: Option<nat>)
      requires Valid()
      modifies small`allocCount, small.bitmap
      ensures Valid() && Value() == Apply(old(Value()), Op.Alloc64)
      ensures r == FirstFree(old(small.bitmap[..]), 0)
    {
      r := small.Alloc();
    }

    method Alloc512() returns (r: Option<nat>)
      requires Valid()
      modifies large`allocCount, large.bitmap
      ensures Valid() && Value() == Apply(old(Value()), Op.Alloc512)
      ensures r == FirstFree(old(large.bitmap[..]), 0)
    {
      r := large.Alloc();
    }

    method Free64(idx: nat)
      requires Valid()
      modifies `freeCount, small.bitmap
      ensures Valid() && Value() == Apply(old(Value()), Op.Free64(idx))
    {
      var done := small.Free(idx);
      if done {
        freeCount := freeCount + 1;
      }
    }

    method Free512(idx: nat)
      requires Valid()
      modifies `freeCount, large.bitmap
      ensures Valid() && Value() == Apply(old(Value()), Op.Free512(idx))
    {
      var done := large.Free(idx);
      if done {
        freeCount := freeCount + 1;
      }
    }
  }

  /** Exactly the slots of `frames` were free before and are free no more. */
  ghost predicate Grabbed(before: seq<nat>, after: seq<nat>, frames: seq<nat>) {
    && Words(before) && Words(after) && |before| == |after|
    && (forall i, j :: 0 <= i < j < |frames| ==> frames[i] != frames[j])
    && (forall k :: k in frames ==> Free(before, k))
    && forall k: nat :: Free(after, k) <==> Free(before, k) && k !in frames
  }

  lemma GrabbedNone(bm: seq<nat>)
    requires Words(bm)
    ensures Grabbed(bm, bm, [])
  {
  }

  lemma GrabOne(before: seq<nat>, bm: seq<nat>, frames: seq<nat>)
    requires Grabbed(before, bm, frames) && CountFree(bm) + |frames| == CountFree(before)
    ensures match FirstFree(bm, 0)
            case None => CountFree(bm) == 0 && AfterAlloc(bm) == bm
            case Some(k) =>
              && Grabbed(before, AfterAlloc(bm), frames + [k])
              && CountFree(AfterAlloc(bm)) + |frames + [k]| == CountFree(before)
              && k !in frames && k < |bm| * BITS
  {
    hide Words, Free, CountFree, FirstFree;
    FirstFreeIsLowest(bm, 0);
    if FirstFree(bm, 0).Some? {
      TakeClears(bm, FirstFree(bm, 0).value);
    }
  }

  /** Giving back the first of the frames that are out. */
  lemma GiveBackOne(before: seq<nat>, bm: seq<nat>, frames: seq<nat>)
    requires frames != [] && Grabbed(before, bm, frames)
    ensures frames[0] / BITS < |bm|
    ensures Grabbed(before, AfterFree(bm, frames[0]), frames[1..])
  {
    hide Words, Bit;
    var k := frames[0];
    assert Free(before, k);
    GiveSets(bm, k);
    var after := Give(bm, k);
    forall j: nat
      ensures Free(after, j) <==> Free(before, j) && j !in frames[1..]
    {
      assert j in frames <==> j == k || j in frames[1..];
    }
  }

  lemma NothingGrabbed(before: seq<nat>, bm: seq<nat>)
    requires Grabbed(before, bm, [])
    ensures bm == before
  {
    hide Words, Free;
    SameFree(bm, before);
  }

  /** Allocates up to `rounds` frames and fills each with the worker's number. */
  method Grab(tier: Tier, rounds: nat, worker: int) returns (frames: seq<nat>)
    requires tier.Valid()
    modifies tier`allocCount, tier.bitmap, tier.slab
    ensures tier.Valid()
    ensures Grabbed(old(tier.bitmap[..]), tier.bitmap[..], frames)
    ensures |frames| == Min(rounds, CountFree(old(tier.bitmap[..])))
    ensures tier.allocCount == old(tier.allocCount) + |frames|
    ensures Filled(old(tier.slab[..]), tier.slab[..], frames, seq(tier.frameSize, _ => worker))
  {
    hide Words, Free, CountFree, FirstFree, AfterAlloc, Grabbed;
    ghost var before, slab := tier.bitmap[..], tier.slab[..];
    ghost var frame := seq(tier.frameSize, _ => worker);
    frames := [];
    GrabbedNone(before);
    for round := 0 to rounds
      invariant tier.Valid()
      invariant Grabbed(before, tier.bitmap[..], frames)
      invariant CountFree(tier.bitmap[..]) + |frames| == CountFree(before)
      invariant |frames| == round || (|frames| < round && CountFree(tier.bitmap[..]) == 0)
      invariant tier.allocCount == old(tier.allocCount) + |frames|
      invariant Filled(slab, tier.slab[..], frames, frame)
    {
      GrabOne(before, tier.bitmap[..], frames);
      var r := tier.Alloc();
      if r.Some? {
        tier.Touch(r.value, worker);
        frames := frames + [r.value];
      }
    }
  }

  /** The frames listed hold `frame`; all others are as they were. */
  ghost predicate Filled(before: seq<seq<int>>, after: seq<seq<int>>, frames: seq<nat>, frame: seq<int>) {
    && |after| == |before|
    && forall k :: 0 <= k < |after| ==> after[k] == if k in frames then frame else before[k]
  }

  /** A worker grabs frames, writes to them and gives them back: the bitmaps are what they were, both
      counts go up alike, and no frame that was in use is written to. */
  method WorkStealingSimulation(arena: TieredArena, worker: int)
    requires arena.Valid()
    modifies arena`freeCount, arena.small`allocCount, arena.small.bitmap, arena.small.slab
    modifies arena.large`allocCount, arena.large.bitmap, arena.large.slab
    ensures arena.Valid()
    ensures var before := old(arena.Value());
            var n, m := Min(32, CountFree(before.small)), Min(16, CountFree(before.large));
            arena.Value() == before.(allocs64 := before.allocs64 + n, allocs512 := before.allocs512 + m,
                                     frees := before.frees + n + m)
    ensures LiveUntouched(old(arena.small.bitmap[..]), old(arena.small.slab[..]), arena.small.slab[..])
    ensures LiveUntouched(old(arena.large.bitmap[..]), old(arena.large.slab[..]), arena.large.slab[..])
  {
    hide Words, Free, CountFree, FirstFree, Grabbed, AfterFree, Filled, LiveUntouched, Min;
    ghost var small, large := arena.small.bitmap[..], arena.large.bitmap[..];
    ghost var slab64, slab512 := arena.small.slab[..], arena.large.slab[..];
    var frames64 := Grab(arena.small, 32, worker);
    OnlyFreeFilled(small, arena.small.bitmap[..], frames64, slab64, arena.small.slab[..],
                   seq(arena.small.frameSize, _ => worker));
    var frames512 := Grab(arena.large, 16, worker);
    OnlyFreeFilled(large, arena.large.bitmap[..], frames512, slab512, arena.large.slab[..],
                   seq(arena.large.frameSize, _ => worker));
    GiveBack64(arena, small, frames64);
    GiveBack512(arena, large, frames512);
  }

  ghost predicate LiveUntouched(bm: seq<nat>, before: seq<seq<int>>, after: seq<seq<int>>) {
    && |after| == |before|
    && forall k :: 0 <= k < |after| && !Free(bm, k) ==> after[k] == before[k]
  }

  lemma OnlyFreeFilled(bm: seq<nat>, now: seq<nat>, frames: seq<nat>,
                       before: seq<seq<int>>, after: seq<seq<int>>, frame: seq<int>)
    requires Grabbed(bm, now, frames) && Filled(before, after, frames, frame)
    ensures LiveUntouched(bm, before, after)
  {
    hide Words, Free;
  }

  method GiveBack64(arena: TieredArena, ghost before: seq<nat>, frames: seq<nat>)
    requires arena.Valid() && Grabbed(before, arena.small.bitmap[..], frames)
    modifies arena`freeCount, arena.small.bitmap
    ensures arena.Valid() && arena.small.bitmap[..] == before
    ensures arena.freeCount == old(arena.freeCount) + |frames|
  {
    hide Words, Free, Grabbed, AfterFree;
    for i := 0 to |frames|
      invariant arena.Valid()
      invariant Grabbed(before, arena.small.bitmap[..], frames[i..])
      invariant arena.freeCount == old(arena.freeCount) + i
    {
      GiveBackOne(before, arena.small.bitmap[..], frames[i..]);
      arena.Free64(frames[i]);
      assert frames[i..][1..] == frames[i + 1..];
    }
    NothingGrabbed(before, arena.small.bitmap[..]);
  }

  method GiveBack512(arena: TieredArena, ghost before: seq<nat>, frames: seq<nat>)
    requires arena.Valid() && Grabbed(before, arena.large.bitmap[..], frames)
    modifies arena`freeCount, arena.large.bitmap
    ensures arena.Valid() && arena.large.bitmap[..] == before
    ensures arena.freeCount == old(arena.freeCount) + |frames|
  {
    hide Words, Free, Grabbed, AfterFree;
    for i := 0 to |frames|
      invariant arena.Valid()
      invariant Grabbed(before, arena.large.bitmap[..], frames[i..])
      invariant arena.freeCount == old(arena.freeCount) + i
    {
      GiveBackOne(before, arena.large.bitmap[..], frames[i..]);
      arena.Free512(frames[i]);
      assert frames[i..][1..] == frames[i + 1..];
    }
    NothingGrabbed(before, arena.large.bitmap[..]);
  }
}
