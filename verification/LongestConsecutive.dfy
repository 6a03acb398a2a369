/** benchmarks/longest_consecutive.c: the longest run of consecutive integers, by a hash set. */
module LongestConsecutive {
  import opened Probing

  class HashSet {
    const hash: int -> nat
    var ctrl: array<int>
    var keys: array<int>
    var len: nat
    var cap: nat
    var growthLeft: int
    ghost var slot: map<int, nat>

    ghost predicate Valid()
      reads this, ctrl, keys
    {
      && ctrl.Length == keys.Length == cap && cap % 8 == 0 && cap > 0 && ctrl != keys
      && Table(ctrl[..], keys[..], slot, hash)
      && InRange(slot, cap) && len == |slot|
      && growthLeft == Budget(cap) - Used(ctrl[..]) >= 0
    }

    ghost function Elements(): set<int>
      reads this
    {
      slot.Keys
    }

    constructor (hash: int -> nat, minCap: nat)
      ensures Valid() && Elements() == {} && fresh(ctrl) && fresh(keys)
    {
      this.hash := hash;
      var c := INITIAL_CAP;
      while c < minCap
        invariant c % 8 == 0 && c >= INITIAL_CAP
        decreases minCap - c
      {
        c := c * 2;
      }
      cap, len, growthLeft := c, 0, Budget(c);
      ctrl := new int[c](_ => EMPTY);
      keys := new int[c](_ => 0);
      slot := map[];
      new;
      EmptyTable(ctrl[..], keys[..], hash);
    }

    /** Doubles the capacity: fresh slots first, then every key is put into an empty one. */
    method Grow()
      requires Valid()
      modifies this
      ensures Valid() && Elements() == old(Elements()) && growthLeft > 0
      ensures fresh(ctrl) && fresh(keys)
    {
      hide Table, Used, Moved, Budget, Probed, ModelOf;
      var oldCap, oldCtrl, oldKeys := cap, ctrl, keys;
      ghost var cs, ks, oldSlot := ctrl[..], keys[..], slot;
      var newCap := oldCap * 2;
      Doubling(oldCap, newCap);
      ctrl := new int[newCap](_ => EMPTY);
      keys := new int[newCap](_ => 0);
      len, cap, growthLeft, slot := 0, newCap, Budget(newCap), map[];
      MovedStart(cs, ks, oldSlot, hash, ctrl[..], keys[..], keys[..]);
      ReinsertAll(oldCtrl, oldKeys, oldSlot);
      MovedAll(cs, ks, oldSlot, hash, ctrl[..], keys[..], keys[..], slot);
    }

    /** The loop of growing: every key of the old slots goes into the new ones. */
    method ReinsertAll(oldCtrl: array<int>, oldKeys: array<int>, ghost oldSlot: map<int, nat>)
      requires Table(oldCtrl[..], oldKeys[..], oldSlot, hash) && InRange(oldSlot, oldCtrl.Length)
      requires oldCtrl.Length == oldKeys.Length < ctrl.Length == keys.Length == cap && ctrl != keys
      requires oldCtrl != ctrl && oldCtrl != keys && oldKeys != ctrl && oldKeys != keys
      requires Moved(oldCtrl[..], oldKeys[..], oldSlot, hash, 0, ctrl[..], keys[..], keys[..], slot) && len == |slot|
      modifies this, ctrl, keys
      ensures ctrl == old(ctrl) && keys == old(keys) && cap == old(cap)
      ensures Moved(oldCtrl[..], oldKeys[..], oldSlot, hash, oldCtrl.Length, ctrl[..], keys[..], keys[..], slot)
      ensures len == |slot| && growthLeft + len == old(growthLeft + len)
    {
      hide Table, Used, Moved, Probed;
      ghost var cs, ks := oldCtrl[..], oldKeys[..];
      for i := 0 to oldCtrl.Length
        invariant ctrl == old(ctrl) && keys == old(keys) && cap == old(cap)
        invariant oldCtrl[..] == cs && oldKeys[..] == ks
        invariant Moved(cs, ks, oldSlot, hash, i, ctrl[..], keys[..], keys[..], slot)
        invariant len == |slot| && growthLeft + len == old(growthLeft + len)
      {
        if oldCtrl[i] >= 0 {
          Reinsert(cs, ks, oldSlot, i, oldKeys[i]);
        } else {
          MoveNone(cs, ks, ks, oldSlot, hash, i, ctrl[..], keys[..], keys[..], slot);
        }
      }
    }

    method Reinsert(ghost cs: seq<int>, ghost ks: seq<int>, ghost oldSlot: map<int, nat>, ghost i: nat, key: int)
      requires Table(cs, ks, oldSlot, hash) && |ks| == |cs| && i < |cs| && InRange(oldSlot, |cs|)
      requires cs[i] >= 0 && ks[i] == key && |cs| < ctrl.Length == keys.Length == cap && ctrl != keys
      requires Moved(cs, ks, oldSlot, hash, i, ctrl[..], keys[..], keys[..], slot) && len == |slot|
      modifies this, ctrl, keys
      ensures ctrl == old(ctrl) && keys == old(keys) && cap == old(cap)
      ensures Moved(cs, ks, oldSlot, hash, i + 1, ctrl[..], keys[..], keys[..], slot) && len == |slot|
      ensures growthLeft + len == old(growthLeft + len)
    {
      hide Table, Used, Moved, Probed;
      ghost var cs', ks' := ctrl[..], keys[..];
      MovedSoFar(cs, ks, ks, oldSlot, hash, i, cs', ks', ks', slot);
      var idx, p := FirstEmpty(hash, key, ctrl, keys, slot);
      MoveOne(cs, ks, ks, oldSlot, hash, i, cs', ks', ks', slot, p);
      ctrl[idx] := Tag(hash(key));
      keys[idx] := key;
      len := len + 1;
      growthLeft := growthLeft - 1;
      slot := slot[key := idx];
      assert ctrl[..] == cs'[idx := Tag(hash(key))] && keys[..] == ks'[idx := key];
    }

    method Insert(key: int)
      requires Valid()
      modifies this, ctrl, keys
      ensures Valid() && Elements() == old(Elements()) + {key}
      ensures (ctrl == old(ctrl) && keys == old(keys)) || (fresh(ctrl) && fresh(keys))
    {
      if growthLeft == 0 {
        Grow();
      }
      InsertWithRoom(key);
    }

    /** The probing loop has no bound of its own: it ends because an empty slot is left. */
    method InsertWithRoom(key: int)
      requires Valid() && growthLeft > 0
      modifies this, ctrl, keys
      ensures Valid() && Elements() == old(Elements()) + {key}
      ensures ctrl == old(ctrl) && keys == old(keys)
    {
      hide Table, Used, Probed, Budget;
      var h := hash(key);
      var tag, idx := Tag(h), Home(h, cap);
      BudgetBounds(cap);
      ghost var cs, ks := ctrl[..], keys[..];
      ghost var empty := EmptySlot(cs);
      ghost var last := Distance(Home(h, cap), empty, cap);
      ghost var p := 0;
      ProbeStart(cs, ks, hash, key);
      while ctrl[idx] != EMPTY
        invariant unchanged(this)
        invariant unchanged(ctrl, keys)
        invariant 0 <= p <= last && idx == Slot(Home(h, cap), p, cap)
        invariant Probed(cs, ks, hash, key, p)
        decreases last - p
      {
        assert ctrl[idx] == cs[idx] && keys[idx] == ks[idx];
        if ctrl[idx] == tag && keys[idx] == key {
          AtSlot(cs, ks, slot, hash, idx);
          assert key in slot.Keys;
          return;
        }
        ProbeMore(cs, ks, slot, hash, key, p);
        NextSlot(Home(h, cap), p, cap);
        idx := (idx + 1) % cap;
        p := p + 1;
      }
      EmptyEnds(cs, ks, slot, hash, key, p);
      Place(cs, ks, slot, hash, key, p);
      UsedUpdate(cs, idx, tag);
      ctrl[idx] := tag;
      keys[idx] := key;
      len := len + 1;
      growthLeft := growthLeft - 1;
      slot := slot[key := idx];
      assert ctrl[..] == cs[idx := tag] && keys[..] == ks[idx := key];
    }

    method Contains(key: int) returns (found: bool)
      requires Valid()
      ensures found <==> key in Elements()
    {
      hide Probed;
      if cap == 0 {
        return false;
      }
      var h := hash(key);
      var tag, idx := Tag(h), Home(h, cap);
      var probes := 0;
      ProbeStart(ctrl[..], keys[..], hash, key);
      while probes < cap
        invariant 0 <= probes <= cap && idx == Slot(Home(h, cap), probes, cap)
        invariant Probed(ctrl[..], keys[..], hash, key, probes)
      {
        if ctrl[idx] == EMPTY {
          EmptyEnds(ctrl[..], keys[..], slot, hash, key, probes);
          return false;
        }
        if ctrl[idx] == tag && keys[idx] == key {
          return true;
        }
        ProbeMore(ctrl[..], keys[..], slot, hash, key, probes);
        NextSlot(Home(h, cap), probes, cap);
        idx := (idx + 1) % cap;
        probes := probes + 1;
      }
      EmptyEnds(ctrl[..], keys[..], slot, hash, key, probes);
      return false;
    }
  }

  /** The integers from `start` on, `len` of them, are all in the set. */
  ghost predicate RunIn(s: set<int>, start: int, len: nat) {
    forall k :: start <= k < start + len ==> k in s
  }

  ghost predicate LongestRun(s: set<int>, best: nat) {
    && (exists start :: RunIn(s, start, best))
    && forall start, len: nat :: RunIn(s, start, len) ==> len <= best
  }

  /** A run is no longer than the set is large. */
  lemma {:induction false} RunFits(s: set<int>, start: int, len: nat)
    requires RunIn(s, start, len)
    ensures len <= |s|
  {
    if len > 0 {
      var last := start + len - 1;
      RunFits(s - {last}, start, len - 1);
    }
  }

  /** Every element lies on a run whose first element has no predecessor in the set. */
  lemma {:induction false} RunStart(s: set<int>, k: int) returns (first: int)
    requires k in s
    ensures first <= k && first - 1 !in s && RunIn(s, first, k - first + 1)
    decreases |set x | x in s && x < k|
  {
    first := k;
    if k - 1 in s {
      var below, lower := set x | x in s && x < k, set x | x in s && x < k - 1;
      assert below == lower + {k - 1};
      first := RunStart(s, k - 1);
    }
  }

  /** The runs from the first `i` numbers that have no predecessor are no longer than `best`. */
  ghost predicate BestOf(nums: seq<int>, i: nat, s: set<int>, best: nat)
    requires i <= |nums|
  {
    && (exists start :: RunIn(s, start, best))
    && forall j, len: nat :: 0 <= j < i && nums[j] - 1 !in s && RunIn(s, nums[j], len) ==> len <= best
  }

  lemma BestIsLongest(nums: seq<int>, s: set<int>, best: nat)
    requires BestOf(nums, |nums|, s, best) && s == set x | x in nums
    ensures LongestRun(s, best)
  {
    forall start, len: nat | RunIn(s, start, len)
      ensures len <= best
    {
      if len > 0 {
        var first := RunStart(s, start);
        assert RunIn(s, first, start - first + len);
        assert first in s;
        var j :| 0 <= j < |nums| && nums[j] == first;
      }
    }
  }

  lemma NoRuns(s: set<int>)
    requires s == {}
    ensures LongestRun(s, 0)
  {
    assert RunIn(s, 0, 0);
    forall start, len: nat | RunIn(s, start, len)
      ensures len <= 0
    {
      RunFits(s, start, len);
    }
  }

  method RunFrom(elements: HashSet, num: int) returns (len: nat)
    requires elements.Valid() && num in elements.Elements()
    ensures RunIn(elements.Elements(), num, len)
    ensures forall l: nat :: RunIn(elements.Elements(), num, l) ==> l <= len
  {
    len := 1;
    var more := elements.Contains(num + len);
    while more
      invariant RunIn(elements.Elements(), num, len) && (more <==> num + len in elements.Elements())
      decreases |elements.Elements()| - len
    {
      RunFits(elements.Elements(), num, len + 1);
      len := len + 1;
      more := elements.Contains(num + len);
    }
  }

  method CollectAll(hash: int -> nat, nums: array<int>) returns (elements: HashSet)
    ensures elements.Valid() && fresh(elements) && elements.Elements() == set x | x in nums[..]
  {
    hide HashSet.Valid, HashSet.Elements;
    elements := new HashSet(hash, nums.Length);
    var i := 0;
    while i < nums.Length
      invariant 0 <= i <= nums.Length && elements.Valid()
      invariant fresh(elements) && fresh(elements.ctrl) && fresh(elements.keys)
      invariant elements.Elements() == set x | x in nums[..i]
    {
      elements.Insert(nums[i]);
      assert nums[..i + 1] == nums[..i] + [nums[i]];
      i := i + 1;
    }
    assert nums[..nums.Length] == nums[..];
  }

  lemma BestAdds(nums: seq<int>, i: nat, s: set<int>, best: nat, len: nat)
    requires i < |nums| && BestOf(nums, i, s, best) && RunIn(s, nums[i], len)
    requires forall l: nat :: RunIn(s, nums[i], l) ==> l <= len
    ensures BestOf(nums, i + 1, s, if len > best then len else best)
  {
  }

  lemma BestKeeps(nums: seq<int>, i: nat, s: set<int>, best: nat)
    requires i < |nums| && BestOf(nums, i, s, best) && nums[i] - 1 in s
    ensures BestOf(nums, i + 1, s, best)
  {
  }

  /** The program's search: the length of the longest run of consecutive integers among the numbers. */
  method Longest(hash: int -> nat, nums: array<int>) returns (best: nat)
    ensures LongestRun((set x | x in nums[..]), best)
  {
    hide HashSet.Valid, HashSet.Elements, BestOf, LongestRun;
    if nums.Length == 0 {
      NoRuns((set x | x in nums[..]));
      return 0;
    }
    var elements := CollectAll(hash, nums);
    ghost var s := set x | x in nums[..];
    best := 0;
    BestStart(nums[..], s);
    var i := 0;
    while i < nums.Length
      invariant 0 <= i <= nums.Length && elements.Valid() && elements.Elements() == s
      invariant BestOf(nums[..], i, s, best)
    {
      var num := nums[i];
      assert num in nums[..];
      var before := elements.Contains(num - 1);
      if !before {
        var len := RunFrom(elements, num);
        BestAdds(nums[..], i, s, best, len);
        if len > best {
          best := len;
        }
      } else {
        BestKeeps(nums[..], i, s, best);
      }
      i := i + 1;
    }
    BestIsLongest(nums[..], s, best);
  }

  lemma BestStart(nums: seq<int>, s: set<int>)
    ensures BestOf(nums, 0, s, 0)
  {
    assert RunIn(s, 0, 0);
  }
}
