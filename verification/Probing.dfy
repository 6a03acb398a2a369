/** Open addressing on a ring of slots: control bytes, probe paths, and the number of used slots.
    Shared by the hash map and the hash set of the benchmarks. */
module Probing {
  const EMPTY := -128
  const DELETED := -2

  /** The low seven bits of a hash mark the slot; the rest choose where probing starts. */
  function Tag(h: nat): (t: nat)
    ensures t < 128
  {
    h % 128
  }

  function Home(h: nat, cap: nat): (i: nat)
    requires cap > 0
    ensures i < cap
  {
    h / 128 % cap
  }

  /** The slot at probe number `p` from `home`. */
  function Slot(home: nat, p: nat, cap: nat): (i: nat)
    requires home < cap && p <= cap
    ensures i < cap
  {
    if home + p < cap then home + p else home + p - cap
  }

  /** The probe number at which slot `i` is reached from `home`. */
  function Distance(home: nat, i: nat, cap: nat): (p: nat)
    requires home < cap && i < cap
    ensures p < cap && Slot(home, p, cap) == i
    ensures forall q :: 0 <= q < cap && Slot(home, q, cap) == i ==> q == p
  {
    if home <= i then i - home else i + cap - home
  }

  lemma NextSlot(home: nat, p: nat, cap: nat)
    requires home < cap && p < cap
    ensures (Slot(home, p, cap) + 1) % cap == Slot(home, p + 1, cap)
  {
    var i := Slot(home, p, cap);
    if i + 1 == cap {
      assert (i + 1) % cap == 0;
    }
  }

  /** The slots that have ever been filled since the table was laid out: full or deleted. */
  function Used(ctrl: seq<int>): (n: nat)
    ensures n <= |ctrl|
  {
    if ctrl == [] then 0 else Used(ctrl[..|ctrl| - 1]) + if ctrl[|ctrl| - 1] == EMPTY then 0 else 1
  }

  lemma {:induction false} UsedNone(ctrl: seq<int>)
    requires forall i :: 0 <= i < |ctrl| ==> ctrl[i] == EMPTY
    ensures Used(ctrl) == 0
  {
    if ctrl != [] {
      UsedNone(ctrl[..|ctrl| - 1]);
    }
  }

  lemma {:induction false} UsedUpdate(ctrl: seq<int>, j: nat, c: int)
    requires j < |ctrl| && c != EMPTY
    ensures Used(ctrl[j := c]) == Used(ctrl) + if ctrl[j] == EMPTY then 1 else 0
  {
    var n := |ctrl| - 1;
    if j < n {
      UsedUpdate(ctrl[..n], j, c);
      assert ctrl[j := c][..n] == ctrl[..n][j := c];
    } else {
      assert ctrl[j := c][..n] == ctrl[..n];
    }
  }

  /** A table that is not all used has an empty slot. */
  lemma {:induction false} EmptySlot(ctrl: seq<int>) returns (i: nat)
    requires Used(ctrl) < |ctrl|
    ensures i < |ctrl| && ctrl[i] == EMPTY
  {
    var n := |ctrl| - 1;
    if ctrl[n] == EMPTY {
      i := n;
    } else {
      i := EmptySlot(ctrl[..n]);
    }
  }

  /** Whether slot `i` holds `key`. */
  predicate HeldAt(ctrl: seq<int>, keys: seq<int>, i: nat, key: int)
    requires |ctrl| == |keys| && i < |ctrl|
  {
    ctrl[i] >= 0 && keys[i] == key
  }

  /** `slot` tells where each stored key lies. Stored keys are marked with their tag, each full slot
      is the slot of its key, and the probe path from a key's home to its slot has no empty slot. */
  ghost predicate Table(ctrl: seq<int>, keys: seq<int>, slot: map<int, nat>, hash: int -> nat) {
    var cap := |ctrl|;
    && |keys| == cap
    && (forall k :: k in slot ==> slot[k] < cap && ctrl[slot[k]] == Tag(hash(k)) && keys[slot[k]] == k)
    && (forall i :: 0 <= i < cap && ctrl[i] >= 0 ==> keys[i] in slot && slot[keys[i]] == i)
    && (forall i :: 0 <= i < cap ==> ctrl[i] >= 0 || ctrl[i] == EMPTY || ctrl[i] == DELETED)
    && (forall k, p :: k in slot && 0 <= p < Distance(Home(hash(k), cap), slot[k], cap) ==>
          ctrl[Slot(Home(hash(k), cap), p, cap)] != EMPTY)
  }

  /** The first `p` probes for `key` have met neither the key nor an empty slot. */
  ghost predicate Probed(ctrl: seq<int>, keys: seq<int>, hash: int -> nat, key: int, p: nat) {
    && 0 < |ctrl| == |keys| && p <= |ctrl|
    && forall q :: 0 <= q < p ==>
         var i := Slot(Home(hash(key), |ctrl|), q, |ctrl|);
         ctrl[i] != EMPTY && !HeldAt(ctrl, keys, i, key)
  }

  /** An empty slot ends the search: the key is not stored. */
  lemma EmptyEnds(ctrl: seq<int>, keys: seq<int>, slot: map<int, nat>, hash: int -> nat, key: int, p: nat)
    requires Table(ctrl, keys, slot, hash) && Probed(ctrl, keys, hash, key, p)
    requires p < |ctrl| ==> ctrl[Slot(Home(hash(key), |ctrl|), p, |ctrl|)] == EMPTY
    ensures key !in slot
  {
    if key in slot {
      var home := Home(hash(key), |ctrl|);
      var d := Distance(home, slot[key], |ctrl|);
      assert HeldAt(ctrl, keys, Slot(home, d, |ctrl|), key);
    }
  }

  /** A full round of probes cannot avoid an empty slot. */
  lemma NoFullRound(ctrl: seq<int>, keys: seq<int>, hash: int -> nat, key: int)
    requires 0 < |ctrl| == |keys| && Used(ctrl) < |ctrl|
    ensures !Probed(ctrl, keys, hash, key, |ctrl|)
  {
    var i := EmptySlot(ctrl);
    var home := Home(hash(key), |ctrl|);
    assert ctrl[Slot(home, Distance(home, i, |ctrl|), |ctrl|)] == EMPTY;
  }

  /** A new key goes to a slot that is not full, before which the probe path has no empty slot. */
  lemma Place(ctrl: seq<int>, keys: seq<int>, slot: map<int, nat>, hash: int -> nat, key: int, p: nat)
    requires Table(ctrl, keys, slot, hash) && key !in slot && Probed(ctrl, keys, hash, key, p) && p < |ctrl|
    requires ctrl[Slot(Home(hash(key), |ctrl|), p, |ctrl|)] < 0
    ensures var j := Slot(Home(hash(key), |ctrl|), p, |ctrl|);
            Table(ctrl[j := Tag(hash(key))], keys[j := key], slot[key := j], hash)
  {
    var j := Slot(Home(hash(key), |ctrl|), p, |ctrl|);
    var ctrl', keys', slot' := ctrl[j := Tag(hash(key))], keys[j := key], slot[key := j];
    forall k | k in slot' && k != key
      ensures slot'[k] != j
    {
    }
    forall k, q | k in slot' && 0 <= q < Distance(Home(hash(k), |ctrl|), slot'[k], |ctrl|)
      ensures ctrl'[Slot(Home(hash(k), |ctrl|), q, |ctrl|)] != EMPTY
    {
      if k == key {
        assert q < p;
      }
    }
  }

  /** Deleting leaves a mark that keeps the probe paths of the other keys. */
  lemma Delete(ctrl: seq<int>, keys: seq<int>, slot: map<int, nat>, hash: int -> nat, key: int)
    requires Table(ctrl, keys, slot, hash) && key in slot
    ensures Table(ctrl[slot[key] := DELETED], keys, slot - {key}, hash)
  {
    var j := slot[key];
    forall k | k in slot && k != key
      ensures slot[k] != j
    {
    }
  }

  /** What a table says about one slot. */
  lemma AtSlot(ctrl: seq<int>, keys: seq<int>, slot: map<int, nat>, hash: int -> nat, i: nat)
    requires Table(ctrl, keys, slot, hash) && i < |ctrl|
    ensures |keys| == |ctrl| && forall k :: k in slot ==> slot[k] < |ctrl|
    ensures ctrl[i] >= 0 ==> keys[i] in slot && slot[keys[i]] == i && ctrl[i] == Tag(hash(keys[i]))
    ensures ctrl[i] < 0 ==> ctrl[i] == EMPTY || ctrl[i] == DELETED
    ensures forall k :: k in slot && slot[k] == i ==> ctrl[i] >= 0 && k == keys[i]
  {
    if ctrl[i] >= 0 {
      var k := keys[i];
      assert k in slot && slot[k] == i;
      assert ctrl[slot[k]] == Tag(hash(k));
    }
  }

  lemma EmptyTable(ctrl: seq<int>, keys: seq<int>, hash: int -> nat)
    requires |keys| == |ctrl| && forall i :: 0 <= i < |ctrl| ==> ctrl[i] == EMPTY
    ensures Table(ctrl, keys, map[], hash) && Used(ctrl) == 0
  {
    UsedNone(ctrl);
  }

  lemma ProbeStart(ctrl: seq<int>, keys: seq<int>, hash: int -> nat, key: int)
    requires 0 < |ctrl| == |keys|
    ensures Probed(ctrl, keys, hash, key, 0)
  {
  }

  lemma ProbeLess(ctrl: seq<int>, keys: seq<int>, hash: int -> nat, key: int, p: nat, d: nat)
    requires Probed(ctrl, keys, hash, key, p) && d <= p
    ensures Probed(ctrl, keys, hash, key, d)
  {
  }

  /** A probe that meets neither the key's tag with the key nor an empty slot goes on. */
  lemma ProbeMore(ctrl: seq<int>, keys: seq<int>, slot: map<int, nat>, hash: int -> nat, key: int, p: nat)
    requires Table(ctrl, keys, slot, hash) && Probed(ctrl, keys, hash, key, p) && p < |ctrl|
    requires var i := Slot(Home(hash(key), |ctrl|), p, |ctrl|);
             ctrl[i] != EMPTY && !(ctrl[i] == Tag(hash(key)) && keys[i] == key)
    ensures Probed(ctrl, keys, hash, key, p + 1)
  {
    AtSlot(ctrl, keys, slot, hash, Slot(Home(hash(key), |ctrl|), p, |ctrl|));
  }

  // Growth.

  const INITIAL_CAP := 8

  /** The number of slots that may be used before the map grows. */
  function Budget(cap: nat): nat {
    cap * 7 / 8
  }

  lemma BudgetOf(m: nat)
    ensures Budget(8 * m) == 7 * m
  {
    assert 8 * m * 7 == 8 * (7 * m);
  }

  lemma BudgetBounds(cap: nat)
    requires cap % 8 == 0 && cap > 0
    ensures 0 < Budget(cap) < cap
  {
    BudgetOf(cap / 8);
  }

  lemma Doubling(cap: nat, newCap: nat)
    requires cap % 8 == 0 && newCap == if cap == 0 then INITIAL_CAP else cap * 2
    ensures newCap % 8 == 0 && cap < newCap && Budget(cap) < Budget(newCap)
  {
    hide Budget;
    var m, m' := cap / 8, if cap == 0 then 1 else 2 * (cap / 8);
    BudgetOf(m);
    BudgetOf(m');
    assert cap == 8 * m && newCap == 8 * m';
  }

  ghost predicate InRange(slot: map<int, nat>, n: nat) {
    forall k :: k in slot ==> slot[k] < n
  }

  /** The finite map that a table stands for. */
  ghost function ModelOf(slot: map<int, nat>, vals: seq<int>): map<int, int>
    requires InRange(slot, |vals|)
  {
    map k | k in slot :: vals[slot[k]]
  }

  lemma ModelStore(slot: map<int, nat>, vals: seq<int>, key: int, i: nat, val: int)
    requires InRange(slot, |vals|) && i < |vals| && forall k :: k in slot && slot[k] == i ==> k == key
    ensures InRange(slot[key := i], |vals|)
    ensures ModelOf(slot[key := i], vals[i := val]) == ModelOf(slot, vals)[key := val]
  {
    var a, b := ModelOf(slot[key := i], vals[i := val]), ModelOf(slot, vals)[key := val];
    forall k | k in slot && k != key
      ensures k in a && k in b && slot[k] != i && a[k] == b[k]
    {
    }
    SameMap(a, b);
  }

  lemma SameMap(a: map<int, int>, b: map<int, int>)
    requires forall k :: k in a <==> k in b
    requires forall k :: k in a && k in b ==> a[k] == b[k]
    ensures a == b
  {
    assert forall k | k in a :: k in b && a[k] == b[k];
    assert forall k | k in b :: k in a;
  }

  /** Part way through growing: the entries of the old slots below `i` are in the new table, alone. */
  ghost predicate Moved(ctrl: seq<int>, vals: seq<int>, slot: map<int, nat>, hash: int -> nat, i: nat,
                        ctrl': seq<int>, keys': seq<int>, vals': seq<int>, slot': map<int, nat>)
    requires |vals| == |ctrl| && i <= |ctrl| && InRange(slot, |ctrl|)
  {
    && Table(ctrl', keys', slot', hash) && |vals'| == |ctrl'| && InRange(slot', |vals'|)
    && |slot'| == Used(ctrl') <= Used(ctrl[..i])
    && (forall k :: k in slot' <==> k in slot && slot[k] < i)
    && forall k :: k in slot' ==> vals'[slot'[k]] == vals[slot[k]]
  }

  /** The entry of old slot `i` joins the new table at the empty slot found by probing. */
  lemma MoveOne(ctrl: seq<int>, keys: seq<int>, vals: seq<int>, slot: map<int, nat>, hash: int -> nat, i: nat,
                ctrl': seq<int>, keys': seq<int>, vals': seq<int>, slot': map<int, nat>, p: nat)
    requires Table(ctrl, keys, slot, hash) && |vals| == |ctrl| == |keys| && i < |ctrl| && InRange(slot, |ctrl|)
    requires ctrl[i] >= 0
    requires Moved(ctrl, vals, slot, hash, i, ctrl', keys', vals', slot')
    requires Probed(ctrl', keys', hash, keys[i], p) && p < |ctrl'|
    requires ctrl'[Slot(Home(hash(keys[i]), |ctrl'|), p, |ctrl'|)] == EMPTY
    ensures var j := Slot(Home(hash(keys[i]), |ctrl'|), p, |ctrl'|);
            Moved(ctrl, vals, slot, hash, i + 1,
                  ctrl'[j := Tag(hash(keys[i]))], keys'[j := keys[i]], vals'[j := vals[i]], slot'[keys[i] := j])
  {
    hide Table, Probed;
    var j := Slot(Home(hash(keys[i]), |ctrl'|), p, |ctrl'|);
    AtSlot(ctrl, keys, slot, hash, i);
    AtSlot(ctrl', keys', slot', hash, j);
    Place(ctrl', keys', slot', hash, keys[i], p);
    UsedUpdate(ctrl', j, Tag(hash(keys[i])));
    UsedMore(ctrl, i);
  }

  lemma MovedSoFar(ctrl: seq<int>, keys: seq<int>, vals: seq<int>, slot: map<int, nat>, hash: int -> nat, i: nat,
                   ctrl': seq<int>, keys': seq<int>, vals': seq<int>, slot': map<int, nat>)
    requires Table(ctrl, keys, slot, hash) && |vals| == |ctrl| == |keys| && i < |ctrl| < |ctrl'|
             && InRange(slot, |ctrl|)
    requires ctrl[i] >= 0
    requires Moved(ctrl, vals, slot, hash, i, ctrl', keys', vals', slot')
    ensures Table(ctrl', keys', slot', hash) && keys[i] !in slot' && Used(ctrl') < |ctrl'|
  {
    hide Table;
    AtSlot(ctrl, keys, slot, hash, i);
    var k := keys[i];
    assert k in slot' <==> k in slot && slot[k] < i;
  }

  lemma UsedMore(ctrl: seq<int>, i: nat)
    requires i < |ctrl|
    ensures Used(ctrl[..i + 1]) == Used(ctrl[..i]) + if ctrl[i] == EMPTY then 0 else 1
  {
    assert ctrl[..i + 1][..i] == ctrl[..i];
  }

  /** A slot that holds no entry is passed over. */
  lemma MoveNone(ctrl: seq<int>, keys: seq<int>, vals: seq<int>, slot: map<int, nat>, hash: int -> nat, i: nat,
                 ctrl': seq<int>, keys': seq<int>, vals': seq<int>, slot': map<int, nat>)
    requires Table(ctrl, keys, slot, hash) && |vals| == |ctrl| && i < |ctrl| && InRange(slot, |ctrl|) && ctrl[i] < 0
    requires Moved(ctrl, vals, slot, hash, i, ctrl', keys', vals', slot')
    ensures Moved(ctrl, vals, slot, hash, i + 1, ctrl', keys', vals', slot')
  {
    hide Table;
    AtSlot(ctrl, keys, slot, hash, i);
    UsedMore(ctrl, i);
  }

  lemma SameSize(a: map<int, nat>, b: map<int, nat>)
    requires forall k :: k in a <==> k in b
    ensures |a| == |b| && a.Keys == b.Keys
  {
    forall k
      ensures k in a.Keys <==> k in b.Keys
    {
      assert k in a <==> k in b;
    }
    assert a.Keys == b.Keys;
  }

  /** When all slots are done, the new table stands for the same map. */
  lemma MovedAll(ctrl: seq<int>, vals: seq<int>, slot: map<int, nat>, hash: int -> nat,
                 ctrl': seq<int>, keys': seq<int>, vals': seq<int>, slot': map<int, nat>)
    requires |vals| == |ctrl| && InRange(slot, |ctrl|)
    requires Moved(ctrl, vals, slot, hash, |ctrl|, ctrl', keys', vals', slot')
    ensures Table(ctrl', keys', slot', hash) && |vals'| == |ctrl'| && InRange(slot', |vals'|)
    ensures |slot'| == |slot| && slot'.Keys == slot.Keys
    ensures ModelOf(slot', vals') == ModelOf(slot, vals) && |slot'| == Used(ctrl') <= Used(ctrl)
  {
    hide Table, Used;
    assert ctrl[..|ctrl|] == ctrl;
    SameSize(slot', slot);
    SameMap(ModelOf(slot', vals'), ModelOf(slot, vals));
  }

  lemma MovedStart(ctrl: seq<int>, vals: seq<int>, slot: map<int, nat>, hash: int -> nat,
                   ctrl': seq<int>, keys': seq<int>, vals': seq<int>)
    requires |vals| == |ctrl| && InRange(slot, |ctrl|)
    requires |ctrl'| == |keys'| == |vals'| && forall i :: 0 <= i < |ctrl'| ==> ctrl'[i] == EMPTY
    ensures Moved(ctrl, vals, slot, hash, 0, ctrl', keys', vals', map[])
  {
    EmptyTable(ctrl', keys', hash);
  }

  /** Probes for an empty slot; the keys met on the way are other keys. */
  method FirstEmpty(hash: int -> nat, key: int, ctrl: array<int>, keys: array<int>, ghost slot: map<int, nat>)
    returns (idx: nat, ghost p: nat)
    requires Table(ctrl[..], keys[..], slot, hash) && key !in slot && ctrl.Length == keys.Length
    requires Used(ctrl[..]) < ctrl.Length
    ensures Probed(ctrl[..], keys[..], hash, key, p) && p < ctrl.Length
    ensures idx == Slot(Home(hash(key), ctrl.Length), p, ctrl.Length) && ctrl[idx] == EMPTY
  {
    hide Table, Probed, Used;
    var cap := ctrl.Length;
    var h := hash(key);
    ghost var cs, ks := ctrl[..], keys[..];
    ghost var empty := EmptySlot(cs);
    ghost var last := Distance(Home(h, cap), empty, cap);
    idx, p := Home(h, cap), 0;
    ProbeStart(cs, ks, hash, key);
    while ctrl[idx] != EMPTY
      invariant 0 <= p <= last && idx == Slot(Home(h, cap), p, cap)
      invariant Probed(cs, ks, hash, key, p)
      decreases last - p
    {
      AtSlot(cs, ks, slot, hash, idx);
      ProbeMore(cs, ks, slot, hash, key, p);
      NextSlot(Home(h, cap), p, cap);
      idx := (idx + 1) % cap;
      p := p + 1;
    }
  }
}
