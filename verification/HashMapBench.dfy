/** benchmarks/hashmap_bench.c: an open-addressing hash map with tombstones and growth. */
module HashMapBench {
  import opened Probing
  import opened Wrappers

  class HashMap {
    const hash: int -> nat
    var ctrl: array<int>
    var keys: array<int>
    var vals: array<int>
    var len: nat
    var cap: nat
    var growthLeft: int
    ghost var slot: map<int, nat>

    /** The entries' keys and values are kept in two arrays. `slot` locates each stored key; the
        growth budget counts the used slots, so that an empty one always remains. */
    ghost predicate Valid()
      reads this, ctrl, keys, vals
    {
      && ctrl.Length == keys.Length == vals.Length == cap && cap % 8 == 0
      && ctrl != keys && ctrl != vals && keys != vals
      && Table(ctrl[..], keys[..], slot, hash)
      && InRange(slot, cap) && len == |slot|
      && growthLeft == Budget(cap) - Used(ctrl[..]) >= 0
    }

    ghost function Model(): map<int, int>
      reads this, ctrl, keys, vals
      requires Valid()
    {
      ModelOf(slot, vals[..])
    }

    constructor (hash: int -> nat, minCap: int)
      ensures Valid() && Model() == map[] && this.hash == hash
      ensures fresh(ctrl) && fresh(keys) && fresh(vals)
      ensures minCap <= 0 ==> cap == 0
      ensures minCap > 0 ==> minCap <= cap && INITIAL_CAP <= cap
    {
      this.hash := hash;
      var c := 0;
      if minCap > 0 {
        c := INITIAL_CAP;
        while c < minCap
          invariant c % 8 == 0 && c >= INITIAL_CAP
          decreases minCap - c
        {
          c := c * 2;
        }
      }
      cap, len, growthLeft := c, 0, Budget(c);
      ctrl := new int[c](_ => EMPTY);
      keys := new int[c](_ => 0);
      vals := new int[c](_ => 0);
      slot := map[];
      new;
      EmptyTable(ctrl[..], keys[..], hash);
    }

    method Get(key: int) returns (val: int)
      requires Valid()
      ensures val == if key in Model() then Model()[key] else 0
    {
      if cap == 0 {
        return 0;
      }
      var h := hash(key);
      var tag, idx := Tag(h), Home(h, cap);
      var probes := 0;
      while probes < cap
        invariant 0 <= probes <= cap && idx == Slot(Home(h, cap), probes, cap)
        invariant Probed(ctrl[..], keys[..], hash, key, probes)
      {
        var c := ctrl[idx];
        if c == tag {
          if keys[idx] == key {
            return vals[idx];
          }
        }
        if c == EMPTY {
          EmptyEnds(ctrl[..], keys[..], slot, hash, key, probes);
          return 0;
        }
        NextSlot(Home(h, cap), probes, cap);
        idx := (idx + 1) % cap;
        probes := probes + 1;
      }
      EmptyEnds(ctrl[..], keys[..], slot, hash, key, probes);
      return 0;
    }

    method Remove(key: int) returns (removed: bool)
      requires Valid()
      modifies this, ctrl
      ensures Valid() && ctrl == old(ctrl) && keys == old(keys) && vals == old(vals) && cap == old(cap)
      ensures removed <==> key in old(Model())
      ensures Model() == old(Model()) - {key}
    {
      hide Table, Probed;
      if cap == 0 {
        return false;
      }
      var h := hash(key);
      var tag, idx := Tag(h), Home(h, cap);
      var probes := 0;
      ghost var cs, ks := ctrl[..], keys[..];
      ProbeStart(cs, ks, hash, key);
      while probes < cap
        invariant unchanged(this)
        invariant unchanged(ctrl)
        invariant 0 <= probes <= cap && idx == Slot(Home(h, cap), probes, cap)
        invariant Probed(cs, ks, hash, key, probes)
      {
        var c := ctrl[idx];
        assert c == cs[idx] && keys[idx] == ks[idx];
        if c == tag {
          if keys[idx] == key {
            Bury(key, idx);
            return true;
          }
        }
        if c == EMPTY {
          EmptyEnds(cs, ks, slot, hash, key, probes);
          return false;
        }
        ProbeMore(cs, ks, slot, hash, key, probes);
        NextSlot(Home(h, cap), probes, cap);
        idx := (idx + 1) % cap;
        probes := probes + 1;
      }
      EmptyEnds(cs, ks, slot, hash, key, probes);
      return false;
    }

    method Bury(key: int, idx: nat)
      requires Valid() && idx < cap && ctrl[idx] >= 0 && keys[idx] == key
      modifies this, ctrl
      ensures Valid() && ctrl == old(ctrl) && keys == old(keys) && vals == old(vals) && cap == old(cap)
      ensures key in old(Model()) && Model() == old(Model()) - {key}
    {
      hide Table;
      AtSlot(ctrl[..], keys[..], slot, hash, idx);
      Delete(ctrl[..], keys[..], slot, hash, key);
      UsedUpdate(ctrl[..], idx, DELETED);
      ctrl[idx] := DELETED;
      len := len - 1;
      slot := slot - {key};
      assert ctrl[..] == old(ctrl[..])[idx := DELETED];
    }

    method Insert(key: int, val: int)
      requires Valid()
      modifies this, ctrl, keys, vals
      ensures Valid() && Model() == old(Model())[key := val]
      ensures (ctrl == old(ctrl) && keys == old(keys) && vals == old(vals))
              || (fresh(ctrl) && fresh(keys) && fresh(vals))
    {
      if growthLeft == 0 {
        Grow();
      }
      InsertWithRoom(key, val);
    }

    /** Probing stops at the key or at an empty slot; a new key takes the first deleted slot met. */
    method InsertWithRoom(key: int, val: int)
      requires Valid() && growthLeft > 0
      modifies this, ctrl, keys, vals
      ensures Valid() && Model() == old(Model())[key := val]
      ensures ctrl == old(ctrl) && keys == old(keys) && vals == old(vals)
    {
      hide Table, Probed, ModelOf;
      assert cap > 0;
      BudgetBounds(cap);
      var h := hash(key);
      var tag, idx := Tag(h), Home(h, cap);
      var firstDeleted := -1;
      ghost var d := 0;
      var probes := 0;
      ghost var cs, ks := ctrl[..], keys[..];
      ProbeStart(cs, ks, hash, key);
      while probes < cap
        invariant unchanged(this)
        invariant unchanged(ctrl, keys, vals)
        invariant 0 <= probes <= cap && idx == Slot(Home(h, cap), probes, cap)
        invariant Probed(cs, ks, hash, key, probes)
        invariant firstDeleted == -1
                  || (0 <= d < probes && firstDeleted == Slot(Home(h, cap), d, cap) && cs[firstDeleted] == DELETED)
      {
        var c := ctrl[idx];
        assert c == cs[idx] && keys[idx] == ks[idx];
        if c == tag {
          if keys[idx] == key {
            Overwrite(key, idx, val);
            return;
          }
        }
        if c == DELETED && firstDeleted == -1 {
          firstDeleted, d := idx, probes;
        }
        if c == EMPTY {
          EmptyEnds(cs, ks, slot, hash, key, probes);
          ghost var at := if firstDeleted >= 0 then d else probes;
          ProbeLess(cs, ks, hash, key, probes, at);
          assert ctrl[..] == cs && keys[..] == ks;
          Fill(key, val, tag, if firstDeleted >= 0 then firstDeleted else idx, at);
          return;
        }
        ProbeMore(cs, ks, slot, hash, key, probes);
        NextSlot(Home(h, cap), probes, cap);
        idx := (idx + 1) % cap;
        probes := probes + 1;
      }
      // The code after the loop, which would fill a deleted slot, is never reached.
      NoFullRound(cs, ks, hash, key);
      assert false;
    }

    method Overwrite(key: int, idx: nat, val: int)
      requires Valid() && idx < cap && ctrl[idx] >= 0 && keys[idx] == key
      modifies vals
      ensures Valid() && Model() == old(Model())[key := val]
    {
      hide Table;
      AtSlot(ctrl[..], keys[..], slot, hash, idx);
      ModelStore(slot, vals[..], key, idx, val);
      vals[idx] := val;
      assert vals[..] == old(vals[..])[idx := val] && slot == slot[key := idx];
    }

    /** A new key enters the slot found at probe `p`; using an empty slot costs one unit of growth. */
    method Fill(key: int, val: int, tag: nat, idx: nat, ghost p: nat)
      requires Valid() && key !in slot && growthLeft > 0 && p < cap && tag == Tag(hash(key))
      requires idx == Slot(Home(hash(key), cap), p, cap) && ctrl[idx] < 0
      requires Probed(ctrl[..], keys[..], hash, key, p)
      modifies this, ctrl, keys, vals
      ensures Valid() && Model() == old(Model())[key := val]
      ensures ctrl == old(ctrl) && keys == old(keys) && vals == old(vals)
    {
      hide Table, Probed, ModelOf;
      AtSlot(ctrl[..], keys[..], slot, hash, idx);
      ModelStore(slot, vals[..], key, idx, val);
      Place(ctrl[..], keys[..], slot, hash, key, p);
      UsedUpdate(ctrl[..], idx, tag);
      if ctrl[idx] == EMPTY {
        growthLeft := growthLeft - 1;
      }
      ctrl[idx] := tag;
      keys[idx] := key;
      vals[idx] := val;
      len := len + 1;
      slot := slot[key := idx];
      assert ctrl[..] == old(ctrl[..])[idx := tag] && keys[..] == old(keys[..])[idx := key];
      assert vals[..] == old(vals[..])[idx := val];
    }

    /** Puts the entry of old slot `i` into the first empty slot of the new table. */
    method Rehash(i: nat, newCtrl: array<int>, newKeys: array<int>, newVals: array<int>, ghost newSlot: map<int, nat>)
      returns (ghost newSlot': map<int, nat>)
      requires Valid() && i < cap && ctrl[i] >= 0 && cap < newCtrl.Length == newKeys.Length == newVals.Length
      requires newCtrl != ctrl && newCtrl != keys && newCtrl != vals
      requires newKeys != ctrl && newKeys != keys && newKeys != vals
      requires newVals != ctrl && newVals != keys && newVals != vals
      requires newCtrl != newKeys && newCtrl != newVals && newKeys != newVals
      requires Moved(ctrl[..], vals[..], slot, hash, i, newCtrl[..], newKeys[..], newVals[..], newSlot)
      modifies newCtrl, newKeys, newVals
      ensures Moved(ctrl[..], vals[..], slot, hash, i + 1, newCtrl[..], newKeys[..], newVals[..], newSlot')
    {
      hide Table, Probed, Used, Moved;
      ghost var cs, ks, vs, cs', ks', vs' := ctrl[..], keys[..], vals[..], newCtrl[..], newKeys[..], newVals[..];
      var key, val := keys[i], vals[i];
      MovedSoFar(cs, ks, vs, slot, hash, i, cs', ks', vs', newSlot);
      var idx, p := FirstEmpty(hash, key, newCtrl, newKeys, newSlot);
      MoveOne(cs, ks, vs, slot, hash, i, cs', ks', vs', newSlot, p);
      newSlot' := newSlot[key := idx];
      newCtrl[idx] := Tag(hash(key));
      newKeys[idx] := key;
      newVals[idx] := val;
      assert newCtrl[..] == cs'[idx := Tag(hash(key))] && newKeys[..] == ks'[idx := key]
             && newVals[..] == vs'[idx := val];
    }

    method MoveEntries(newCtrl: array<int>, newKeys: array<int>, newVals: array<int>)
      returns (ghost newSlot: map<int, nat>)
      requires Valid() && cap < newCtrl.Length == newKeys.Length == newVals.Length
      requires newCtrl != ctrl && newCtrl != keys && newCtrl != vals
      requires newKeys != ctrl && newKeys != keys && newKeys != vals
      requires newVals != ctrl && newVals != keys && newVals != vals
      requires newCtrl != newKeys && newCtrl != newVals && newKeys != newVals
      requires forall i :: 0 <= i < newCtrl.Length ==> newCtrl[i] == EMPTY
      modifies newCtrl, newKeys, newVals
      ensures Table(newCtrl[..], newKeys[..], newSlot, hash) && InRange(newSlot, newCtrl.Length)
      ensures |newSlot| == Used(newCtrl[..]) == len <= Used(ctrl[..])
      ensures ModelOf(newSlot, newVals[..]) == Model()
    {
      hide Table, ModelOf, Moved, Used;
      newSlot := map[];
      ghost var cs, ks, vs := ctrl[..], keys[..], vals[..];
      MovedStart(cs, vs, slot, hash, newCtrl[..], newKeys[..], newVals[..]);
      var i := 0;
      while i < cap
        invariant 0 <= i <= cap
        invariant ctrl[..] == cs && keys[..] == ks && vals[..] == vs
        invariant Moved(cs, vs, slot, hash, i, newCtrl[..], newKeys[..], newVals[..], newSlot)
      {
        if ctrl[i] >= 0 {
          newSlot := Rehash(i, newCtrl, newKeys, newVals, newSlot);
        } else {
          MoveNone(cs, ks, vs, slot, hash, i, newCtrl[..], newKeys[..], newVals[..], newSlot);
        }
        i := i + 1;
      }
      MovedAll(cs, vs, slot, hash, newCtrl[..], newKeys[..], newVals[..], newSlot);
    }

    /** Doubles the capacity and rehashes every stored entry; deleted slots are not carried over. */
    method Grow()
      requires Valid()
      modifies this
      ensures Valid() && Model() == old(Model()) && growthLeft > 0
      ensures fresh(ctrl) && fresh(keys) && fresh(vals)
      ensures cap == if old(cap) == 0 then INITIAL_CAP else 2 * old(cap)
    {
      hide Table, ModelOf, Used, Budget;
      var oldCap := cap;
      var newCap := if oldCap == 0 then INITIAL_CAP else oldCap * 2;
      Doubling(oldCap, newCap);
      var newCtrl := new int[newCap](_ => EMPTY);
      var newKeys := new int[newCap](_ => 0);
      var newVals := new int[newCap](_ => 0);
      ghost var newSlot := MoveEntries(newCtrl, newKeys, newVals);
      Adopt(newCap, newCtrl, newKeys, newVals, newSlot);
    }

    method Adopt(newCap: nat, newCtrl: array<int>, newKeys: array<int>, newVals: array<int>,
                 ghost newSlot: map<int, nat>)
      requires newCtrl.Length == newKeys.Length == newVals.Length == newCap && newCap % 8 == 0
      requires newCtrl != newKeys && newCtrl != newVals && newKeys != newVals
      requires Table(newCtrl[..], newKeys[..], newSlot, hash) && InRange(newSlot, newCap)
      requires |newSlot| == Used(newCtrl[..]) == len < Budget(newCap)
      modifies this
      ensures Valid() && ctrl == newCtrl && keys == newKeys && vals == newVals && cap == newCap
      ensures Model() == ModelOf(newSlot, newVals[..]) && growthLeft > 0
    {
      hide Table, ModelOf, Used, Budget;
      ctrl, keys, vals, cap, slot := newCtrl, newKeys, newVals, newCap, newSlot;
      growthLeft := Budget(newCap) - len;
    }
  }

  datatype Op = Get(key: int) | Insert(key: int, val: int) | Remove(key: int)

  /** What one call answers on a finite map: a lookup the value or 0, a removal 1 or 0. */
  function Answer(m: map<int, int>, op: Op): seq<int> {
    match op
    case Get(k) => [if k in m then m[k] else 0]
    case Insert(_, _) => []
    case Remove(k) => [if k in m then 1 else 0]
  }

  function Effect(m: map<int, int>, op: Op): map<int, int> {
    match op
    case Get(_) => m
    case Insert(k, v) => m[k := v]
    case Remove(k) => m - {k}
  }

  function Answers(m: map<int, int>, ops: seq<Op>): seq<int>
    decreases |ops|
  {
    if ops == [] then [] else Answer(m, ops[0]) + Answers(Effect(m, ops[0]), ops[1..])
  }

  /** The value of the last insertion of a key, if no removal of it follows. */
  function LastInserted(ops: seq<Op>, key: int): Option<int> {
    if ops == [] then None
    else
      var last := ops[|ops| - 1];
      if last.key != key || last.Get? then LastInserted(ops[..|ops| - 1], key)
      else if last.Insert? then Some(last.val)
      else None
  }

  /** What a run leaves behind. */
  function EffectAll(ops: seq<Op>): map<int, int> {
    if ops == [] then map[] else Effect(EffectAll(ops[..|ops| - 1]), ops[|ops| - 1])
  }

  lemma {:induction false} EffectIsLast(ops: seq<Op>, key: int)
    ensures key in EffectAll(ops) <==> LastInserted(ops, key).Some?
    ensures key in EffectAll(ops) ==> EffectAll(ops)[key] == LastInserted(ops, key).value
  {
    if ops != [] {
      EffectIsLast(ops[..|ops| - 1], key);
    }
  }

  lemma {:induction false} AnswersOfMore(m: map<int, int>, ops: seq<Op>, done: seq<Op>, op: Op)
    requires m == EffectAll(done)
    ensures Answers(m, ops + [op]) == Answers(m, ops) + Answer(EffectAll(done + ops), op)
    decreases |ops|
  {
    hide Answer, Effect;
    if ops == [] {
      assert [op][1..] == [] && [] + [op] == [op] && done + [] == done;
      assert Answers(m, [op]) == Answer(m, op) + Answers(Effect(m, op), []);
    } else {
      var next := done + [ops[0]];
      assert next[..|done|] == done;
      assert (ops + [op])[1..] == ops[1..] + [op] && next + ops[1..] == done + ops;
      AnswersOfMore(Effect(m, ops[0]), ops[1..], next, op);
    }
  }

  /** After any run a lookup answers the value inserted last, and a removal that there was one; 0 stands for
      a key that was never inserted, or removed since. */
  lemma AnsweredByInsertions(ops: seq<Op>, key: int)
    ensures var answers := Answers(map[], ops + [Get(key)]);
            answers == Answers(map[], ops) + [match LastInserted(ops, key) case Some(v) => v case None => 0]
    ensures var answers := Answers(map[], ops + [Remove(key)]);
            answers == Answers(map[], ops) + [if LastInserted(ops, key).Some? then 1 else 0]
  {
    assert [] + ops == ops;
    AnswersOfMore(map[], ops, [], Get(key));
    AnswersOfMore(map[], ops, [], Remove(key));
    EffectIsLast(ops, key);
  }

  method Call(table: HashMap, op: Op) returns (answer: seq<int>)
    requires table.Valid()
    modifies table, table.ctrl, table.keys, table.vals
    ensures table.Valid() && table.Model() == Effect(old(table.Model()), op)
    ensures answer == Answer(old(table.Model()), op)
    ensures (table.ctrl == old(table.ctrl) && table.keys == old(table.keys) && table.vals == old(table.vals))
            || (fresh(table.ctrl) && fresh(table.keys) && fresh(table.vals))
  {
    hide Table, ModelOf;
    match op {
      case Get(k) =>
        var v := table.Get(k);
        answer := [v];
      case Insert(k, v) =>
        table.Insert(k, v);
        answer := [];
      case Remove(k) =>
        var removed := table.Remove(k);
        answer := [if removed then 1 else 0];
    }
  }

  /** Any run of the table from `new`, whatever the hash function, answers as the finite map does. */
  method Session(hash: int -> nat, minCap: int, ops: seq<Op>) returns (answers: seq<int>)
    ensures answers == Answers(map[], ops)
  {
    hide HashMap.Valid, HashMap.Model, Answer, Effect;
    var table := new HashMap(hash, minCap);
    answers := [];
    var i := 0;
    while i < |ops|
      invariant 0 <= i <= |ops| && table.Valid()
      invariant fresh(table) && fresh(table.ctrl) && fresh(table.keys) && fresh(table.vals)
      invariant Answers(map[], ops) == answers + Answers(table.Model(), ops[i..])
    {
      assert ops[i..][0] == ops[i] && ops[i..][1..] == ops[i + 1..];
      var answer := Call(table, ops[i]);
      answers := answers + answer;
      i := i + 1;
    }
  }
}
