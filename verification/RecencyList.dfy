/** The bounded recency-ordered list that an LRU cache stands for: most recently used first. */
module RecencyList {
  import opened Wrappers

  datatype Entry = Entry(key: int, val: int)

  ghost predicate DistinctKeys(l: seq<Entry>) {
    forall i, j :: 0 <= i < j < |l| ==> l[i].key != l[j].key
  }

  /** The place of a key in the list, or the list's length. */
  function Find(l: seq<Entry>, key: int): (i: nat)
    ensures i <= |l| && (i < |l| ==> l[i].key == key) && forall j :: 0 <= j < i ==> l[j].key != key
  {
    if l == [] || l[0].key == key then 0
    else
      var i := Find(l[1..], key);
      assert forall j :: 0 < j <= i ==> j == |l| || l[j] == l[1..][j - 1];
      i + 1
  }

  function Listed(l: seq<Entry>, key: int): bool {
    Find(l, key) < |l|
  }

  function Without(l: seq<Entry>, i: nat): (r: seq<Entry>)
    requires i < |l|
    ensures |r| == |l| - 1
  {
    l[..i] + l[i + 1..]
  }

  /** A lookup answers the value, or -1, and makes the key the most recent. */
  function Get(l: seq<Entry>, key: int): (int, seq<Entry>) {
    var i := Find(l, key);
    if i < |l| then (l[i].val, [l[i]] + Without(l, i)) else (-1, l)
  }

  /** A store makes the key the most recent; a new key beyond the capacity costs the last entry. */
  function Put(l: seq<Entry>, key: int, val: int, capacity: int): (r: seq<Entry>)
    ensures r == [] || r[0] == Entry(key, val)
  {
    var i := Find(l, key);
    if i < |l| then [Entry(key, val)] + Without(l, i)
    else if |l| + 1 > capacity then ([Entry(key, val)] + l)[..|l|]
    else [Entry(key, val)] + l
  }

  /** What the list keeps: keys occur once, and the capacity is respected. */
  ghost predicate Good(l: seq<Entry>, capacity: int) {
    DistinctKeys(l) && |l| <= if capacity < 0 then 0 else capacity
  }

  datatype Op = Lookup(key: int) | Store(key: int, val: int)

  function Apply(l: seq<Entry>, op: Op, capacity: int): seq<Entry> {
    match op
    case Lookup(k) => Get(l, k).1
    case Store(k, v) => Put(l, k, v, capacity)
  }

  lemma ApplyGood(l: seq<Entry>, op: Op, capacity: int)
    requires Good(l, capacity)
    ensures Good(Apply(l, op, capacity), capacity)
  {
    hide Find;
    var i := Find(l, op.key);
    if i < |l| {
      WithoutIsDistinct(l, i);
      FrontIsDistinct(l[i], Without(l, i));
      if op.Store? {
        FrontIsDistinct(Entry(op.key, op.val), Without(l, i));
      }
    } else if op.Store? {
      FrontIsDistinct(Entry(op.key, op.val), l);
      PrefixIsDistinct([Entry(op.key, op.val)] + l, |l|);
    }
  }

  lemma WithoutIsDistinct(l: seq<Entry>, i: nat)
    requires DistinctKeys(l) && i < |l|
    ensures DistinctKeys(Without(l, i)) && forall j :: 0 <= j < |l| - 1 ==> Without(l, i)[j].key != l[i].key
  {
    var rest := Without(l, i);
    assert forall j :: 0 <= j < |rest| ==> rest[j] == l[if j < i then j else j + 1];
  }

  lemma FrontIsDistinct(e: Entry, l: seq<Entry>)
    requires DistinctKeys(l) && forall j :: 0 <= j < |l| ==> l[j].key != e.key
    ensures DistinctKeys([e] + l)
  {
  }

  lemma PrefixIsDistinct(l: seq<Entry>, n: nat)
    requires DistinctKeys(l) && n <= |l|
    ensures DistinctKeys(l[..n])
  {
  }

  function Answers(l: seq<Entry>, ops: seq<Op>, capacity: int): seq<int>
    decreases |ops|
  {
    if ops == [] then []
    else
      (if ops[0].Lookup? then [Get(l, ops[0].key).0] else [])
      + Answers(Apply(l, ops[0], capacity), ops[1..], capacity)
  }

  // The order of the list is the order of last use.

  /** When each key was last used: stored, or found by a lookup. */
  function Used(l: seq<Entry>, used: map<int, nat>, op: Op, now: nat): map<int, nat> {
    if op.Store? || Listed(l, op.key) then used[op.key := now] else used
  }

  /** Every listed key was used before `now`, and earlier entries more recently than later ones. */
  ghost predicate ByLastUse(l: seq<Entry>, used: map<int, nat>, now: nat) {
    && (forall i :: 0 <= i < |l| ==> l[i].key in used && used[l[i].key] < now)
    && forall i, j :: 0 <= i < j < |l| ==> used[l[i].key] > used[l[j].key]
  }

  /** A used key is off the list only when the list is full of keys used later. */
  ghost predicate KeepsLatest(l: seq<Entry>, used: map<int, nat>, now: nat, capacity: int) {
    && (forall k :: k in used ==> used[k] < now)
    && forall k :: k in used && !Listed(l, k) ==> |l| >= capacity && Later(l, used, used[k])
  }

  ghost predicate Later(l: seq<Entry>, used: map<int, nat>, time: nat) {
    forall i :: 0 <= i < |l| ==> l[i].key in used && used[l[i].key] > time
  }

  lemma Front(rest: seq<Entry>, used: map<int, nat>, e: Entry, now: nat)
    requires ByLastUse(rest, used, now) && forall j :: 0 <= j < |rest| ==> rest[j].key != e.key
    ensures ByLastUse([e] + rest, used[e.key := now], now + 1)
  {
  }

  lemma Rest(l: seq<Entry>, used: map<int, nat>, now: nat, i: nat)
    requires DistinctKeys(l) && ByLastUse(l, used, now) && i < |l|
    ensures ByLastUse(Without(l, i), used, now)
    ensures forall j :: 0 <= j < |l| - 1 ==> Without(l, i)[j].key != l[i].key
  {
    var rest := Without(l, i);
    assert forall j :: 0 <= j < |rest| ==> rest[j] == l[if j < i then j else j + 1];
  }

  lemma ApplyByLastUse(l: seq<Entry>, used: map<int, nat>, op: Op, now: nat, capacity: int)
    requires DistinctKeys(l) && ByLastUse(l, used, now)
    ensures ByLastUse(Apply(l, op, capacity), Used(l, used, op, now), now + 1)
  {
    hide ByLastUse, Without, DistinctKeys;
    var i := Find(l, op.key);
    if i < |l| {
      Rest(l, used, now, i);
      Front(Without(l, i), used, Apply(l, op, capacity)[0], now);
    } else if op.Lookup? {
      StillByLastUse(l, used, now);
    } else {
      var e := Entry(op.key, op.val);
      Front(l, used, e, now);
      Shorter([e] + l, used[op.key := now], now + 1, |l|);
    }
  }

  lemma StillByLastUse(l: seq<Entry>, used: map<int, nat>, now: nat)
    requires ByLastUse(l, used, now)
    ensures ByLastUse(l, used, now + 1)
  {
  }

  lemma Shorter(l: seq<Entry>, used: map<int, nat>, now: nat, n: nat)
    requires ByLastUse(l, used, now) && n <= |l|
    ensures ByLastUse(l[..n], used, now)
  {
  }

  /** A key that an operation drops from the list was used longer ago than every key that stays. */
  lemma EvictsLeastRecentlyUsed(l: seq<Entry>, used: map<int, nat>, op: Op, now: nat, capacity: int, gone: nat,
                                kept: nat)
    requires DistinctKeys(l) && ByLastUse(l, used, now) && gone < |l|
    requires !Listed(Apply(l, op, capacity), l[gone].key)
    requires kept < |l| && kept != gone
    ensures op.Store? && !Listed(l, op.key) && |l| + 1 > capacity && gone == |l| - 1
    ensures Listed(Apply(l, op, capacity), l[kept].key) && used[l[gone].key] < used[l[kept].key]
  {
    var l' := Apply(l, op, capacity);
    var i := Find(l, op.key);
    if i < |l| {
      assert l' == [l'[0]] + Without(l, i);
      StillThere(l, i, gone, l');
    } else if op.Store? {
      Shifted(l, l');
    }
  }

  lemma Shifted(l: seq<Entry>, l': seq<Entry>)
    requires |l| <= |l'| && |l'| <= |l| + 1 && forall j :: 0 <= j < |l'| - 1 ==> l'[j + 1] == l[j]
    ensures forall j :: 0 <= j < |l'| - 1 ==> Listed(l', l[j].key)
  {
    forall j | 0 <= j < |l'| - 1
      ensures Listed(l', l[j].key)
    {
      assert l'[j + 1] == l[j];
    }
  }

  lemma StillThere(l: seq<Entry>, i: nat, j: nat, l': seq<Entry>)
    requires i < |l| && j < |l| && |l'| == |l| && l'[0].key == l[i].key && l'[1..] == Without(l, i)
    ensures Listed(l', l[j].key)
  {
    if j < i {
      assert l'[j + 1] == l'[1..][j];
    } else if j > i {
      assert l'[j] == l'[1..][j - 1];
    }
  }

  // What a lookup answers.

  /** The value of the last store of a key among the operations. */
  function LastStored(ops: seq<Op>, key: int): Option<int> {
    if ops == [] then None
    else
      var last := ops[|ops| - 1];
      if last.Store? && last.key == key then Some(last.val) else LastStored(ops[..|ops| - 1], key)
  }

  /** The listed values are those stored last. */
  ghost predicate HoldsLast(l: seq<Entry>, ops: seq<Op>) {
    forall i :: 0 <= i < |l| ==> LastStored(ops, l[i].key) == Some(l[i].val)
  }

  predicate HasKey(l: seq<Entry>, key: int) {
    exists i :: 0 <= i < |l| && l[i].key == key
  }

  /** What a lookup has to answer behind the operations `before`. */
  function Expected(before: seq<Op>, key: int, capacity: int): int {
    match LastStored(before, key)
    case Some(v) => if HasKey(Final(before, capacity), key) then v else -1
    case None => -1
  }

  function Lookups(ops: seq<Op>): nat {
    if ops == [] then 0 else Lookups(ops[..|ops| - 1]) + if ops[|ops| - 1].Lookup? then 1 else 0
  }

  /** Every lookup of the run is answered by the last store of its key before it, if the key is still listed,
      and by -1 otherwise. */
  ghost predicate AnsweredByStores(ops: seq<Op>, answers: seq<int>, capacity: int) {
    && |answers| == Lookups(ops)
    && forall i :: 0 <= i < |ops| && ops[i].Lookup? ==>
         Lookups(ops[..i]) < |answers| && answers[Lookups(ops[..i])] == Expected(ops[..i], ops[i].key, capacity)
  }

  lemma LastStoredOfMore(ops: seq<Op>, op: Op, key: int)
    ensures LastStored(ops + [op], key)
            == if op.Store? && op.key == key then Some(op.val) else LastStored(ops, key)
  {
    assert (ops + [op])[..|ops|] == ops;
  }

  lemma LookupsOfMore(ops: seq<Op>, op: Op)
    ensures Lookups(ops + [op]) == Lookups(ops) + if op.Lookup? then 1 else 0
  {
    assert (ops + [op])[..|ops|] == ops;
  }

  lemma FinalOfNone(capacity: int)
    ensures Final([], capacity) == []
  {
  }

  lemma FinalOfMore(ops: seq<Op>, op: Op, capacity: int)
    ensures Final(ops + [op], capacity) == Apply(Final(ops, capacity), op, capacity)
  {
    assert (ops + [op])[..|ops|] == ops;
  }

  lemma ApplyHoldsLast(l: seq<Entry>, ops: seq<Op>, op: Op, capacity: int)
    requires DistinctKeys(l) && HoldsLast(l, ops)
    ensures HoldsLast(Apply(l, op, capacity), ops + [op])
  {
    hide LastStored, DistinctKeys;
    var l' := Apply(l, op, capacity);
    var i := Find(l, op.key);
    if i < |l| {
      WithoutIsDistinct(l, i);
    }
    forall j | 0 <= j < |l'|
      ensures LastStored(ops + [op], l'[j].key) == Some(l'[j].val)
    {
      LastStoredOfMore(ops, op, l'[j].key);
      if i < |l| && j > 0 {
        assert l'[j] == Without(l, i)[j - 1] == l[if j - 1 < i then j - 1 else j];
      } else if i == |l| && op.Store? && j > 0 {
        assert l'[j] == l[j - 1];
      }
    }
  }

  lemma {:induction false} RunHoldsLast(ops: seq<Op>, capacity: int)
    ensures HoldsLast(Final(ops, capacity), ops) && DistinctKeys(Final(ops, capacity))
    decreases |ops|
  {
    hide Find;
    if ops != [] {
      var front, last := ops[..|ops| - 1], ops[|ops| - 1];
      assert front + [last] == ops;
      RunHoldsLast(front, capacity);
      ApplyHoldsLast(Final(front, capacity), front, last, capacity);
      var l, used := RunIsReachable(ops, capacity);
    }
  }

  /** After any run a lookup answers as expected. */
  lemma GetIsExpected(ops: seq<Op>, key: int, capacity: int)
    ensures Get(Final(ops, capacity), key).0 == Expected(ops, key, capacity)
  {
    hide LastStored, Final, Apply;
    RunHoldsLast(ops, capacity);
    var l := Final(ops, capacity);
    var i := Find(l, key);
    assert i < |l| ==> LastStored(ops, l[i].key) == Some(l[i].val);
  }

  lemma MoreAnswers(ops: seq<Op>, op: Op, answers: seq<int>, answer: seq<int>, capacity: int)
    requires AnsweredByStores(ops, answers, capacity)
    requires answer == if op.Lookup? then [Expected(ops, op.key, capacity)] else []
    ensures AnsweredByStores(ops + [op], answers + answer, capacity)
  {
    hide Expected, Lookups;
    LookupsOfMore(ops, op);
    var more := ops + [op];
    assert more[..|ops|] == ops;
    forall i | 0 <= i < |more| && more[i].Lookup?
      ensures Lookups(more[..i]) < |answers + answer|
      ensures (answers + answer)[Lookups(more[..i])] == Expected(more[..i], more[i].key, capacity)
    {
      if i < |ops| {
        assert more[..i] == ops[..i] && more[i] == ops[i];
      }
    }
  }

  lemma NoAnswers(capacity: int)
    ensures AnsweredByStores([], [], capacity)
  {
  }

  // Runs.

  /** Over any run from the empty list: keys distinct, capacity respected, order of last use, and the list
      holds the keys used latest. */
  ghost predicate Reachable(l: seq<Entry>, used: map<int, nat>, now: nat, capacity: int) {
    Good(l, capacity) && ByLastUse(l, used, now) && KeepsLatest(l, used, now, capacity)
  }

  lemma ApplyKeepsLatest(l: seq<Entry>, used: map<int, nat>, op: Op, now: nat, capacity: int)
    requires DistinctKeys(l) && ByLastUse(l, used, now) && KeepsLatest(l, used, now, capacity)
    ensures KeepsLatest(Apply(l, op, capacity), Used(l, used, op, now), now + 1, capacity)
  {
    var l', used' := Apply(l, op, capacity), Used(l, used, op, now);
    hide DistinctKeys, Apply, Later;
    forall k | k in used' && !Listed(l', k)
      ensures |l'| >= capacity && Later(l', used', used'[k])
    {
      if op.Lookup? && !Listed(l, op.key) {
        assert l' == l by {
          MissKeeps(l, op, capacity);
        }
      } else {
        GoneWasOldest(l, used, op, now, capacity, k);
      }
    }
  }

  lemma MissKeeps(l: seq<Entry>, op: Op, capacity: int)
    requires op.Lookup? && !Listed(l, op.key)
    ensures Apply(l, op, capacity) == l
  {
  }

  /** Entries that were there, behind one used now, were used later than any time that was later before. */
  lemma LaterBehind(l: seq<Entry>, l': seq<Entry>, used: map<int, nat>, key: int, time: nat, now: nat)
    requires Later(l, used, time) && time < now && (l' != [] ==> l'[0].key == key)
    requires forall j :: 0 < j < |l'| ==> l'[j] in l
    ensures Later(l', used[key := now], time)
  {
  }

  lemma GoneWasOldest(l: seq<Entry>, used: map<int, nat>, op: Op, now: nat, capacity: int, k: int)
    requires DistinctKeys(l) && ByLastUse(l, used, now) && KeepsLatest(l, used, now, capacity)
    requires op.Store? || Listed(l, op.key)
    requires k in used[op.key := now] && !Listed(Apply(l, op, capacity), k)
    ensures |Apply(l, op, capacity)| >= capacity
    ensures Later(Apply(l, op, capacity), used[op.key := now], used[op.key := now][k])
  {
    var l' := Apply(l, op, capacity);
    if l' == [] {
    } else {
      assert l'[0].key == op.key;
      ListedFirst(l');
      if Find(l, op.key) < |l| {
        FoundMoves(l, op, capacity);
        hide Apply, Find, DistinctKeys, ByLastUse, Later;
        StillListed(l, l', k);
        LaterBehind(l, l', used, op.key, used[k], now);
      } else {
        NewAtFront(l, op, capacity);
        hide Apply, Find, DistinctKeys, Later;
        if Listed(l, k) {
          LastGone(l, l', used, now, k);
        } else {
          LaterBehind(l, l', used, op.key, used[k], now);
        }
      }
    }
  }

  lemma FoundMoves(l: seq<Entry>, op: Op, capacity: int)
    requires Find(l, op.key) < |l|
    ensures var l' := Apply(l, op, capacity);
            && |l'| == |l| && (forall j :: 0 < j < |l'| ==> l'[j] in l)
            && forall j :: 0 <= j < |l| ==> Listed(l', l[j].key)
  {
    var l', i := Apply(l, op, capacity), Find(l, op.key);
    FoundFirst(l, op, capacity);
    hide Apply, Find;
    forall j | 0 <= j < |l|
      ensures Listed(l', l[j].key)
    {
      StillThere(l, i, j, l');
    }
    MovedAreIn(l, i, l');
  }

  lemma FoundFirst(l: seq<Entry>, op: Op, capacity: int)
    requires Find(l, op.key) < |l|
    ensures var (l', i) := (Apply(l, op, capacity), Find(l, op.key));
            |l'| == |l| && l'[0].key == l[i].key && l'[1..] == Without(l, i)
  {
    hide Find;
  }

  lemma MovedAreIn(l: seq<Entry>, i: nat, l': seq<Entry>)
    requires i < |l| == |l'| && l'[1..] == Without(l, i)
    ensures forall j :: 0 < j < |l'| ==> l'[j] in l
  {
    forall j | 0 < j < |l'|
      ensures l'[j] in l
    {
      assert l'[j] == l'[1..][j - 1] == l[if j - 1 < i then j - 1 else j];
    }
  }

  lemma StillListed(l: seq<Entry>, l': seq<Entry>, k: int)
    requires forall j :: 0 <= j < |l| ==> Listed(l', l[j].key)
    ensures Listed(l, k) ==> Listed(l', k)
  {
    var i := Find(l, k);
    assert i < |l| ==> Listed(l', l[i].key);
  }

  lemma NewAtFront(l: seq<Entry>, op: Op, capacity: int)
    requires Find(l, op.key) == |l| && op.Store? && Apply(l, op, capacity) != []
    ensures var l' := Apply(l, op, capacity);
            && |l| <= |l'| <= |l| + 1 && (|l'| == |l| ==> |l| >= capacity)
            && (forall j :: 0 < j < |l'| ==> l'[j] in l && l'[j] == l[j - 1])
            && l'[0].key == op.key
            && forall j :: 0 <= j < |l'| - 1 ==> Listed(l', l[j].key)
  {
    var l' := Apply(l, op, capacity);
    assert forall j :: 0 < j < |l'| ==> l'[j] == l[j - 1];
    Shifted(l, l');
  }

  /** The entry that is dropped was used before all that stay. */
  lemma LastGone(l: seq<Entry>, l': seq<Entry>, used: map<int, nat>, now: nat, k: int)
    requires ByLastUse(l, used, now) && l' != [] && |l| <= |l'| <= |l| + 1
    requires (forall j :: 0 < j < |l'| ==> l'[j] == l[j - 1])
             && (forall j :: 0 <= j < |l'| - 1 ==> Listed(l', l[j].key))
    requires Listed(l, k) && !Listed(l', k)
    ensures |l'| == |l| && k in used && used[k] < now && Later(l', used[l'[0].key := now], used[k])
  {
    var j := Find(l, k);
    assert l[j].key == k;
    assert j == |l'| - 1 == |l| - 1;
    hide Find;
  }

  lemma ListedFirst(l: seq<Entry>)
    requires l != []
    ensures Listed(l, l[0].key)
  {
  }

  lemma NothingReachable(capacity: int)
    ensures Reachable([], map[], 0, capacity)
  {
  }

  lemma {:induction false} RunIsReachable(ops: seq<Op>, capacity: int) returns (l: seq<Entry>, used: map<int, nat>)
    ensures l == Final(ops, capacity) && Reachable(l, used, |ops|, capacity)
    decreases |ops|
  {
    hide Apply, Used, DistinctKeys, ByLastUse, KeepsLatest;
    if ops == [] {
      l, used := [], map[];
      NothingReachable(capacity);
    } else {
      var last := ops[|ops| - 1];
      var l0, used0 := RunIsReachable(ops[..|ops| - 1], capacity);
      ApplyGood(l0, last, capacity);
      ApplyByLastUse(l0, used0, last, |ops| - 1, capacity);
      ApplyKeepsLatest(l0, used0, last, |ops| - 1, capacity);
      l, used := Apply(l0, last, capacity), Used(l0, used0, last, |ops| - 1);
    }
  }

  function Final(ops: seq<Op>, capacity: int): seq<Entry>
    decreases |ops|
  {
    if ops == [] then [] else Apply(Final(ops[..|ops| - 1], capacity), ops[|ops| - 1], capacity)
  }
}
