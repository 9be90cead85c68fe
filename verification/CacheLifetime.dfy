/**
 * What the compiler's cache answers, over any history of lookups, stores, invalidations and
 * clears: the value last stored under the key, for its lifetime and for its hash.
 */
module CacheLifetime {
  import opened Wrappers
  import opened SourceCache

  datatype Op<V> =
    | Looks(key: string, hash: string, at: int)
    | Stores(key: string, hash: string, value: V, at: int)
    | Drops(key: string)
    | Wipes

  datatype Deposit<V> = Deposit(hash: string, value: V, at: int)

  function Do<V>(c: Cache<V>, op: Op<V>): Cache<V> {
    match op
    case Looks(key, hash, at) => Get(c, key, hash, at).1
    case Stores(key, hash, value, at) => Set(c, key, hash, value, at)
    case Drops(key) => Invalidate(c, key)
    case Wipes => Cleared(c)
  }

  /** The cache after a history, the latest operation last. */
  function After<V>(ops: seq<Op<V>>): Cache<V> {
    if ops == [] then Cache([], map[], 0, 0) else Do(After(ops[..|ops| - 1]), ops[|ops| - 1])
  }

  /** What was last stored under the key and not taken back since; lookups do not matter. */
  function Latest<V>(ops: seq<Op<V>>, key: string): Option<Deposit<V>> {
    if ops == [] then None
    else
      var op, before := ops[|ops| - 1], Latest(ops[..|ops| - 1], key);
      match op
      case Looks(_, _, _) => before
      case Stores(k, hash, value, at) => if k == key then Some(Deposit(hash, value, at)) else before
      case Drops(k) => if k == key then None else before
      case Wipes => None
  }

  function KeysStored<V>(ops: seq<Op<V>>): set<string> {
    set i | 0 <= i < |ops| && ops[i].Stores? :: ops[i].key
  }

  /** An entry is what was last stored under its key. */
  ghost predicate Holds<V(!new)>(c: Cache<V>, ops: seq<Op<V>>) {
    && Valid(c)
    && forall k :: k in c.entries ==>
         k in KeysStored(ops) &&
         Latest(ops, k) == Some(Deposit(c.entries[k].hash, c.entries[k].value, c.entries[k].timestamp))
  }

  /** A lookup leaves every entry as old as it was. */
  lemma {:induction false} LookingKeeps<V(!new)>(c: Cache<V>, key: string, hash: string, at: int)
    requires Valid(c)
    ensures var c' := Get(c, key, hash, at).1;
            && Valid(c') && c'.entries.Keys == c.entries.Keys
            && forall k :: k in c.entries ==>
                 && c'.entries[k].hash == c.entries[k].hash && c'.entries[k].value == c.entries[k].value
                 && c'.entries[k].timestamp == c.entries[k].timestamp
  {
    WithoutKeepsOrder(c.order, key);
  }

  lemma {:induction false} OneMore<V(!new)>(ops: seq<Op<V>>, op: Op<V>, k: string)
    ensures var before := Latest(ops, k);
            Latest(ops + [op], k) ==
            match op
            case Looks(_, _, _) => before
            case Stores(key, hash, value, at) => if key == k then Some(Deposit(hash, value, at)) else before
            case Drops(key) => if key == k then None else before
            case Wipes => None
    ensures k in KeysStored(ops) || (op.Stores? && op.key == k) ==> k in KeysStored(ops + [op])
  {
    var longer := ops + [op];
    assert longer[..|longer| - 1] == ops && longer[|longer| - 1] == op;
    if i :| 0 <= i < |ops| && ops[i].Stores? && ops[i].key == k {
      assert longer[i].Stores? && longer[i].key == k;
    }
    assert longer[|ops|] == op;
  }

  lemma {:induction false} StepHolds<V(!new)>(c: Cache<V>, ops: seq<Op<V>>, op: Op<V>)
    requires Holds(c, ops)
    ensures Holds(Do(c, op), ops + [op])
  {
    hide Latest, KeysStored, Evict, Get;
    forall k
      ensures var before := Latest(ops, k);
              Latest(ops + [op], k) ==
              match op
              case Looks(_, _, _) => before
              case Stores(key, hash, value, at) => if key == k then Some(Deposit(hash, value, at)) else before
              case Drops(key) => if key == k then None else before
              case Wipes => None
      ensures k in KeysStored(ops) || (op.Stores? && op.key == k) ==> k in KeysStored(ops + [op])
    {
      OneMore(ops, op, k);
    }
    match op
    case Looks(key, hash, at) => LookingKeeps(c, key, hash, at);
    case Stores(key, hash, value, at) =>
      OperationsKeepValid(c, key, hash, value, at);
      EvictKeepsValid(Stored(c, key, hash, value, at));
    case Drops(key) => WithoutKeepsOrder(c.order, key);
    case Wipes =>
  }

  lemma {:induction false} HistoryHolds<V(!new)>(ops: seq<Op<V>>)
    ensures Holds(After(ops), ops)
  {
    if ops != [] {
      var before := ops[..|ops| - 1];
      HistoryHolds(before);
      assert before + [ops[|ops| - 1]] == ops;
      hide Do, Holds;
      StepHolds(After(before), before, ops[|ops| - 1]);
    }
  }

  /**
   * After any history a lookup gives a value exactly when that value was the last one stored
   * under the key and not taken back, with that hash and no longer ago than the lifetime,
   * however often it was read since, and the key has not been evicted.
   */
  lemma {:induction false} LookupExactly<V(!new)>(ops: seq<Op<V>>, key: string, hash: string, value: V, now: int)
    ensures var c := After(ops);
            Get(c, key, hash, now).0 == Some(value) <==>
              && key in c.entries && Latest(ops, key).Some?
              && Latest(ops, key).value.value == value && Latest(ops, key).value.hash == hash
              && now - Latest(ops, key).value.at <= CACHE_TTL_MS
  {
    HistoryHolds(ops);
    hide After, Latest;
  }

  // ---------------------------------------------------------------------------------------
  // Without eviction

  lemma {:induction false} OrderFits(order: seq<string>, keys: set<string>)
    requires forall i, j :: 0 <= i < j < |order| ==> order[i] != order[j]
    requires forall k :: k in order ==> k in keys
    ensures |order| <= |keys|
  {
    if order != [] {
      OrderFits(order[1..], keys - {order[0]});
    }
  }

  lemma {:induction false} KeysOfPrefix<V>(ops: seq<Op<V>>)
    requires ops != []
    ensures KeysStored(ops[..|ops| - 1]) <= KeysStored(ops)
    ensures |KeysStored(ops[..|ops| - 1])| <= |KeysStored(ops)|
  {
    var before := ops[..|ops| - 1];
    forall k | k in KeysStored(before) ensures k in KeysStored(ops) {
      var i :| 0 <= i < |before| && before[i].Stores? && before[i].key == k;
      assert ops[i].Stores? && ops[i].key == k;
    }
    Subset(KeysStored(before), KeysStored(ops));
  }

  lemma {:induction false} Subset<T>(a: set<T>, b: set<T>)
    requires a <= b
    ensures |a| <= |b|
  {
    assert b == a + (b - a);
  }

  /** As long as no more keys were stored than the cache holds, everything not taken back is there. */
  lemma {:induction false} NothingEvicted<V(!new)>(ops: seq<Op<V>>, key: string)
    requires |KeysStored(ops)| <= MAX_CACHE_ENTRIES
    ensures key in After(ops).entries <==> Latest(ops, key).Some?
  {
    if ops != [] {
      var before, op := ops[..|ops| - 1], ops[|ops| - 1];
      KeysOfPrefix(ops);
      NothingEvicted(before, key);
      HistoryHolds(before);
      var c := After(before);
      if op.Stores? {
        StoreFits(c, before, op, ops);
      }
      hide Holds;
    }
  }

  lemma {:induction false} StoreFits<V(!new)>(c: Cache<V>, before: seq<Op<V>>, op: Op<V>, ops: seq<Op<V>>)
    requires Holds(c, before) && op.Stores? && ops == before + [op] && |KeysStored(ops)| <= MAX_CACHE_ENTRIES
    ensures Set(c, op.key, op.hash, op.value, op.at) == Stored(c, op.key, op.hash, op.value, op.at)
  {
    var stored := Stored(c, op.key, op.hash, op.value, op.at);
    OperationsKeepValid(c, op.key, op.hash, op.value, op.at);
    assert ops[..|ops| - 1] == before;
    KeysOfPrefix(ops);
    forall k | k in stored.order ensures k in KeysStored(ops) {
      if k == op.key {
        assert ops[|before|].Stores? && ops[|before|].key == k;
      } else {
        assert k in c.entries;
      }
    }
    OrderFits(stored.order, KeysStored(ops));
  }
}
