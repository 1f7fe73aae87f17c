/**
 * The wallet of unspent outputs (`ActiveTx` in rsc.py): a dictionary from
 * locators `(tx_id, index, key_id, value)` to the raw transaction holding the
 * output, updated in place as transactions are received and spent.
 */
module Wallet {
  import opened Wrappers
  import opened Ledger

  datatype WalletError =
    | UnknownLocator  // `del` of a locator that is not in the dictionary (KeyError)
    | UnknownKey      // a key id with no name in the key chain (KeyError, IndexError)

  /** The locators `add` creates for transaction `id`: one per output paid to a held key. */
  function OwnedLocators(id: TxId, outs: seq<OutputTx>, keys: Keychain): (r: set<Locator>)
    ensures forall l :: l in r <==>
      l.txId == id && l.index < |outs| && outs[l.index] == OutputTx(l.keyId, l.value) && l.keyId in keys
  {
    set i | 0 <= i < |outs| && outs[i].keyId in keys :: Locator(id, i, outs[i].keyId, outs[i].value)
  }

  /** The entries `add` stores for the raw transaction `raw`. */
  function OwnedEntries(id: TxId, outs: seq<OutputTx>, keys: Keychain, raw: Bytes): map<Locator, Bytes>
  {
    map l | l in OwnedLocators(id, outs, keys) :: raw
  }

  /**
   * Every selection the greedy walk may return: a prefix of the iteration
   * order and its total, such that no shorter non-empty prefix reaches the
   * target, and that either reaches it or is the whole order.
   */
  ghost predicate IsGreedySelection(order: seq<Locator>, target: int, v: int, tx: seq<Locator>)
  {
    && |tx| <= |order| && tx == order[..|tx|]
    && v == SumValues(tx)
    && (order != [] ==> tx != [])
    && (forall j :: 0 < j < |tx| ==> SumValues(order[..j]) < target)
    && (v < target ==> tx == order)
  }

  /** The value of `d[k]` for a `defaultdict(int)`. */
  function Get(b: map<Bytes, int>, k: Bytes): int
  {
    if k in b then b[k] else 0
  }

  /** The name `balances` files the output of locator `l` under, if it has one. */
  function NameOf(l: Locator, keychain: Keychain): Option<Bytes>
  {
    if l.keyId in keychain && keychain[l.keyId] != [] then Some(keychain[l.keyId][0]) else None
  }

  /** Balances per key name after visiting `locs` in order, as `balances` accumulates them. */
  function BalancesOf(locs: seq<Locator>, keychain: Keychain): Result<map<Bytes, int>, WalletError>
  {
    if locs == [] then Ok(map[])
    else
      match BalancesOf(locs[..|locs| - 1], keychain)
      case Err(e) => Err(e)
      case Ok(b) =>
        var l := locs[|locs| - 1];
        match NameOf(l, keychain)
        case None => Err(UnknownKey)
        case Some(name) => Ok(b[name := Get(b, name) + l.value])
  }

  /** Total of the values held under the locators of `locs` whose key is named `name`. */
  function SumFor(locs: seq<Locator>, name: Bytes, keychain: Keychain): int
  {
    if locs == [] then 0
    else
      var l := locs[|locs| - 1];
      SumFor(locs[..|locs| - 1], name, keychain) + (if NameOf(l, keychain) == Some(name) then l.value else 0)
  }

  /** The sum of all the values of a map. */
  ghost function Total(b: map<Bytes, int>): int
    decreases |b|
  {
    if b == map[] then 0
    else
      var k :| k in b;
      assert |b - {k}| < |b| by { assert b.Keys - {k} < b.Keys; }
      b[k] + Total(b - {k})
  }

  class ActiveTx {
    /** `self.keys`: the key chain; an output is owned when its key id is a key of it. */
    var keys: Keychain
    /** `self.Tx`: the wallet entries. */
    var entries: map<Locator, Bytes>

    /** Opens the wallet: the stored entries, or none when the file cannot be loaded. */
    constructor (keys: Keychain, stored: Option<map<Locator, Bytes>>)
      ensures this.keys == keys
      ensures entries == if stored.Some? then stored.value else map[]
    {
      this.keys := keys;
      entries := if stored.Some? then stored.value else map[];
    }

    /** Records every output of the raw transaction `raw` that is paid to a held key. */
    method Add(raw: Bytes, lib: Library)
      modifies this`entries
      ensures var ptx := lib.parseTx(raw);
        entries == old(entries) + OwnedEntries(lib.txId(ptx), ptx.outputs, keys, raw)
    {
      var ptx := lib.parseTx(raw);
      var id := lib.txId(ptx);
      var i := 0;
      while i < |ptx.outputs|
        invariant 0 <= i <= |ptx.outputs|
        invariant entries == old(entries) + OwnedEntries(id, ptx.outputs[..i], keys, raw)
      {
        var o := ptx.outputs[i];
        ghost var added := OwnedEntries(id, ptx.outputs[..i], keys, raw);
        OwnedEntriesStep(id, ptx.outputs[..i + 1], keys, raw);
        assert ptx.outputs[..i + 1][..i] == ptx.outputs[..i];
        if o.keyId in keys {
          var loc := Locator(id, i, o.keyId, o.value);
          UnionUpdate(old(entries), added, loc, raw);
          entries := entries[loc := raw];
        }
        i := i + 1;
      }
      assert ptx.outputs[..i] == ptx.outputs;
    }

    /** Deletes the entry `desc`; fails, changing nothing, when there is none. */
    method Remove(desc: Locator) returns (r: Outcome<WalletError>)
      modifies this`entries
      ensures r == (if desc in old(entries) then Pass else Fail(UnknownLocator))
      ensures entries == old(entries) - {desc}
    {
      if desc in entries {
        entries := entries - {desc};
        r := Pass;
      } else {
        r := Fail(UnknownLocator);
      }
    }

    /**
     * Balances per key name, looking names up in `keychain` (the module-level
     * `keys` of the program); `order` is the dictionary's iteration order.
     */
    method Balances(order: seq<Locator>, keychain: Keychain) returns (r: Result<map<Bytes, int>, WalletError>)
      requires IsEnumeration(order, entries.Keys)
      ensures r == BalancesOf(order, keychain)
    {
      var b: map<Bytes, int> := map[];
      var i := 0;
      while i < |order|
        invariant 0 <= i <= |order|
        invariant BalancesOf(order[..i], keychain) == Ok(b)
      {
        var l := order[i];
        assert order[..i + 1][..i] == order[..i];
        if l.keyId !in keychain || keychain[l.keyId] == [] {
          BalancesErrPersists(order, i + 1, keychain);
          return Err(UnknownKey);
        }
        var name := keychain[l.keyId][0];
        b := b[name := Get(b, name) + l.value];
        i := i + 1;
      }
      assert order[..i] == order;
      r := Ok(b);
    }

    /**
     * Walks the entries in iteration order `order`, accumulating values, and
     * stops as soon as the running sum reaches `value`.
     */
    method GetValue(value: int, order: seq<Locator>) returns (v: int, tx: seq<Locator>)
      requires IsEnumeration(order, entries.Keys)
      ensures IsGreedySelection(order, value, v, tx)
      ensures forall l :: l in tx ==> l in entries
      ensures v < value ==> forall l :: l in entries ==> l in tx
    {
      v, tx := 0, [];
      var n := 0;
      while n < |order|
        invariant 0 <= n <= |order|
        invariant tx == order[..n]
        invariant v == SumValues(tx)
        invariant forall j :: 0 < j <= n ==> SumValues(order[..j]) < value
      {
        var k := order[n];
        assert (tx + [k])[..|tx|] == tx;
        v := v + k.value;
        tx := tx + [k];
        n := n + 1;
        assert tx == order[..n];
        if v >= value {
          break;
        }
      }
      SelectionWithinWallet(order, entries.Keys, value, v, tx);
    }
  }

  /** A selection takes only wallet entries, and all of them when it falls short. */
  lemma SelectionWithinWallet(order: seq<Locator>, keys: set<Locator>, value: int, v: int, tx: seq<Locator>)
    requires IsEnumeration(order, keys) && IsGreedySelection(order, value, v, tx)
    ensures forall l :: l in tx ==> l in keys
    ensures v < value ==> forall l :: l in keys ==> l in tx
  {
    forall l | l in tx ensures l in keys {
      var j :| 0 <= j < |tx| && tx[j] == l;
      assert order[j] == l;
    }
  }

  lemma UnionUpdate<K, V>(m: map<K, V>, n: map<K, V>, k: K, v: V)
    ensures (m + n)[k := v] == m + n[k := v]
  {
  }

  /** Once a prefix of the walk fails, `balances` fails. */
  lemma {:induction false} BalancesErrPersists(locs: seq<Locator>, k: nat, keychain: Keychain)
    requires k <= |locs| && BalancesOf(locs[..k], keychain).Err?
    ensures BalancesOf(locs, keychain) == BalancesOf(locs[..k], keychain)
    decreases |locs| - k
  {
    if k < |locs| {
      assert locs[..k + 1][..k] == locs[..k];
      BalancesErrPersists(locs, k + 1, keychain);
    } else {
      assert locs[..k] == locs;
    }
  }

  /** Adding one output to the scanned prefix adds at most its own entry. */
  lemma OwnedEntriesStep(id: TxId, outs: seq<OutputTx>, keys: Keychain, raw: Bytes)
    requires outs != []
    ensures var n := |outs| - 1; var o := outs[n];
      OwnedEntries(id, outs, keys, raw) ==
        if o.keyId in keys then OwnedEntries(id, outs[..n], keys, raw)[Locator(id, n, o.keyId, o.value) := raw]
        else OwnedEntries(id, outs[..n], keys, raw)
  {
  }
}

module WalletFacts {
  import opened Wrappers
  import opened Ledger
  import opened Wallet

  /** Receiving the same raw transaction a second time changes nothing. */
  lemma AddTwiceIsAddOnce(m: map<Locator, Bytes>, id: TxId, outs: seq<OutputTx>, keys: Keychain, raw: Bytes)
    ensures var once := m + OwnedEntries(id, outs, keys, raw);
      once + OwnedEntries(id, outs, keys, raw) == once
  {
  }

  /** The first length `n' >= n` at which the prefix of `order` reaches `target`, or the whole length. */
  function FirstCover(order: seq<Locator>, target: int, n: nat): (r: nat)
    requires 1 <= n <= |order|
    ensures n <= r <= |order|
    ensures r == |order| || SumValues(order[..r]) >= target
    decreases |order| - n
  {
    if SumValues(order[..n]) >= target || n == |order| then n else FirstCover(order, target, n + 1)
  }

  /** How many entries the greedy walk takes: the shortest non-empty covering prefix, or all. */
  function CoverLength(order: seq<Locator>, target: int): (r: nat)
    ensures r <= |order|
    ensures order != [] ==> r >= 1
  {
    if order == [] then 0 else FirstCover(order, target, 1)
  }

  lemma {:induction false} FirstCoverIsSelected(order: seq<Locator>, target: int, v: int, tx: seq<Locator>, n: nat)
    requires IsGreedySelection(order, target, v, tx)
    requires 1 <= n <= |tx|
    ensures FirstCover(order, target, n) == |tx|
    decreases |tx| - n
  {
    if n < |tx| {
      FirstCoverIsSelected(order, target, v, tx, n + 1);
    } else {
      assert order[..n] == tx;
    }
  }

  /** The greedy walk takes exactly the first `CoverLength` entries of the order. */
  lemma GreedySelectionIsCover(order: seq<Locator>, target: int, v: int, tx: seq<Locator>)
    requires IsGreedySelection(order, target, v, tx)
    ensures tx == order[..CoverLength(order, target)]
    ensures v == SumValues(order[..CoverLength(order, target)])
  {
    if order != [] {
      FirstCoverIsSelected(order, target, v, tx, 1);
    }
  }

  /** The greedy walk has exactly one possible outcome for a given order and target. */
  lemma GreedySelectionUnique(order: seq<Locator>, target: int, v1: int, tx1: seq<Locator>, v2: int, tx2: seq<Locator>)
    requires IsGreedySelection(order, target, v1, tx1)
    requires IsGreedySelection(order, target, v2, tx2)
    ensures v1 == v2 && tx1 == tx2
  {
    GreedySelectionIsCover(order, target, v1, tx1);
    GreedySelectionIsCover(order, target, v2, tx2);
  }

  /** Entries worth 5, 10 and 20 walked in that order: a target of 12 takes the first two. */
  lemma SelectionExampleCovered(order: seq<Locator>, v: int, tx: seq<Locator>)
    requires |order| == 3 && order[0].value == 5 && order[1].value == 10 && order[2].value == 20
    requires IsGreedySelection(order, 12, v, tx)
    ensures v == 15 && tx == order[..2]
  {
    assert SumValues(order[..1]) == 5 by { assert order[..1][..0] == []; }
    assert SumValues(order[..2]) == 15 by { assert order[..2][..1] == order[..1]; }
    GreedySelectionIsCover(order, 12, v, tx);
  }

  /** The same entries with a target of 50: all are taken and the total, 35, falls short. */
  lemma SelectionExampleShort(order: seq<Locator>, v: int, tx: seq<Locator>)
    requires |order| == 3 && order[0].value == 5 && order[1].value == 10 && order[2].value == 20
    requires IsGreedySelection(order, 50, v, tx)
    ensures v == 35 && tx == order
  {
    assert SumValues(order[..1]) == 5 by { assert order[..1][..0] == []; }
    assert SumValues(order[..2]) == 15 by { assert order[..2][..1] == order[..1]; }
    assert SumValues(order[..3]) == 35 by { assert order[..3][..2] == order[..2]; }
    GreedySelectionIsCover(order, 50, v, tx);
    assert order[..3] == order;
  }

  /** Summing a map: one key's value plus the sum of the rest. */
  lemma {:induction false} TotalRemove(b: map<Bytes, int>, k: Bytes)
    requires k in b
    ensures Total(b) == b[k] + Total(b - {k})
    decreases |b|
  {
    var k' :| k' in b && Total(b) == b[k'] + Total(b - {k'});
    if k' != k {
      assert |b - {k'}| < |b| by { assert b.Keys - {k'} < b.Keys; }
      assert |b - {k}| < |b| by { assert b.Keys - {k} < b.Keys; }
      TotalRemove(b - {k'}, k);
      TotalRemove(b - {k}, k');
      assert b - {k'} - {k} == b - {k} - {k'};
    }
  }

  /** Setting one key of a map changes its sum by the difference. */
  lemma TotalUpdate(b: map<Bytes, int>, k: Bytes, x: int)
    ensures Total(b[k := x]) == Total(b) - Get(b, k) + x
  {
    TotalRemove(b[k := x], k);
    assert b[k := x] - {k} == b - {k};
    if k in b {
      TotalRemove(b, k);
    } else {
      assert b - {k} == b;
    }
  }

  /** `balances` succeeds exactly when every entry's key id has a name in the key chain. */
  lemma {:induction false} BalancesDefined(locs: seq<Locator>, keychain: Keychain)
    ensures BalancesOf(locs, keychain).Ok? <==> forall i :: 0 <= i < |locs| ==> NameOf(locs[i], keychain).Some?
  {
    if locs != [] {
      var p := locs[..|locs| - 1];
      BalancesDefined(p, keychain);
      assert forall i :: 0 <= i < |p| ==> p[i] == locs[i];
    }
  }

  /** The balances add up to the total value of the wallet. */
  lemma {:induction false} BalancesTotal(locs: seq<Locator>, keychain: Keychain)
    requires BalancesOf(locs, keychain).Ok?
    ensures Total(BalancesOf(locs, keychain).value) == SumValues(locs)
  {
    if locs != [] {
      var p := locs[..|locs| - 1];
      BalancesTotal(p, keychain);
      var b := BalancesOf(p, keychain).value;
      var l := locs[|locs| - 1];
      var name := NameOf(l, keychain).value;
      TotalUpdate(b, name, Get(b, name) + l.value);
    }
  }

  /**
   * Each name's balance is the sum of the values held under keys of that
   * name, and a name appears exactly when some entry is held under it.
   */
  lemma {:induction false} BalancesPerName(locs: seq<Locator>, keychain: Keychain, name: Bytes)
    requires BalancesOf(locs, keychain).Ok?
    ensures Get(BalancesOf(locs, keychain).value, name) == SumFor(locs, name, keychain)
    ensures name in BalancesOf(locs, keychain).value <==>
      exists i :: 0 <= i < |locs| && NameOf(locs[i], keychain) == Some(name)
  {
    if locs != [] {
      var p := locs[..|locs| - 1];
      BalancesPerName(p, keychain, name);
      assert forall i :: 0 <= i < |p| ==> p[i] == locs[i];
      if NameOf(locs[|locs| - 1], keychain) == Some(name) {
        assert NameOf(locs[|locs| - 1], keychain) == Some(name);
      }
    }
  }
}
