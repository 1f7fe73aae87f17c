/**
 * The `--pay` path from the wallet selection to the optimistic wallet update:
 * select entries covering the amount, build a transaction paying `val` to the
 * destination and any leftover back to the change address, then record the
 * new transaction's owned outputs and remove the spent entries, all before
 * the network has confirmed anything.
 */
module Payment {
  import opened Wrappers
  import opened Ledger
  import opened Wallet
  import opened WalletFacts

  datatype PayError =
    | NonPositiveAmount               // the amount is not positive (AssertionError)
    | AmountTooLarge                  // the amount parses as a `long`, not an `int` (AssertionError)
    | NothingSelected                 // nothing selected because the wallet is empty (AssertionError)
    | InsufficientBalance(total: int) // "Insufficient balance": the whole wallet holds `total`
    | MissingSecret                   // a spent entry's key has no secret in the key chain (KeyError, IndexError)

  /**
   * `sys.maxint` of a 64-bit Python 2: `int(val)` of a larger amount yields a
   * `long`, which the amount check refuses.
   */
  const MaxInt := 0x7FFF_FFFF_FFFF_FFFF

  /** An amount the amount check accepts: a positive machine `int`. */
  predicate AcceptedAmount(val: int)
  {
    0 < val <= MaxInt
  }

  /** A built payment: the entries it spends, their total, and the new transaction. */
  datatype Transfer = Transfer(selected: seq<Locator>, selectedValue: int, tx: Tx)

  /** The key chain holds the secret (fourth token) of the key that owns `l`. */
  predicate HasSecret(l: Locator, keys: Keychain)
  {
    l.keyId in keys && |keys[l.keyId]| >= 4
  }

  /**
   * The outputs of a payment of `val` out of a selection worth `xval`:
   * `val` to the destination, then the leftover, if any, to the change key.
   */
  function PaymentOutputs(val: int, xval: int, dest: KeyId, change: KeyId): (outs: seq<OutputTx>)
    requires val <= xval
    ensures 1 <= |outs| <= 2 && outs[0] == OutputTx(dest, val)
    ensures |outs| == 2 <==> xval - val > 0
    ensures |outs| == 2 ==> outs[1] == OutputTx(change, xval - val)
    ensures SumOutputs(outs) == xval
    ensures val > 0 ==> forall o :: o in outs ==> o.value > 0
  {
    if xval - val > 0 then
      var outs := [OutputTx(dest, val), OutputTx(change, xval - val)];
      assert outs[1..] == [outs[1]] && outs[1..][1..] == [];
      assert SumOutputs(outs[1..]) == xval - val;
      outs
    else
      var outs := [OutputTx(dest, val)];
      assert outs[1..] == [];
      outs
  }

  /** The inputs spending the selected entries, in selection order. */
  function InputsOf(locs: seq<Locator>): seq<InputTx>
  {
    seq(|locs|, i requires 0 <= i < |locs| => InputTx(locs[i].txId, locs[i].index))
  }

  /** The entries `add` records for the serialised transaction `tx`. */
  function EntriesFor(tx: Tx, keys: Keychain, lib: Library): map<Locator, Bytes>
  {
    var raw := lib.serializeTx(tx);
    var ptx := lib.parseTx(raw);
    OwnedEntries(lib.txId(ptx), ptx.outputs, keys, raw)
  }

  /**
   * Pays `val` to `dest` with change to `change`, selecting from the wallet
   * `w` walked in the order `order`. The amount must be a positive machine
   * integer, the selection must cover it, and the key chain must hold the
   * secret of every key the selection spends from. On success the wallet has gained the new transaction's
   * owned outputs and lost every spent entry; on failure it is unchanged.
   */
  method Pay(w: ActiveTx, val: int, dest: KeyId, change: KeyId, order: seq<Locator>, lib: Library)
    returns (r: Result<Transfer, PayError>)
    requires IsEnumeration(order, w.entries.Keys)
    modifies w
    ensures w.keys == old(w.keys)
    ensures r.Err? ==> w.entries == old(w.entries)
    ensures val > MaxInt ==> r == Err(AmountTooLarge)
    ensures val <= 0 ==> r == Err(NonPositiveAmount)
    ensures AcceptedAmount(val) && order == [] ==> r == Err(NothingSelected)
    ensures AcceptedAmount(val) && order != [] ==>
      var spent := order[..CoverLength(order, val)];
      if SumValues(spent) < val then r == Err(InsufficientBalance(SumValues(order)))
      else if forall i :: 0 <= i < |spent| ==> HasSecret(spent[i], w.keys) then r.Ok? && r.value.selected == spent
      else r == Err(MissingSecret)
    ensures AcceptedAmount(val) && order != [] && SumValues(order) >= val ==> r.Ok? || r == Err(MissingSecret)
    ensures r.Ok? ==>
      var p := r.value;
      && AcceptedAmount(val) && val <= p.selectedValue
      && IsGreedySelection(order, val, p.selectedValue, p.selected)
      && (forall l :: l in p.selected ==> HasSecret(l, w.keys))
      && p.tx == Tx(InputsOf(p.selected), PaymentOutputs(val, p.selectedValue, dest, change))
      && w.entries == (old(w.entries) + EntriesFor(p.tx, w.keys, lib)) - (set l | l in p.selected)
    ensures r.Ok? ==> forall l :: l in r.value.selected ==> l in old(w.entries) && l !in w.entries
  {
    if val > MaxInt {
      return Err(AmountTooLarge);
    }
    if val <= 0 {
      return Err(NonPositiveAmount);
    }
    var xval, txs := w.GetValue(val, order);
    GreedySelectionIsCover(order, val, xval, txs);
    if |txs| == 0 {
      return Err(NothingSelected);
    }
    if xval < val {
      return Err(InsufficientBalance(xval));
    }
    var outTx := PaymentOutputs(val, xval, dest, change);
    var built := BuildInputs(txs, w.keys);
    if built.Err? {
      return Err(built.error);
    }
    var newtx := Tx(built.value, outTx);
    w.Add(lib.serializeTx(newtx), lib);
    RemoveSpent(w, txs);
    r := Ok(Transfer(txs, xval, newtx));
  }

  /**
   * The loop over the selected entries: each one's key must have a secret in
   * the key chain, and each contributes the input `(tx_id, i)`. The first
   * entry without a secret aborts the payment.
   */
  method BuildInputs(txs: seq<Locator>, keys: Keychain) returns (r: Result<seq<InputTx>, PayError>)
    ensures r == if forall i :: 0 <= i < |txs| ==> HasSecret(txs[i], keys)
                 then Ok(InputsOf(txs)) else Err(MissingSecret)
  {
    var inTx := [];
    var i := 0;
    while i < |txs|
      invariant 0 <= i <= |txs|
      invariant |inTx| == i
      invariant forall j :: 0 <= j < i ==> HasSecret(txs[j], keys)
      invariant forall j :: 0 <= j < i ==> inTx[j] == InputTx(txs[j].txId, txs[j].index)
    {
      if !HasSecret(txs[i], keys) {
        return Err(MissingSecret);
      }
      inTx := inTx + [InputTx(txs[i].txId, txs[i].index)];
      i := i + 1;
    }
    assert inTx == InputsOf(txs);
    r := Ok(inTx);
  }

  /** Removing the spent entries one by one: each removal succeeds, as the entries are present and distinct. */
  method RemoveSpent(w: ActiveTx, txs: seq<Locator>)
    requires forall i, j :: 0 <= i < j < |txs| ==> txs[i] != txs[j]
    requires forall l :: l in txs ==> l in w.entries
    modifies w
    ensures w.keys == old(w.keys)
    ensures w.entries == old(w.entries) - (set l | l in txs)
  {
    var k := 0;
    while k < |txs|
      invariant 0 <= k <= |txs|
      invariant w.keys == old(w.keys)
      invariant w.entries == old(w.entries) - (set l | l in txs[..k])
    {
      assert txs[k] in w.entries by {
        assert txs[k] in old(w.entries);
        forall l | l in txs[..k] ensures l != txs[k] {
          var j :| 0 <= j < k && txs[j] == l;
        }
      }
      var o := w.Remove(txs[k]);
      assert o == Pass;
      assert txs[..k + 1] == txs[..k] + [txs[k]];
      k := k + 1;
    }
    assert txs[..k] == txs;
  }
}
