# RSCoin client core in Dafny

A model of the RSCoin command-line client (`rsc.py`): the part between the
network plumbing and the command line. RSCoin is a sharded digital currency
in which independent authorities ("mintettes") each hold custody over part
of the unspent outputs; a transaction is final once the three authorities
responsible for its id have acknowledged it. The model covers:

- **Wallet** (`wallet.dfy`, class `Wallet.ActiveTx`): the dictionary of
  unspent outputs, keyed by locators `(tx_id, index, key_id, value)` and
  holding the raw transaction. `Add` records the outputs paid to held keys,
  `Remove` deletes one locator, `Balances` sums values per key name, and
  `GetValue` is the greedy walk that picks entries until the target is
  covered. Python leaves dictionary iteration order unspecified, so the walk
  takes the order as a parameter `order`, required to list every key exactly
  once (`Ledger.IsEnumeration`). `WalletFacts` proves what the walk and the
  balances mean: the walk takes exactly the shortest covering prefix, and the
  balances add up to the wallet's total.
- **Key chain** (`keyfile.dfy`): `load_keys` over the tokens of each line.
  Every line is indexed under its first token, and a held (`sec`) key is also
  indexed under its decoded id. The last line indexed under a key wins.
- **Response latch** (`latch.dfy`): `RSCfactory` and `RSCconnection`. The
  first line received, or `None` on connection loss or failure, fires the
  deferred, and later events are ignored.
- **Sharding** (`shards.dfy`): the Query shard (authorities of the inputs)
  and the Commit shard (authorities of the transaction id). Each is the
  order-preserving sub-list of the directory whose ids fall in the set.
- **Quorum rules** (`quorum.dfy`): the Commit check needs exactly three
  replies, all "OK". The Query check collects one `(k, s)` pair per reply, in
  order, or fails at the first refusal. The issuance check requires every
  reply to be "OK", validly signed, and from a responsible authority not
  counted before.
- **Protocol** (`protocol.dfy`): `play` as a method that takes the replies
  each round brings back. It returns the rounds it sends and how the play
  ends: how the deferred `d_end` fires, or, for the two checks made before
  `d_end` exists, which one stopped it. An issuance skips the Query. A failed
  Query sends no Commit. Only three "OK" Commit replies confirm.
- **Payment** (`payment.dfy`): the `--pay` path from selection to the
  optimistic wallet update. Every spent key must have its secret in the key
  chain, or the payment stops before the wallet changes. Outputs are the
  payment plus change only when the leftover is positive, so they sum to the
  selected value. After the update the spent locators are gone from the
  wallet.

The collaborators whose code is not shown are function-valued fields of
`Ledger.Library`: base64 decoding, `Tx.parse`, `Tx.serialize`, `Tx.id`,
`Tx.get_utxo_in_keys`, `get_authorities`, key ids and signature checks. The
model proves facts that hold for every such function. Replies come already
unpacked (`Quorum.Reply`). `Unreadable` stands for a reply that
`unpackage_*` cannot unpack, such as the `None` of a lost connection.
Python 2 byte strings are Dafny `string`s.

Behaviour of the code worth noting:

- The selection walks the dictionary's own iteration order, not a sorted
  order.
- An empty wallet fails the `assert len(txs) > 0` before the balance check
  (`Payment.NothingSelected`).
- A `sec` line of only three tokens is accepted by `load_keys` (rsc.py:45-47),
  but spending from that key fails at `keys[key_id][3]` (rsc.py:312)
  (`Payment.MissingSecret`). The same happens for a stored entry whose key is
  no longer in the key chain.
- A lost connection's `None` shows up as an unreadable reply. `broadcast`
  gathers exactly one result per shard member (rsc.py:103-112), so the count
  check at rsc.py:143 never fails inside `play`, and `WrongReplyCount` is
  unreachable there. A reply that never arrives leaves the gather waiting.
- `balances` looks names up in the module-level `keys` (rsc.py:79), not in
  `self.keys`. `Balances` takes that dictionary as its own parameter.
- On the issuance path, nothing checks that the Commit shard has three
  members (rsc.py:410-413). `CheckIssuance` accepts any number of replies,
  as long as no signer counts twice. `IssuanceCountsEachOnce` shows that the
  replies can never outnumber the responsible authorities.

## Model

| member | source | states |
|---|---|---|
| `Wallet.OwnedLocators` | rsc.py:64-68 | a locator is recorded for a transaction exactly when it names an output index of that transaction, carries that output's key id and value, and the key id is held |
| `Wallet.ActiveTx.constructor` | rsc.py:55-62 | the wallet holds the loaded entries, or none when loading fails |
| `Wallet.ActiveTx.Add` | rsc.py:64-68 | the new entries are the old ones plus one entry `(id, i, key_id, value) -> raw` per output paid to a held key; nothing else changes |
| `WalletFacts.AddTwiceIsAddOnce` | rsc.py:64-68 | adding the same transaction a second time leaves the entries unchanged |
| `Wallet.ActiveTx.Remove` | rsc.py:70-71 | deletes exactly the given locator and keeps every other entry; fails with `UnknownLocator` (KeyError), changing nothing, when it is absent |
| `Wallet.ActiveTx.GetValue` | rsc.py:82-93 | the selection is a prefix of the iteration order; its value is the prefix's sum; no shorter non-empty prefix reaches the target; it reaches the target or takes everything; it takes only wallet entries, and all of them when it falls short |
| `Wallet.SelectionWithinWallet` | rsc.py:85-88 | a selection over an enumeration of the wallet contains only wallet entries, and every entry when the target is not reached |
| `WalletFacts.GreedySelectionIsCover` | rsc.py:82-93 | any selection meeting those conditions is exactly the first `CoverLength` entries: the shortest non-empty prefix reaching the target, or the whole order |
| `WalletFacts.GreedySelectionUnique` | rsc.py:82-93 | the conditions on the walk determine its result: two selections for the same order and target are equal |
| `WalletFacts.SelectionExampleCovered` | rsc.py:82-93 | entries worth 5, 10, 20 with target 12 give value 15 and the first two entries |
| `WalletFacts.SelectionExampleShort` | rsc.py:82-93 | the same entries with target 50 give value 35, below the target, and all entries |
| `Wallet.ActiveTx.Balances` | rsc.py:76-80 | the result is the per-name accumulation `BalancesOf` over the iteration order |
| `Wallet.BalancesErrPersists` | rsc.py:78-79 | once an entry has no name, the whole `balances` call fails (KeyError) |
| `WalletFacts.BalancesDefined` | rsc.py:78-79 | `balances` succeeds exactly when every entry's key id has a name in the key chain |
| `WalletFacts.BalancesTotal` | rsc.py:76-80 | the balances across all names add up to the sum of all entry values |
| `WalletFacts.BalancesPerName` | rsc.py:76-80 | each name's balance is the sum of the values held under keys of that name, and a name appears exactly when some entry is held under it |
| `KeyFile.LoadKeys` | rsc.py:41-48 | fails exactly when some line is too short to index; otherwise returns the key chain built line by line in file order |
| `KeyFile.LastIndexing` | rsc.py:43-47 | the index returned is a line indexed under the key, and no later line is |
| `KeyFile.IndexedIsLastWriter` | rsc.py:43-47 | a key is in the key chain exactly when some line is indexed under it, and it maps to the last such line |
| `Latch.FiredIsFinal` | rsc.py:28-30 | once the deferred has fired, no later event changes its result |
| `Latch.FirstEventDecides` | rsc.py:28-39 | after any non-empty sequence of events the deferred has fired once, with the first event's line or `None` |
| `Latch.PendingUntilFirstEvent` | rsc.py:28-39 | the deferred is still pending exactly when no event has arrived |
| `Latch.ResponseFactory.constructor` | rsc.py:25-26 | a new factory's deferred has not fired |
| `Latch.ResponseFactory.AddToBuffer` | rsc.py:28-30 | fires a pending deferred with the line and leaves a fired one unchanged |
| `Latch.ResponseFactory.ClientConnectionLost` | rsc.py:35-36 | delivers `None` only if nothing has fired yet |
| `Latch.ResponseFactory.ClientConnectionFailed` | rsc.py:38-39 | delivers `None` only if nothing has fired yet |
| `Latch.Connection.constructor` | rsc.py:18-19 | a connection forwards to the factory that built it |
| `Latch.Connection.LineReceived` | rsc.py:21-22 | a received line goes through `add_to_buffer` of the factory |
| `Shards.ShardOf` | rsc.py:132-136 | every line of a shard is a directory line whose id is in the responsible set, and a shard is never longer than the directory |
| `Shards.CommitAuthorities` | rsc.py:135 | an id is in `Cauths` exactly when `get_authorities` lists it for the transaction id, and there are never more of them than it lists |
| `Shards.ShardIsOrderedSublist` | rsc.py:132 | the shard is a subsequence of the directory (directory order kept) holding exactly the lines whose id is in the set |
| `Shards.ShardKeepsMultiplicity` | rsc.py:136 | each line of the directory with a selected id occurs in the shard as often as in the directory, others not at all |
| `Shards.ShardSize` | rsc.py:135-137 | with distinct directory ids, the shard has one line per selected id that the directory lists, so three responsible listed authorities pass the `== 3` assertion |
| `Shards.QueryAuthorities` | rsc.py:128-131 | an authority is in `Qauths` exactly when it is responsible for some input |
| `Protocol.CollectQueryAuthorities` | rsc.py:128-131 | the accumulation loop yields exactly `QueryAuthorities` of the inputs' keys |
| `Quorum.ScanCommit` | rsc.py:144-149 | passes exactly when every reply is "OK"; fails with `CommitFailed` exactly when the first non-OK reply is readable, and with `UnreadableReply` exactly when it is not |
| `Quorum.CheckCommit` | rsc.py:141-156 | the Commit succeeds exactly when there are three replies and all are "OK"; with three replies, "Commit failed." exactly when the first non-OK reply is readable, and `UnreadableReply` exactly when it is not; `WrongReplyCount` exactly when there are not three replies |
| `QuorumExamples.CommitExamples` | rsc.py:141-156 | three "OK" replies commit; one refusal among three fails the Commit; two replies fail the count |
| `QueryRound.CollectReleases` | rsc.py:171-181 | succeeds exactly when every reply is "OK" with `(k, s)`; then yields one pair per reply in reply order; fails with `QueryFailed` exactly when the first bad reply is a readable refusal |
| `IssuanceRound.CheckIssuance` | rsc.py:415-427 | the loop's result is `IssuanceScan` of the replies against the responsible set |
| `IssuanceRound.IssuanceAcceptedIff` | rsc.py:415-427 | the issuance check passes exactly when every reply is "OK", carries a valid signature, comes from a responsible authority, and no two replies share a signer |
| `IssuanceRound.IssuanceCountsEachOnce` | rsc.py:421-427 | on success the authorities left are the responsible ones that did not sign, and as many were removed as there are replies, so no authority counts twice |
| `Protocol.Play` | rsc.py:120-194 | an empty core or a Commit shard not of size 3 fails before any round; an issuance sends only a Commit to the Commit shard; otherwise a Query goes to the Query shard, a failed Query sends no Commit, and an acknowledged one sends `package_commit(core, kss)`; the outcome is confirmed only on three "OK" Commit replies, and every Commit round goes to three authorities |
| `Payment.PaymentOutputs` | rsc.py:301-306 | the first output pays `val` to the destination; a second output pays `xval - val` to the change key exactly when that is positive; the outputs sum to `xval` and are all positive |
| `Payment.BuildInputs` | rsc.py:308-313 | fails with `MissingSecret` exactly when some selected entry's key has no secret (fourth token) in the key chain; otherwise one input `(tx_id, i)` per selected entry, in selection order |
| `Payment.RemoveSpent` | rsc.py:319-321 | every selected locator is removed, each removal succeeding, and nothing else changes |
| `Payment.Pay` | rsc.py:288-321 | a non-positive amount, an amount above `sys.maxint` (a Python 2 `long`), an empty wallet, a short balance or a spent key without a secret fail and leave the wallet unchanged; when the first covering prefix of the order reaches the amount and all its keys have secrets, the payment succeeds and spends exactly that prefix; on success the selection is the greedy one, the transaction spends it and pays the amount plus change, and the wallet gains the new transaction's owned outputs and loses every spent entry |

## Left out

- Network I/O: `broadcast`, `TCP4ClientEndpoint`, the reactor, `gatherResults` and `r_stop` (rsc.py:95-118). `Protocol.Play` takes each round's replies as a parameter instead.
- The replay worker pool of 20 slots, `play_another_song` (rsc.py:260-283). It only bounds how many plays run at once on the reactor.
- Cryptography: key generation, `sign`, `urandom` and the issuer-key check (rsc.py:241-244, 388-399). Signature verification and key ids appear only as `Ledger.Library` functions.
- Elapsed time from `default_timer` (rsc.py:124, 150). `Protocol.Confirmed` carries no time.
- Persistence: the pickle load and save of the wallet (rsc.py:59-62, 73-74). Reading and appending `keychain.txt`, `directory.conf` and `secret.key` is also out. The constructor takes the loaded entries, or none. `LoadKeys` takes each line already stripped and split.
- `rscoin.rscservice` and `Tx`: their source is not part of this model. `package_query` is left out. `package_commit` and the `Query`/`Commit` wire lines are message constructors (`Protocol.Message`), not text.
- `Ledger.Library.parseTx` is total: a raw transaction that fails to parse, and a bad base64 field, are not modelled.
- Protocol.Play: an empty core is modelled as `Failed(MalformedCore)`, and a Commit shard not of size three as `Failed(DirectoryInconsistency)`. In Python the IndexError at rsc.py:122 and the AssertionError at rsc.py:137 escape `play` itself; `d_end` is created only at rsc.py:139.
- Command-line dispatch, printing, address creation and listing, and address-name resolution (rsc.py:197-437). The pay path from line 288 and `r_process` are modelled.
- Payment.Pay: the values of `inTx_list` and `keys_list` (rsc.py:311-312) are not built. The `isinstance(val, int)` half of the amount check (rsc.py:289) is modelled for a 64-bit Python 2, where `sys.maxint` is 2^63-1 (`Payment.MaxInt`); on a 32-bit build the bound is 2^31-1. Parsing each spent transaction is assumed to succeed. The secret lookup `keys[key_id][3]` is modelled (`MissingSecret`); its base64 decoding and the `Key` construction are not. `save` and the network round after the update (rsc.py:323-377) are also out.
- Recording the issued transaction in the wallet after `r_process` succeeds (rsc.py:429-431) is `Wallet.ActiveTx.Add`. The two are not composed in one member.
