# Exchange delegate: receive-address allocation and labelling

This project models the part of the wallet's `ExchangeDelegate` that gives
receive addresses of an HD account to exchange trades, in Dafny. The model
covers four parts:

- **The gap-limit allocator.** While the account's next receive index is fewer
  than 19 ahead of its last used one, that next index is reserved. Otherwise the
  19 indices below it are scanned downwards. The first one that some trade
  already holds is reused; if none is held, the reservation fails with
  `gap_limit`.
- **Two-phase reserve and commit.** Reserving derives the address and changes
  nothing. Committing writes the label `labelBase + " #" + ids.join(", #")` at
  the reserved index, where the ids are those of the registry's trades on the
  reserved address followed by the new trade's id. It then stamps the account
  index and the receive index on the trade.
- **Release.** When both index fields of a trade pass `isPositiveInteger`, the
  label at its receive index is rebuilt from the other trades on its address
  (`"Coinify order #" + others.join(", #")`). When no other trade is on the
  address, the label is removed. The trade's own fields are kept.
- **Extra-field (de)serialisation.** The trade's two index fields are copied to
  and from a plain object.

Files:

- `wrappers.dfy`: `Option`, `Result` and `Outcome`.
- `labels.dfy`: the label text. `Join` is JavaScript's `Array.prototype.join`,
  and `OrderLabel` builds the label from a base and an id list. `SplitIds` and
  `ParseLabel` are the inverse of `OrderLabel`. They show that a label
  determines the list of trades on its address.
- `gap_limit.dfy`: the index choice. `ScanDown` is the specification of the
  downward scan, `FindLastExchangeIndex` is the source's loop, and
  `ReserveIndex` is the whole gap-limit rule.
- `exchange_delegate.dfy`: the account, wallet, trade and delegate objects, and the
  reserve, commit, release and (de)serialisation operations on them.
- `scenarios.dfy`: concrete walk-throughs of commit and release that use only
  the operations' contracts.

Modelling choices:

- `Helpers.isPositiveInteger`, `Helpers.propEq`, `Helpers.eq` and
  `Helpers.notEq` come from `src/helpers.js`, which is not part of this model.
  `isPositiveInteger` is taken to mean "set, and an integer that is not
  negative" (`IsPositiveInteger`), so account 0 and receive index 0 pass. The
  other three are taken as strict equality.
- A trade's `_account_index` and `_receive_index` are `Option<int>`: `None`
  stands for both `undefined` and `null`. Its `receiveAddress` is
  `Option<string>`. Trade ids are strings, because `join` turns them into text.
- What the JavaScript throws is an error result, not a precondition. An unset
  `trades` fails the assertion in reserve and release (`TradesNotSet`). An
  unset `trades` at commit time throws a `TypeError` (`UndefinedReference`).
  So does a wallet without `hdwallet` at reserve time, or at release time when
  both index fields pass, and an account index beyond the wallet's accounts at
  release time.
- The `commit` closure is the method `Delegate.Commit`. It takes the
  `Reservation`, which carries what the closure captures (the address, the
  index and the account). Like the closure, it reads the registry and the label
  base when it runs.
- The delegate keeps a reference to the wallet (class `Wallet`). The wallet's
  `hdwallet` is an `Option<HDWallet>` field that the wallet may set, clear or
  replace, and an `HDWallet`'s account list and default account can change too.
  Reserve and release look up `hdwallet` and its accounts when they run.
- An account's address derivation is a function-valued field,
  `receiveAddressAtIndex`. Its label store is a `map<int, string>`. Setting a label is a map update, and
  removing one is a key removal.
- Reserve has no `modifies` clause, so no call to it can change an account, a
  trade or the delegate.
- The loop `i > index - 20` (src/exchange-delegate.js:141) tries the 19
  indices `receiveIndex - 19` to `receiveIndex - 1`, both included.
- Release does not clear the trade's index fields. It also always uses the
  base text `"Coinify order"` rather than the configurable `labelBase`. Both
  are kept as the code has them.

## Model

| member | source | states |
|---|---|---|
| `GapLimit.IndexHeld` | src/exchange-delegate.js:142 | an index is held when some trade's receive index equals it |
| `GapLimit.Matches` | src/exchange-delegate.js:142 | `receiveIndexes.filter(eq(i))`: every entry it keeps equals `i`, and it keeps no more entries than there are trades |
| `GapLimit.IndexHeldIffMatches` | src/exchange-delegate.js:142 | the loop's test `filter(eq(i)).length > 0` holds if and only if index `i` is held |
| `GapLimit.ScanDown` | src/exchange-delegate.js:141-144 | the downward scan returns the largest index in the window that a trade holds, and no larger index in the window is held; it returns `None` exactly when no index in the window is held |
| `GapLimit.FindLastExchangeIndex` | src/exchange-delegate.js:138-145 | the loop from `current - 1` down to `current - 19` with early return, testing `filter(eq(i)).length > 0`, yields exactly the scan's result (the nearest held index, or `null`) |
| `GapLimit.ReserveIndex` | src/exchange-delegate.js:126-133 | below the gap limit the reserved index is the account's next receive index; past it the reserved index lies in `[receiveIndex - 19, receiveIndex - 1]`, is held by a trade, and has no held index above it; the result is `gap_limit` if and only if no index in that window is held |
| `GapLimit.NearestHeldIndexIsReserved` | src/exchange-delegate.js:131-143 | conversely, a held index in the window with no held index above it is the one reserved |
| `GapLimit.NearestWinsOverOldest` | src/exchange-delegate.js:141-143 | with trades on `receiveIndex - 3` and `receiveIndex - 10` and none on the two indices above them, `receiveIndex - 3` is reserved: the nearest held index wins, not the oldest |
| `GapLimit.OnlyWindowCounts` | src/exchange-delegate.js:141-144 | past the gap limit, trades that hold only indices outside the window (at `receiveIndex` or above, or below `receiveIndex - 19`) do not prevent `gap_limit` |
| `Labels.Join` | src/exchange-delegate.js:152 | JavaScript's `ids.join(sep)`, also used at line 189: the parts with the separator between neighbours; a non-empty join starts with its first part |
| `Labels.OrderLabel` | src/exchange-delegate.js:152 | the label `base + ' #' + ids.join(', #')`, also built at line 189: for a non-empty id list it starts with the base, `" #"` and the first id |
| `Labels.JoinSnoc` | src/exchange-delegate.js:152 | joining one more id appends the separator and that id to the joined text |
| `Labels.CommitLabelAppends` | src/exchange-delegate.js:148-152 | the commit label for a single id is `base + " #" + id`; adding an id to a non-empty list appends `", #" + id` to the label |
| `Labels.SplitJoin` | src/exchange-delegate.js:152 | splitting the joined text of a non-empty list of comma-free ids at `", #"` gives back the list, in order |
| `Labels.ParseOrderLabel` | src/exchange-delegate.js:152 | a label `base + " #" + ids.join(", #")` parses back to exactly `ids` |
| `Labels.OrderLabelInjective` | src/exchange-delegate.js:189 | two different non-empty lists of comma-free ids never produce the same label: the label identifies the trades on its address |
| `ExchangeDelegate.IsPositiveInteger` | src/exchange-delegate.js:172 | `Helpers.isPositiveInteger` as release uses it: the field is set and holds an integer that is not negative |
| `ExchangeDelegate.ReceiveIndexes` | src/exchange-delegate.js:139 | the receive indices of the registry, one per trade, in registry order |
| `ExchangeDelegate.IdsSharing` | src/exchange-delegate.js:148-150 | the ids of the registry trades on an address number at most as many as the trades |
| `ExchangeDelegate.IdsSharingMembers` | src/exchange-delegate.js:148-150 | an id is listed if and only if some registry trade with that id has the given receive address |
| `ExchangeDelegate.Without` | src/exchange-delegate.js:175-178 | the released trade's id is never kept, and the list does not grow |
| `ExchangeDelegate.WithoutMembers` | src/exchange-delegate.js:178 | an id is kept if and only if it is in the list and differs from the released trade's id |
| `ExchangeDelegate.IdsSharingConcat` | src/exchange-delegate.js:148-150 | the address filter keeps registry order: filtering a concatenated registry concatenates the two id lists |
| `ExchangeDelegate.WithoutAbsent` | src/exchange-delegate.js:178 | removing an id that is not listed changes nothing |
| `ExchangeDelegate.WithoutConcat` | src/exchange-delegate.js:178 | removing an id distributes over concatenation |
| `ExchangeDelegate.ReleaseUndoesCommit` | src/exchange-delegate.js:148-178 | once a committed trade sits in the registry after the other trades on its address, the address filter yields the commit-time list (earlier ids, then its own), and the ids release keeps are exactly those earlier ids |
| `ExchangeDelegate.Delegate.constructor` | src/exchange-delegate.js:9-12 | a new delegate keeps a reference to the wallet, whose `hdwallet` reserve and release look up when they run, and has no trade registry and no stored label base |
| `ExchangeDelegate.Delegate.SetTrades` | src/exchange-delegate.js:25-27 | the `trades` setter stores the value and changes nothing else |
| `ExchangeDelegate.Delegate.SetLabelBase` | src/exchange-delegate.js:34-36 | the `labelBase` setter stores the value; afterwards the getter returns it if it is a non-empty string and `"Exchange order"` otherwise |
| `ExchangeDelegate.Delegate.LabelBase` | src/exchange-delegate.js:31-33 | the getter is never empty; it is the stored base when that is a non-empty string, `"Exchange order"` when it is unset or empty |
| `ExchangeDelegate.Delegate.ReserveReceiveAddress` | src/exchange-delegate.js:123-166 | an unset registry fails the assertion; a wallet without `hdwallet` throws; otherwise the reserved index is the gap-limit choice over the wallet's current default account and the trades' receive indices, `gap_limit` when there is none, and the returned address is the account's address at that index; no state changes |
| `ExchangeDelegate.Delegate.Commit` | src/exchange-delegate.js:147-161 | the account label at the reserved index becomes the label base, `" #"`, and the ids (registry order, then the new trade's) joined by `", #"`; the trade gets the account's index and the reserved index; only that label entry and those two fields change; an unset registry throws and changes nothing |
| `ExchangeDelegate.Delegate.ReleaseReceiveAddress` | src/exchange-delegate.js:169-197 | an unset registry fails the assertion; unless both index fields pass `isPositiveInteger`, nothing changes; a wallet without `hdwallet`, or an account index beyond its current account list, throws; otherwise the label at the trade's receive index is removed when no other trade shares its address, or else set to `"Coinify order #"` plus the other ids joined by `", #"`; no other account's labels, no trade field and not the registry change |
| `ExchangeDelegate.Delegate.SerializeExtraFields` | src/exchange-delegate.js:199-202 | the object's `account_index` and `receive_index` become the trade's index fields; nothing else changes |
| `ExchangeDelegate.Delegate.DeserializeExtraFields` | src/exchange-delegate.js:204-207 | the trade's index fields become the object's; the trade's id and address do not change |
| `ExchangeDelegate.Delegate.ExtraFieldsRoundTrip` | src/exchange-delegate.js:199-207 | serialising one trade and deserialising onto another gives it the first trade's two index fields, absent values included, and changes nothing else of it |
| `Scenarios.ExampleLabels` | src/exchange-delegate.js:152 | the labels of the walk-throughs spelled out: `"Exchange order #1"`, `"Exchange order #1, #2"`, `"Coinify order #2"` |
| `Scenarios.FirstCommitLabelsAlone` | src/exchange-delegate.js:123-161 | within the gap limit the next receive index is reserved, and committing the first trade labels it `"Exchange order #1"` and stamps account 0 and index 5 on the trade |
| `Scenarios.ReserveReusesHeldIndex` | src/exchange-delegate.js:123-143 | past the gap limit, with one trade committed to index 22, reserve returns index 22 and its address again |
| `Scenarios.SecondCommitAppendsId` | src/exchange-delegate.js:147-161 | committing a second trade to index 22, already labelled `"Exchange order #1"` for the first trade on that address, makes the label `"Exchange order #1, #2"` |
| `Scenarios.ReleaseRewritesLabel` | src/exchange-delegate.js:169-197 | releasing one of two trades on an address rewrites its label `"Exchange order #1, #2"` to `"Coinify order #2"` |
| `Scenarios.ReleaseLastRemovesLabel` | src/exchange-delegate.js:169-197 | releasing the last trade on an address removes its label |

## Left out

- ExchangeDelegate.Delegate.constructor: `assert(wallet, 'BlockchainWallet expected')` (src/exchange-delegate.js:10) is not modelled as a failure. The constructor takes a non-null `Wallet`, so a missing wallet cannot be passed.
- ExchangeDelegate.Delegate.SetTrades: the registry is stored as a sequence value, not as a reference to the caller's array. A trade the caller later pushes onto that array is seen by the source's next reserve, commit or release without calling the setter again. The model sees it only after another `SetTrades`.

- `getToken` (src/exchange-delegate.js:60-86) is left out: it is an HTTP request and the handling of its promise.
- `monitorAddress` (src/exchange-delegate.js:88-105) is left out: it subscribes to the wallet's global event bus and runs callbacks asynchronously.
- `checkAddress` (src/exchange-delegate.js:107-114) is left out: it looks up blockchain history over the network and uses the transaction wrapper library.
- `save`, `email`, `mobile`, `isEmailVerified`, `isMobileVerified` and `getReceiveAddress` (src/exchange-delegate.js:40-58, 116-121) are left out: they only pass through to wallet objects that are not part of this model.
- The `debug` property and the `console.info` calls are left out. They only produce diagnostics.
- Key and address derivation is left out. It is an arbitrary function from index to address.
- The label store's persistence is left out. It is a map from index to label.
- The check-then-act race between two reserve/commit pairs is left out. The model is single-threaded, as the code assumes.
- JavaScript values in the index fields that are neither absent nor integers (strings, fractions) are not modelled.
- A `null` `lastUsedReceiveIndex` is not modelled separately. JavaScript subtraction reads it as 0, so a caller passes 0.
- The trade's `receiveAddress` is set by code outside this core. The model reads it and never writes it.
- `Labels.SplitJoin`, `Labels.ParseOrderLabel` and `Labels.OrderLabelInjective` hold only for ids without a comma. An id containing `", #"` would make two id lists give the same label.
