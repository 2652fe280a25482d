/**
 * The exchange delegate of a wallet: it hands out receive addresses of the
 * wallet's HD accounts to exchange trades, keeps the account's label on each
 * handed-out address listing the trades that use it, and (de)serialises the
 * two index fields it stamps on a trade.
 */
module ExchangeDelegate {
  import opened Wrappers
  import Labels
  import GapLimit

  /** What the delegate throws. */
  datatype Error =
    | TradesNotSet        // `assert(this._trades, ...)` fails
    | GapLimitReached     // `new Error('gap_limit')`
    | UndefinedReference  // a TypeError: a property of `undefined` is read

  /** The label base used at commit time when none (or an empty one) is configured. */
  const DefaultLabelBase: string := "Exchange order"

  /** The label base that `releaseReceiveAddress` always uses. */
  const ReleaseLabelBase: string := "Coinify order"

  /**
   * `Helpers.isPositiveInteger`: the field is set and holds an integer that is
   * not negative (account 0 and receive index 0 pass).
   */
  predicate IsPositiveInteger(v: Option<int>)
  {
    v.Some? && v.value >= 0
  }

  /** An HD account of the wallet, as far as the delegate uses it. */
  class Account {
    const index: int
    var receiveIndex: int
    var lastUsedReceiveIndex: int
    /** The account's address labels, by receive index. */
    var labels: map<int, string>
    /** `receiveAddressAtIndex`: key and address derivation, which is not part of this model. */
    const receiveAddressAtIndex: int -> string

    constructor (index: int, receiveIndex: int, lastUsedReceiveIndex: int, receiveAddressAtIndex: int -> string)
      ensures this.index == index && this.receiveIndex == receiveIndex
      ensures this.lastUsedReceiveIndex == lastUsedReceiveIndex
      ensures this.receiveAddressAtIndex == receiveAddressAtIndex
      ensures labels == map[]
    {
      this.index := index;
      this.receiveIndex := receiveIndex;
      this.lastUsedReceiveIndex := lastUsedReceiveIndex;
      this.receiveAddressAtIndex := receiveAddressAtIndex;
      labels := map[];
    }
  }

  /** The wallet's `hdwallet`: its accounts and its default account, which the wallet may change. */
  class HDWallet {
    var accounts: seq<Account>
    var defaultAccount: Account

    constructor (accounts: seq<Account>, defaultAccount: Account)
      ensures this.accounts == accounts && this.defaultAccount == defaultAccount
    {
      this.accounts := accounts;
      this.defaultAccount := defaultAccount;
    }
  }

  /**
   * The wallet the delegate serves, as far as the delegate uses it: its
   * `hdwallet`, which is `None` while the wallet has none and which the
   * wallet may replace.
   */
  class Wallet {
    var hdwallet: Option<HDWallet>

    constructor (hdwallet: Option<HDWallet>)
      ensures this.hdwallet == hdwallet
    {
      this.hdwallet := hdwallet;
    }
  }

  /** An exchange trade: its id, its receive address and the two fields the delegate stamps. */
  class Trade {
    const id: string
    var receiveAddress: Option<string>
    /** `_account_index` */
    var accountIndex: Option<int>
    /** `_receive_index` */
    var receiveIndex: Option<int>

    constructor (id: string, receiveAddress: Option<string>)
      ensures this.id == id && this.receiveAddress == receiveAddress
      ensures accountIndex == None && receiveIndex == None
    {
      this.id := id;
      this.receiveAddress := receiveAddress;
      accountIndex := None;
      receiveIndex := None;
    }
  }

  /** The plain object a trade is serialised into: its `account_index` and `receive_index`. */
  class SerializedTrade {
    var accountIndex: Option<int>
    var receiveIndex: Option<int>

    constructor ()
      ensures accountIndex == None && receiveIndex == None
    {
      accountIndex := None;
      receiveIndex := None;
    }
  }

  /**
   * What `reserveReceiveAddress` returns: the reserved address, and what its
   * `commit` closure captures (the index and the account).
   */
  datatype Reservation = Reservation(receiveAddress: string, index: int, account: Account)

  /** `trades.map(Helpers.pluck('_receive_index'))` */
  function ReceiveIndexes(ts: seq<Trade>): (r: seq<Option<int>>)
    reads ts
    ensures |r| == |ts|
    ensures forall k :: 0 <= k < |ts| ==> r[k] == ts[k].receiveIndex
  {
    if ts == [] then [] else [ts[0].receiveIndex] + ReceiveIndexes(ts[1..])
  }

  /** Some trade of `ts` has receive address `address` and id `id`. */
  ghost predicate HasTradeOn(ts: seq<Trade>, address: Option<string>, id: string)
    reads ts
  {
    exists t :: t in ts && t.receiveAddress == address && t.id == id
  }

  /**
   * `trades.filter(propEq('receiveAddress', address)).map(pluck('id'))`: the
   * ids, in registry order, of the trades whose receive address is `address`.
   */
  function IdsSharing(ts: seq<Trade>, address: Option<string>): (ids: seq<string>)
    reads ts
    ensures |ids| <= |ts|
  {
    if ts == [] then []
    else (if ts[0].receiveAddress == address then [ts[0].id] else []) + IdsSharing(ts[1..], address)
  }

  /** `ids.filter(Helpers.notEq(id))` */
  function Without(ids: seq<string>, id: string): (r: seq<string>)
    ensures |r| <= |ids|
    ensures id !in r
  {
    if ids == [] then []
    else (if ids[0] != id then [ids[0]] else []) + Without(ids[1..], id)
  }

  /** An id is listed exactly when some registry trade with that id is on the address. */
  lemma {:induction false} IdsSharingMembers(ts: seq<Trade>, address: Option<string>)
    ensures forall id :: id in IdsSharing(ts, address) <==> HasTradeOn(ts, address, id)
  {
    if ts != [] {
      IdsSharingMembers(ts[1..], address);
      assert forall t :: t in ts ==> t == ts[0] || t in ts[1..];
      assert ts[0] in ts;
      forall t | t in ts[1..] ensures t in ts {
      }
    }
  }

  /** An id is kept exactly when it is listed and is not the released trade's id. */
  lemma {:induction false} WithoutMembers(ids: seq<string>, id: string)
    ensures forall x :: x in Without(ids, id) <==> x in ids && x != id
  {
    if ids != [] {
      WithoutMembers(ids[1..], id);
      assert forall x :: x in ids <==> x == ids[0] || x in ids[1..];
    }
  }

  /**
   * Sequence concatenation is associative. This is only a proof step of
   * `IdsSharingConcat`: stated apart, it keeps that proof cheap for the solver.
   */
  lemma ConcatAssoc<T>(a: seq<T>, b: seq<T>, c: seq<T>)
    ensures a + (b + c) == (a + b) + c
  {
  }

  /** Filtering the registry by address keeps registry order: it distributes over concatenation. */
  lemma {:induction false} IdsSharingConcat(ts1: seq<Trade>, ts2: seq<Trade>, address: Option<string>)
    ensures IdsSharing(ts1 + ts2, address) == IdsSharing(ts1, address) + IdsSharing(ts2, address)
  {
    if ts1 != [] {
      var ts := ts1 + ts2;
      assert ts[0] == ts1[0];
      assert ts[1..] == ts1[1..] + ts2;
      IdsSharingConcat(ts1[1..], ts2, address);
      var head := if ts1[0].receiveAddress == address then [ts1[0].id] else [];
      var ids1, ids2 := IdsSharing(ts1[1..], address), IdsSharing(ts2, address);
      assert IdsSharing(ts, address) == head + (ids1 + ids2);
      assert IdsSharing(ts1, address) == head + ids1;
      ConcatAssoc(head, ids1, ids2);
    } else {
      assert ts1 + ts2 == ts2;
    }
  }

  /** Removing an id that is not in the list leaves the list as it was. */
  lemma {:induction false} WithoutAbsent(ids: seq<string>, id: string)
    requires id !in ids
    ensures Without(ids, id) == ids
  {
    if ids != [] {
      WithoutAbsent(ids[1..], id);
    }
  }

  /** Removing an id distributes over concatenation. */
  lemma {:induction false} WithoutConcat(ids1: seq<string>, ids2: seq<string>, id: string)
    ensures Without(ids1 + ids2, id) == Without(ids1, id) + Without(ids2, id)
  {
    if ids1 != [] {
      assert (ids1 + ids2)[1..] == ids1[1..] + ids2;
      WithoutConcat(ids1[1..], ids2, id);
    } else {
      assert ids1 + ids2 == ids2;
    }
  }

  /**
   * Release undoes commit on the id list: once a committed trade is in the
   * registry after the trades already on its address, the ids release keeps
   * are those commit found before it appended the trade's own id.
   */
  lemma ReleaseUndoesCommit(ts: seq<Trade>, t: Trade, address: string)
    requires t.receiveAddress == Some(address)
    requires t.id !in IdsSharing(ts, Some(address))
    ensures IdsSharing(ts + [t], Some(address)) == IdsSharing(ts, Some(address)) + [t.id]
    ensures Without(IdsSharing(ts + [t], Some(address)), t.id) == IdsSharing(ts, Some(address))
  {
    var before := IdsSharing(ts, Some(address));
    IdsSharingConcat(ts, [t], Some(address));
    assert IdsSharing([t], Some(address)) == [t.id];
    WithoutConcat(before, [t.id], t.id);
    WithoutAbsent(before, t.id);
    assert Without([t.id], t.id) == [];
  }

  /** The delegate object: the wallet it serves, the trade registry and the label base. */
  class Delegate {
    /** `_wallet`; reserve and release look up its `hdwallet` when they run */
    const wallet: Wallet
    /** `_trades`; `None` while it is unset */
    var trades: Option<seq<Trade>>
    /** `_labelBase`; `None` while it is unset */
    var storedLabelBase: Option<string>

    constructor (wallet: Wallet)
      ensures this.wallet == wallet
      ensures trades == None && storedLabelBase == None
    {
      this.wallet := wallet;
      trades := None;
      storedLabelBase := None;
    }

    /** The `trades` setter. */
    method SetTrades(value: Option<seq<Trade>>)
      modifies this`trades
      ensures trades == value
    {
      trades := value;
    }

    /** The `labelBase` setter. */
    method SetLabelBase(value: Option<string>)
      modifies this`storedLabelBase
      ensures storedLabelBase == value
      ensures value.Some? && value.value != "" ==> LabelBase() == value.value
      ensures value.None? || value.value == "" ==> LabelBase() == DefaultLabelBase
    {
      storedLabelBase := value;
    }

    /**
     * The `labelBase` getter, `this._labelBase || 'Exchange order'`: the
     * configured base when it is a non-empty string, the default otherwise;
     * never empty.
     */
    function LabelBase(): (base: string)
      reads this
      ensures base != ""
      ensures storedLabelBase.Some? && storedLabelBase.value != "" ==> base == storedLabelBase.value
      ensures storedLabelBase.None? || storedLabelBase.value == "" ==> base == DefaultLabelBase
    {
      if storedLabelBase.Some? && storedLabelBase.value != "" then storedLabelBase.value
      else DefaultLabelBase
    }

    /**
     * `reserveReceiveAddress`: picks a receive index of the default account
     * under the gap limit and derives its address, changing nothing (no
     * `modifies` clause); the error cases are an unset registry, a wallet
     * without `hdwallet` and the gap limit.
     */
    method ReserveReceiveAddress() returns (r: Result<Reservation, Error>)
      ensures trades.None? ==> r == Err(TradesNotSet)
      ensures trades.Some? && wallet.hdwallet.None? ==> r == Err(UndefinedReference)
      ensures trades.Some? && wallet.hdwallet.Some? ==>
        var account := wallet.hdwallet.value.defaultAccount;
        match GapLimit.ReserveIndex(account.receiveIndex, account.lastUsedReceiveIndex, ReceiveIndexes(trades.value))
        case None => r == Err(GapLimitReached)
        case Some(i) => r == Ok(Reservation(account.receiveAddressAtIndex(i), i, account))
    {
      if trades.None? {
        return Err(TradesNotSet);
      }
      if wallet.hdwallet.None? {
        return Err(UndefinedReference);
      }
      var account := wallet.hdwallet.value.defaultAccount;
      var receiveIndexes := ReceiveIndexes(trades.value);
      ghost var chosen := GapLimit.ReserveIndex(account.receiveIndex, account.lastUsedReceiveIndex, receiveIndexes);
      var receiveAddressIndex := account.receiveIndex;
      if receiveAddressIndex - account.lastUsedReceiveIndex >= GapLimit.MaxGap {
        var found := GapLimit.FindLastExchangeIndex(receiveIndexes, account.receiveIndex);
        assert found == chosen;
        if found.None? {
          return Err(GapLimitReached);
        }
        receiveAddressIndex := found.value;
      }
      assert chosen == Some(receiveAddressIndex);
      var receiveAddress := account.receiveAddressAtIndex(receiveAddressIndex);
      return Ok(Reservation(receiveAddress, receiveAddressIndex, account));
    }

    /**
     * The `commit` closure of a reservation: labels the reserved index with
     * the ids of the registry's trades on the reserved address followed by
     * the new trade's id, then stamps the account and the index on the trade.
     * Nothing else changes.
     */
    method Commit(reservation: Reservation, trade: Trade) returns (r: Outcome<Error>)
      modifies reservation.account`labels, trade`accountIndex, trade`receiveIndex
      ensures trades.None? ==> r == Fail(UndefinedReference)
      ensures trades.None? ==> unchanged(reservation.account) && unchanged(trade)
      ensures trades.Some? ==> r == Pass
      ensures trades.Some? ==>
        reservation.account.labels == old(reservation.account.labels)[reservation.index :=
          Labels.OrderLabel(LabelBase(), old(IdsSharing(trades.value, Some(reservation.receiveAddress))) + [trade.id])]
      ensures trades.Some? ==>
        trade.accountIndex == Some(reservation.account.index) && trade.receiveIndex == Some(reservation.index)
    {
      if trades.None? {
        return Fail(UndefinedReference);
      }
      var ids := IdsSharing(trades.value, Some(reservation.receiveAddress)) + [trade.id];
      var text := Labels.OrderLabel(LabelBase(), ids);
      var account := reservation.account;
      account.labels := account.labels[reservation.index := text];
      trade.accountIndex := Some(account.index);
      trade.receiveIndex := Some(reservation.index);
      return Pass;
    }

    /**
     * `releaseReceiveAddress`: when the trade carries both indices, the label
     * of its receive index (in the account its account index names) is
     * rebuilt from the other trades on its address, or removed when there are
     * none. The trade itself and the registry are left as they are.
     */
    method ReleaseReceiveAddress(trade: Trade) returns (r: Outcome<Error>)
      modifies (set a | wallet.hdwallet.Some? && a in wallet.hdwallet.value.accounts)`labels
      ensures unchanged(trade) && unchanged(this) && unchanged(wallet)
      ensures wallet.hdwallet.Some? ==> unchanged(wallet.hdwallet.value)
      ensures trades.None? ==> r == Fail(TradesNotSet)
      ensures (trades.None? || !IsPositiveInteger(trade.accountIndex) || !IsPositiveInteger(trade.receiveIndex)) ==>
        wallet.hdwallet.Some? ==> forall a :: a in wallet.hdwallet.value.accounts ==> a.labels == old(a.labels)
      ensures (trades.Some? && !(IsPositiveInteger(trade.accountIndex) && IsPositiveInteger(trade.receiveIndex))) ==>
        r == Pass
      ensures (trades.Some? && IsPositiveInteger(trade.accountIndex) && IsPositiveInteger(trade.receiveIndex)
        && wallet.hdwallet.None?) ==> r == Fail(UndefinedReference)
      ensures (trades.Some? && IsPositiveInteger(trade.accountIndex) && IsPositiveInteger(trade.receiveIndex)
        && wallet.hdwallet.Some? && trade.accountIndex.value >= |wallet.hdwallet.value.accounts|) ==>
        r == Fail(UndefinedReference) && forall a :: a in wallet.hdwallet.value.accounts ==> a.labels == old(a.labels)
      ensures (trades.Some? && IsPositiveInteger(trade.accountIndex) && IsPositiveInteger(trade.receiveIndex)
        && wallet.hdwallet.Some? && trade.accountIndex.value < |wallet.hdwallet.value.accounts|) ==>
        var accounts := wallet.hdwallet.value.accounts;
        var account := accounts[trade.accountIndex.value];
        var index := trade.receiveIndex.value;
        var others := old(Without(IdsSharing(trades.value, trade.receiveAddress), trade.id));
        && r == Pass
        && account.labels == (if others == [] then old(account.labels) - {index}
                              else old(account.labels)[index := Labels.OrderLabel(ReleaseLabelBase, others)])
        && forall a :: a in accounts && a != account ==> a.labels == old(a.labels)
    {
      if trades.None? {
        return Fail(TradesNotSet);
      }
      if IsPositiveInteger(trade.accountIndex) && IsPositiveInteger(trade.receiveIndex) {
        if wallet.hdwallet.None? || trade.accountIndex.value >= |wallet.hdwallet.value.accounts| {
          return Fail(UndefinedReference);
        }
        var account := wallet.hdwallet.value.accounts[trade.accountIndex.value];
        var ids := Without(IdsSharing(trades.value, trade.receiveAddress), trade.id);
        if ids == [] {
          account.labels := account.labels - {trade.receiveIndex.value};
        } else {
          var text := Labels.OrderLabel(ReleaseLabelBase, ids);
          account.labels := account.labels[trade.receiveIndex.value := text];
        }
      }
      return Pass;
    }

    /** `serializeExtraFields`: copies the trade's two index fields onto `obj`. */
    method SerializeExtraFields(obj: SerializedTrade, trade: Trade)
      modifies obj`accountIndex, obj`receiveIndex
      ensures obj.accountIndex == trade.accountIndex && obj.receiveIndex == trade.receiveIndex
    {
      obj.accountIndex := trade.accountIndex;
      obj.receiveIndex := trade.receiveIndex;
    }

    /** `deserializeExtraFields`: copies `obj`'s two index fields onto the trade. */
    method DeserializeExtraFields(obj: SerializedTrade, trade: Trade)
      modifies trade`accountIndex, trade`receiveIndex
      ensures trade.accountIndex == obj.accountIndex && trade.receiveIndex == obj.receiveIndex
    {
      trade.accountIndex := obj.accountIndex;
      trade.receiveIndex := obj.receiveIndex;
    }

    /**
     * Serialising a trade and deserialising the result onto another trade
     * gives it the first trade's two index fields, absent ones included, and
     * changes nothing else of it.
     */
    method ExtraFieldsRoundTrip(source: Trade, target: Trade)
      modifies target`accountIndex, target`receiveIndex
      ensures target.accountIndex == old(source.accountIndex)
      ensures target.receiveIndex == old(source.receiveIndex)
    {
      var obj := new SerializedTrade();
      SerializeExtraFields(obj, source);
      DeserializeExtraFields(obj, target);
    }
  }
}
