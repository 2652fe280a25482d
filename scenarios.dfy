/**
 * Walk-throughs of the delegate's operations on concrete trades, using only
 * the contracts of the methods they call.
 */
module Scenarios {
  import opened Wrappers
  import opened ExchangeDelegate
  import GapLimit

  /** The label an account holds at a receive index, if any. */
  function LabelAt(account: Account, index: int): (text: Option<string>)
    reads account
  {
    if index in account.labels then Some(account.labels[index]) else None
  }

  /** The labels of the walk-throughs below, spelled out. */
  lemma ExampleLabels()
    ensures Labels.OrderLabel(DefaultLabelBase, [] + ["1"]) == "Exchange order #1"
    ensures Labels.OrderLabel(DefaultLabelBase, ["1"] + ["2"]) == "Exchange order #1, #2"
    ensures Labels.OrderLabel(ReleaseLabelBase, ["2"]) == "Coinify order #2"
  {
    Labels.CommitLabelAppends(DefaultLabelBase, [], "1");
    Labels.CommitLabelAppends(DefaultLabelBase, ["1"], "2");
  }

  /**
   * The first trade on an address: within the gap limit the account's next
   * receive index, 5, is reserved; commit labels it with the trade's id alone
   * and stamps account 0 and index 5 on the trade.
   */
  method FirstCommitLabelsAlone() returns (shared: Option<string>, stamped: (Option<int>, Option<int>))
    ensures shared == Some("Exchange order #1")
    ensures stamped == (Some(0), Some(5))
  {
    var account := new Account(0, 5, 0, i => if i == 5 then "a" else "b");
    var hdwallet := new HDWallet([account], account);
    var wallet := new Wallet(Some(hdwallet));
    var delegate := new Delegate(wallet);
    delegate.SetTrades(Some([]));
    var reserved := delegate.ReserveReceiveAddress();
    assert reserved == Ok(Reservation("a", 5, account));
    var first := new Trade("1", Some("a"));
    assert IdsSharing([], Some("a")) == [];
    ExampleLabels();
    var outcome := delegate.Commit(reserved.value, first);
    shared := LabelAt(account, 5);
    stamped := (first.accountIndex, first.receiveIndex);
  }

  /**
   * Past the gap limit reserve reuses an address: the account is 25 indices
   * past its last used one, and the first trade was committed to index 22, so
   * reserve returns index 22 and its address.
   */
  method ReserveReusesHeldIndex() returns (reserved: Result<Reservation, Error>, account: Account)
    ensures reserved == Ok(Reservation("a", 22, account))
  {
    account := new Account(0, 30, 5, i => if i == 22 then "a" else "b");
    var first := new Trade("1", Some("a"));
    first.accountIndex, first.receiveIndex := Some(0), Some(22);
    var hdwallet := new HDWallet([account], account);
    var wallet := new Wallet(Some(hdwallet));
    var delegate := new Delegate(wallet);
    delegate.SetTrades(Some([first]));
    reserved := delegate.ReserveReceiveAddress();
    assert ReceiveIndexes([first]) == [Some(22)];
    GapLimit.NearestHeldIndexIsReserved(30, 5, [Some(22)], 22);
  }

  /**
   * Committing a second trade to index 22 and address "a", which the first
   * trade already holds (as reserve returns it above): the label of index 22
   * then lists the first trade's id, then the second's.
   */
  method SecondCommitAppendsId() returns (shared: Option<string>)
    ensures shared == Some("Exchange order #1, #2")
  {
    var account := new Account(0, 30, 5, i => if i == 22 then "a" else "b");
    account.labels := map[22 := "Exchange order #1"];
    var first := new Trade("1", Some("a"));
    first.accountIndex, first.receiveIndex := Some(0), Some(22);
    var hdwallet := new HDWallet([account], account);
    var wallet := new Wallet(Some(hdwallet));
    var delegate := new Delegate(wallet);
    delegate.SetTrades(Some([first]));
    var second := new Trade("2", Some("a"));
    assert IdsSharing([first], Some("a")) == ["1"];
    ExampleLabels();
    assert Labels.OrderLabel(delegate.LabelBase(), IdsSharing([first], Some("a")) + [second.id]) == "Exchange order #1, #2";
    var outcome := delegate.Commit(Reservation("a", 22, account), second);
    shared := LabelAt(account, 22);
  }

  /** With two trades on an address, the id release keeps for the first is the second's. */
  lemma OthersOnAddress(first: Trade, second: Trade, address: string)
    requires first.receiveAddress == Some(address) && second.receiveAddress == Some(address)
    requires first.id == "1" && second.id == "2"
    ensures Without(IdsSharing([first, second], Some(address)), first.id) == ["2"]
  {
    assert IdsSharing([first, second], Some(address)) == ["1", "2"];
    assert Without(["1", "2"], "1") == ["2"];
  }

  /**
   * Releasing one of two trades on receive index 5 rewrites its label
   * "Exchange order #1, #2" to list only the id of the trade that stays,
   * under the release base text.
   */
  method ReleaseRewritesLabel() returns (shared: Option<string>)
    ensures shared == Some("Coinify order #2")
  {
    var account := new Account(0, 6, 0, i => if i == 5 then "a" else "b");
    account.labels := map[5 := "Exchange order #1, #2"];
    var first := new Trade("1", Some("a"));
    first.accountIndex, first.receiveIndex := Some(0), Some(5);
    var second := new Trade("2", Some("a"));
    var hdwallet := new HDWallet([account], account);
    var wallet := new Wallet(Some(hdwallet));
    var delegate := new Delegate(wallet);
    delegate.SetTrades(Some([first, second]));
    OthersOnAddress(first, second, "a");
    ExampleLabels();
    assert hdwallet.accounts[first.accountIndex.value] == account;
    var outcome := delegate.ReleaseReceiveAddress(first);
    shared := LabelAt(account, 5);
  }

  /** Releasing the last trade on receive index 5 removes its label. */
  method ReleaseLastRemovesLabel() returns (shared: Option<string>)
    ensures shared == None
  {
    var account := new Account(0, 6, 0, i => if i == 5 then "a" else "b");
    account.labels := map[5 := "Coinify order #2"];
    var second := new Trade("2", Some("a"));
    second.accountIndex, second.receiveIndex := Some(0), Some(5);
    var hdwallet := new HDWallet([account], account);
    var wallet := new Wallet(Some(hdwallet));
    var delegate := new Delegate(wallet);
    delegate.SetTrades(Some([second]));
    assert Without(IdsSharing([second], Some("a")), "2") == [] by {
      assert IdsSharing([second], Some("a")) == ["2"];
      assert Without(["2"], "2") == [];
    }
    var outcome := delegate.ReleaseReceiveAddress(second);
    shared := LabelAt(account, 5);
  }
}
