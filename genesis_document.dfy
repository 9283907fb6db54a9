/**
 * The genesis document being rebuilt, updated in place as the tool does:
 * loading and preparing the seed document, the builder pass with its nested
 * loops, and the top-level run that aborts before writing when the seed is
 * missing.
 */
module GenesisDocument {
  import opened GenesisTypes
  import opened GenesisBuilder

  /** The seed after loading: its entries kept in append mode, dropped otherwise. */
  function Prepare(seed: GenesisState, appendMode: bool): GenesisState {
    if appendMode then seed else seed.(initialAccounts := [], initialBalances := [])
  }

  /** The outcome of one run: the exit code and the document written, if any. */
  datatype RunResult = RunResult(exitCode: int, output: Option<GenesisState>)

  /**
   * One run on values. `seed` is the content of the seed file (`None` when
   * no file exists at its path); the records, the symbol of each asset id and
   * the address derivation stand for what the remote node would supply.
   */
  function Run(seed: Option<GenesisState>, appendMode: bool, records: seq<RemoteRecord>,
               symbols: map<AssetId, string>, addressOf: PublicKey -> Address): (r: RunResult)
    requires seed.Some? ==> WellFormed(records, symbols)
    ensures seed.None? <==> r.exitCode == -1
    ensures seed.None? <==> r.output.None?
    ensures seed.Some? ==> r.exitCode == 0 && r.output.value.params == seed.value.params
  {
    match seed
    case None => RunResult(-1, None)
    case Some(s) => RunResult(0, Some(Build(Prepare(s, appendMode), records, symbols, addressOf)))
  }

  class GenesisDoc {
    var initialAccounts: seq<InitialAccount>
    var initialBalances: seq<InitialBalance>
    var params: ChainParams

    /** A default-constructed document. */
    constructor ()
      ensures initialAccounts == [] && initialBalances == [] && params == ChainParams([])
    {
      initialAccounts, initialBalances, params := [], [], ChainParams([]);
    }

    /** The document as the value that would be saved. */
    function Snapshot(): GenesisState
      reads this
    {
      GenesisState(initialAccounts, initialBalances, params)
    }

    /**
     * Loads the seed document. With no seed file the document is left as it
     * was and the result is false. Otherwise the document becomes the seed,
     * and outside append mode its accounts and balances are cleared.
     */
    method Load(seed: Option<GenesisState>, appendMode: bool) returns (found: bool)
      modifies this
      ensures found <==> seed.Some?
      ensures !found ==> Snapshot() == old(Snapshot())
      ensures found ==> params == seed.value.params
      ensures found && appendMode ==>
        initialAccounts == seed.value.initialAccounts && initialBalances == seed.value.initialBalances
      ensures found && !appendMode ==> initialAccounts == [] && initialBalances == []
      ensures found ==> Snapshot() == Prepare(seed.value, appendMode)
    {
      if seed.Some? {
        initialAccounts, initialBalances, params :=
          seed.value.initialAccounts, seed.value.initialBalances, seed.value.params;
        if !appendMode {
          initialAccounts := [];
          initialBalances := [];
        }
        return true;
      }
      return false;
    }

    /**
     * The builder pass: for each eligible record, appends its account entry
     * and then one balance entry per non-zero balance, leaving every other
     * field alone.
     */
    method Update(records: seq<RemoteRecord>, symbols: map<AssetId, string>, addressOf: PublicKey -> Address)
      requires WellFormed(records, symbols)
      modifies this
      ensures initialAccounts == old(initialAccounts) + AppendedAccounts(records)
      ensures initialBalances == old(initialBalances) + AppendedBalances(records, symbols, addressOf)
      ensures params == old(params)
    {
      for i := 0 to |records|
        invariant WellFormed(records[..i], symbols)
        invariant initialAccounts == old(initialAccounts) + AppendedAccounts(records[..i])
        invariant initialBalances == old(initialBalances) + AppendedBalances(records[..i], symbols, addressOf)
        invariant params == old(params)
      {
        RecordStep(records, i, symbols, addressOf);
        AppendRecord(records[i], symbols, addressOf);
        AppendAssoc(old(initialAccounts), AppendedAccounts(records[..i]), AccountStep(records[i]));
        AppendAssoc(old(initialBalances), AppendedBalances(records[..i], symbols, addressOf), BalanceStep(records[i], symbols, addressOf));
      }
      assert records[..|records|] == records;
    }

    /**
     * The body of the builder pass for one record: nothing for a reserved
     * account (the early return is the loop's `continue`); otherwise its
     * account entry, then its balance entries.
     */
    method AppendRecord(record: RemoteRecord, symbols: map<AssetId, string>, addressOf: PublicKey -> Address)
      requires Eligible(record) ==> HasKeys(record) && BalancesResolve(record.full.balances, symbols)
      modifies this
      ensures initialAccounts == old(initialAccounts) + AccountStep(record)
      ensures initialBalances == old(initialBalances) + BalanceStep(record, symbols, addressOf)
      ensures params == old(params)
    {
      var name, full := record.name, record.full;
      if full.account.instance < FirstOrdinaryInstance {
        return;
      }
      var ownerKey := full.account.owner.keyAuths[0].key;
      var activeKey := full.account.active.keyAuths[0].key;
      initialAccounts := initialAccounts + [InitialAccount(name, ownerKey, activeKey, full.account.isLifetimeMember)];
      AppendBalances(addressOf(ownerKey), full.balances, symbols);
    }

    /**
     * The inner loop of the builder pass: one balance entry credited to
     * `owner` per non-zero balance, in list order. main.cpp derives the
     * address anew for each balance; it is the same address each time.
     */
    method AppendBalances(owner: Address, balances: seq<AccountBalance>, symbols: map<AssetId, string>)
      requires BalancesResolve(balances, symbols)
      modifies this
      ensures initialBalances == old(initialBalances) + BalanceEntries(owner, balances, symbols)
      ensures initialAccounts == old(initialAccounts) && params == old(params)
    {
      for j := 0 to |balances|
        invariant initialBalances == old(initialBalances) + BalanceEntries(owner, balances[..j], symbols)
        invariant initialAccounts == old(initialAccounts) && params == old(params)
      {
        BalanceStepAt(owner, balances, j, symbols);
        var b := balances[j];
        if b.balance == 0 {
          continue;
        }
        initialBalances := initialBalances + [InitialBalance(owner, symbols[b.assetType], b.balance)];
        AppendAssoc(old(initialBalances), BalanceEntries(owner, balances[..j], symbols), [BalanceEntry(owner, b, symbols)]);
      }
      assert balances[..|balances|] == balances;
    }
  }

  /**
   * The tool's main flow: load and prepare the seed, stop with exit code -1
   * and no output when it is missing, otherwise run the builder pass and
   * write the document.
   */
  method RunTool(seed: Option<GenesisState>, appendMode: bool, records: seq<RemoteRecord>,
                 symbols: map<AssetId, string>, addressOf: PublicKey -> Address)
    returns (exitCode: int, output: Option<GenesisState>)
    requires seed.Some? ==> WellFormed(records, symbols)
    ensures seed.None? ==> exitCode == -1 && output == None
    ensures RunResult(exitCode, output) == Run(seed, appendMode, records, symbols, addressOf)
  {
    var doc := new GenesisDoc();
    var found := doc.Load(seed, appendMode);
    if !found {
      return -1, None;
    }
    doc.Update(records, symbols, addressOf);
    return 0, Some(doc.Snapshot());
  }

  /**
   * Without append mode a run does not depend on the seed's own accounts and
   * balances, so feeding a run's output back as the seed gives the same output.
   */
  lemma ResetRunIsIdempotent(s: GenesisState, records: seq<RemoteRecord>,
                             symbols: map<AssetId, string>, addressOf: PublicKey -> Address)
    requires WellFormed(records, symbols)
    ensures var first := Run(Some(s), false, records, symbols, addressOf);
      first.output.Some? && Run(first.output, false, records, symbols, addressOf) == first
  {
  }

  /**
   * Without append mode nothing of the seed's own accounts and balances
   * reaches the output: two seeds that differ only there give the same run.
   */
  lemma ResetRunIgnoresSeedEntries(s1: GenesisState, s2: GenesisState, records: seq<RemoteRecord>,
                                   symbols: map<AssetId, string>, addressOf: PublicKey -> Address)
    requires WellFormed(records, symbols) && s1.params == s2.params
    ensures Run(Some(s1), false, records, symbols, addressOf) == Run(Some(s2), false, records, symbols, addressOf)
  {
  }

  /**
   * In append mode a second run over its own output adds every entry again:
   * the output holds the seed's entries followed by two copies of the
   * appended ones.
   */
  lemma AppendRunTwiceDoubles(s: GenesisState, records: seq<RemoteRecord>,
                              symbols: map<AssetId, string>, addressOf: PublicKey -> Address)
    requires WellFormed(records, symbols)
    ensures var first := Run(Some(s), true, records, symbols, addressOf);
      var second := Run(first.output, true, records, symbols, addressOf);
      && second.output.Some?
      && second.output.value.initialAccounts
         == s.initialAccounts + AppendedAccounts(records) + AppendedAccounts(records)
      && second.output.value.initialBalances
         == s.initialBalances + AppendedBalances(records, symbols, addressOf) + AppendedBalances(records, symbols, addressOf)
      && |second.output.value.initialAccounts| == |s.initialAccounts| + 2 * EligibleCount(records)
      && |second.output.value.initialBalances| == |s.initialBalances| + 2 * NonZeroTotal(records)
  {
    AppendedAccountsCount(records);
    AppendedBalancesCount(records, symbols, addressOf);
  }
}
