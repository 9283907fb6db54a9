/**
 * The builder pass of the genesis tool, as functions on values: which remote
 * records contribute, what each contributes, and in which order. The
 * document class in GenesisDocument runs this pass imperatively and is
 * proved against these functions.
 */
module GenesisBuilder {
  import opened GenesisTypes

  /** Accounts `1.2.0` to `1.2.5` are reserved by the chain and never copied. */
  const FirstOrdinaryInstance: nat := 6

  /** A remote record takes part in the genesis document. */
  predicate Eligible(r: RemoteRecord) {
    r.full.account.instance >= FirstOrdinaryInstance
  }

  /**
   * The key chosen to stand for an authority: the first entry of its key
   * map. Thresholds, weights and every further key are dropped.
   */
  function FirstKey(a: Authority): PublicKey
    requires a.keyAuths != []
  {
    a.keyAuths[0].key
  }

  /** Both authorities of the record have at least one key. */
  predicate HasKeys(r: RemoteRecord) {
    r.full.account.owner.keyAuths != [] && r.full.account.active.keyAuths != []
  }

  /** Every non-zero balance names an asset whose symbol is known. */
  predicate BalancesResolve(bs: seq<AccountBalance>, symbols: map<AssetId, string>) {
    forall j :: 0 <= j < |bs| && bs[j].balance != 0 ==> bs[j].assetType in symbols
  }

  /** Every eligible record has an owner key and an active key. */
  predicate KeysPresent(rs: seq<RemoteRecord>) {
    forall i :: 0 <= i < |rs| && Eligible(rs[i]) ==> HasKeys(rs[i])
  }

  /** Every non-zero balance of every eligible record resolves to a symbol. */
  predicate SymbolsResolve(rs: seq<RemoteRecord>, symbols: map<AssetId, string>) {
    forall i :: 0 <= i < |rs| && Eligible(rs[i]) ==> BalancesResolve(rs[i].full.balances, symbols)
  }

  /** What the builder pass needs of the remote data to be defined. */
  predicate WellFormed(rs: seq<RemoteRecord>, symbols: map<AssetId, string>) {
    KeysPresent(rs) && SymbolsResolve(rs, symbols)
  }

  /** The initial account emitted for one eligible record. */
  function AccountEntry(r: RemoteRecord): InitialAccount
    requires HasKeys(r)
  {
    InitialAccount(r.name, FirstKey(r.full.account.owner), FirstKey(r.full.account.active), r.full.account.isLifetimeMember)
  }

  /** The accounts one record contributes. */
  function AccountStep(r: RemoteRecord): seq<InitialAccount>
    requires Eligible(r) ==> HasKeys(r)
  {
    if Eligible(r) then [AccountEntry(r)] else []
  }

  /** The accounts the pass appends for the records `rs`, in iteration order. */
  function AppendedAccounts(rs: seq<RemoteRecord>): seq<InitialAccount>
    requires KeysPresent(rs)
  {
    if rs == [] then [] else AppendedAccounts(rs[..|rs| - 1]) + AccountStep(rs[|rs| - 1])
  }

  /** The address every balance of a record is credited to. */
  function OwnerAddress(r: RemoteRecord, addressOf: PublicKey -> Address): Address
    requires HasKeys(r)
  {
    addressOf(FirstKey(r.full.account.owner))
  }

  /** The initial balance emitted for one non-zero balance. */
  function BalanceEntry(owner: Address, b: AccountBalance, symbols: map<AssetId, string>): InitialBalance
    requires b.assetType in symbols
  {
    InitialBalance(owner, symbols[b.assetType], b.balance)
  }

  /** The balances contributed by one balance list, zero amounts skipped. */
  function BalanceEntries(owner: Address, bs: seq<AccountBalance>, symbols: map<AssetId, string>): seq<InitialBalance>
    requires BalancesResolve(bs, symbols)
  {
    if bs == [] then []
    else
      var last := bs[|bs| - 1];
      BalanceEntries(owner, bs[..|bs| - 1], symbols)
      + (if last.balance == 0 then [] else [BalanceEntry(owner, last, symbols)])
  }

  /** The balances one record contributes. */
  function BalanceStep(r: RemoteRecord, symbols: map<AssetId, string>, addressOf: PublicKey -> Address): seq<InitialBalance>
    requires Eligible(r) ==> HasKeys(r) && BalancesResolve(r.full.balances, symbols)
  {
    if Eligible(r) then BalanceEntries(OwnerAddress(r, addressOf), r.full.balances, symbols) else []
  }

  /** The balances the pass appends for the records `rs`, in iteration order. */
  function AppendedBalances(rs: seq<RemoteRecord>, symbols: map<AssetId, string>, addressOf: PublicKey -> Address): seq<InitialBalance>
    requires WellFormed(rs, symbols)
  {
    if rs == [] then []
    else AppendedBalances(rs[..|rs| - 1], symbols, addressOf) + BalanceStep(rs[|rs| - 1], symbols, addressOf)
  }

  /** The document after one builder pass over `rs`. */
  function Build(doc: GenesisState, rs: seq<RemoteRecord>, symbols: map<AssetId, string>, addressOf: PublicKey -> Address): GenesisState
    requires WellFormed(rs, symbols)
  {
    doc.(initialAccounts := doc.initialAccounts + AppendedAccounts(rs),
         initialBalances := doc.initialBalances + AppendedBalances(rs, symbols, addressOf))
  }

  // Reference counts, defined independently of the pass (left to right).

  /** The number of eligible records. */
  function EligibleCount(rs: seq<RemoteRecord>): nat {
    if rs == [] then 0 else (if Eligible(rs[0]) then 1 else 0) + EligibleCount(rs[1..])
  }

  /** The number of non-zero balances in a list. */
  function NonZeroCount(bs: seq<AccountBalance>): nat {
    if bs == [] then 0 else (if bs[0].balance != 0 then 1 else 0) + NonZeroCount(bs[1..])
  }

  /** The number of non-zero balances over all eligible records. */
  function NonZeroTotal(rs: seq<RemoteRecord>): nat {
    if rs == [] then 0
    else (if Eligible(rs[0]) then NonZeroCount(rs[0].full.balances) else 0) + NonZeroTotal(rs[1..])
  }

  // ---------------------------------------------------------------------
  // Splitting the pass.

  /** Regrouping appends. */
  lemma AppendAssoc<T>(a: seq<T>, b: seq<T>, c: seq<T>)
    ensures (a + b) + c == a + (b + c)
  {
  }

  lemma {:induction false} KeysPresentConcat(a: seq<RemoteRecord>, b: seq<RemoteRecord>)
    ensures KeysPresent(a + b) <==> KeysPresent(a) && KeysPresent(b)
  {
    if KeysPresent(a + b) {
      forall i | 0 <= i < |a| ensures (a + b)[i] == a[i] { }
      forall i | 0 <= i < |b| ensures (a + b)[|a| + i] == b[i] { }
    }
    if KeysPresent(a) && KeysPresent(b) {
      forall i | 0 <= i < |a + b| && Eligible((a + b)[i]) ensures HasKeys((a + b)[i]) {
        if i < |a| { assert (a + b)[i] == a[i]; } else { assert (a + b)[i] == b[i - |a|]; }
      }
    }
  }

  lemma {:induction false} SymbolsResolveConcat(a: seq<RemoteRecord>, b: seq<RemoteRecord>, symbols: map<AssetId, string>)
    ensures SymbolsResolve(a + b, symbols) <==> SymbolsResolve(a, symbols) && SymbolsResolve(b, symbols)
  {
    if SymbolsResolve(a + b, symbols) {
      forall i | 0 <= i < |a| ensures (a + b)[i] == a[i] { }
      forall i | 0 <= i < |b| ensures (a + b)[|a| + i] == b[i] { }
    }
    if SymbolsResolve(a, symbols) && SymbolsResolve(b, symbols) {
      forall i | 0 <= i < |a + b| && Eligible((a + b)[i])
        ensures BalancesResolve((a + b)[i].full.balances, symbols)
      {
        if i < |a| { assert (a + b)[i] == a[i]; } else { assert (a + b)[i] == b[i - |a|]; }
      }
    }
  }

  lemma WellFormedConcat(a: seq<RemoteRecord>, b: seq<RemoteRecord>, symbols: map<AssetId, string>)
    ensures WellFormed(a + b, symbols) <==> WellFormed(a, symbols) && WellFormed(b, symbols)
  {
    KeysPresentConcat(a, b);
    SymbolsResolveConcat(a, b, symbols);
  }

  lemma {:induction false} BalancesResolveConcat(a: seq<AccountBalance>, b: seq<AccountBalance>, symbols: map<AssetId, string>)
    ensures BalancesResolve(a + b, symbols) <==> BalancesResolve(a, symbols) && BalancesResolve(b, symbols)
  {
    if BalancesResolve(a + b, symbols) {
      forall j | 0 <= j < |a| ensures (a + b)[j] == a[j] { }
      forall j | 0 <= j < |b| ensures (a + b)[|a| + j] == b[j] { }
    }
    if BalancesResolve(a, symbols) && BalancesResolve(b, symbols) {
      forall j | 0 <= j < |a + b| && (a + b)[j].balance != 0 ensures (a + b)[j].assetType in symbols {
        if j < |a| { assert (a + b)[j] == a[j]; } else { assert (a + b)[j] == b[j - |a|]; }
      }
    }
  }

  lemma {:induction false} AppendedAccountsConcat(a: seq<RemoteRecord>, b: seq<RemoteRecord>)
    requires KeysPresent(a + b)
    ensures KeysPresent(a) && KeysPresent(b)
    ensures AppendedAccounts(a + b) == AppendedAccounts(a) + AppendedAccounts(b)
  {
    KeysPresentConcat(a, b);
    if b == [] {
      assert a + b == a;
    } else {
      var b', x := b[..|b| - 1], b[|b| - 1];
      assert b == b' + [x];
      assert a + b == (a + b') + [x];
      KeysPresentConcat(a + b', [x]);
      KeysPresentConcat(b', [x]);
      assert (a + b)[..|a + b| - 1] == a + b';
      AppendedAccountsConcat(a, b');
      AppendAssoc(AppendedAccounts(a), AppendedAccounts(b'), AccountStep(x));
    }
  }

  lemma {:induction false} BalanceEntriesConcat(owner: Address, a: seq<AccountBalance>, b: seq<AccountBalance>, symbols: map<AssetId, string>)
    requires BalancesResolve(a + b, symbols)
    ensures BalancesResolve(a, symbols) && BalancesResolve(b, symbols)
    ensures BalanceEntries(owner, a + b, symbols) == BalanceEntries(owner, a, symbols) + BalanceEntries(owner, b, symbols)
  {
    BalancesResolveConcat(a, b, symbols);
    if b == [] {
      assert a + b == a;
    } else {
      var b', x := b[..|b| - 1], b[|b| - 1];
      assert b == b' + [x];
      assert a + b == (a + b') + [x];
      BalancesResolveConcat(a + b', [x], symbols);
      BalancesResolveConcat(b', [x], symbols);
      assert (a + b)[..|a + b| - 1] == a + b';
      BalanceEntriesConcat(owner, a, b', symbols);
      AppendAssoc(BalanceEntries(owner, a, symbols), BalanceEntries(owner, b', symbols),
                  if x.balance == 0 then [] else [BalanceEntry(owner, x, symbols)]);
    }
  }

  lemma {:induction false} AppendedBalancesConcat(a: seq<RemoteRecord>, b: seq<RemoteRecord>, symbols: map<AssetId, string>, addressOf: PublicKey -> Address)
    requires WellFormed(a + b, symbols)
    ensures WellFormed(a, symbols) && WellFormed(b, symbols)
    ensures AppendedBalances(a + b, symbols, addressOf) == AppendedBalances(a, symbols, addressOf) + AppendedBalances(b, symbols, addressOf)
  {
    WellFormedConcat(a, b, symbols);
    if b == [] {
      assert a + b == a;
    } else {
      var b', x := b[..|b| - 1], b[|b| - 1];
      assert b == b' + [x];
      assert a + b == (a + b') + [x];
      WellFormedConcat(a + b', [x], symbols);
      WellFormedConcat(b', [x], symbols);
      assert (a + b)[..|a + b| - 1] == a + b';
      AppendedBalancesConcat(a, b', symbols, addressOf);
      AppendAssoc(AppendedBalances(a, symbols, addressOf), AppendedBalances(b', symbols, addressOf),
                  BalanceStep(x, symbols, addressOf));
    }
  }

  lemma {:induction false} EligibleCountConcat(a: seq<RemoteRecord>, b: seq<RemoteRecord>)
    ensures EligibleCount(a + b) == EligibleCount(a) + EligibleCount(b)
  {
    if a == [] {
      assert a + b == b;
    } else {
      assert (a + b)[1..] == a[1..] + b;
      EligibleCountConcat(a[1..], b);
    }
  }

  lemma {:induction false} NonZeroCountConcat(a: seq<AccountBalance>, b: seq<AccountBalance>)
    ensures NonZeroCount(a + b) == NonZeroCount(a) + NonZeroCount(b)
  {
    if a == [] {
      assert a + b == b;
    } else {
      assert (a + b)[1..] == a[1..] + b;
      NonZeroCountConcat(a[1..], b);
    }
  }

  lemma {:induction false} NonZeroTotalConcat(a: seq<RemoteRecord>, b: seq<RemoteRecord>)
    ensures NonZeroTotal(a + b) == NonZeroTotal(a) + NonZeroTotal(b)
  {
    if a == [] {
      assert a + b == b;
    } else {
      assert (a + b)[1..] == a[1..] + b;
      NonZeroTotalConcat(a[1..], b);
    }
  }

  /** One step of the pass over records: the prefix up to `i` extends by record `i`. */
  lemma {:induction false} RecordStep(rs: seq<RemoteRecord>, i: nat, symbols: map<AssetId, string>, addressOf: PublicKey -> Address)
    requires WellFormed(rs, symbols) && i < |rs|
    ensures WellFormed(rs[..i], symbols) && WellFormed(rs[..i + 1], symbols)
    ensures Eligible(rs[i]) ==> HasKeys(rs[i]) && BalancesResolve(rs[i].full.balances, symbols)
    ensures AppendedAccounts(rs[..i + 1]) == AppendedAccounts(rs[..i]) + AccountStep(rs[i])
    ensures AppendedBalances(rs[..i + 1], symbols, addressOf)
         == AppendedBalances(rs[..i], symbols, addressOf) + BalanceStep(rs[i], symbols, addressOf)
  {
    assert rs == rs[..i + 1] + rs[i + 1..];
    WellFormedConcat(rs[..i + 1], rs[i + 1..], symbols);
    assert rs[..i + 1] == rs[..i] + [rs[i]];
    WellFormedConcat(rs[..i], [rs[i]], symbols);
    assert rs[..i + 1][..i] == rs[..i];
  }

  /** One step of the pass over a balance list. */
  lemma {:induction false} BalanceStepAt(owner: Address, bs: seq<AccountBalance>, j: nat, symbols: map<AssetId, string>)
    requires BalancesResolve(bs, symbols) && j < |bs|
    ensures BalancesResolve(bs[..j], symbols) && BalancesResolve(bs[..j + 1], symbols)
    ensures bs[j].balance != 0 ==> bs[j].assetType in symbols
    ensures BalanceEntries(owner, bs[..j + 1], symbols)
         == BalanceEntries(owner, bs[..j], symbols)
            + (if bs[j].balance == 0 then [] else [BalanceEntry(owner, bs[j], symbols)])
  {
    assert bs[..j + 1][..j] == bs[..j];
    assert bs[..j + 1][j] == bs[j];
  }

  // ---------------------------------------------------------------------
  // Accounts: one entry per eligible record, in record order.

  /** The pass appends exactly as many accounts as there are eligible records. */
  lemma {:induction false} AppendedAccountsCount(rs: seq<RemoteRecord>)
    requires KeysPresent(rs)
    ensures |AppendedAccounts(rs)| == EligibleCount(rs)
  {
    if rs != [] {
      var p := rs[..|rs| - 1];
      AppendedAccountsCount(p);
      assert p + [rs[|rs| - 1]] == rs;
      EligibleCountConcat(p, [rs[|rs| - 1]]);
    }
  }

  /**
   * The eligible record at index `i` yields the account entry at the index
   * given by the eligible records before it; that entry carries the record's
   * name, the first owner key, the first active key and the lifetime flag.
   */
  lemma AppendedAccountAt(rs: seq<RemoteRecord>, i: nat)
    requires KeysPresent(rs) && i < |rs| && Eligible(rs[i])
    ensures EligibleCount(rs[..i]) < |AppendedAccounts(rs)|
    ensures AppendedAccounts(rs)[EligibleCount(rs[..i])]
         == InitialAccount(rs[i].name, FirstKey(rs[i].full.account.owner), FirstKey(rs[i].full.account.active),
                           rs[i].full.account.isLifetimeMember)
  {
    var pre, post := rs[..i + 1], rs[i + 1..];
    assert rs == pre + post;
    assert pre[..i] == rs[..i];
    assert pre[i] == rs[i];
    AppendedAccountsConcat(pre, post);
    AppendedAccountsCount(rs[..i]);
  }

  /**
   * Every appended account comes from an eligible record, and sits at the
   * index given by the eligible records before that one.
   */
  lemma {:induction false} AppendedAccountOrigin(rs: seq<RemoteRecord>, k: nat)
    requires KeysPresent(rs) && k < |AppendedAccounts(rs)|
    ensures exists i :: 0 <= i < |rs| && Eligible(rs[i]) && EligibleCount(rs[..i]) == k
                     && AppendedAccounts(rs)[k] == AccountEntry(rs[i])
  {
    var n := |rs|;
    var p := rs[..n - 1];
    if k < |AppendedAccounts(p)| {
      AppendedAccountOrigin(p, k);
      var i :| 0 <= i < |p| && Eligible(p[i]) && EligibleCount(p[..i]) == k
             && AppendedAccounts(p)[k] == AccountEntry(p[i]);
      assert p[i] == rs[i] && p[..i] == rs[..i];
    } else {
      AppendedAccountsCount(p);
      assert rs[..n - 1] == p;
      assert Eligible(rs[n - 1]);
    }
  }

  /** An eligible record at `i` counts among the eligible records before any later `j`. */
  lemma EligibleCountGrows(rs: seq<RemoteRecord>, i: nat, j: nat)
    requires i < j <= |rs| && Eligible(rs[i])
    ensures EligibleCount(rs[..i]) < EligibleCount(rs[..j])
  {
    assert rs[..j] == rs[..i] + rs[i..j];
    EligibleCountConcat(rs[..i], rs[i..j]);
    assert rs[i..j] == [rs[i]] + rs[i + 1..j];
    EligibleCountConcat([rs[i]], rs[i + 1..j]);
  }

  /**
   * Of two eligible records, the earlier yields the earlier account entry:
   * the appended accounts hold both entries, at increasing indices.
   */
  lemma AccountsKeepRecordOrder(rs: seq<RemoteRecord>, i: nat, j: nat)
    requires KeysPresent(rs) && i < j < |rs| && Eligible(rs[i]) && Eligible(rs[j])
    ensures EligibleCount(rs[..i]) < EligibleCount(rs[..j]) < |AppendedAccounts(rs)|
    ensures AppendedAccounts(rs)[EligibleCount(rs[..i])] == AccountEntry(rs[i])
    ensures AppendedAccounts(rs)[EligibleCount(rs[..j])] == AccountEntry(rs[j])
  {
    EligibleCountGrows(rs, i, j);
    AppendedAccountAt(rs, i);
    AppendedAccountAt(rs, j);
  }

  /** Records with pairwise distinct names yield accounts with pairwise distinct names. */
  lemma AppendedNamesDistinct(rs: seq<RemoteRecord>, k1: nat, k2: nat)
    requires KeysPresent(rs)
    requires forall i, j :: 0 <= i < j < |rs| ==> rs[i].name != rs[j].name
    requires k1 < k2 < |AppendedAccounts(rs)|
    ensures AppendedAccounts(rs)[k1].name != AppendedAccounts(rs)[k2].name
  {
    AppendedAccountOrigin(rs, k1);
    AppendedAccountOrigin(rs, k2);
    var i1 :| 0 <= i1 < |rs| && Eligible(rs[i1]) && EligibleCount(rs[..i1]) == k1
            && AppendedAccounts(rs)[k1] == AccountEntry(rs[i1]);
    var i2 :| 0 <= i2 < |rs| && Eligible(rs[i2]) && EligibleCount(rs[..i2]) == k2
            && AppendedAccounts(rs)[k2] == AccountEntry(rs[i2]);
    if i2 < i1 {
      EligibleCountGrows(rs, i2, i1);
    }
  }

  // ---------------------------------------------------------------------
  // Balances: one entry per non-zero balance of an eligible record.

  lemma {:induction false} BalanceEntriesCount(owner: Address, bs: seq<AccountBalance>, symbols: map<AssetId, string>)
    requires BalancesResolve(bs, symbols)
    ensures |BalanceEntries(owner, bs, symbols)| == NonZeroCount(bs)
  {
    if bs != [] {
      var p := bs[..|bs| - 1];
      BalanceEntriesCount(owner, p, symbols);
      assert p + [bs[|bs| - 1]] == bs;
      NonZeroCountConcat(p, [bs[|bs| - 1]]);
    }
  }

  /** The pass appends exactly one balance per non-zero balance of an eligible record. */
  lemma {:induction false} AppendedBalancesCount(rs: seq<RemoteRecord>, symbols: map<AssetId, string>, addressOf: PublicKey -> Address)
    requires WellFormed(rs, symbols)
    ensures |AppendedBalances(rs, symbols, addressOf)| == NonZeroTotal(rs)
  {
    if rs != [] {
      var n := |rs|;
      var p := rs[..n - 1];
      AppendedBalancesCount(p, symbols, addressOf);
      assert p + [rs[n - 1]] == rs;
      NonZeroTotalConcat(p, [rs[n - 1]]);
      if Eligible(rs[n - 1]) {
        BalanceEntriesCount(OwnerAddress(rs[n - 1], addressOf), rs[n - 1].full.balances, symbols);
      }
    }
  }

  lemma BalanceEntryAt(owner: Address, bs: seq<AccountBalance>, j: nat, symbols: map<AssetId, string>)
    requires BalancesResolve(bs, symbols) && j < |bs| && bs[j].balance != 0
    ensures NonZeroCount(bs[..j]) < |BalanceEntries(owner, bs, symbols)|
    ensures BalanceEntries(owner, bs, symbols)[NonZeroCount(bs[..j])] == BalanceEntry(owner, bs[j], symbols)
  {
    var pre, post := bs[..j + 1], bs[j + 1..];
    assert bs == pre + post;
    assert pre[..j] == bs[..j];
    assert pre[j] == bs[j];
    BalanceEntriesConcat(owner, pre, post, symbols);
    BalanceEntriesCount(owner, bs[..j], symbols);
  }

  /** A non-zero balance at `j1` counts among the non-zero balances before any later `j2`. */
  lemma NonZeroCountGrows(bs: seq<AccountBalance>, j1: nat, j2: nat)
    requires j1 < j2 <= |bs| && bs[j1].balance != 0
    ensures NonZeroCount(bs[..j1]) < NonZeroCount(bs[..j2])
  {
    assert bs[..j2] == bs[..j1] + bs[j1..j2];
    NonZeroCountConcat(bs[..j1], bs[j1..j2]);
    assert bs[j1..j2] == [bs[j1]] + bs[j1 + 1..j2];
    NonZeroCountConcat([bs[j1]], bs[j1 + 1..j2]);
  }

  /**
   * Of two non-zero balances of one list, the earlier yields the earlier
   * balance entry: the list's entries hold both, at increasing indices.
   */
  lemma BalancesKeepListOrder(owner: Address, bs: seq<AccountBalance>, j1: nat, j2: nat, symbols: map<AssetId, string>)
    requires BalancesResolve(bs, symbols) && j1 < j2 < |bs| && bs[j1].balance != 0 && bs[j2].balance != 0
    ensures NonZeroCount(bs[..j1]) < NonZeroCount(bs[..j2]) < |BalanceEntries(owner, bs, symbols)|
    ensures BalanceEntries(owner, bs, symbols)[NonZeroCount(bs[..j1])] == BalanceEntry(owner, bs[j1], symbols)
    ensures BalanceEntries(owner, bs, symbols)[NonZeroCount(bs[..j2])] == BalanceEntry(owner, bs[j2], symbols)
  {
    NonZeroCountGrows(bs, j1, j2);
    BalanceEntryAt(owner, bs, j1, symbols);
    BalanceEntryAt(owner, bs, j2, symbols);
  }

  /**
   * The non-zero balance `j` of the eligible record `i` yields the balance
   * entry after those of the earlier records and of the earlier non-zero
   * balances of the same record; it is credited to the address of the
   * record's first owner key, with the symbol of its asset and its amount.
   */
  lemma AppendedBalanceAt(rs: seq<RemoteRecord>, i: nat, j: nat, symbols: map<AssetId, string>, addressOf: PublicKey -> Address)
    requires WellFormed(rs, symbols) && i < |rs| && Eligible(rs[i])
    requires j < |rs[i].full.balances| && rs[i].full.balances[j].balance != 0
    ensures NonZeroTotal(rs[..i]) + NonZeroCount(rs[i].full.balances[..j]) < |AppendedBalances(rs, symbols, addressOf)|
    ensures AppendedBalances(rs, symbols, addressOf)[NonZeroTotal(rs[..i]) + NonZeroCount(rs[i].full.balances[..j])]
         == InitialBalance(addressOf(FirstKey(rs[i].full.account.owner)),
                           symbols[rs[i].full.balances[j].assetType],
                           rs[i].full.balances[j].balance)
  {
    var pre, post := rs[..i + 1], rs[i + 1..];
    assert rs == pre + post;
    assert pre[..i] == rs[..i];
    assert pre[i] == rs[i];
    WellFormedConcat(pre, post, symbols);
    AppendedBalancesConcat(pre, post, symbols, addressOf);
    AppendedBalancesCount(rs[..i], symbols, addressOf);
    BalanceEntryAt(OwnerAddress(rs[i], addressOf), rs[i].full.balances, j, symbols);
  }

  /** An eligible record at `i1` adds all its non-zero balances before any later `i2`. */
  lemma NonZeroTotalGrows(rs: seq<RemoteRecord>, i1: nat, i2: nat)
    requires i1 < i2 <= |rs| && Eligible(rs[i1])
    ensures NonZeroTotal(rs[..i1]) + NonZeroCount(rs[i1].full.balances) <= NonZeroTotal(rs[..i2])
  {
    assert rs[..i2] == rs[..i1] + rs[i1..i2];
    NonZeroTotalConcat(rs[..i1], rs[i1..i2]);
    assert rs[i1..i2] == [rs[i1]] + rs[i1 + 1..i2];
    NonZeroTotalConcat([rs[i1]], rs[i1 + 1..i2]);
  }

  /**
   * Balances are appended record by record: a non-zero balance of an earlier
   * eligible record yields an entry before any balance entry of a later one.
   */
  lemma AppendedBalancesKeepRecordOrder(rs: seq<RemoteRecord>, i1: nat, j1: nat, i2: nat, j2: nat,
                                        symbols: map<AssetId, string>, addressOf: PublicKey -> Address)
    requires WellFormed(rs, symbols) && i1 < i2 < |rs| && Eligible(rs[i1]) && Eligible(rs[i2])
    requires j1 < |rs[i1].full.balances| && rs[i1].full.balances[j1].balance != 0
    requires j2 < |rs[i2].full.balances| && rs[i2].full.balances[j2].balance != 0
    ensures var k1 := NonZeroTotal(rs[..i1]) + NonZeroCount(rs[i1].full.balances[..j1]);
      var k2 := NonZeroTotal(rs[..i2]) + NonZeroCount(rs[i2].full.balances[..j2]);
      && k1 < k2 < |AppendedBalances(rs, symbols, addressOf)|
      && AppendedBalances(rs, symbols, addressOf)[k1]
         == BalanceEntry(OwnerAddress(rs[i1], addressOf), rs[i1].full.balances[j1], symbols)
      && AppendedBalances(rs, symbols, addressOf)[k2]
         == BalanceEntry(OwnerAddress(rs[i2], addressOf), rs[i2].full.balances[j2], symbols)
  {
    var bs := rs[i1].full.balances;
    assert bs[..|bs|] == bs;
    NonZeroCountGrows(bs, j1, |bs|);
    NonZeroTotalGrows(rs, i1, i2);
    AppendedBalanceAt(rs, i1, j1, symbols, addressOf);
    AppendedBalanceAt(rs, i2, j2, symbols, addressOf);
  }

  lemma {:induction false} BalanceEntryOrigin(owner: Address, bs: seq<AccountBalance>, symbols: map<AssetId, string>, k: nat)
    requires BalancesResolve(bs, symbols) && k < |BalanceEntries(owner, bs, symbols)|
    ensures exists j :: 0 <= j < |bs| && bs[j].balance != 0
                     && BalanceEntries(owner, bs, symbols)[k] == BalanceEntry(owner, bs[j], symbols)
  {
    var p := bs[..|bs| - 1];
    if k < |BalanceEntries(owner, p, symbols)| {
      BalanceEntryOrigin(owner, p, symbols, k);
      var j :| 0 <= j < |p| && p[j].balance != 0
             && BalanceEntries(owner, p, symbols)[k] == BalanceEntry(owner, p[j], symbols);
      assert p[j] == bs[j];
    } else {
      assert bs[|bs| - 1].balance != 0;
    }
  }

  /**
   * Every appended balance comes from a non-zero balance of an eligible
   * record: it is credited to that record's owner address and carries that
   * balance's symbol and amount.
   */
  lemma {:induction false} AppendedBalanceOrigin(rs: seq<RemoteRecord>, symbols: map<AssetId, string>, addressOf: PublicKey -> Address, k: nat)
    requires WellFormed(rs, symbols) && k < |AppendedBalances(rs, symbols, addressOf)|
    ensures exists i, j :: 0 <= i < |rs| && Eligible(rs[i])
                        && 0 <= j < |rs[i].full.balances| && rs[i].full.balances[j].balance != 0
                        && AppendedBalances(rs, symbols, addressOf)[k]
                           == InitialBalance(addressOf(FirstKey(rs[i].full.account.owner)),
                                             symbols[rs[i].full.balances[j].assetType],
                                             rs[i].full.balances[j].balance)
  {
    var n := |rs|;
    var p := rs[..n - 1];
    var head := AppendedBalances(p, symbols, addressOf);
    if k < |head| {
      AppendedBalanceOrigin(p, symbols, addressOf, k);
      var i, j :| 0 <= i < |p| && Eligible(p[i])
                && 0 <= j < |p[i].full.balances| && p[i].full.balances[j].balance != 0
                && head[k] == InitialBalance(addressOf(FirstKey(p[i].full.account.owner)),
                                             symbols[p[i].full.balances[j].assetType],
                                             p[i].full.balances[j].balance);
      assert p[i] == rs[i];
    } else {
      var r := rs[n - 1];
      assert Eligible(r);
      BalanceEntryOrigin(OwnerAddress(r, addressOf), r.full.balances, symbols, k - |head|);
      var j :| 0 <= j < |r.full.balances| && r.full.balances[j].balance != 0
             && BalanceEntries(OwnerAddress(r, addressOf), r.full.balances, symbols)[k - |head|]
                == BalanceEntry(OwnerAddress(r, addressOf), r.full.balances[j], symbols);
      assert rs[n - 1].full.balances[j] == r.full.balances[j];
    }
  }

  // ---------------------------------------------------------------------
  // What never contributes.

  /** Removing a reserved record does not change the appended accounts. */
  lemma {:induction false} ReservedRecordAddsNoAccount(rs: seq<RemoteRecord>, i: nat)
    requires KeysPresent(rs) && i < |rs| && !Eligible(rs[i])
    ensures KeysPresent(rs[..i] + rs[i + 1..])
    ensures AppendedAccounts(rs[..i] + rs[i + 1..]) == AppendedAccounts(rs)
  {
    var pre, x, post := rs[..i], rs[i], rs[i + 1..];
    assert rs == (pre + [x]) + post;
    assert KeysPresent(pre + [x]) && KeysPresent(pre) && KeysPresent(post) by {
      KeysPresentConcat(pre + [x], post);
      KeysPresentConcat(pre, [x]);
    }
    assert KeysPresent(pre + post) by {
      KeysPresentConcat(pre, post);
    }
    assert AppendedAccounts(pre + [x]) == AppendedAccounts(pre) by {
      assert (pre + [x])[..|pre + [x]| - 1] == pre;
    }
    assert AppendedAccounts(rs) == AppendedAccounts(pre) + AppendedAccounts(post) by {
      AppendedAccountsConcat(pre + [x], post);
    }
    AppendedAccountsConcat(pre, post);
  }

  /** Removing a reserved record does not change the appended balances. */
  lemma {:induction false} ReservedRecordAddsNoBalance(rs: seq<RemoteRecord>, i: nat, symbols: map<AssetId, string>, addressOf: PublicKey -> Address)
    requires WellFormed(rs, symbols) && i < |rs| && !Eligible(rs[i])
    ensures WellFormed(rs[..i] + rs[i + 1..], symbols)
    ensures AppendedBalances(rs[..i] + rs[i + 1..], symbols, addressOf) == AppendedBalances(rs, symbols, addressOf)
  {
    var pre, x, post := rs[..i], rs[i], rs[i + 1..];
    assert rs == (pre + [x]) + post;
    assert WellFormed(pre + [x], symbols) && WellFormed(pre, symbols) && WellFormed(post, symbols) by {
      WellFormedConcat(pre + [x], post, symbols);
      WellFormedConcat(pre, [x], symbols);
    }
    assert WellFormed(pre + post, symbols) by {
      WellFormedConcat(pre, post, symbols);
    }
    assert AppendedBalances(pre + [x], symbols, addressOf) == AppendedBalances(pre, symbols, addressOf) by {
      assert (pre + [x])[..|pre + [x]| - 1] == pre;
    }
    assert AppendedBalances(rs, symbols, addressOf)
        == AppendedBalances(pre, symbols, addressOf) + AppendedBalances(post, symbols, addressOf) by {
      AppendedBalancesConcat(pre + [x], post, symbols, addressOf);
    }
    AppendedBalancesConcat(pre, post, symbols, addressOf);
  }

  /** A pass over reserved records only appends nothing. */
  lemma {:induction false} OnlyReservedRecords(rs: seq<RemoteRecord>, symbols: map<AssetId, string>, addressOf: PublicKey -> Address)
    requires forall i :: 0 <= i < |rs| ==> !Eligible(rs[i])
    ensures WellFormed(rs, symbols)
    ensures AppendedAccounts(rs) == [] && AppendedBalances(rs, symbols, addressOf) == []
  {
    if rs != [] {
      var p := rs[..|rs| - 1];
      assert forall i :: 0 <= i < |p| ==> p[i] == rs[i];
      OnlyReservedRecords(p, symbols, addressOf);
    }
  }

  /** Removing a zero balance does not change the entries of a balance list. */
  lemma {:induction false} ZeroBalanceContributesNothing(owner: Address, bs: seq<AccountBalance>, j: nat, symbols: map<AssetId, string>)
    requires BalancesResolve(bs, symbols) && j < |bs| && bs[j].balance == 0
    ensures BalancesResolve(bs[..j] + bs[j + 1..], symbols)
    ensures BalanceEntries(owner, bs[..j] + bs[j + 1..], symbols) == BalanceEntries(owner, bs, symbols)
  {
    var pre, mid, post := bs[..j], bs[..j + 1], bs[j + 1..];
    assert bs == mid + post;
    assert mid[..j] == pre;
    assert mid[j] == bs[j];
    forall k | 0 <= k < |pre + post| && (pre + post)[k].balance != 0
      ensures (pre + post)[k].assetType in symbols
    {
      if k < j { assert (pre + post)[k] == bs[k]; } else { assert (pre + post)[k] == bs[k + 1]; }
    }
    BalanceEntriesConcat(owner, mid, post, symbols);
    BalanceEntriesConcat(owner, pre, post, symbols);
  }

  lemma {:induction false} BalanceEntriesNonZero(owner: Address, bs: seq<AccountBalance>, symbols: map<AssetId, string>)
    requires BalancesResolve(bs, symbols)
    ensures forall k :: 0 <= k < |BalanceEntries(owner, bs, symbols)| ==> BalanceEntries(owner, bs, symbols)[k].amount != 0
  {
    if bs != [] {
      BalanceEntriesNonZero(owner, bs[..|bs| - 1], symbols);
    }
  }

  /** No appended balance has amount zero. */
  lemma {:induction false} AppendedBalancesNonZero(rs: seq<RemoteRecord>, symbols: map<AssetId, string>, addressOf: PublicKey -> Address)
    requires WellFormed(rs, symbols)
    ensures forall k :: 0 <= k < |AppendedBalances(rs, symbols, addressOf)| ==> AppendedBalances(rs, symbols, addressOf)[k].amount != 0
  {
    if rs != [] {
      var r := rs[|rs| - 1];
      AppendedBalancesNonZero(rs[..|rs| - 1], symbols, addressOf);
      if Eligible(r) {
        BalanceEntriesNonZero(OwnerAddress(r, addressOf), r.full.balances, symbols);
      }
    }
  }

  // ---------------------------------------------------------------------
  // The pass as a whole.

  /**
   * The pass only appends: the document's sequences before the pass are
   * prefixes of those after it, the numbers added are the eligible count
   * and the non-zero balance total, and every other field is unchanged.
   */
  lemma BuildOnlyAppends(doc: GenesisState, rs: seq<RemoteRecord>, symbols: map<AssetId, string>, addressOf: PublicKey -> Address)
    requires WellFormed(rs, symbols)
    ensures var out := Build(doc, rs, symbols, addressOf);
      && out.params == doc.params
      && doc.initialAccounts <= out.initialAccounts
      && doc.initialBalances <= out.initialBalances
      && |out.initialAccounts| == |doc.initialAccounts| + EligibleCount(rs)
      && |out.initialBalances| == |doc.initialBalances| + NonZeroTotal(rs)
  {
    AppendedAccountsCount(rs);
    AppendedBalancesCount(rs, symbols, addressOf);
  }

  /**
   * No deduplication: a second pass over the same records appends the same
   * entries again, so every eligible record has two account entries.
   */
  lemma BuildTwiceDuplicates(doc: GenesisState, rs: seq<RemoteRecord>, symbols: map<AssetId, string>, addressOf: PublicKey -> Address, i: nat)
    requires WellFormed(rs, symbols) && i < |rs| && Eligible(rs[i])
    ensures var once := Build(doc, rs, symbols, addressOf);
      var twice := Build(once, rs, symbols, addressOf);
      && twice.initialAccounts == once.initialAccounts + AppendedAccounts(rs)
      && twice.initialBalances == once.initialBalances + AppendedBalances(rs, symbols, addressOf)
      && |twice.initialAccounts| == |doc.initialAccounts| + 2 * EligibleCount(rs)
      && var k := |doc.initialAccounts| + EligibleCount(rs[..i]);
         k + EligibleCount(rs) < |twice.initialAccounts|
         && twice.initialAccounts[k] == twice.initialAccounts[k + EligibleCount(rs)] == AccountEntry(rs[i])
  {
    AppendedAccountsCount(rs);
    AppendedAccountAt(rs, i);
  }
}
