/**
 * Values exchanged by the genesis builder: the records read from a remote
 * node's database API and the entries of a genesis document.
 */
module GenesisTypes {

  /** `share_type`: a signed 64-bit amount. */
  newtype ShareType = x: int | -0x8000_0000_0000_0000 <= x < 0x8000_0000_0000_0000

  /** A public key, kept as its serialised bytes; the builder only copies keys. */
  datatype PublicKey = PublicKey(data: seq<bv8>)

  /** An address derived from a public key (the derivation is a parameter of the model). */
  datatype Address = Address(data: seq<bv8>)

  /** The instance number of an asset id `1.3.n`. */
  type AssetId = nat

  /** One entry of an authority's `key_auths`: a key and its weight. */
  datatype KeyWeight = KeyWeight(key: PublicKey, weight: nat)

  /**
   * An authority: a threshold and its weighted keys, in the order in which
   * the authority's key map iterates them. Account and address entries of
   * an authority are never read by the builder and are not represented.
   */
  datatype Authority = Authority(weightThreshold: nat, keyAuths: seq<KeyWeight>)

  /**
   * The account part of a remote full-account record: the instance of its
   * id `1.2.n`, its owner and active authorities and its lifetime-member flag.
   */
  datatype AccountObject = AccountObject(
    instance: nat,
    owner: Authority,
    active: Authority,
    isLifetimeMember: bool)

  /** One balance of an account: an asset id and the amount held. */
  datatype AccountBalance = AccountBalance(assetType: AssetId, balance: ShareType)

  /** A full account as returned by `get_full_accounts`. */
  datatype FullAccount = FullAccount(account: AccountObject, balances: seq<AccountBalance>)

  /** One entry of the remote result: an account name and its full account. */
  datatype RemoteRecord = RemoteRecord(name: string, full: FullAccount)

  /** `initial_account_type` of a genesis document. */
  datatype InitialAccount = InitialAccount(
    name: string,
    ownerKey: PublicKey,
    activeKey: PublicKey,
    isLifetimeMember: bool)

  /** `initial_balance_type` of a genesis document. */
  datatype InitialBalance = InitialBalance(owner: Address, assetSymbol: string, amount: ShareType)

  /**
   * Every field of a genesis document other than its initial accounts and
   * initial balances (timestamps, chain parameters, assets, candidates, chain
   * id), kept as one serialised value: the builder never looks inside it.
   */
  datatype ChainParams = ChainParams(encoded: seq<bv8>)

  /** A genesis document as a value: what is read from and written to a file. */
  datatype GenesisState = GenesisState(
    initialAccounts: seq<InitialAccount>,
    initialBalances: seq<InitialBalance>,
    params: ChainParams)

  datatype Option<T> = None | Some(value: T)
}
