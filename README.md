# accounts_to_genesis: the genesis builder

`accounts_to_genesis` rebuilds a genesis document, the bootstrap state of a new
chain instance, from the accounts of a running node. It loads a seed genesis
document. Outside append mode it clears the seed's initial accounts and
initial balances. It then makes one pass over the node's full-account records:

- accounts `1.2.0` to `1.2.5` are reserved and skipped;
- every other account adds one initial account (its name, the first key of its
  owner authority, the first key of its active authority, its lifetime-member
  flag);
- every non-zero balance of that account adds one initial balance (the address
  of the owner key, the symbol of the balance's asset, the amount).

When the seed file is missing the run exits with -1 and writes nothing.

The model has three modules:

- `GenesisTypes` (`genesis_types.dfy`): the records read from the node and the
  entries of a genesis document, as datatypes.
- `GenesisBuilder` (`genesis_builder.dfy`): the pass written as functions on
  values (`AppendedAccounts`, `AppendedBalances`, `Build`), plus the lemmas
  about them: which records contribute, what each contributes, and where in
  the output, and that nothing is deduplicated.
- `GenesisDocument` (`genesis_document.dfy`): the document as a class whose
  fields are updated in place. `Load` models `getGenesisData`. `Update`,
  `AppendRecord` and `AppendBalances` are the nested loops of
  `updateGenesisData`, and each is proved against the builder functions.
  `RunTool` is the control flow of `main`, proved equal to the value-level
  `Run`.

Inputs that come from outside the program are parameters:

- the content of the seed file, as `Option<GenesisState>`, with `None` when no
  file exists at the path;
- the remote full accounts, as a sequence of (name, record) pairs in the order
  the remote map iterates them;
- the asset symbols, as a map from asset id to symbol;
- address derivation, as a function `PublicKey -> Address` that stays
  uninterpreted.

Two points of the code shape the model:

- `initial_balance_type::amount` is the signed 64-bit `share_type`, and the
  pass copies it unchanged (`main.cpp:131`). The model uses `ShareType`.
- Some inputs lead to undefined behaviour: an eligible account whose owner or
  active key map is empty (`main.cpp:106`, `108`), and a non-zero balance
  whose asset does not resolve (`main.cpp:130`). The model makes these cases
  the precondition `WellFormed`.

## Model

| member | source | states |
|---|---|---|
| GenesisDocument.Prepare | programs/accounts_to_genesis/main.cpp:72-80 | the loaded seed: unchanged in append mode, otherwise its initial accounts and initial balances emptied and every other field kept; `Load` is proved to leave the document equal to it, and `ResetRunIsIdempotent` rests on it |
| GenesisBuilder.Eligible | programs/accounts_to_genesis/main.cpp:100-103 | a record takes part exactly when its account instance is at least 6, so `1.2.0` to `1.2.5` are skipped; `ReservedRecordAddsNoAccount`, `ReservedRecordAddsNoBalance` and `OnlyReservedRecords` state that a skipped record contributes nothing |
| GenesisBuilder.FirstKey | programs/accounts_to_genesis/main.cpp:106-109 | the key standing for an authority is the first entry of its key map; `AppendedAccountAt` and `AppendedBalanceAt` state that the owner key, the active key and the balance owner's address are taken from it |
| GenesisBuilder.AccountEntry | programs/accounts_to_genesis/main.cpp:104-110 | the initial account built for one eligible record: its name, the first owner key, the first active key and its lifetime flag; `AppendedAccountAt`, `AppendedAccountOrigin`, `AccountsKeepRecordOrder` and `BuildTwiceDuplicates` state where these entries sit in the output |
| GenesisBuilder.BalanceEntries | programs/accounts_to_genesis/main.cpp:119-139 | the initial balances of one account's inner loop: one entry per non-zero balance, in list order, each a `BalanceEntry` (`main.cpp:125-131`) credited to the owner address (`OwnerAddress`, `main.cpp:126`); `BalanceEntriesCount`, `BalanceEntryAt`, `BalanceEntryOrigin`, `BalancesKeepListOrder`, `ZeroBalanceContributesNothing` and `BalanceEntriesNonZero` fix its count, each entry, its origin and its order, and `AppendBalances` is proved against it |
| GenesisBuilder.AppendedAccounts | programs/accounts_to_genesis/main.cpp:98-111 | the account entries one pass appends, record by record; `AppendedAccountsCount`, `AppendedAccountAt`, `AppendedAccountOrigin` and `AccountsKeepRecordOrder` fix their count, each entry, its origin and its order |
| GenesisBuilder.AppendedBalances | programs/accounts_to_genesis/main.cpp:98-139 | the balance entries one pass appends, record by record and within a record in list order; `AppendedBalancesCount`, `AppendedBalanceAt`, `AppendedBalanceOrigin` and `AppendedBalancesNonZero` fix their count, each entry, its origin and that none is zero |
| GenesisBuilder.Build | programs/accounts_to_genesis/main.cpp:98-139 | the document after one pass: both sequences extended by the appended entries, every other field kept; `BuildOnlyAppends` and `BuildTwiceDuplicates` state that it only appends and never deduplicates |
| GenesisDocument.GenesisDoc.constructor | programs/accounts_to_genesis/main.cpp:170 | a default-constructed document has no initial accounts and no initial balances |
| GenesisDocument.GenesisDoc.Load | programs/accounts_to_genesis/main.cpp:67-84 | the result is true exactly when the seed file exists; if it does not, the document is left unchanged; if it does, every other field takes the seed's value, and the two sequences are the seed's in append mode and empty otherwise |
| GenesisDocument.GenesisDoc.Update | programs/accounts_to_genesis/main.cpp:98-145 | after the pass the accounts are the old accounts followed by `AppendedAccounts(records)`, the balances are the old balances followed by `AppendedBalances(records, symbols, addressOf)`, and the other fields are unchanged |
| GenesisDocument.GenesisDoc.AppendRecord | programs/accounts_to_genesis/main.cpp:100-139 | one record adds nothing when its instance is below 6; otherwise it adds its account entry and then its balance entries; the other fields are unchanged |
| GenesisDocument.GenesisDoc.AppendBalances | programs/accounts_to_genesis/main.cpp:119-139 | a balance list adds one entry per non-zero balance, in list order, all credited to the given owner address; the accounts are unchanged |
| GenesisDocument.RunTool | programs/accounts_to_genesis/main.cpp:170-194 | a missing seed gives exit code -1 and no output; otherwise the run writes the seed, prepared for append mode or not, after one builder pass; this equals `Run` |
| GenesisDocument.Run | programs/accounts_to_genesis/main.cpp:170-194 | the exit code is -1 and nothing is written exactly when the seed is missing; otherwise the exit code is 0 and the written document keeps the seed's other fields |
| GenesisDocument.ResetRunIsIdempotent | programs/accounts_to_genesis/main.cpp:75-79 | without append mode, using a run's output as the next seed gives the same output again, so nothing accumulates |
| GenesisDocument.ResetRunIgnoresSeedEntries | programs/accounts_to_genesis/main.cpp:75-79 | without append mode, two seeds that agree outside their initial accounts and balances give the same run, so the seed's own entries never reach the output |
| GenesisDocument.AppendRunTwiceDoubles | programs/accounts_to_genesis/main.cpp:75-79 | in append mode, running again on the output gives the seed's entries followed by two copies of the appended entries; each count grows by twice the count of one pass |
| GenesisBuilder.AppendedAccountsCount | programs/accounts_to_genesis/main.cpp:98-111 | a pass adds exactly as many accounts as there are records with instance at least 6 |
| GenesisBuilder.AppendedAccountAt | programs/accounts_to_genesis/main.cpp:104-111 | the eligible record at index i gives the account entry at index (number of eligible records before i); that entry has the record's name, the first owner key, the first active key and the record's lifetime flag |
| GenesisBuilder.AppendedAccountOrigin | programs/accounts_to_genesis/main.cpp:98-111 | every added account is the entry of some eligible record, and sits at the index given by the eligible records before that record |
| GenesisBuilder.AccountsKeepRecordOrder | programs/accounts_to_genesis/main.cpp:98-111 | for two eligible records, the appended accounts hold the earlier record's entry at a smaller index than the later record's entry |
| GenesisBuilder.AppendedNamesDistinct | programs/accounts_to_genesis/main.cpp:105 | if the records have distinct names, the added accounts have distinct names |
| GenesisBuilder.ReservedRecordAddsNoAccount | programs/accounts_to_genesis/main.cpp:100-103 | removing a record with instance below 6 leaves the added accounts unchanged |
| GenesisBuilder.ReservedRecordAddsNoBalance | programs/accounts_to_genesis/main.cpp:100-103 | removing a record with instance below 6 leaves the added balances unchanged |
| GenesisBuilder.OnlyReservedRecords | programs/accounts_to_genesis/main.cpp:100-103 | a pass over records that are all reserved adds no accounts and no balances |
| GenesisBuilder.BalanceEntriesCount | programs/accounts_to_genesis/main.cpp:119-132 | one account's balance list adds exactly as many entries as it has non-zero balances |
| GenesisBuilder.BalanceEntryAt | programs/accounts_to_genesis/main.cpp:119-132 | the non-zero balance at index j of a list gives the entry at index (number of non-zero balances before j), with the list's owner address, the asset's symbol and the amount |
| GenesisBuilder.BalancesKeepListOrder | programs/accounts_to_genesis/main.cpp:119-132 | for two non-zero balances of one list, the list's entries hold the earlier balance's entry at a smaller index than the later balance's entry |
| GenesisBuilder.AppendedBalancesKeepRecordOrder | programs/accounts_to_genesis/main.cpp:98-139 | balances are appended record by record: a non-zero balance of an earlier eligible record yields an entry at a smaller index than any non-zero balance of a later one, each with its owner address, symbol and amount |
| GenesisBuilder.AppendedBalancesCount | programs/accounts_to_genesis/main.cpp:119-132 | a pass adds exactly as many balances as there are non-zero balances over all eligible records |
| GenesisBuilder.AppendedBalanceAt | programs/accounts_to_genesis/main.cpp:119-132 | non-zero balance j of eligible record i gives the balance entry after those of earlier records and of earlier non-zero balances of record i; its owner is the address of the record's first owner key, its symbol is the asset's symbol, its amount is the balance |
| GenesisBuilder.AppendedBalanceOrigin | programs/accounts_to_genesis/main.cpp:119-132 | every added balance comes from a non-zero balance of an eligible record, with that record's owner address and that balance's symbol and amount |
| GenesisBuilder.ZeroBalanceContributesNothing | programs/accounts_to_genesis/main.cpp:121-124 | removing a zero balance from a list leaves that list's entries unchanged |
| GenesisBuilder.AppendedBalancesNonZero | programs/accounts_to_genesis/main.cpp:121-124 | no added balance has amount zero |
| GenesisBuilder.BuildOnlyAppends | programs/accounts_to_genesis/main.cpp:104-139 | a pass only appends: the old sequences are prefixes of the new ones, the counts grow by the eligible count and the non-zero balance total, and the other fields are unchanged |
| GenesisBuilder.BuildTwiceDuplicates | programs/accounts_to_genesis/main.cpp:104-132 | nothing is deduplicated: a second pass over the same records appends the same entries again, so each eligible record's account entry appears twice, one pass-length apart |

## Left out

- Command-line parsing and the help output (`main.cpp:150-167`) are not modelled. The append flag is a boolean parameter.
- The debug flag and all printing to standard output (`main.cpp:82`, `97`, `112-118`, `133-143`) are left out. This includes the "is not exists" message, the only output on the missing-seed path. None of it affects the document.
- The WebSocket connection, the login and the API handles (`main.cpp:177-186`) are left out as network I/O.
- The enumeration of accounts (`main.cpp:88-96`) is network I/O and is left out. This covers `get_account_count`, `lookup_accounts`, the loop that collects the names and `get_full_accounts`. Only its result enters the model: a sequence of (name, full account) pairs.
- The remote result is a map keyed by name, so it iterates in name order with no repeated names. The model takes any sequence of pairs. Name distinctness appears only as a hypothesis of `AppendedNamesDistinct`.
- The per-balance `get_assets` call (`main.cpp:127-130`) is a remote call. It becomes a lookup in a map from asset id to symbol.
- Reading the seed from JSON and `save_to_file` (`main.cpp:74`, `194`) are file I/O and are left out. The seed is an `Option<GenesisState>` value. The written document is `RunTool`'s output. `from_file(...).as<genesis_state_type>()` throws when a seed file exists but does not parse or convert, and `save_to_file` throws when the write fails. Both exceptions reach the handler at `main.cpp:196-200`, so the run exits with -1. A failed parse happens before any remote contact and writes nothing. The model has no value for a seed that exists but is malformed, and none for a failed write. So `Run` and `RunTool` return 0 for every existing seed.
- Address derivation from a public key (`main.cpp:126`) is a hash-based foreign call. It stays an uninterpreted function parameter.
- The exception handler (`main.cpp:196-200`) is not modelled. It prints the error and exits with -1 after any `fc::exception`. Besides the seed and output file failures above, these come from the connection, the login and the remote calls, which the model does not contain.
- `is_lifetime_member()` is defined outside this file. The model takes it as a boolean stored on the account.
- An authority's key map is a sequence in iteration order. The model does not state that this order is sorted by key. Account and address entries of an authority are not represented, because the builder never reads them.
- RunTool: "returns -1 before any remote contact" (`main.cpp:171-174`) is stated only as independence from the remote data. The records, symbols and address derivation are parameters that exist before `Load` runs, and the first ensures of `RunTool` says that a missing seed gives -1 and no output whatever they are. That no remote call is made is not expressible, because the model makes none.
- The exit code -1 is an integer. Its conversion to a process exit status is not modelled.
- The body of the outer loop of `updateGenesisData` is the separate method `AppendRecord`, and its inner balance loop is the method `AppendBalances`, instead of being written inline. The order of the appends, the filtering and the state changes are unchanged.
