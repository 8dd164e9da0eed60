# Ledger snapshots and stake weights

This project is a Dafny model of `server/src/ledger.rs` from the Mina on-chain
voting server. The file has two parts.

- **The stake-weight engine.** This covers `Ledger::get_stake_weight` and `Ledger::get_stake_weight_mep`.
  - A ledger is an ordered list of accounts. Each account has a key, a decimal balance string and an optional delegate.
  - The weight of a key is its own balance plus the balances of its *delegators*: the other accounts whose effective delegate is that key. The effective delegate is the account's `delegate`, or the account itself when `delegate` is absent.
  - Proposal version V1 returns 0 for an account that delegated away.
  - V2 has no such gate. Instead, it drops delegators that have already voted.
  - Balances are fixed-point decimals with 9 fractional digits, modelled as integers scaled by 10^9. A balance that does not parse counts as zero.
- **Snapshot resolution.** This covers `Ledger::fetch` and `Ledger::download`.
  - A snapshot is looked up by hash in a local cache directory, as `<hash>.json`.
  - On a miss, the first bucket key containing the hash is chosen. The object is either written verbatim (`.json`) or one entry of its archive is extracted (`.tar.gz`, `.txt`). Any other suffix is an error.
  - A failed download writes nothing.

The model has four files:

- `wrappers.dfy` holds `Option` and `Result`.
- `balance.dfy` parses balance strings into scaled integers. It also formats them back, which is used to prove the round trip.
- `stake.dfy` holds the engine. It also has reference definitions of the delegated sum (`DelegatedBalance`) and of the weight (`ReferenceWeight`), and the lemmas relating `StakeWeight` to them.
- `snapshot.dfy` has two parts:
  - pure selection functions (`FirstContaining`, `FirstLedgerEntry`, `Downloaded`, `Resolve`);
  - a class `LedgerStorage` whose `files` map is the cache directory. Its methods `Download` (with the archive scan written as the source's loop with a `found` flag and `break`) and `Fetch` are proved against those functions.

The scenario lemmas restate the source's unit tests (`server/src/ledger.rs:209-299`): accounts A to E, each holding 1, with B and C in the vote map.

## Model

| member | source | states |
|---|---|---|
| Balance.UnitIsScale | server/src/ledger.rs:202 | one balance unit is 10^`LEDGER_BALANCE_SCALE`, the scale of every decimal |
| Balance.ParseBalance | server/src/ledger.rs:108 | a successful parse needs a non-empty string, and only a leading `-` gives a negative value |
| Balance.ParseFormatRoundTrip | server/src/ledger.rs:108 | every scaled value, written with 9 fractional digits, parses back to itself |
| Balance.ParseUnsignedParts | server/src/ledger.rs:108 | integer digits, a point and one to nine fractional digits parse to the integer part times 10^9 plus the fraction padded with zeros to nine places |
| Balance.ScanFractionValue | server/src/ledger.rs:108 | fractional digits that fit in the free places add their value times 10 to the power of the places left over |
| Balance.ParseOneAndAHalf | server/src/ledger.rs:108 | the balance `"1.5"` is 1_500_000_000 units of 10^-9 |
| Balance.ParseSigned | server/src/ledger.rs:108 | a leading `-` negates an unsigned decimal, and a leading `+` or no sign leaves it as it is |
| Balance.ParseWholeNumber | server/src/ledger.rs:108 | a string of digits parses to that whole number of units (e.g. `"1"` is 10^9) |
| Stake.BalanceOf | server/src/ledger.rs:108 | a balance that does not parse reads as 0, any non-zero reading is the parsed value, and only a `-` text reads negative; the same rule is applied to delegators at lines 127 and 146 (see `UnparseableBalanceCountsAsZero`) |
| Stake.EffectiveDelegate | server/src/ledger.rs:119 | the named delegate when there is one, and the account is its own delegate exactly when it names none or names itself; the same rule is used at lines 112 and 137 |
| Stake.IsDelegator | server/src/ledger.rs:119 | the filter test of lines 119 and 173: the effective delegate is the key and the account's own key differs; `DelegatorsMembers` states that the V1 filter keeps exactly these accounts |
| Stake.IsUnvotedDelegator | server/src/ledger.rs:137 | the filter test of line 137: a delegator whose key is not in the vote map; `UnvotedDelegatorsMembers` states that the V2 filter keeps exactly these accounts |
| Stake.FindAccount | server/src/ledger.rs:105-106 | the result is the first account with the key, and it is absent exactly when no account has the key |
| Stake.StakeWeight | server/src/ledger.rs:97-152 | the query fails, with `AccountNotFound`, exactly when no account has the key; a balance that does not parse never causes an error |
| Stake.StakeWeightMep | server/src/ledger.rs:154-185 | the result equals the V1 weight for every voted set, so the map argument is ignored |
| Stake.DelegatorsMembers | server/src/ledger.rs:116-120 | the V1 filter keeps exactly the accounts whose effective delegate is the key and whose own key differs |
| Stake.UnvotedDelegatorsMembers | server/src/ledger.rs:133-139 | the V2 filter keeps exactly those delegators whose key is not in the voted map |
| Stake.Delegators | server/src/ledger.rs:116-120 | the V1 filter in ledger order; what it keeps is stated by `DelegatorsMembers` and its fold by `FoldDelegators` |
| Stake.UnvotedDelegators | server/src/ledger.rs:133-139 | the V2 filter in ledger order; what it keeps is stated by `UnvotedDelegatorsMembers` and its fold by `FoldUnvotedDelegators` |
| Stake.FoldBalances | server/src/ledger.rs:126-128 | the left fold adding each balance to the accumulator; `FoldDelegators` and `FoldUnvotedDelegators` prove it equals the accumulator plus the reference sum |
| Stake.FoldDelegators | server/src/ledger.rs:116-128 | folding the balances of the filtered V1 delegators gives the accumulator plus the reference delegated sum |
| Stake.FoldUnvotedDelegators | server/src/ledger.rs:133-147 | folding the balances of the filtered V2 delegators gives the accumulator plus the delegated sum without voted keys |
| Stake.StakeWeightV1 | server/src/ledger.rs:110-131 | V1 gives 0 when the account delegates away, and otherwise its own balance plus all its delegators' balances |
| Stake.StakeWeightV2 | server/src/ledger.rs:132-150 | V2 gives the own balance plus the balances of the delegators that have not voted, with no delegate-away gate |
| Stake.StakeWeightIsReference | server/src/ledger.rs:97-152 | for every ledger, voted set, version and key, the weight equals the reference definition written with the delegated sum |
| Stake.DelegatedAwayVersionsDiffer | server/src/ledger.rs:112-114 | for an account that delegated away, V1 gives 0 while V2 still counts its own balance and its unvoted delegators |
| Stake.ExcludingNonDelegators | server/src/ledger.rs:136-138 | excluding keys that are not delegators leaves the delegated sum unchanged |
| Stake.ExcludingMoreLowers | server/src/ledger.rs:136-138 | with non-negative balances, excluding more voters can only lower the delegated sum |
| Stake.V2MatchesV1WithoutVotingDelegators | server/src/ledger.rs:110-150 | for a self-delegated account none of whose delegators voted, V2 and V1 agree |
| Stake.V2Antitone | server/src/ledger.rs:132-150 | with non-negative balances, a larger voted set never raises the V2 weight of an account in the ledger, whether or not it delegated away |
| Stake.V2AtMostV1 | server/src/ledger.rs:110-150 | with non-negative balances, V2 never exceeds V1 for a self-delegated account |
| Stake.NoDelegatorsNoSum | server/src/ledger.rs:122-124 | when no account outside the excluded keys delegates to the key, the delegated sum is 0 |
| Stake.NoDelegatorsV1 | server/src/ledger.rs:122-124 | V1 for a self-delegated account with no delegators is its own balance |
| Stake.NoUnvotedDelegatorsV2 | server/src/ledger.rs:141-143 | V2 for an account all of whose delegators voted, or which has none, is its own balance |
| Stake.StakeWeightNonNegative | server/src/ledger.rs:97-152 | with non-negative balances, every weight is non-negative |
| Stake.SumOverAppend | server/src/ledger.rs:126-128 | the sum over a concatenation is the sum of the parts |
| Stake.SumOverPermutation | server/src/ledger.rs:126-128 | the sum does not depend on the order of the accounts |
| Stake.DelegatedBalanceOrderIndependent | server/src/ledger.rs:126-128 | the delegated sum of two ledgers with the same accounts in any order is the same |
| Stake.SumOverUpdate | server/src/ledger.rs:126-128 | replacing an account by one with the same contribution keeps the sum |
| Stake.FindAccountReadsKeys | server/src/ledger.rs:105-106 | the lookup depends only on the keys, position by position |
| Stake.FindAccountOrderIndependent | server/src/ledger.rs:105-106 | with unique keys, reordering the ledger finds the same account |
| Stake.StakeWeightOrderIndependent | server/src/ledger.rs:105-150 | with unique keys, reordering the ledger never changes any weight or error |
| Stake.ParseZero | server/src/ledger.rs:108 | the fallback `Decimal::new(0, 9)` is what `"0"` parses to |
| Stake.ZeroingUnparseable | server/src/ledger.rs:108 | replacing an unparseable balance by `"0"` changes no lookup, no delegated sum and no account reading |
| Stake.SameReadingSameWeight | server/src/ledger.rs:97-152 | two ledgers that find the key alike, agree on the found account's balance and delegate, and agree on the delegated sums give the same weight |
| Stake.UnparseableBalanceCountsAsZero | server/src/ledger.rs:108 | an unparseable balance, whether its own or a delegator's, weighs exactly as `"0"` in V1 and V2 |
| Stake.ParseOne | server/src/ledger.rs:286-290 | the test balance `"1"` is one unit |
| Stake.ScenarioDelegatedSumV1 | server/src/ledger.rs:284-291 | over the test accounts A..D, A's delegators C and D hold 2 units |
| Stake.ScenarioDelegatedSumA | server/src/ledger.rs:284-298 | over A..E with B and C voted, only D's unit counts towards A |
| Stake.ScenarioDelegatedSumB | server/src/ledger.rs:284-298 | over A..E with B and C voted, only E's unit counts towards B |
| Stake.ScenarioV1Missing | server/src/ledger.rs:214-221 | V1 on A..D for `E` is `AccountNotFound` |
| Stake.ScenarioV1DelegatedAway | server/src/ledger.rs:223-230 | V1 on A..D for `D` is 0 |
| Stake.ScenarioV1Alone | server/src/ledger.rs:232-240 | V1 on A..D for `B` is 1, even though B voted, since no account delegates to B |
| Stake.ScenarioV1WithDelegators | server/src/ledger.rs:242-249 | V1 on A..D for `A` is 3, even though C voted |
| Stake.ScenarioV2Missing | server/src/ledger.rs:257-264 | V2 on A..E for `F` is `AccountNotFound` |
| Stake.ScenarioV2ExcludesVoter | server/src/ledger.rs:266-272 | V2 on A..E for `A` is 2, because C voted |
| Stake.ScenarioV2VoterKeepsOwnBalance | server/src/ledger.rs:274-281 | V2 on A..E for `B` is 2, because B's own balance counts although B voted |
| Snapshot.Contains | server/src/ledger.rs:34 | `key.contains(hash)`, also used at line 77; `ContainsIff` states what it means |
| Snapshot.EndsWith | server/src/ledger.rs:59-64 | `ends_with`, also used at line 77; `SuffixesExclusive` states that the three suffixes exclude each other |
| Snapshot.ContainsIff | server/src/ledger.rs:34 | `Contains` holds exactly when the substring occurs at some position |
| Snapshot.SuffixesExclusive | server/src/ledger.rs:59-64 | no key ends in two of `.json`, `.tar.gz`, `.txt`, so the order of the suffix tests is immaterial |
| Snapshot.CachePath | server/src/ledger.rs:16 | the cache file name starts with the hash and ends in `.json` |
| Snapshot.IsLedgerEntry | server/src/ledger.rs:77 | an archive entry qualifies when its path occurs in the object key or ends in `.json`; `FirstLedgerEntry` and `DownloadArchive` state its use |
| Snapshot.Downloaded | server/src/ledger.rs:24-95 | a failure other than `SnapshotNotFound` names a key that contains the hash, and `SnapshotNotFound` names the hash; the `Download*` lemmas state each branch |
| Snapshot.Resolve | server/src/ledger.rs:15-22 | `fetch` succeeds exactly when `<hash>.json` is in the cache afterwards, it then reads that file, and a failure is the download's error |
| Snapshot.ListObjects | server/src/ledger.rs:30 | the bucket's keys in listing order; `FirstMatchChosen` and `DownloadNotFound` state which listed key is chosen and when none is |
| Snapshot.FirstContaining | server/src/ledger.rs:34-51 | the chosen key is the first one containing the hash, and there is none exactly when no key contains it |
| Snapshot.FirstLedgerEntry | server/src/ledger.rs:69-85 | the chosen entry is the first whose path is in the key or ends in `.json`, and there is none exactly when no entry qualifies |
| Snapshot.FirstMatchChosen | server/src/ledger.rs:34-51 | the object chosen is the first listed one whose key contains the hash |
| Snapshot.DownloadNotFound | server/src/ledger.rs:38-49 | the download fails with `SnapshotNotFound` exactly when no key contains the hash |
| Snapshot.DownloadJsonVerbatim | server/src/ledger.rs:59-63 | a chosen `.json` object is written byte for byte |
| Snapshot.DownloadArchive | server/src/ledger.rs:64-85 | for a chosen `.tar.gz`/`.txt` object, the bytes written are those of the first qualifying archive entry |
| Snapshot.DownloadArchiveEmpty | server/src/ledger.rs:87-89 | an archive download fails with `EntryNotFound` exactly when no entry qualifies |
| Snapshot.DownloadUnsupported | server/src/ledger.rs:90-92 | the download fails with `UnsupportedFormat` exactly when the chosen key has none of the three suffixes |
| Snapshot.DownloadIgnoresLaterObjects | server/src/ledger.rs:34-51 | objects listed after the first match never change the outcome |
| Snapshot.DownloadProvenance | server/src/ledger.rs:24-95 | downloaded bytes are the content of an object whose key contains the hash, or of one of its archive entries |
| Snapshot.CacheHit | server/src/ledger.rs:16-20 | with `<hash>.json` cached, `fetch` reads that file, the cache is unchanged, and neither depends on the bucket |
| Snapshot.CacheMiss | server/src/ledger.rs:17-20 | on a miss, what `fetch` reads is what `download` produced, or its error |
| Snapshot.ResolveWritesOnlyCachePath | server/src/ledger.rs:15-22 | existing files are never changed, only `<hash>.json` is ever added, a failure writes nothing, and on success the cache holds the bytes read |
| Snapshot.FetchIdempotent | server/src/ledger.rs:15-22 | after a successful fetch, fetching again returns the same bytes and leaves the cache as it is, whatever the bucket |
| Snapshot.LedgerStorage.ExtractLedgerEntry | server/src/ledger.rs:69-89 | the scan reports a find exactly when some entry qualifies; it then writes the first qualifying entry's bytes to `to`, and otherwise writes nothing |
| Snapshot.LedgerStorage.Download | server/src/ledger.rs:24-95 | on success `to` receives exactly the `Downloaded` bytes and nothing else changes; on failure the same error is returned and nothing is written |
| Snapshot.LedgerStorage.Fetch | server/src/ledger.rs:15-22 | the returned bytes and the new cache are exactly `Resolve` of the old cache |

## Left out

- Balance.ParseBalance: accepts only an optional sign, digits, and at most 9 fractional digits after a point, and keeps the exact value of every magnitude. `rust_decimal` stores a 96-bit mantissa with a scale of at most 28. An integer part of 2^96 (about 7.9 × 10^28) or more is a parse error in the source, so such a balance reads as 0 there, while the model keeps its exact value. Fractional digits are exact in the source only while the whole mantissa fits in 96 bits, and the digits beyond that are rounded. Within that range a fraction of 10 or more digits keeps its value in the source (`"0.0000000001"` is 10^-10), but counts as 0 here. `rust_decimal` also accepts underscores and other forms, which count as 0 here too.
- Stake.StakeWeight: integers are unbounded. The overflow of `rust_decimal`'s 96-bit mantissa, which makes the source's addition panic, is not modelled.
- Snapshot.Downloaded: two panics of `download` are not modelled. At line 41, `&hash[.. 10]` slices the hash at byte 10. It panics when that byte falls inside a multi-byte character (e.g. `"aééééé"`), the hash is at least 10 bytes long, the listing is not empty and no key contains the hash; `Downloaded` returns `SnapshotNotFound` there. At line 73, an archive entry path that is not valid UTF-8 makes `expect` panic, while `unpack` yields only string paths.
- Storage I/O (`list_objects`, `get_object`), `fs::read` and `fs::write`, and their errors, are not modelled. The bucket is a list of objects in listing order, `get_object` returns the chosen object's content, and the cache directory is a map from file name to bytes.
- gzip and tar decoding (`flate2`, `tar`) are foreign libraries. An archive is decoded by the function parameter `unpack`, so corrupt archives and entry read errors are not modelled.
- JSON deserialisation of the cached bytes, and the panic on malformed content, are not modelled: `Fetch` returns the cached bytes.
- Logging and the partial-hash diagnostic listing (keys containing the first 10 bytes of the hash) are left out. Apart from the panic named under `Snapshot.Downloaded`, they only write log lines.
- The `Ocv` configuration, the `Vote` records and `Wrapper` are left out. Only membership of a key in the vote map matters, so the map is a set of keys.
- Concurrent fetches of the same hash are not modelled, because the model is sequential.
