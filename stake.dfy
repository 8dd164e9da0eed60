/**
 * The stake-weight engine: the voting weight a public key carries in a ledger
 * snapshot under proposal version V1 or V2.
 */
module Stake {
  import opened Wrappers
  import opened Balance

  /** One row of a snapshot: key, decimal balance text, optional delegate. */
  datatype LedgerAccount = LedgerAccount(pk: string, balance: string, delegate: Option<string>)

  /** A snapshot: accounts in file order. */
  type Ledger = seq<LedgerAccount>

  datatype ProposalVersion = V1 | V2

  datatype StakeError = AccountNotFound(pk: string)

  /** The account's balance in units of 10^-9; text that does not parse counts as 0. */
  function BalanceOf(a: LedgerAccount): (r: int)
    ensures ParseBalance(a.balance).None? ==> r == 0
    ensures r != 0 ==> ParseBalance(a.balance) == Some(r)
    ensures r < 0 ==> a.balance[0] == '-'
  {
    ParseBalance(a.balance).GetOr(0)
  }

  /** Whom the account's vote goes to: its delegate, or itself when it names none. */
  function EffectiveDelegate(a: LedgerAccount): (d: string)
    ensures a.delegate.Some? ==> d == a.delegate.value
    ensures d == a.pk <==> a.delegate == None || a.delegate == Some(a.pk)
  {
    a.delegate.GetOr(a.pk)
  }

  /** `a` is a delegator of `pk`: another account whose effective delegate is `pk`. */
  predicate IsDelegator(a: LedgerAccount, pk: string) {
    EffectiveDelegate(a) == pk && a.pk != pk
  }

  /** A delegator of `pk` that has not cast a vote of its own. */
  predicate IsUnvotedDelegator(a: LedgerAccount, voted: set<string>, pk: string) {
    IsDelegator(a, pk) && a.pk !in voted
  }

  /** Position of the first account whose key is `pk`. */
  function FindAccount(l: Ledger, pk: string): (r: Option<nat>)
    ensures r.Some? ==> r.value < |l| && l[r.value].pk == pk
    ensures r.Some? ==> forall j | 0 <= j < r.value :: l[j].pk != pk
    ensures r.None? <==> forall j | 0 <= j < |l| :: l[j].pk != pk
  {
    if l == [] then None
    else if l[0].pk == pk then Some(0)
    else
      match FindAccount(l[1..], pk)
      case None => None
      case Some(k) => Some(k + 1)
  }

  /** The delegators of `pk`, in ledger order. */
  function Delegators(l: Ledger, pk: string): Ledger {
    if l == [] then []
    else if IsDelegator(l[0], pk) then [l[0]] + Delegators(l[1..], pk)
    else Delegators(l[1..], pk)
  }

  /** The delegators of `pk` that have not voted, in ledger order. */
  function UnvotedDelegators(l: Ledger, voted: set<string>, pk: string): Ledger {
    if l == [] then []
    else if IsUnvotedDelegator(l[0], voted, pk) then [l[0]] + UnvotedDelegators(l[1..], voted, pk)
    else UnvotedDelegators(l[1..], voted, pk)
  }

  /** Left fold adding each account's balance to the accumulator. */
  function FoldBalances(ds: Ledger, acc: int): int {
    if ds == [] then acc else FoldBalances(ds[1..], BalanceOf(ds[0]) + acc)
  }

  /** What account `a` adds to the weight of `pk` when the keys in `excluded` are left out. */
  function Contribution(a: LedgerAccount, excluded: set<string>, pk: string): int {
    if IsDelegator(a, pk) && a.pk !in excluded then BalanceOf(a) else 0
  }

  /** The sum of `f` over the accounts of `l`. */
  function SumOver(l: Ledger, f: LedgerAccount -> int): int {
    if l == [] then 0 else f(l[0]) + SumOver(l[1..], f)
  }

  /**
   * Reference definition: the total balance of the accounts of `l` that delegate
   * to `pk` and whose keys are not in `excluded`.
   */
  function DelegatedBalance(l: Ledger, excluded: set<string>, pk: string): int {
    SumOver(l, a => Contribution(a, excluded, pk))
  }

  /** `get_stake_weight`: the weight of `pk` under the counting rule of `version`. */
  function StakeWeight(l: Ledger, voted: set<string>, version: ProposalVersion, pk: string): (r: Result<int, StakeError>)
    ensures r.Failure? <==> forall j | 0 <= j < |l| :: l[j].pk != pk
    ensures r.Failure? ==> r.error == AccountNotFound(pk)
  {
    match FindAccount(l, pk)
    case None => Failure(AccountNotFound(pk))
    case Some(i) =>
      var account := l[i];
      var balance := BalanceOf(account);
      match version
      case V1 =>
        if account.delegate.GetOr(pk) != pk then Success(0)
        else
          var delegators := Delegators(l, pk);
          if delegators == [] then Success(balance)
          else Success(FoldBalances(delegators, 0) + balance)
      case V2 =>
        var delegators := UnvotedDelegators(l, voted, pk);
        if delegators == [] then Success(balance)
        else Success(FoldBalances(delegators, 0) + balance)
  }

  /** `get_stake_weight_mep`: V1 weight; the voted set it is given plays no part. */
  function StakeWeightMep(l: Ledger, voted: set<string>, pk: string): (r: Result<int, StakeError>)
    ensures forall other: set<string> :: r == StakeWeight(l, other, V1, pk)
  {
    match FindAccount(l, pk)
    case None => Failure(AccountNotFound(pk))
    case Some(i) =>
      var account := l[i];
      var balance := BalanceOf(account);
      if account.delegate.GetOr(pk) != pk then Success(0)
      else
        var delegators := Delegators(l, pk);
        if delegators == [] then Success(balance)
        else Success(FoldBalances(delegators, 0) + balance)
  }

  // ---------------------------------------------------------------------------
  // What the filters keep

  /** The V1 filter keeps exactly the accounts of `l` that are delegators of `pk`. */
  lemma {:induction false} DelegatorsMembers(l: Ledger, pk: string, a: LedgerAccount)
    ensures a in Delegators(l, pk) <==> a in l && IsDelegator(a, pk)
  {
    if l != [] {
      DelegatorsMembers(l[1..], pk, a);
      assert l == [l[0]] + l[1..];
    }
  }

  /** The V2 filter keeps exactly the delegators of `pk` in `l` whose keys have not voted. */
  lemma {:induction false} UnvotedDelegatorsMembers(l: Ledger, voted: set<string>, pk: string, a: LedgerAccount)
    ensures a in UnvotedDelegators(l, voted, pk) <==> a in l && IsDelegator(a, pk) && a.pk !in voted
  {
    if l != [] {
      UnvotedDelegatorsMembers(l[1..], voted, pk, a);
      assert l == [l[0]] + l[1..];
    }
  }

  // ---------------------------------------------------------------------------
  // Folding the filtered delegators is the reference sum

  lemma {:induction false} FoldDelegators(l: Ledger, pk: string, acc: int)
    ensures FoldBalances(Delegators(l, pk), acc) == acc + DelegatedBalance(l, {}, pk)
  {
    if l != [] {
      var x, rest := l[0], Delegators(l[1..], pk);
      if IsDelegator(x, pk) {
        assert Delegators(l, pk) == [x] + rest;
        assert ([x] + rest)[1..] == rest;
        FoldDelegators(l[1..], pk, BalanceOf(x) + acc);
      } else {
        assert Delegators(l, pk) == rest;
        FoldDelegators(l[1..], pk, acc);
      }
    }
  }

  lemma {:induction false} FoldUnvotedDelegators(l: Ledger, voted: set<string>, pk: string, acc: int)
    ensures FoldBalances(UnvotedDelegators(l, voted, pk), acc) == acc + DelegatedBalance(l, voted, pk)
  {
    if l != [] {
      var x, rest := l[0], UnvotedDelegators(l[1..], voted, pk);
      if IsUnvotedDelegator(x, voted, pk) {
        assert UnvotedDelegators(l, voted, pk) == [x] + rest;
        assert ([x] + rest)[1..] == rest;
        FoldUnvotedDelegators(l[1..], voted, pk, BalanceOf(x) + acc);
      } else {
        assert UnvotedDelegators(l, voted, pk) == rest;
        FoldUnvotedDelegators(l[1..], voted, pk, acc);
      }
    }
  }

  // ---------------------------------------------------------------------------
  // What each version computes

  /**
   * V1: a key that delegated away weighs 0; otherwise its own balance plus the
   * balances of all its delegators, voted or not.
   */
  lemma {:induction false} StakeWeightV1(l: Ledger, voted: set<string>, pk: string, i: nat)
    requires FindAccount(l, pk) == Some(i)
    ensures EffectiveDelegate(l[i]) != pk ==> StakeWeight(l, voted, V1, pk) == Success(0)
    ensures EffectiveDelegate(l[i]) == pk ==>
      StakeWeight(l, voted, V1, pk) == Success(BalanceOf(l[i]) + DelegatedBalance(l, {}, pk))
  {
    FoldDelegators(l, pk, 0);
  }

  /**
   * V2: whether or not the key delegated away, and whether or not it voted, its
   * own balance plus the balances of its delegators that did not vote.
   */
  lemma {:induction false} StakeWeightV2(l: Ledger, voted: set<string>, pk: string, i: nat)
    requires FindAccount(l, pk) == Some(i)
    ensures StakeWeight(l, voted, V2, pk) == Success(BalanceOf(l[i]) + DelegatedBalance(l, voted, pk))
  {
    FoldUnvotedDelegators(l, voted, pk, 0);
  }

  /**
   * Reference definition of the weight, written with the delegated sum instead
   * of a filtered list folded from the left.
   */
  function ReferenceWeight(l: Ledger, voted: set<string>, version: ProposalVersion, pk: string): Result<int, StakeError> {
    match FindAccount(l, pk)
    case None => Failure(AccountNotFound(pk))
    case Some(i) =>
      match version
      case V1 =>
        if EffectiveDelegate(l[i]) != pk then Success(0)
        else Success(BalanceOf(l[i]) + DelegatedBalance(l, {}, pk))
      case V2 => Success(BalanceOf(l[i]) + DelegatedBalance(l, voted, pk))
  }

  /** `get_stake_weight` computes the reference weight, for both versions and on every ledger. */
  lemma {:induction false} StakeWeightIsReference(l: Ledger, voted: set<string>, version: ProposalVersion, pk: string)
    ensures StakeWeight(l, voted, version, pk) == ReferenceWeight(l, voted, version, pk)
  {
    match FindAccount(l, pk)
    case None =>
    case Some(i) =>
      match version
      case V1 => StakeWeightV1(l, voted, pk, i);
      case V2 => StakeWeightV2(l, voted, pk, i);
  }

  /** The asymmetry between the versions: delegating away zeroes V1 but not V2. */
  lemma {:induction false} DelegatedAwayVersionsDiffer(l: Ledger, voted: set<string>, pk: string, i: nat)
    requires FindAccount(l, pk) == Some(i) && EffectiveDelegate(l[i]) != pk
    ensures StakeWeight(l, voted, V1, pk) == Success(0)
    ensures StakeWeight(l, voted, V2, pk) == Success(BalanceOf(l[i]) + DelegatedBalance(l, voted, pk))
  {
    StakeWeightV1(l, voted, pk, i);
    StakeWeightV2(l, voted, pk, i);
  }

  // ---------------------------------------------------------------------------
  // Excluding voters

  /** Excluding keys that are not delegators of `pk` changes nothing. */
  lemma {:induction false} ExcludingNonDelegators(l: Ledger, excluded: set<string>, pk: string)
    requires forall j | 0 <= j < |l| :: IsDelegator(l[j], pk) ==> l[j].pk !in excluded
    ensures DelegatedBalance(l, excluded, pk) == DelegatedBalance(l, {}, pk)
  {
    if l != [] {
      assert forall j | 0 <= j < |l[1..]| :: l[1..][j] == l[j + 1];
      ExcludingNonDelegators(l[1..], excluded, pk);
    }
  }

  /** With non-negative balances, excluding more keys never raises the sum, and it stays non-negative. */
  lemma {:induction false} ExcludingMoreLowers(l: Ledger, fewer: set<string>, more: set<string>, pk: string)
    requires fewer <= more
    requires forall j | 0 <= j < |l| :: BalanceOf(l[j]) >= 0
    ensures 0 <= DelegatedBalance(l, more, pk) <= DelegatedBalance(l, fewer, pk)
  {
    if l != [] {
      assert BalanceOf(l[0]) >= 0;
      assert forall j | 0 <= j < |l[1..]| :: l[1..][j] == l[j + 1];
      ExcludingMoreLowers(l[1..], fewer, more, pk);
    }
  }

  /** For a self-delegated key whose delegators did not vote, V2 agrees with V1. */
  lemma {:induction false} V2MatchesV1WithoutVotingDelegators(l: Ledger, voted: set<string>, pk: string, i: nat)
    requires FindAccount(l, pk) == Some(i) && EffectiveDelegate(l[i]) == pk
    requires forall j | 0 <= j < |l| :: IsDelegator(l[j], pk) ==> l[j].pk !in voted
    ensures StakeWeight(l, voted, V2, pk) == StakeWeight(l, voted, V1, pk)
  {
    StakeWeightV1(l, voted, pk, i);
    StakeWeightV2(l, voted, pk, i);
    ExcludingNonDelegators(l, voted, pk);
  }

  /** With non-negative balances, a larger voted set never raises the V2 weight. */
  lemma {:induction false} V2Antitone(l: Ledger, voted: set<string>, moreVoted: set<string>, pk: string, i: nat)
    requires FindAccount(l, pk) == Some(i)
    requires voted <= moreVoted
    requires forall j | 0 <= j < |l| :: BalanceOf(l[j]) >= 0
    ensures StakeWeight(l, moreVoted, V2, pk).value <= StakeWeight(l, voted, V2, pk).value
  {
    StakeWeightV2(l, voted, pk, i);
    StakeWeightV2(l, moreVoted, pk, i);
    ExcludingMoreLowers(l, voted, moreVoted, pk);
  }

  /** With non-negative balances, V2 never exceeds V1 for a self-delegated key. */
  lemma {:induction false} V2AtMostV1(l: Ledger, voted: set<string>, pk: string, i: nat)
    requires FindAccount(l, pk) == Some(i) && EffectiveDelegate(l[i]) == pk
    requires forall j | 0 <= j < |l| :: BalanceOf(l[j]) >= 0
    ensures StakeWeight(l, voted, V2, pk).value <= StakeWeight(l, voted, V1, pk).value
  {
    StakeWeightV1(l, voted, pk, i);
    StakeWeightV2(l, voted, pk, i);
    ExcludingMoreLowers(l, {}, voted, pk);
  }

  // ---------------------------------------------------------------------------
  // No delegators: the weight is the key's own balance

  /** When no account delegates to `pk` outside `excluded`, the delegated sum is 0. */
  lemma {:induction false} NoDelegatorsNoSum(l: Ledger, excluded: set<string>, pk: string)
    requires forall j | 0 <= j < |l| :: !(IsDelegator(l[j], pk) && l[j].pk !in excluded)
    ensures DelegatedBalance(l, excluded, pk) == 0
  {
    if l != [] {
      assert forall j | 0 <= j < |l[1..]| :: l[1..][j] == l[j + 1];
      NoDelegatorsNoSum(l[1..], excluded, pk);
    }
  }

  /** V1 with an empty delegator list: a self-delegated key weighs its own balance. */
  lemma {:induction false} NoDelegatorsV1(l: Ledger, voted: set<string>, pk: string, i: nat)
    requires FindAccount(l, pk) == Some(i) && EffectiveDelegate(l[i]) == pk
    requires forall j | 0 <= j < |l| :: !IsDelegator(l[j], pk)
    ensures StakeWeight(l, voted, V1, pk) == Success(BalanceOf(l[i]))
  {
    StakeWeightV1(l, voted, pk, i);
    NoDelegatorsNoSum(l, {}, pk);
  }

  /** V2 with an empty list of unvoted delegators: the key weighs its own balance. */
  lemma {:induction false} NoUnvotedDelegatorsV2(l: Ledger, voted: set<string>, pk: string, i: nat)
    requires FindAccount(l, pk) == Some(i)
    requires forall j | 0 <= j < |l| :: !IsUnvotedDelegator(l[j], voted, pk)
    ensures StakeWeight(l, voted, V2, pk) == Success(BalanceOf(l[i]))
  {
    StakeWeightV2(l, voted, pk, i);
    NoDelegatorsNoSum(l, voted, pk);
  }

  /** With non-negative balances every weight is non-negative. */
  lemma {:induction false} StakeWeightNonNegative(l: Ledger, voted: set<string>, version: ProposalVersion, pk: string)
    requires forall j | 0 <= j < |l| :: BalanceOf(l[j]) >= 0
    ensures StakeWeight(l, voted, version, pk).Success? ==> StakeWeight(l, voted, version, pk).value >= 0
  {
    match FindAccount(l, pk)
    case None =>
    case Some(i) =>
      StakeWeightV1(l, voted, pk, i);
      StakeWeightV2(l, voted, pk, i);
      ExcludingMoreLowers(l, {}, voted, pk);
      ExcludingMoreLowers(l, {}, {}, pk);
  }

  // ---------------------------------------------------------------------------
  // Sums over accounts

  lemma {:induction false} SumOverAppend(a: Ledger, b: Ledger, f: LedgerAccount -> int)
    ensures SumOver(a + b, f) == SumOver(a, f) + SumOver(b, f)
  {
    if a != [] {
      assert (a + b)[1..] == a[1..] + b;
      SumOverAppend(a[1..], b, f);
    } else {
      assert a + b == b;
    }
  }

  lemma MultisetRemove(l: Ledger, k: nat)
    requires k < |l|
    ensures multiset(l[..k] + l[k + 1..]) == multiset(l) - multiset{l[k]}
  {
    assert l == l[..k] + [l[k]] + l[k + 1..];
    assert multiset(l) == multiset(l[..k]) + multiset{l[k]} + multiset(l[k + 1..]);
  }

  /** Taking the account at `k` out of `l` takes its value out of the sum. */
  lemma SumOverRemove(l: Ledger, k: nat, f: LedgerAccount -> int)
    requires k < |l|
    ensures SumOver(l, f) == f(l[k]) + SumOver(l[..k] + l[k + 1..], f)
  {
    var front, back := l[..k], l[k + 1..];
    assert l == front + ([l[k]] + back);
    SumOverAppend(front, [l[k]] + back, f);
    SumOverAppend(front, back, f);
    assert ([l[k]] + back)[1..] == back;
  }

  /** Some position of `s` holds `x` when `x` is one of its elements. */
  lemma IndexOf(s: Ledger, x: LedgerAccount) returns (k: nat)
    requires x in multiset(s)
    ensures k < |s| && s[k] == x
  {
    assert x in s;
    k :| 0 <= k < |s| && s[k] == x;
  }

  /** A sum does not depend on the order of the accounts. */
  lemma {:induction false} SumOverPermutation(l: Ledger, l': Ledger, f: LedgerAccount -> int)
    requires multiset(l) == multiset(l')
    ensures SumOver(l, f) == SumOver(l', f)
    decreases |l|
  {
    if l == [] {
      assert |l'| == |multiset(l')| == 0;
    } else {
      var x := l[0];
      var k := IndexOf(l', x);
      var rest' := l'[..k] + l'[k + 1..];
      SumOverRemove(l', k, f);
      MultisetRemove(l', k);
      assert multiset(l[1..]) == multiset(rest') by {
        assert l == [x] + l[1..];
        assert multiset(l) == multiset{x} + multiset(l[1..]);
      }
      SumOverPermutation(l[1..], rest', f);
    }
  }

  /** Replacing one account by one that `f` values the same leaves the sum unchanged. */
  lemma {:induction false} SumOverUpdate(l: Ledger, i: nat, x: LedgerAccount, f: LedgerAccount -> int)
    requires i < |l| && f(x) == f(l[i])
    ensures SumOver(l[i := x], f) == SumOver(l, f)
  {
    if i > 0 {
      assert l[i := x][1..] == l[1..][i - 1 := x];
      SumOverUpdate(l[1..], i - 1, x, f);
    }
  }

  /** The delegated balance does not depend on the order of the accounts. */
  lemma DelegatedBalanceOrderIndependent(l: Ledger, l': Ledger, excluded: set<string>, pk: string)
    requires multiset(l) == multiset(l')
    ensures DelegatedBalance(l, excluded, pk) == DelegatedBalance(l', excluded, pk)
  {
    SumOverPermutation(l, l', a => Contribution(a, excluded, pk));
  }

  // ---------------------------------------------------------------------------
  // Unparseable balances

  lemma {:induction false} FindAccountReadsKeys(l: Ledger, l': Ledger, pk: string)
    requires |l| == |l'| && forall j | 0 <= j < |l| :: l[j].pk == l'[j].pk
    ensures FindAccount(l, pk) == FindAccount(l', pk)
  {
    if l != [] {
      FindAccountReadsKeys(l[1..], l'[1..], pk);
    }
  }

  lemma ParseZero()
    ensures ParseBalance("0") == Some(0)
  {
    ParseWholeNumber("0");
    assert DigitsValue("0") == 0;
  }

  /** Setting an unparseable balance to "0" changes no account's reading. */
  lemma {:induction false} ZeroingUnparseable(l: Ledger, i: nat, excluded: set<string>, pk: string)
    requires i < |l| && ParseBalance(l[i].balance).None?
    ensures var l' := l[i := l[i].(balance := "0")];
      && FindAccount(l', pk) == FindAccount(l, pk)
      && DelegatedBalance(l', excluded, pk) == DelegatedBalance(l, excluded, pk)
      && forall j | 0 <= j < |l| :: BalanceOf(l'[j]) == BalanceOf(l[j]) && EffectiveDelegate(l'[j]) == EffectiveDelegate(l[j])
  {
    var x := l[i].(balance := "0");
    ParseZero();
    FindAccountReadsKeys(l, l[i := x], pk);
    SumOverUpdate(l, i, x, a => Contribution(a, excluded, pk));
  }

  /**
   * `l` and `l'` read the same for `pk`: the key is found in both or in neither,
   * the found accounts have the same balance and effective delegate, and the
   * delegated sums agree.
   */
  predicate SameReading(l: Ledger, l': Ledger, voted: set<string>, pk: string) {
    && (FindAccount(l, pk).None? <==> FindAccount(l', pk).None?)
    && (FindAccount(l, pk).Some? ==>
          var a, a' := l[FindAccount(l, pk).value], l'[FindAccount(l', pk).value];
          BalanceOf(a) == BalanceOf(a') && EffectiveDelegate(a) == EffectiveDelegate(a'))
    && DelegatedBalance(l, {}, pk) == DelegatedBalance(l', {}, pk)
    && DelegatedBalance(l, voted, pk) == DelegatedBalance(l', voted, pk)
  }

  lemma SameReadingSameReference(l: Ledger, l': Ledger, voted: set<string>, version: ProposalVersion, pk: string)
    requires SameReading(l, l', voted, pk)
    ensures ReferenceWeight(l, voted, version, pk) == ReferenceWeight(l', voted, version, pk)
  {
  }

  /** Two snapshots that read the same for `pk` give it the same weight. */
  lemma {:induction false} SameReadingSameWeight(l: Ledger, l': Ledger, voted: set<string>, version: ProposalVersion, pk: string)
    requires SameReading(l, l', voted, pk)
    ensures StakeWeight(l, voted, version, pk) == StakeWeight(l', voted, version, pk)
  {
    SameReadingSameReference(l, l', voted, version, pk);
    StakeWeightIsReference(l, voted, version, pk);
    StakeWeightIsReference(l', voted, version, pk);
  }

  /**
   * An account whose balance text does not parse weighs exactly as if its
   * balance were "0", whether it is the queried account or a delegator, and
   * it never turns a weight into an error.
   */
  lemma {:induction false} UnparseableBalanceCountsAsZero(l: Ledger, i: nat, voted: set<string>, version: ProposalVersion, pk: string)
    requires i < |l| && ParseBalance(l[i].balance).None?
    ensures StakeWeight(l, voted, version, pk) == StakeWeight(l[i := l[i].(balance := "0")], voted, version, pk)
  {
    ZeroingUnparseable(l, i, {}, pk);
    ZeroingUnparseable(l, i, voted, pk);
    SameReadingSameWeight(l, l[i := l[i].(balance := "0")], voted, version, pk);
  }

  // ---------------------------------------------------------------------------
  // Order of accounts

  /** No two accounts share a key. */
  predicate UniqueKeys(l: Ledger) {
    forall i, j | 0 <= i < j < |l| :: l[i].pk != l[j].pk
  }

  /** With unique keys, a reordered snapshot finds the same account for a key. */
  lemma FindAccountOrderIndependent(l: Ledger, l': Ledger, pk: string)
    requires multiset(l) == multiset(l') && UniqueKeys(l)
    ensures FindAccount(l, pk).None? <==> FindAccount(l', pk).None?
    ensures FindAccount(l, pk).Some? ==> l[FindAccount(l, pk).value] == l'[FindAccount(l', pk).value]
  {
    match FindAccount(l, pk)
    case None =>
      forall j | 0 <= j < |l'| ensures l'[j].pk != pk {
        assert l'[j] in multiset(l);
      }
    case Some(i) =>
      assert l[i] in multiset(l');
      var k := FindAccount(l', pk).value;
      assert l'[k] in multiset(l);
      var m :| 0 <= m < |l| && l[m] == l'[k];
      assert m == i;
  }

  /** With unique keys, reordering the accounts of a snapshot changes no weight. */
  lemma {:induction false} StakeWeightOrderIndependent(l: Ledger, l': Ledger, voted: set<string>, version: ProposalVersion, pk: string)
    requires multiset(l) == multiset(l') && UniqueKeys(l)
    ensures StakeWeight(l, voted, version, pk) == StakeWeight(l', voted, version, pk)
  {
    FindAccountOrderIndependent(l, l', pk);
    DelegatedBalanceOrderIndependent(l, l', {}, pk);
    DelegatedBalanceOrderIndependent(l, l', voted, pk);
    SameReadingSameWeight(l, l', voted, version, pk);
  }

  // ---------------------------------------------------------------------------
  // The unit-test scenarios

  /** One step of the delegated sum over the suffix of `l` from `k`. */
  lemma DelegatedBalanceSuffix(l: Ledger, k: nat, excluded: set<string>, pk: string)
    requires k < |l|
    ensures DelegatedBalance(l[k..], excluded, pk) ==
      Contribution(l[k], excluded, pk) + DelegatedBalance(l[k + 1..], excluded, pk)
    ensures k == 0 ==> l[k..] == l
    ensures k + 1 == |l| ==> DelegatedBalance(l[k + 1..], excluded, pk) == 0
  {
    assert l[k..][0] == l[k] && l[k..][1..] == l[k + 1..];
  }

  function Accounts(): Ledger {
    [ LedgerAccount("A", "1", None),
      LedgerAccount("B", "1", None),
      LedgerAccount("C", "1", Some("A")),
      LedgerAccount("D", "1", Some("A")),
      LedgerAccount("E", "1", Some("B")) ]
  }

  lemma ParseOne()
    ensures ParseBalance("1") == Some(Unit)
  {
    ParseWholeNumber("1");
    assert DigitsValue("1") == 1;
  }

  /** V1 over A..D with B and C having voted: E is not in the snapshot. */
  lemma ScenarioV1Missing()
    ensures StakeWeight(Accounts()[..4], {"B", "C"}, V1, "E") == Failure(AccountNotFound("E"))
  {
  }

  /** V1: D delegated to A, so it weighs 0. */
  lemma ScenarioV1DelegatedAway()
    ensures StakeWeight(Accounts()[..4], {"B", "C"}, V1, "D") == Success(0)
  {
    var l := Accounts()[..4];
    assert l[0].pk == "A" && l[1].pk == "B" && l[2].pk == "C" && l[3].pk == "D";
    assert FindAccount(l, "D") == Some(3);
    StakeWeightV1(l, {"B", "C"}, "D", 3);
  }

  /** The delegated sum for A over A..D: C and D. */
  lemma ScenarioDelegatedSumV1()
    ensures DelegatedBalance(Accounts()[..4], {}, "A") == 2 * Unit
  {
    ParseOne();
    var l := Accounts()[..4];
    for k := 3 downto 0
      invariant DelegatedBalance(l[k + 1..], {}, "A") == if k >= 3 then 0 else if k == 2 then Unit else 2 * Unit
    {
      DelegatedBalanceSuffix(l, k, {}, "A");
    }
    assert l[0..] == l;
  }

  /** V1: B has no delegators among A..D, so it weighs its own balance. */
  lemma ScenarioV1Alone()
    ensures StakeWeight(Accounts()[..4], {"B", "C"}, V1, "B") == Success(Unit)
  {
    ParseOne();
    var l := Accounts()[..4];
    assert l[0].pk == "A" && l[1].pk == "B";
    assert FindAccount(l, "B") == Some(1);
    assert forall j | 0 <= j < |l| :: !IsDelegator(l[j], "B") by {
      assert l[2].delegate == Some("A") && l[3].delegate == Some("A");
    }
    NoDelegatorsV1(l, {"B", "C"}, "B", 1);
  }

  /** V1: A carries C and D although C voted. */
  lemma ScenarioV1WithDelegators()
    ensures StakeWeight(Accounts()[..4], {"B", "C"}, V1, "A") == Success(3 * Unit)
  {
    ParseOne();
    ScenarioDelegatedSumV1();
    var l := Accounts()[..4];
    assert FindAccount(l, "A") == Some(0);
    StakeWeightV1(l, {"B", "C"}, "A", 0);
  }

  /** V2 over A..E with B and C having voted: F is not in the snapshot. */
  lemma ScenarioV2Missing()
    ensures StakeWeight(Accounts(), {"B", "C"}, V2, "F") == Failure(AccountNotFound("F"))
  {
  }

  /** Over A..E with B and C having voted, only D counts for A. */
  lemma ScenarioDelegatedSumA()
    ensures DelegatedBalance(Accounts(), {"B", "C"}, "A") == Unit
  {
    ParseOne();
    var l := Accounts();
    for k := 4 downto 0
      invariant DelegatedBalance(l[k + 1..], {"B", "C"}, "A") == if k >= 3 then 0 else Unit
    {
      DelegatedBalanceSuffix(l, k, {"B", "C"}, "A");
    }
    assert l[0..] == l;
  }

  /** Over A..E with B and C having voted, only E counts for B. */
  lemma ScenarioDelegatedSumB()
    ensures DelegatedBalance(Accounts(), {"B", "C"}, "B") == Unit
  {
    ParseOne();
    var l := Accounts();
    for k := 4 downto 0
      invariant DelegatedBalance(l[k + 1..], {"B", "C"}, "B") == if k >= 4 then 0 else Unit
    {
      DelegatedBalanceSuffix(l, k, {"B", "C"}, "B");
    }
    assert l[0..] == l;
  }

  /** V2: A carries D but not C, who voted. */
  lemma ScenarioV2ExcludesVoter()
    ensures StakeWeight(Accounts(), {"B", "C"}, V2, "A") == Success(2 * Unit)
  {
    ParseOne();
    ScenarioDelegatedSumA();
    assert FindAccount(Accounts(), "A") == Some(0);
    StakeWeightV2(Accounts(), {"B", "C"}, "A", 0);
  }

  /** V2: B carries E and keeps its own balance although B voted. */
  lemma ScenarioV2VoterKeepsOwnBalance()
    ensures StakeWeight(Accounts(), {"B", "C"}, V2, "B") == Success(2 * Unit)
  {
    ParseOne();
    ScenarioDelegatedSumB();
    var l := Accounts();
    assert l[0].pk == "A" && l[1].pk == "B";
    assert FindAccount(l, "B") == Some(1);
    StakeWeightV2(l, {"B", "C"}, "B", 1);
  }
}
