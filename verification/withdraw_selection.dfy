/** Choosing the stake accounts to withdraw from (cli/src/main.rs, repeated in
    metacli/src/main.rs): sort by balance, take from the largest first. */
module WithdrawSelection {
  import opened Basics

  const MIN_STAKE_BALANCE: u64 := 1_000_000_000

  datatype StakeAccount = StakeAccount(pubkey: Pubkey, lamports: u64)

  datatype WithdrawAccount = WithdrawAccount(account: StakeAccount, amount: u64)

  // ---------- the sort ----------

  function Insert(a: StakeAccount, sorted: seq<StakeAccount>): seq<StakeAccount> {
    if sorted == [] || sorted[0].lamports <= a.lamports then [a] + sorted
    else [sorted[0]] + Insert(a, sorted[1..])
  }

  /** The stable sort from the highest to the lowest balance. */
  function Sorted(accounts: seq<StakeAccount>): seq<StakeAccount> {
    if accounts == [] then [] else Insert(accounts[0], Sorted(accounts[1..]))
  }

  predicate Descending(accounts: seq<StakeAccount>) {
    forall i, j | 0 <= i < j < |accounts| :: accounts[i].lamports >= accounts[j].lamports
  }

  /** The accounts with a given balance, in order. */
  function OfBalance(accounts: seq<StakeAccount>, lamports: u64): seq<StakeAccount> {
    if accounts == [] then []
    else (if accounts[0].lamports == lamports then [accounts[0]] else []) + OfBalance(accounts[1..], lamports)
  }

  /** An account goes after all larger ones and before those of its own balance. */
  lemma {:induction false} InsertPosition(a: StakeAccount, sorted: seq<StakeAccount>) returns (p: nat)
    ensures p <= |sorted| && Insert(a, sorted) == sorted[..p] + [a] + sorted[p..]
    ensures forall i | 0 <= i < p :: sorted[i].lamports > a.lamports
    ensures p < |sorted| ==> sorted[p].lamports <= a.lamports
  {
    if sorted == [] || sorted[0].lamports <= a.lamports {
      p := 0;
    } else {
      var q := InsertPosition(a, sorted[1..]);
      p := q + 1;
      assert sorted[..p] == [sorted[0]] + sorted[1..][..q];
    }
  }

  predicate DistinctKeys(accounts: seq<StakeAccount>) {
    forall i, j | 0 <= i < j < |accounts| :: accounts[i].pubkey != accounts[j].pubkey
  }

  lemma InsertKeepsOrder(a: StakeAccount, sorted: seq<StakeAccount>)
    requires Descending(sorted)
    ensures Descending(Insert(a, sorted))
  {
    var p := InsertPosition(a, sorted);
  }

  lemma CountWithout<T>(s: seq<T>, i: nat, x: T)
    requires i < |s|
    ensures multiset(s)[x] == multiset(s[..i] + s[i + 1..])[x] + if s[i] == x then 1 else 0
  {
    assert s == s[..i] + [s[i]] + s[i + 1..];
  }

  lemma {:induction false} InsertKeepsAccounts(a: StakeAccount, sorted: seq<StakeAccount>)
    ensures multiset(Insert(a, sorted)) == multiset([a] + sorted)
  {
    if sorted != [] && sorted[0].lamports > a.lamports {
      InsertKeepsAccounts(a, sorted[1..]);
      assert sorted == [sorted[0]] + sorted[1..];
    }
  }

  lemma InsertKeepsKeys(a: StakeAccount, sorted: seq<StakeAccount>)
    requires DistinctKeys(sorted) && forall i | 0 <= i < |sorted| :: sorted[i].pubkey != a.pubkey
    ensures DistinctKeys(Insert(a, sorted))
  {
    var p := InsertPosition(a, sorted);
  }

  lemma {:induction false} InsertIsStable(a: StakeAccount, sorted: seq<StakeAccount>, v: u64)
    ensures OfBalance(Insert(a, sorted), v) == OfBalance([a] + sorted, v)
  {
    if sorted != [] && sorted[0].lamports > a.lamports {
      var rest := sorted[1..];
      InsertIsStable(a, rest, v);
      assert ([sorted[0]] + Insert(a, rest))[1..] == Insert(a, rest);
      assert ([a] + rest)[1..] == rest && ([a] + sorted)[1..] == sorted;
    }
  }

  /** The result is in descending order, has the same accounts, and keeps the order of equals. */
  lemma {:induction false} SortedIsStableSort(accounts: seq<StakeAccount>, v: u64)
    ensures Descending(Sorted(accounts))
    ensures multiset(Sorted(accounts)) == multiset(accounts)
    ensures OfBalance(Sorted(accounts), v) == OfBalance(accounts, v)
    ensures DistinctKeys(accounts) ==> DistinctKeys(Sorted(accounts))
  {
    if accounts != [] {
      var (a, rest) := (accounts[0], accounts[1..]);
      assert accounts == [a] + rest;
      assert forall i | 0 <= i < |rest| :: rest[i] == accounts[i + 1];
      SortedIsStableSort(rest, v);
      InsertKeepsOrder(a, Sorted(rest));
      InsertKeepsAccounts(a, Sorted(rest));
      InsertIsStable(a, Sorted(rest), v);
      assert ([a] + Sorted(rest))[1..] == Sorted(rest);
      if DistinctKeys(accounts) {
        KeysStayDistinct(a, rest, Sorted(rest));
        InsertKeepsKeys(a, Sorted(rest));
      }
    }
  }

  lemma KeysStayDistinct(a: StakeAccount, rest: seq<StakeAccount>, sorted: seq<StakeAccount>)
    requires DistinctKeys([a] + rest) && multiset(sorted) == multiset(rest)
    ensures forall i | 0 <= i < |sorted| :: sorted[i].pubkey != a.pubkey
  {
    forall i | 0 <= i < |sorted|
      ensures sorted[i].pubkey != a.pubkey
    {
      assert sorted[i] in multiset(sorted);
      var j :| 0 <= j < |rest| && rest[j] == sorted[i];
      assert ([a] + rest)[0].pubkey != ([a] + rest)[j + 1].pubkey;
    }
  }

  // ---------- the greedy loop ----------

  predicate Eligible(a: StakeAccount, minBalance: u64) {
    a.lamports > minBalance
  }

  /** What the loop may take from an eligible account. The subtraction is unchecked: it wraps for an
      account below one SOL. */
  function Available(a: StakeAccount): nat {
    WrapSub(a.lamports, MIN_STAKE_BALANCE)
  }

  /** What an account holds above one SOL. */
  function Spare(a: StakeAccount): nat {
    if MIN_STAKE_BALANCE <= a.lamports then a.lamports - MIN_STAKE_BALANCE else 0
  }

  /** The accounts picked from a sorted list, and the amount still uncovered. */
  function Picks(accounts: seq<StakeAccount>, remaining: u64, minBalance: u64): (seq<WithdrawAccount>, u64) {
    if accounts == [] then ([], remaining)
    else if !Eligible(accounts[0], minBalance) then Picks(accounts[1..], remaining, minBalance)
    else
      var amount := Min(Available(accounts[0]), remaining);
      var pick := WithdrawAccount(accounts[0], amount);
      if remaining - amount == 0 then ([pick], 0)
      else
        var (picks, left) := Picks(accounts[1..], remaining - amount, minBalance);
        ([pick] + picks, left)
  }

  /** The picks, or none when the accounts do not hold enough. */
  function Pick(accounts: seq<StakeAccount>, amount: u64, minBalance: u64): Option<seq<WithdrawAccount>> {
    var (picks, left) := Picks(Sorted(accounts), amount, minBalance);
    if left > 0 then None else Some(picks)
  }

  method PickWithdrawAccounts(accounts: seq<StakeAccount>, amount: u64, minBalance: u64)
    returns (sorted: seq<StakeAccount>, r: Option<seq<WithdrawAccount>>)
    ensures sorted == Sorted(accounts)
    ensures r == Pick(accounts, amount, minBalance)
  {
    sorted := Sorted(accounts);
    var withdrawFrom: seq<WithdrawAccount> := [];
    var remainingAmount := amount;
    ghost var (picks, left) := Picks(sorted, amount, minBalance);
    var i := 0;
    while i < |sorted|
      invariant 0 <= i <= |sorted| && 0 <= remainingAmount <= amount
      invariant var (picks', left') := Picks(sorted[i..], remainingAmount, minBalance);
                withdrawFrom + picks' == picks && left' == left
    {
      var account := sorted[i];
      assert sorted[i..][1..] == sorted[i + 1..];
      if account.lamports <= minBalance {
        i := i + 1;
        continue;
      }
      var availableForWithdrawal := WrapSub(account.lamports, MIN_STAKE_BALANCE);
      var withdrawAmount := Min(availableForWithdrawal, remainingAmount);
      withdrawFrom := withdrawFrom + [WithdrawAccount(account, withdrawAmount)];
      remainingAmount := remainingAmount - withdrawAmount;
      if remainingAmount == 0 {
        break;
      }
      i := i + 1;
    }
    assert withdrawFrom == picks && remainingAmount == left;
    r := if remainingAmount > 0 then None else Some(withdrawFrom);
  }

  // ---------- when it succeeds, and with what sum ----------

  function Total(accounts: seq<StakeAccount>, measure: StakeAccount -> nat): nat {
    if accounts == [] then 0 else measure(accounts[0]) + Total(accounts[1..], measure)
  }

  function EligibleOf(accounts: seq<StakeAccount>, minBalance: u64): seq<StakeAccount> {
    if accounts == [] then []
    else (if Eligible(accounts[0], minBalance) then [accounts[0]] else []) + EligibleOf(accounts[1..], minBalance)
  }

  /** What the loop may take from all accounts together. */
  function Capacity(accounts: seq<StakeAccount>, minBalance: u64): nat {
    Total(EligibleOf(accounts, minBalance), Available)
  }

  /** What the eligible accounts hold above one SOL each. */
  function RealCapacity(accounts: seq<StakeAccount>, minBalance: u64): nat {
    Total(EligibleOf(accounts, minBalance), Spare)
  }

  function Sum(picks: seq<WithdrawAccount>): nat {
    if picks == [] then 0 else picks[0].amount + Sum(picks[1..])
  }

  lemma {:induction false} PicksCover(accounts: seq<StakeAccount>, remaining: u64, minBalance: u64)
    ensures var (picks, left) := Picks(accounts, remaining, minBalance);
            && Sum(picks) + left == remaining
            && left == if remaining <= Capacity(accounts, minBalance) then 0 else remaining - Capacity(accounts, minBalance)
  {
    if accounts != [] {
      var rest := accounts[1..];
      if Eligible(accounts[0], minBalance) {
        assert EligibleOf(accounts, minBalance)[1..] == EligibleOf(rest, minBalance);
        var amount := Min(Available(accounts[0]), remaining);
        var (picks, left) := Picks(rest, remaining - amount, minBalance);
        assert ([WithdrawAccount(accounts[0], amount)] + picks)[1..] == picks;
        PicksCover(rest, remaining - amount, minBalance);
      } else {
        assert EligibleOf(accounts, minBalance) == EligibleOf(rest, minBalance);
        PicksCover(rest, remaining, minBalance);
      }
    }
  }

  lemma EligibleCons(a: StakeAccount, rest: seq<StakeAccount>, minBalance: u64, measure: StakeAccount -> nat)
    ensures Total(EligibleOf([a] + rest, minBalance), measure)
            == Total(EligibleOf(rest, minBalance), measure) + if Eligible(a, minBalance) then measure(a) else 0
  {
    assert ([a] + rest)[1..] == rest;
    if Eligible(a, minBalance) {
      assert EligibleOf([a] + rest, minBalance)[1..] == EligibleOf(rest, minBalance);
    } else {
      assert EligibleOf([a] + rest, minBalance) == EligibleOf(rest, minBalance);
    }
  }

  lemma {:induction false} InsertTotal(a: StakeAccount, sorted: seq<StakeAccount>, minBalance: u64, measure: StakeAccount -> nat)
    ensures Total(EligibleOf(Insert(a, sorted), minBalance), measure)
            == Total(EligibleOf(sorted, minBalance), measure) + if Eligible(a, minBalance) then measure(a) else 0
  {
    EligibleCons(a, sorted, minBalance, measure);
    if sorted != [] && sorted[0].lamports > a.lamports {
      InsertTotal(a, sorted[1..], minBalance, measure);
      EligibleCons(sorted[0], Insert(a, sorted[1..]), minBalance, measure);
      EligibleCons(sorted[0], sorted[1..], minBalance, measure);
      assert sorted == [sorted[0]] + sorted[1..];
    }
  }

  /** Sorting changes neither capacity. */
  lemma {:induction false} SortedTotal(accounts: seq<StakeAccount>, minBalance: u64, measure: StakeAccount -> nat)
    ensures Total(EligibleOf(Sorted(accounts), minBalance), measure) == Total(EligibleOf(accounts, minBalance), measure)
  {
    if accounts != [] {
      SortedTotal(accounts[1..], minBalance, measure);
      InsertTotal(accounts[0], Sorted(accounts[1..]), minBalance, measure);
      EligibleCons(accounts[0], accounts[1..], minBalance, measure);
      assert accounts == [accounts[0]] + accounts[1..];
    }
  }

  /** Picking succeeds exactly when the eligible accounts' capacity covers the amount, and then the
      picks sum to the amount. */
  lemma PickSucceedsIffCovered(accounts: seq<StakeAccount>, amount: u64, minBalance: u64)
    ensures Pick(accounts, amount, minBalance).Some? <==> amount <= Capacity(accounts, minBalance)
    ensures Pick(accounts, amount, minBalance).Some? ==> Sum(Pick(accounts, amount, minBalance).value) == amount
  {
    PicksCover(Sorted(accounts), amount, minBalance);
    SortedTotal(accounts, minBalance, Available);
  }

  // ---------- the wrapping subtraction ----------

  /** No account lies strictly between the minimum balance and one SOL. */
  predicate GapFree(accounts: seq<StakeAccount>, minBalance: u64) {
    forall i | 0 <= i < |accounts| :: Eligible(accounts[i], minBalance) ==> MIN_STAKE_BALANCE <= accounts[i].lamports
  }

  /** What the wrapping subtraction makes up: 2^64 lamports for each eligible account below one SOL,
      less what that account is short of it. */
  function Excess(accounts: seq<StakeAccount>, minBalance: u64): nat {
    if accounts == [] then 0
    else
      Excess(accounts[1..], minBalance)
      + if Eligible(accounts[0], minBalance) && accounts[0].lamports < MIN_STAKE_BALANCE
        then U64_RANGE - (MIN_STAKE_BALANCE - accounts[0].lamports) else 0
  }

  /** The capacity the loop sees is the real one and the excess, which is zero exactly without a gap
      and otherwise more than 2^64 lamports less one SOL. */
  lemma {:induction false} CapacityIsReal(accounts: seq<StakeAccount>, minBalance: u64)
    ensures Capacity(accounts, minBalance) == RealCapacity(accounts, minBalance) + Excess(accounts, minBalance)
    ensures if GapFree(accounts, minBalance) then Excess(accounts, minBalance) == 0
            else Excess(accounts, minBalance) > U64_RANGE - MIN_STAKE_BALANCE
  {
    if accounts != [] {
      var rest := accounts[1..];
      CapacityIsReal(rest, minBalance);
      EligibleCons(accounts[0], rest, minBalance, Available);
      EligibleCons(accounts[0], rest, minBalance, Spare);
      assert accounts == [accounts[0]] + rest;
      if GapFree(rest, minBalance) && !GapFree(accounts, minBalance) {
        assert !(Eligible(accounts[0], minBalance) ==> MIN_STAKE_BALANCE <= accounts[0].lamports);
      }
    }
  }

  /** Picking tells correctly whether the accounts hold the amount above one SOL each if and only if no
      account lies between the minimum balance and one SOL, or the others cover the amount anyway; an
      amount over 2^64 lamports less one SOL may also be beyond the excess. */
  lemma PickIsRightIff(accounts: seq<StakeAccount>, amount: u64, minBalance: u64)
    ensures amount <= U64_RANGE - MIN_STAKE_BALANCE ==>
              ((Pick(accounts, amount, minBalance).Some? <==> amount <= RealCapacity(accounts, minBalance))
               <==> GapFree(accounts, minBalance) || amount <= RealCapacity(accounts, minBalance))
    ensures (Pick(accounts, amount, minBalance).Some? <==> amount <= RealCapacity(accounts, minBalance))
            <==> GapFree(accounts, minBalance) || amount <= RealCapacity(accounts, minBalance)
                 || RealCapacity(accounts, minBalance) + Excess(accounts, minBalance) < amount
  {
    PickSucceedsIffCovered(accounts, amount, minBalance);
    CapacityIsReal(accounts, minBalance);
  }

  /** An account with half a SOL is picked for a whole one. */
  lemma HalfASolIsOverdrawn(key: Pubkey)
    ensures var a := StakeAccount(key, 500_000_000);
            Pick([a], 1_000_000_000, 2_282_881) == Some([WithdrawAccount(a, 1_000_000_000)])
  {
    var a := StakeAccount(key, 500_000_000);
    assert Sorted([a]) == [a];
  }

  // ---------- what is picked ----------

  /** The loop skips ineligible accounts. */
  lemma {:induction false} PicksOfEligible(accounts: seq<StakeAccount>, remaining: u64, minBalance: u64)
    ensures Picks(accounts, remaining, minBalance) == Picks(EligibleOf(accounts, minBalance), remaining, minBalance)
  {
    if accounts != [] {
      var rest := accounts[1..];
      if Eligible(accounts[0], minBalance) {
        assert EligibleOf(accounts, minBalance)[1..] == EligibleOf(rest, minBalance);
        PicksOfEligible(rest, remaining - Min(Available(accounts[0]), remaining), minBalance);
      } else {
        assert EligibleOf(accounts, minBalance) == EligibleOf(rest, minBalance);
        PicksOfEligible(rest, remaining, minBalance);
      }
    }
  }

  lemma {:induction false} EligibleCount(accounts: seq<StakeAccount>, minBalance: u64, a: StakeAccount)
    ensures multiset(EligibleOf(accounts, minBalance))[a] == if Eligible(a, minBalance) then multiset(accounts)[a] else 0
  {
    if accounts != [] {
      EligibleCount(accounts[1..], minBalance, a);
      assert accounts == [accounts[0]] + accounts[1..];
    }
  }

  lemma EligibleMembers(accounts: seq<StakeAccount>, minBalance: u64)
    ensures forall a | a in EligibleOf(accounts, minBalance) :: Eligible(a, minBalance) && a in accounts
  {
    forall a | a in EligibleOf(accounts, minBalance)
      ensures Eligible(a, minBalance) && a in accounts
    {
      EligibleCount(accounts, minBalance, a);
      assert a in multiset(EligibleOf(accounts, minBalance));
      assert a in multiset(accounts);
    }
  }

  lemma {:induction false} EligibleInOrder(accounts: seq<StakeAccount>, minBalance: u64)
    requires Descending(accounts)
    ensures Descending(EligibleOf(accounts, minBalance))
  {
    if accounts != [] {
      var rest := accounts[1..];
      EligibleInOrder(rest, minBalance);
      EligibleMembers(rest, minBalance);
      assert forall a | a in rest :: a.lamports <= accounts[0].lamports;
    }
  }

  lemma {:induction false} EligibleDistinct(accounts: seq<StakeAccount>, minBalance: u64)
    requires DistinctKeys(accounts)
    ensures DistinctKeys(EligibleOf(accounts, minBalance))
  {
    if accounts != [] {
      var rest := accounts[1..];
      EligibleDistinct(rest, minBalance);
      EligibleMembers(rest, minBalance);
      assert forall a | a in rest :: a.pubkey != accounts[0].pubkey;
    }
  }

  /** The picks from eligible accounts are the first of them, in order. */
  lemma {:induction false} PicksInOrder(accounts: seq<StakeAccount>, remaining: u64, minBalance: u64)
    requires forall a | a in accounts :: Eligible(a, minBalance)
    ensures var picks := Picks(accounts, remaining, minBalance).0;
            |picks| <= |accounts| && forall i | 0 <= i < |picks| :: picks[i].account == accounts[i]
  {
    if accounts != [] {
      assert accounts[0] in accounts && forall a | a in accounts[1..] :: a in accounts;
      PicksInOrder(accounts[1..], remaining - Min(Available(accounts[0]), remaining), minBalance);
    }
  }

  /** What a withdrawal may take of an account without leaving it below one SOL. */
  predicate Sound(pick: WithdrawAccount) {
    pick.amount + MIN_STAKE_BALANCE <= pick.account.lamports
  }

  /** Picking from a descending list of eligible accounts an amount they hold above one SOL covers it
      with sound picks. */
  lemma {:induction false} PicksSound(accounts: seq<StakeAccount>, remaining: u64, minBalance: u64)
    requires Descending(accounts) && forall a | a in accounts :: Eligible(a, minBalance)
    requires 0 < remaining <= Total(accounts, Spare)
    ensures Picks(accounts, remaining, minBalance).1 == 0
    ensures var picks := Picks(accounts, remaining, minBalance).0;
            forall i | 0 <= i < |picks| :: Sound(picks[i])
  {
    assert accounts[0] in accounts && forall a | a in accounts[1..] :: a in accounts;
    if accounts[0].lamports < MIN_STAKE_BALANCE {
      NothingSpare(accounts);
    }
    var amount := Min(Available(accounts[0]), remaining);
    if amount < remaining {
      PicksSound(accounts[1..], remaining - amount, minBalance);
    }
  }

  /** All picks but the last are drained of what they have available, and do not cover the amount
      without the last. */
  lemma {:induction false} PicksDrain(accounts: seq<StakeAccount>, remaining: u64, minBalance: u64)
    requires forall a | a in accounts :: Eligible(a, minBalance)
    requires remaining > 0 && Picks(accounts, remaining, minBalance).1 == 0
    ensures var picks := Picks(accounts, remaining, minBalance).0;
            && 0 < |picks| <= |accounts|
            && (forall i | 0 <= i < |picks| - 1 :: picks[i].amount == Available(accounts[i]))
            && 0 < picks[|picks| - 1].amount
            && Total(accounts[..|picks| - 1], Available) < remaining
  {
    assert accounts != [];
    var rest := accounts[1..];
    assert accounts[0] in accounts;
    var amount := Min(Available(accounts[0]), remaining);
    if amount < remaining {
      assert forall a | a in rest :: a in accounts;
      PicksDrain(rest, remaining - amount, minBalance);
      var picks := Picks(rest, remaining - amount, minBalance).0;
      assert accounts[..|picks|][1..] == rest[..|picks| - 1];
      assert Picks(accounts, remaining, minBalance).0 == [WithdrawAccount(accounts[0], amount)] + picks;
    } else {
      assert accounts[..0] == [];
    }
  }

  /** The loop sees at least what there is to spare. */
  lemma {:induction false} SpareWithinAvailable(accounts: seq<StakeAccount>)
    ensures Total(accounts, Spare) <= Total(accounts, Available)
  {
    if accounts != [] {
      SpareWithinAvailable(accounts[1..]);
    }
  }

  lemma {:induction false} NothingSpare(accounts: seq<StakeAccount>)
    requires Descending(accounts) && accounts != [] && accounts[0].lamports < MIN_STAKE_BALANCE
    ensures Total(accounts, Spare) == 0
  {
    if |accounts| > 1 {
      NothingSpare(accounts[1..]);
    }
  }

  lemma {:induction false} SoundSum(picks: seq<WithdrawAccount>, accounts: seq<StakeAccount>)
    requires |picks| <= |accounts| && forall i | 0 <= i < |picks| :: picks[i].account == accounts[i] && Sound(picks[i])
    ensures Sum(picks) <= Total(accounts, Spare)
  {
    if picks != [] {
      SoundSum(picks[1..], accounts[1..]);
    }
  }

  // ---------- no smaller set would do ----------

  lemma {:induction false} TotalRemove(accounts: seq<StakeAccount>, i: nat)
    requires i < |accounts|
    ensures Total(accounts, Spare) == Spare(accounts[i]) + Total(accounts[..i] + accounts[i + 1..], Spare)
  {
    if i == 0 {
      assert accounts[..0] + accounts[1..] == accounts[1..];
    } else {
      TotalRemove(accounts[1..], i - 1);
      assert (accounts[..i] + accounts[i + 1..])[1..] == accounts[1..][..i - 1] + accounts[1..][i..];
    }
  }

  lemma RemoveFromBoth<T>(others: seq<T>, best: seq<T>, i: nat)
    requires multiset(others) <= multiset(best) && i < |others| && best != []
    requires others[i] == best[0] || best[0] !in others
    ensures multiset(others[..i] + others[i + 1..]) <= multiset(best[1..])
  {
    forall x
      ensures multiset(others[..i] + others[i + 1..])[x] <= multiset(best[1..])[x]
    {
      CountWithout(others, i, x);
      CountWithout(best, 0, x);
      assert best[..0] + best[1..] == best[1..];
      assert x in others <==> multiset(others)[x] > 0;
    }
  }

  /** Where to remove an account from `others` so that the rest are among `best` without its first. */
  lemma RemoveOne(best: seq<StakeAccount>, others: seq<StakeAccount>) returns (i: nat)
    requires others != [] && Descending(best) && multiset(others) <= multiset(best)
    ensures best != [] && i < |others| && Spare(others[i]) <= Spare(best[0])
    ensures multiset(others[..i] + others[i + 1..]) <= multiset(best[1..])
  {
    assert others[0] in multiset(others) && others[0] in multiset(best);
    assert others[0] in best;
    i := 0;
    if best[0] in others {
      i :| 0 <= i < |others| && others[i] == best[0];
    }
    RemoveFromBoth(others, best, i);
  }

  /** The first accounts of a list in descending order have the most to spare of any as many. */
  lemma {:induction false} FirstAreBest(best: seq<StakeAccount>, others: seq<StakeAccount>)
    requires Descending(best) && multiset(others) <= multiset(best)
    ensures |others| <= |best| && Total(others, Spare) <= Total(best[..|others|], Spare)
    decreases |others|
  {
    if others != [] {
      var i := RemoveOne(best, others);
      var rest := others[..i] + others[i + 1..];
      FirstAreBest(best[1..], rest);
      TotalRemove(others, i);
      assert best[..|others|][1..] == best[1..][..|rest|];
    }
  }

  lemma {:induction false} TotalPrefix(accounts: seq<StakeAccount>, n: nat, m: nat)
    requires n <= m <= |accounts|
    ensures Total(accounts[..n], Spare) <= Total(accounts[..m], Spare)
  {
    if n > 0 {
      assert accounts[..n][1..] == accounts[1..][..n - 1] && accounts[..m][1..] == accounts[1..][..m - 1];
      TotalPrefix(accounts[1..], n - 1, m - 1);
    }
  }

  lemma AmongEligible(sorted: seq<StakeAccount>, others: seq<StakeAccount>, minBalance: u64)
    requires multiset(others) <= multiset(sorted) && forall a | a in others :: Eligible(a, minBalance)
    ensures multiset(others) <= multiset(EligibleOf(sorted, minBalance))
  {
    forall a
      ensures multiset(others)[a] <= multiset(EligibleOf(sorted, minBalance))[a]
    {
      EligibleCount(sorted, minBalance, a);
      if a in multiset(others) {
        assert a in others;
      }
    }
  }

  /** The eligible accounts in the order the loop takes them. */
  lemma EligibleSorted(accounts: seq<StakeAccount>, minBalance: u64)
    ensures Descending(EligibleOf(Sorted(accounts), minBalance))
    ensures forall a | a in EligibleOf(Sorted(accounts), minBalance) :: Eligible(a, minBalance)
    ensures Total(EligibleOf(Sorted(accounts), minBalance), Spare) == RealCapacity(accounts, minBalance)
  {
    SortedIsStableSort(accounts, 0);
    EligibleInOrder(Sorted(accounts), minBalance);
    EligibleMembers(Sorted(accounts), minBalance);
    SortedTotal(accounts, minBalance, Spare);
  }

  /** The picks are the first of `largest`, sound, and all but the last drained to one SOL; without the
      last they do not cover the amount. */
  predicate DrainsInOrder(picks: seq<WithdrawAccount>, largest: seq<StakeAccount>, amount: u64) {
    && 0 < |picks| <= |largest|
    && (forall i | 0 <= i < |picks| :: picks[i].account == largest[i] && Sound(picks[i]))
    && (forall i | 0 <= i < |picks| - 1 :: picks[i].account.lamports - picks[i].amount == MIN_STAKE_BALANCE)
    && 0 < picks[|picks| - 1].amount
    && Total(largest[..|picks| - 1], Spare) < amount
  }

  lemma DrainsLargest(largest: seq<StakeAccount>, amount: u64, minBalance: u64)
    requires Descending(largest) && forall a | a in largest :: Eligible(a, minBalance)
    requires 0 < amount <= Total(largest, Spare)
    ensures Picks(largest, amount, minBalance).1 == 0
    ensures DrainsInOrder(Picks(largest, amount, minBalance).0, largest, amount)
  {
    PicksInOrder(largest, amount, minBalance);
    PicksSound(largest, amount, minBalance);
    PicksDrain(largest, amount, minBalance);
    SpareWithinAvailable(largest[..|Picks(largest, amount, minBalance).0| - 1]);
  }

  /** A positive amount that the accounts hold above one SOL each: the picks are the largest eligible
      accounts, all but the last drained to one SOL and the last not below it. */
  lemma PicksDrainToOneSol(accounts: seq<StakeAccount>, amount: u64, minBalance: u64)
    requires 0 < amount <= RealCapacity(accounts, minBalance)
    ensures Pick(accounts, amount, minBalance).Some?
    ensures DrainsInOrder(Pick(accounts, amount, minBalance).value, EligibleOf(Sorted(accounts), minBalance), amount)
  {
    EligibleSorted(accounts, minBalance);
    PicksOfEligible(Sorted(accounts), amount, minBalance);
    DrainsLargest(EligibleOf(Sorted(accounts), minBalance), amount, minBalance);
  }

  /** When picking a positive amount succeeds, it overdraws no account if and only if no account lies
      between the minimum balance and one SOL, or the others cover the amount anyway. */
  lemma PicksAreSoundIff(accounts: seq<StakeAccount>, amount: u64, minBalance: u64)
    requires amount > 0 && Pick(accounts, amount, minBalance).Some?
    ensures (forall i | 0 <= i < |Pick(accounts, amount, minBalance).value| :: Sound(Pick(accounts, amount, minBalance).value[i]))
            <==> GapFree(accounts, minBalance) || amount <= RealCapacity(accounts, minBalance)
  {
    PickSucceedsIffCovered(accounts, amount, minBalance);
    CapacityIsReal(accounts, minBalance);
    if amount <= RealCapacity(accounts, minBalance) {
      PicksDrainToOneSol(accounts, amount, minBalance);
    } else {
      OverdrawnPick(accounts, amount, minBalance);
    }
  }

  lemma OverdrawnPick(accounts: seq<StakeAccount>, amount: u64, minBalance: u64)
    requires Pick(accounts, amount, minBalance).Some? && RealCapacity(accounts, minBalance) < amount
    ensures exists i | 0 <= i < |Pick(accounts, amount, minBalance).value| :: !Sound(Pick(accounts, amount, minBalance).value[i])
  {
    var picks := Pick(accounts, amount, minBalance).value;
    var largest := EligibleOf(Sorted(accounts), minBalance);
    PickSucceedsIffCovered(accounts, amount, minBalance);
    EligibleSorted(accounts, minBalance);
    PicksOfEligible(Sorted(accounts), amount, minBalance);
    PicksInOrder(largest, amount, minBalance);
    if forall i | 0 <= i < |picks| :: Sound(picks[i]) {
      SoundSum(picks, largest);
    }
  }

  lemma FewerCoverLess(best: seq<StakeAccount>, others: seq<StakeAccount>, n: nat, amount: nat)
    requires Descending(best) && multiset(others) <= multiset(best)
    requires |others| <= n <= |best| && Total(best[..n], Spare) < amount
    ensures Total(others, Spare) < amount
  {
    FirstAreBest(best, others);
    TotalPrefix(best, |others|, n);
  }

  /** And no smaller collection of eligible accounts holds the amount above one SOL each. */
  lemma NoSmallerSelection(accounts: seq<StakeAccount>, amount: u64, minBalance: u64, others: seq<StakeAccount>)
    requires 0 < amount <= RealCapacity(accounts, minBalance) && Pick(accounts, amount, minBalance).Some?
    requires multiset(others) <= multiset(accounts) && forall a | a in others :: Eligible(a, minBalance)
    requires |others| < |Pick(accounts, amount, minBalance).value|
    ensures Total(others, Spare) < amount
  {
    var largest := EligibleOf(Sorted(accounts), minBalance);
    var n := |Pick(accounts, amount, minBalance).value| - 1;
    assert n < |largest| && Total(largest[..n], Spare) < amount by {
      PicksDrainToOneSol(accounts, amount, minBalance);
    }
    assert Descending(largest) by {
      EligibleSorted(accounts, minBalance);
    }
    assert multiset(others) <= multiset(largest) by {
      SortedIsStableSort(accounts, 0);
      AmongEligible(Sorted(accounts), others, minBalance);
    }
    FewerCoverLess(largest, others, n, amount);
  }

  /** Accounts with different keys are picked at most once. */
  lemma PicksAreDistinct(accounts: seq<StakeAccount>, amount: u64, minBalance: u64)
    requires DistinctKeys(accounts) && Pick(accounts, amount, minBalance).Some?
    ensures var picks := Pick(accounts, amount, minBalance).value;
            forall i, j | 0 <= i < j < |picks| :: picks[i].account.pubkey != picks[j].account.pubkey
  {
    var sorted := Sorted(accounts);
    SortedIsStableSort(accounts, 0);
    EligibleDistinct(sorted, minBalance);
    EligibleMembers(sorted, minBalance);
    PicksOfEligible(sorted, amount, minBalance);
    PicksInOrder(EligibleOf(sorted, minBalance), amount, minBalance);
  }

  /** Every pick is one of the accounts, holds more than the minimum balance, and takes no more than the
      amount asked for. */
  lemma PicksHoldMoreThanMinimum(accounts: seq<StakeAccount>, amount: u64, minBalance: u64)
    requires Pick(accounts, amount, minBalance).Some?
    ensures var picks := Pick(accounts, amount, minBalance).value;
            forall i | 0 <= i < |picks| ::
              picks[i].account in accounts && picks[i].account.lamports > minBalance && picks[i].amount <= amount
  {
    var picks := Pick(accounts, amount, minBalance).value;
    PickSucceedsIffCovered(accounts, amount, minBalance);
    forall i | 0 <= i < |picks|
      ensures picks[i].account in accounts && picks[i].account.lamports > minBalance && picks[i].amount <= amount
    {
      PickIsEligible(accounts, amount, minBalance, i);
      PartWithinSum(picks, i);
    }
  }

  lemma PickIsEligible(accounts: seq<StakeAccount>, amount: u64, minBalance: u64, i: nat)
    requires Pick(accounts, amount, minBalance).Some? && i < |Pick(accounts, amount, minBalance).value|
    ensures var a := Pick(accounts, amount, minBalance).value[i].account;
            a in accounts && a.lamports > minBalance
  {
    var largest := EligibleOf(Sorted(accounts), minBalance);
    var a := Pick(accounts, amount, minBalance).value[i].account;
    assert a in largest by {
      EligibleMembers(Sorted(accounts), minBalance);
      PicksOfEligible(Sorted(accounts), amount, minBalance);
      PicksInOrder(largest, amount, minBalance);
    }
    EligibleMembers(Sorted(accounts), minBalance);
    SortedIsStableSort(accounts, 0);
    assert a in multiset(Sorted(accounts));
  }

  lemma {:induction false} PartWithinSum(picks: seq<WithdrawAccount>, i: nat)
    requires i < |picks|
    ensures picks[i].amount <= Sum(picks)
  {
    if i > 0 {
      PartWithinSum(picks[1..], i - 1);
    }
  }

  /** A single account that holds the amount above one SOL is picked exactly above the minimum balance. */
  lemma AboveMinimumIsPicked(a: StakeAccount, amount: u64, minBalance: u64)
    requires MIN_STAKE_BALANCE + amount <= a.lamports
    ensures Pick([a], amount, minBalance)
            == if a.lamports > minBalance then Some([WithdrawAccount(a, amount)])
               else if amount == 0 then Some([]) else None
  {
    assert Sorted([a]) == [a] && [a][1..] == [];
    assert Picks([], amount, minBalance) == ([], amount);
  }
}
