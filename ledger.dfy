/**
 * Model of the bank ledger of `src/bank.rs`: a `Bank` holds an ordered map
 * from account id to balance and the next account id to hand out, and the
 * property test drives it with an arbitrary sequence of create, delete and
 * transfer choices, checking after every step that the total of all balances
 * never changes.
 */
module Ledger {
  import opened Wrappers
  import opened Counting

  /** `AccountId` is a `u64`, `Balance` a `u128`; ids and balances are kept below these bounds. */
  const ACCOUNT_ID_BOUND: nat := 0x1_0000_0000_0000_0000
  const BALANCE_BOUND: nat := 0x1_0000_0000_0000_0000_0000_0000_0000_0000

  /** The treasury is the first account ever created and holds the initial money. */
  const TREASURY: nat := 0
  const TREASURY_BALANCE: nat := 1_000_000

  /** The largest amount the property test ever transfers. */
  const TRANSFER_MAX: nat := 100

  /** The members of `s` below `n`, in ascending order. */
  function KeysBelow(s: set<nat>, n: nat): seq<nat>
  {
    if n == 0 then [] else KeysBelow(s, n - 1) + (if n - 1 in s then [n - 1] else [])
  }

  /** `KeysBelow` lists exactly the members of `s` below `n`, strictly ascending. */
  lemma {:induction false} KeysBelowSpec(s: set<nat>, n: nat)
    ensures var r := KeysBelow(s, n);
      && (forall i :: 0 <= i < |r| ==> r[i] < n)
      && (forall i, j :: 0 <= i < j < |r| ==> r[i] < r[j])
      && (forall k :: k in r <==> k in s && k < n)
  {
    if n > 0 {
      KeysBelowSpec(s, n - 1);
    }
  }

  /** The sum of the balances `m` holds for `ids`. */
  function Sum(m: map<nat, nat>, ids: seq<nat>): nat
    requires forall k :: k in ids ==> k in m
  {
    if ids == [] then 0 else Sum(m, ids[..|ids| - 1]) + m[ids[|ids| - 1]]
  }

  /** The sum of the balances of all accounts of `m` below `n`. */
  function Total(m: map<nat, nat>, n: nat): nat
  {
    if n == 0 then 0 else Total(m, n - 1) + (if n - 1 in m then m[n - 1] else 0)
  }

  /**
   * The balances after `transfer(dr, cr, amount)`: nothing happens when the two
   * accounts are the same or when the checked subtraction or addition fails.
   */
  function Transferred(m: map<nat, nat>, dr: nat, cr: nat, amount: nat): (m': map<nat, nat>)
    requires dr != cr ==> dr in m && cr in m
    ensures m'.Keys == m.Keys
    ensures forall k :: k in m && k != dr && k != cr ==> m'[k] == m[k]
    ensures dr != cr && amount <= m[dr] && m[cr] + amount < BALANCE_BOUND ==>
              m'[dr] == m[dr] - amount && m'[cr] == m[cr] + amount
    ensures !(dr != cr && amount <= m[dr] && m[cr] + amount < BALANCE_BOUND) ==> m' == m
  {
    if dr == cr then m
    else if amount <= m[dr] && m[cr] + amount < BALANCE_BOUND then m[dr := m[dr] - amount][cr := m[cr] + amount]
    else m
  }

  /** Summing the balances over the ids in key order gives `Total`. */
  lemma {:induction false} SumInKeyOrder(m: map<nat, nat>, n: nat)
    ensures (forall k :: k in KeysBelow(m.Keys, n) ==> k in m) && Sum(m, KeysBelow(m.Keys, n)) == Total(m, n)
  {
    KeysBelowSpec(m.Keys, n);
    if n > 0 {
      KeysBelowSpec(m.Keys, n - 1);
      SumInKeyOrder(m, n - 1);
      var ks := KeysBelow(m.Keys, n - 1);
      if n - 1 in m {
        var ks' := ks + [n - 1];
        assert KeysBelow(m.Keys, n) == ks';
        assert ks'[..|ks|] == ks;
        assert Sum(m, ks') == Sum(m, ks) + m[n - 1];
      } else {
        assert KeysBelow(m.Keys, n) == ks;
      }
    }
  }

  /** Two ledgers that agree on every account below `n` have the same total. */
  lemma {:induction false} TotalFrame(m1: map<nat, nat>, m2: map<nat, nat>, n: nat)
    requires forall k: nat :: k < n ==> (k in m1 <==> k in m2)
    requires forall k: nat :: k < n && k in m1 && k in m2 ==> m1[k] == m2[k]
    ensures Total(m1, n) == Total(m2, n)
  {
    if n > 0 {
      TotalFrame(m1, m2, n - 1);
    }
  }

  /** Overwriting one existing balance changes the total by the difference. */
  lemma {:induction false} TotalUpdate(m: map<nat, nat>, n: nat, k: nat, v: nat)
    requires k in m && k < n
    ensures Total(m[k := v], n) + m[k] == Total(m, n) + v
  {
    if k == n - 1 {
      TotalFrame(m[k := v], m, n - 1);
    } else {
      TotalUpdate(m, n - 1, k, v);
    }
  }

  /** Removing an existing account lowers the total by its balance. */
  lemma {:induction false} TotalRemove(m: map<nat, nat>, n: nat, k: nat)
    requires k in m && k < n
    ensures Total(m - {k}, n) + m[k] == Total(m, n)
  {
    if k == n - 1 {
      TotalFrame(m - {k}, m, n - 1);
    } else {
      TotalRemove(m, n - 1, k);
    }
  }

  /** Adding a fresh account with balance 0 just above every existing id keeps the total. */
  lemma TotalInsertZero(m: map<nat, nat>, n: nat)
    requires forall k :: k in m ==> k < n
    ensures Total(m[n := 0], n + 1) == Total(m, n)
  {
    TotalFrame(m[n := 0], m, n);
  }

  /** A transfer never changes the total, whichever outcome it has. */
  lemma TransferConserves(m: map<nat, nat>, n: nat, dr: nat, cr: nat, amount: nat)
    requires forall k :: k in m ==> k < n
    requires dr != cr ==> dr in m && cr in m
    ensures Total(Transferred(m, dr, cr, amount), n) == Total(m, n)
  {
    if dr != cr && amount <= m[dr] && m[cr] + amount < BALANCE_BOUND {
      var m1 := m[dr := m[dr] - amount];
      TotalUpdate(m, n, dr, m[dr] - amount);
      TotalUpdate(m1, n, cr, m[cr] + amount);
    }
  }

  class Bank {
    var accountIdNext: nat
    var balances: map<nat, nat>

    /** Every id is a `u64` below `accountIdNext` and every balance a `u128`. */
    ghost predicate WellFormed()
      reads this
    {
      && accountIdNext < ACCOUNT_ID_BOUND
      && forall k :: k in balances ==> k < accountIdNext && balances[k] < BALANCE_BOUND
    }

    /** The class invariant once the treasury exists. */
    ghost predicate Valid()
      reads this
    {
      WellFormed() && TREASURY in balances
    }

    /** `get_accounts`: the account ids in ascending order, each exactly once. */
    function Accounts(): (ids: seq<nat>)
      reads this
      requires WellFormed()
      ensures forall i, j :: 0 <= i < j < |ids| ==> ids[i] < ids[j]
      ensures forall k :: k in ids <==> k in balances
    {
      KeysBelowSpec(balances.Keys, accountIdNext);
      KeysBelow(balances.Keys, accountIdNext)
    }

    /** `lookup_balance`: defined only for an existing account (the source unwraps). */
    function LookupBalance(id: nat): (b: nat)
      reads this
      requires id in balances
      ensures WellFormed() ==> b < BALANCE_BOUND
    {
      balances[id]
    }

    /**
     * The sum the property test computes: the ids of `get_accounts` in order,
     * each read from the map as `lookup_balance` reads it.
     */
    function BalanceTotal(): (total: nat)
      reads this
      requires WellFormed()
      ensures total == Total(balances, accountIdNext)
    {
      SumInKeyOrder(balances, accountIdNext);
      Sum(balances, Accounts())
    }

    /** `Bank::new`: a bank holding only the treasury. */
    constructor ()
      ensures Valid()
      ensures accountIdNext == 1 && balances == map[TREASURY := TREASURY_BALANCE]
      ensures BalanceTotal() == TREASURY_BALANCE
    {
      accountIdNext := 0;
      balances := map[];
      new;
      CreateTreasury(TREASURY_BALANCE);
      assert Total(balances, 1) == Total(balances, 0) + balances[TREASURY];
    }

    /** `create_treasury`: only valid on an empty bank, whose first account becomes the treasury. */
    method CreateTreasury(treasuryBalance: nat)
      requires WellFormed() && accountIdNext == TREASURY
      requires treasuryBalance < BALANCE_BOUND
      modifies this
      ensures Valid()
      ensures accountIdNext == 1 && balances == map[TREASURY := treasuryBalance]
    {
      var treasuryAccount := CreateAccount();
      assert treasuryAccount == TREASURY;
      assert balances == map[TREASURY := 0];
      assert |balances| == 1;
      balances := balances[treasuryAccount := treasuryBalance];
    }

    /** `create_account`: hands out the next id, which is fresh, with balance 0. */
    method CreateAccount() returns (id: nat)
      requires WellFormed()
      requires accountIdNext + 1 < ACCOUNT_ID_BOUND
      modifies this
      ensures WellFormed()
      ensures id == old(accountIdNext) && accountIdNext == id + 1
      ensures id !in old(balances)
      ensures balances == old(balances)[id := 0]
      ensures Total(balances, accountIdNext) == Total(old(balances), old(accountIdNext))
    {
      TotalInsertZero(balances, accountIdNext);
      id := accountIdNext;
      accountIdNext := accountIdNext + 1;
      balances := balances[id := 0];
    }

    /** `delete_account`: never the treasury; removes that one key, and its money with it. */
    method DeleteAccount(id: nat)
      requires Valid()
      requires id != TREASURY
      modifies this
      ensures Valid()
      ensures accountIdNext == old(accountIdNext)
      ensures balances == old(balances) - {id}
      ensures id !in old(balances) ==> balances == old(balances)
      ensures id in old(balances) ==> BalanceTotal() + old(balances[id]) == old(BalanceTotal())
      ensures id !in old(balances) ==> BalanceTotal() == old(BalanceTotal())
    {
      if id in balances {
        TotalRemove(balances, accountIdNext, id);
      } else {
        assert balances - {id} == balances;
      }
      balances := balances - {id};
    }

    /** `transfer`: both accounts must exist unless they are the same one. */
    method Transfer(dr: nat, cr: nat, amount: nat)
      requires Valid()
      requires amount < BALANCE_BOUND
      requires dr != cr ==> dr in balances && cr in balances
      modifies this
      ensures Valid()
      ensures accountIdNext == old(accountIdNext)
      ensures balances == Transferred(old(balances), dr, cr, amount)
      ensures BalanceTotal() == old(BalanceTotal())
    {
      TransferConserves(balances, accountIdNext, dr, cr, amount);
      if dr == cr {
        return;
      }
      var drBalance := balances[dr];
      var crBalance := balances[cr];
      if amount <= drBalance && crBalance + amount < BALANCE_BOUND {
        balances := balances[dr := drBalance - amount];
        balances := balances[cr := crBalance + amount];
      }
    }
  }

  /** One choice of the property test; a pick selects an existing account by position. */
  datatype Choice = Create | Delete(pick: nat) | Transfer(drPick: nat, crPick: nat, amount: nat)

  /** The choices the generator can produce: transfer amounts lie in `0..=100`. */
  predicate WellChosen(choices: seq<Choice>)
  {
    forall i :: 0 <= i < |choices| && choices[i].Transfer? ==> choices[i].amount <= TRANSFER_MAX
  }

  /** What the property test sees of a bank: its balances and the next id it hands out. */
  datatype Books = Books(balances: map<nat, nat>, next: nat)

  /** The treasury exists and every id lies below the next one. */
  predicate Sound(b: Books)
  {
    TREASURY in b.balances && forall k :: k in b.balances ==> k < b.next
  }

  /** The books of a bank fresh from `Bank::new`. */
  const OPENING: Books := Books(map[TREASURY := TREASURY_BALANCE], 1)

  /** `choose_iter` over `get_accounts`: the account at position `pick`, counted round the ids. */
  function Pick(b: Books, pick: nat): (id: nat)
    requires Sound(b)
    ensures id in b.balances
  {
    var ids := KeysBelow(b.balances.Keys, b.next);
    KeysBelowSpec(b.balances.Keys, b.next);
    ids[Rem(pick, |ids|)]
  }

  /** One step of the test loop: create, delete a non-treasury pick, or transfer between two picks. */
  function Perform(b: Books, c: Choice): (b': Books)
    requires Sound(b)
    ensures Sound(b')
  {
    match c
    case Create => Books(b.balances[b.next := 0], b.next + 1)
    case Delete(pick) =>
      var id := Pick(b, pick);
      if id != TREASURY then Books(b.balances - {id}, b.next) else b
    case Transfer(drPick, crPick, amount) =>
      Books(Transferred(b.balances, Pick(b, drPick), Pick(b, crPick), amount), b.next)
  }

  /** Whether `c` deletes an account other than the treasury that still holds money. */
  predicate Loses(b: Books, c: Choice)
    requires Sound(b)
  {
    c.Delete? && Pick(b, c.pick) != TREASURY && b.balances[Pick(b, c.pick)] > 0
  }

  /** The books after running all of `choices` from `b`. */
  function Replay(b: Books, choices: seq<Choice>): (b': Books)
    requires Sound(b)
    ensures Sound(b')
    decreases |choices|
  {
    if choices == [] then b else Replay(Perform(b, choices[0]), choices[1..])
  }

  /**
   * The first step, from step `i` on, that deletes a funded account, or `None`
   * when no step does; `b` is the books before step `i`.
   */
  function FirstLoss(b: Books, choices: seq<Choice>, i: nat): (f: Option<nat>)
    requires Sound(b) && i <= |choices|
    ensures f.Some? ==> i <= f.value < |choices| && choices[f.value].Delete?
    decreases |choices| - i
  {
    if i == |choices| then None
    else if Loses(b, choices[i]) then Some(i)
    else FirstLoss(Perform(b, choices[i]), choices, i + 1)
  }

  /**
   * `FirstLoss` names a step that deletes a funded account after replaying the
   * steps before it, and no earlier step does; `None` means no step does.
   */
  lemma {:induction false} FirstLossIsFirst(b: Books, choices: seq<Choice>, i: nat)
    requires Sound(b) && i <= |choices|
    ensures var f := FirstLoss(b, choices, i);
      f.Some? ==> Loses(Replay(b, choices[i..f.value]), choices[f.value])
    ensures var f := FirstLoss(b, choices, i);
      forall k :: i <= k < (if f.Some? then f.value else |choices|) ==> !Loses(Replay(b, choices[i..k]), choices[k])
    decreases |choices| - i
  {
    if i == |choices| {
      assert FirstLoss(b, choices, i) == None;
    } else if Loses(b, choices[i]) {
      assert FirstLoss(b, choices, i) == Some(i);
      assert choices[i..i] == [];
    } else {
      var b' := Perform(b, choices[i]);
      FirstLossIsFirst(b', choices, i + 1);
      var f := FirstLoss(b', choices, i + 1);
      assert FirstLoss(b, choices, i) == f;
      if f.Some? {
        ReplayFirst(b, choices, i, f.value);
      }
      forall k | i <= k < (if f.Some? then f.value else |choices|)
        ensures !Loses(Replay(b, choices[i..k]), choices[k])
      {
        if k == i {
          assert choices[i..k] == [];
        } else {
          ReplayFirst(b, choices, i, k);
        }
      }
    }
  }

  /** `FirstLoss` stops at step `i` when that step loses money, and looks further on otherwise. */
  lemma FirstLossStep(b: Books, choices: seq<Choice>, i: nat)
    requires Sound(b) && i < |choices|
    ensures Loses(b, choices[i]) ==> FirstLoss(b, choices, i) == Some(i)
    ensures !Loses(b, choices[i]) ==> FirstLoss(b, choices, i) == FirstLoss(Perform(b, choices[i]), choices, i + 1)
  {
  }

  /** Replaying from step `i` is step `i`, then replaying from step `i + 1`. */
  lemma ReplayFirst(b: Books, choices: seq<Choice>, i: nat, k: nat)
    requires Sound(b) && i < k <= |choices|
    ensures Replay(b, choices[i..k]) == Replay(Perform(b, choices[i]), choices[i + 1..k])
  {
    assert choices[i..k][1..] == choices[i + 1..k];
  }

  /**
   * A step keeps the balance total, except one that deletes a funded account,
   * which takes exactly that account's balance out of it.
   */
  lemma PerformTotal(b: Books, c: Choice)
    requires Sound(b)
    ensures var b' := Perform(b, c);
      Total(b'.balances, b'.next) + (if Loses(b, c) then b.balances[Pick(b, c.pick)] else 0) == Total(b.balances, b.next)
  {
    match c
    case Create =>
      TotalInsertZero(b.balances, b.next);
    case Delete(pick) =>
      var id := Pick(b, pick);
      if id != TREASURY {
        TotalRemove(b.balances, b.next, id);
      }
    case Transfer(drPick, crPick, amount) =>
      TransferConserves(b.balances, b.next, Pick(b, drPick), Pick(b, crPick), amount);
  }

  /** With the treasury and one more account, picks 0 and 1 choose them in id order. */
  lemma PickOfTwo(b: Books)
    requires Sound(b) && b.next == 2 && b.balances.Keys == {0, 1}
    ensures Pick(b, 0) == 0 && Pick(b, 1) == 1
  {
    var s := b.balances.Keys;
    assert KeysBelow(s, 1) == KeysBelow(s, 0) + [0];
    assert KeysBelow(s, 2) == [0, 1];
  }

  /**
   * The shape of the minimised failure: one create, one transfer of a positive
   * amount from the treasury into the new account, then its deletion.
   */
  lemma MinimisedSeedLoses(amount: nat)
    requires 0 < amount <= TRANSFER_MAX
    ensures FirstLoss(OPENING, [Create, Transfer(0, 1, amount), Delete(1)], 0) == Some(2)
  {
    var choices := [Create, Transfer(0, 1, amount), Delete(1)];
    var b1 := Books(map[TREASURY := TREASURY_BALANCE, 1 := 0], 2);
    assert Perform(OPENING, Create) == b1;
    PickOfTwo(b1);
    var b2 := Books(map[TREASURY := TREASURY_BALANCE - amount, 1 := amount], 2);
    assert Perform(b1, Transfer(0, 1, amount)) == b2;
    PickOfTwo(b2);
    assert FirstLoss(b2, choices, 2) == Some(2);
    assert FirstLoss(b1, choices, 1) == Some(2);
  }

  /**
   * One step of `test_bank` on the bank's methods, followed by the test's
   * balance sum: the bank changes as `Perform` changes its books, and the sum
   * leaves the initial money exactly when `FirstLoss` stops at this step.
   */
  method RunChoice(bank: Bank, ghost b: Books, choices: seq<Choice>, i: nat) returns (total: nat)
    requires bank.Valid() && Sound(b) && b == Books(bank.balances, bank.accountIdNext)
    requires Total(b.balances, b.next) == TREASURY_BALANCE
    requires bank.accountIdNext + 1 < ACCOUNT_ID_BOUND
    requires i < |choices| && (choices[i].Transfer? ==> choices[i].amount <= TRANSFER_MAX)
    modifies bank
    ensures bank.Valid() && Books(bank.balances, bank.accountIdNext) == Perform(b, choices[i])
    ensures bank.accountIdNext <= old(bank.accountIdNext) + 1
    ensures total == Total(bank.balances, bank.accountIdNext) <= TREASURY_BALANCE
    ensures FirstLoss(b, choices, i) ==
              if total != TREASURY_BALANCE then Some(i) else FirstLoss(Perform(b, choices[i]), choices, i + 1)
  {
    var c := choices[i];
    PerformTotal(b, c);
    FirstLossStep(b, choices, i);
    match c {
      case Create =>
        var _ := bank.CreateAccount();
        assert Perform(b, c) == Books(b.balances[b.next := 0], b.next + 1);
      case Delete(pick) =>
        var accounts := bank.Accounts();
        assert TREASURY in accounts;
        var account := accounts[Rem(pick, |accounts|)];
        assert account == Pick(b, pick);
        if account != TREASURY {
          bank.DeleteAccount(account);
          assert Perform(b, c) == Books(b.balances - {account}, b.next);
        } else {
          assert Perform(b, c) == b;
        }
      case Transfer(drPick, crPick, amount) =>
        var accounts := bank.Accounts();
        assert TREASURY in accounts;
        var dr := accounts[Rem(drPick, |accounts|)];
        var cr := accounts[Rem(crPick, |accounts|)];
        assert dr == Pick(b, drPick) && cr == Pick(b, crPick);
        bank.Transfer(dr, cr, amount);
        assert Perform(b, c) == Books(Transferred(b.balances, dr, cr, amount), b.next);
    }
    total := bank.BalanceTotal();
  }

  /**
   * `test_bank`: runs the choices in order and stops at the first step after
   * which the balance total differs from the initial one. That is exactly the
   * first step that deletes a funded account, and the total never rises above
   * the initial money.
   */
  method TestBank(choices: seq<Choice>) returns (failedAt: Option<nat>, total: nat)
    requires WellChosen(choices)
    requires |choices| + 1 < ACCOUNT_ID_BOUND
    ensures failedAt == FirstLoss(OPENING, choices, 0)
    ensures failedAt.Some? ==> failedAt.value < |choices| && choices[failedAt.value].Delete?
    ensures failedAt.None? <==> total == TREASURY_BALANCE
    ensures total <= TREASURY_BALANCE
  {
    var bank := new Bank();
    var totalInitial := bank.BalanceTotal();
    total := totalInitial;
    ghost var b := OPENING;
    ghost var firstLoss := FirstLoss(OPENING, choices, 0);
    var i := 0;
    while i < |choices|
      invariant 0 <= i <= |choices|
      invariant fresh(bank)
      invariant bank.Valid()
      invariant bank.accountIdNext <= i + 1
      invariant Sound(b) && b == Books(bank.balances, bank.accountIdNext)
      invariant FirstLoss(b, choices, i) == firstLoss
      invariant total == Total(b.balances, b.next) == TREASURY_BALANCE
    {
      total := RunChoice(bank, b, choices, i);
      b := Perform(b, choices[i]);
      if total != totalInitial {
        return Some(i), total;
      }
      i := i + 1;
    }
    return None, total;
  }

  /** `test_bank` on the minimised choices stops at the deletion, with money missing. */
  method TestMinimisedSeed(amount: nat) returns (failedAt: Option<nat>, total: nat)
    requires 0 < amount <= TRANSFER_MAX
    ensures failedAt == Some(2) && total < TREASURY_BALANCE
  {
    MinimisedSeedLoses(amount);
    failedAt, total := TestBank([Create, Transfer(0, 1, amount), Delete(1)]);
  }

  /**
   * The minimised failing run, on the bank's methods: create an account,
   * transfer a positive amount from the treasury into it, delete it; the money
   * leaves the ledger.
   */
  method MinimisedSeed(amount: nat) returns (total: nat)
    requires 0 < amount <= TRANSFER_MAX
    ensures total == TREASURY_BALANCE - amount
  {
    var bank := new Bank();
    var account := bank.CreateAccount();
    bank.Transfer(TREASURY, account, amount);
    assert bank.balances[account] == amount;
    bank.DeleteAccount(account);
    total := bank.BalanceTotal();
  }
}
