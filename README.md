# arbring: bank ledger and ring-buffer queue

This project models the two sequential data structures of the `arbring`
crate, together with the property tests that drive each of them with an
arbitrary sequence of choices. It then proves what those tests check.

- `ledger.dfy` (module `Ledger`) models `src/bank.rs`. A `Bank` class holds
  `balances`, an ordered map from account id to balance, and the counter
  `accountIdNext`. Its methods update both fields in place, as the Rust
  methods taking `&mut self` do. The models of `get_accounts`,
  `lookup_balance` and the test's balance sum are functions that read the
  object. `TestBank` is the `test_bank` loop.
- `ring_queue.dfy` (module `RingQueue`) models `src/lib.rs`. A `Queue` class
  owns an `array<i32>` buffer and the indices `inp` and `outp`. `Push`
  writes the buffer, `Pop` reads it, and each advances its index in place,
  modulo the buffer length. A ghost field `Contents` holds what the test's `VecDeque` reference
  holds, and the predicate `Faithful` ties it to the buffer. `TestQueue` is
  the `test_queue` loop.
- `wrappers.dfy` holds the `Option` and `Result` datatypes. `Ledger` uses
  `Option`, and `RingQueue` uses both (`Result` for `len` and its panics).
- `counting.dfy` (module `Counting`) holds `Rem`, which computes `p % n` by
  repeated subtraction, and the proof that it is the remainder. The ring
  buffer's read index and the test's pick of an account both count round a
  fixed number of slots this way.

What is proved:

- A transfer keeps the sum of all balances, whichever of its outcomes
  happens.
- Creating an account keeps the sum.
- Deleting an account lowers the sum by that account's balance. A pure
  reference, `Perform` and `FirstLoss` over the test's `Books`, names the
  first step that deletes a funded account. `TestBank` returns exactly that
  step, and it reports no failure exactly when no step deletes a funded
  account.
- The failure has the shape the minimisation log at `src/bank.rs:114-120`
  reports: one create and one transfer, then the failing step, which can only
  be a delete. `MinimisedSeedLoses` and
  `TestMinimisedSeed` show that the test stops at the delete for every
  amount in `1..=100`, the generator's range. `MinimisedSeed` runs the same three steps on the bank's
  methods.
- The treasury always exists. Every id is below `accountIdNext`, so a new id
  is always fresh.
- Under the test's guards, `Pop` returns values in push order.
- `len` computes `(inp - outp) % buf.len()`, which agrees with the number of
  queued values exactly when the buffer is not empty, not full, and the write
  index has not wrapped back to the start (`outp` plus the count stays below
  `buf.len()`; a value stored in the last slot already sends `inp` to 0).
  Otherwise it behaves as follows:
  - a full queue reports 0;
  - the `usize` subtraction underflows when the write index has wrapped back to
    the start, behind `outp`;
  - a buffer of length 0 divides by zero.

  `LastSlotUnderflows` shows the edge: on a buffer of 3, push, pop, push,
  push stores two values in slots 1 and 2, and `len` already underflows.

  `TestQueue` stops at exactly the step the reference function
  `FirstFailure` predicts: that step fails and every earlier one passes.
  With `len_max == 0` that is the first step. `FillingPushFails` shows that
  any run fails no later than the guarded push that brings the number of
  values pushed so far up to `len_max`.

These failures happen in the code as written, and the tests exist to catch
them. The model keeps them as they are.

## Model

| member | source | states |
|---|---|---|
| Ledger.Bank.constructor | src/bank.rs:14-21 | the new bank holds exactly the treasury, id 0, with 1_000_000, and the next id is 1; the balance total is 1_000_000 |
| Ledger.Bank.CreateTreasury | src/bank.rs:23-28 | on an empty bank, the first account created is the treasury (the assertion at line 25 holds), the map has one entry (line 26), and that entry gets the treasury balance |
| Ledger.Bank.CreateAccount | src/bank.rs:30-35 | returns the old counter, which is no existing key; increments the counter; inserts balance 0 for the new id and changes nothing else; keeps the total |
| Ledger.Bank.DeleteAccount | src/bank.rs:37-40 | requires a non-treasury id (the assertion), removes only that key, leaves an absent id a no-op, keeps the treasury, and lowers the balance total by the removed balance |
| Ledger.Bank.Accounts | src/bank.rs:42-44 | the ids come in strictly ascending order and are exactly the keys of the map |
| Ledger.Bank.LookupBalance | src/bank.rs:46-48 | defined only for an existing id, because the source unwraps; the stored value is a `u128` |
| Ledger.Bank.BalanceTotal | src/bank.rs:74-75 | the test's sum over the ids of `get_accounts`, each read from the map as `lookup_balance` reads it, equals the sum of all balances, `Total` |
| Ledger.Bank.Transfer | src/bank.rs:50-66 | requires both accounts to exist unless `dr == cr` (the unwraps); the new map is `Transferred` of the old one, the counter is unchanged, and the balance total is unchanged |
| Ledger.Transferred | src/bank.rs:50-66 | no key changes and no other account changes; with `dr != cr`, `amount <= dr` and `cr + amount` in `u128`, `dr` drops and `cr` rises by `amount`; otherwise, including `dr == cr`, the map is unchanged |
| Ledger.TransferConserves | src/bank.rs:50-66 | the total of the balances after `Transferred` equals the total before |
| Ledger.TotalRemove | src/bank.rs:37-40 | removing an existing account lowers the total by exactly its balance |
| Ledger.TotalInsertZero | src/bank.rs:30-35 | inserting a fresh id just above all keys with balance 0 keeps the total |
| Ledger.TotalUpdate | src/bank.rs:60-63 | overwriting one balance changes the total by the difference |
| Ledger.TotalFrame | src/bank.rs:100 | two ledgers that agree on every account have the same total |
| Ledger.SumInKeyOrder | src/bank.rs:100 | summing balances over the ascending key list gives the total of the map |
| Ledger.KeysBelowSpec | src/bank.rs:43 | `KeysBelow` lists the keys of a set below a bound, strictly ascending, each exactly once |
| Ledger.Pick | src/bank.rs:86 | `choose_iter` over `get_accounts` yields an existing account |
| Ledger.Perform | src/bank.rs:80-99 | one step of the test loop on the books keeps the treasury and keeps every id below the next one |
| Ledger.PerformTotal | src/bank.rs:80-101 | a step keeps the balance total, except a deletion of a funded non-treasury account, which lowers it by exactly that balance |
| Ledger.Replay | src/bank.rs:79-99 | running any choices from sound books keeps them sound |
| Ledger.FirstLoss | src/bank.rs:79-107 | the step returned is a step of the run, and it is a deletion |
| Ledger.FirstLossIsFirst | src/bank.rs:79-107 | the step returned deletes a funded account after replaying the steps before it, and no earlier step does; with no step returned, no step deletes a funded account |
| Ledger.FirstLossStep | src/bank.rs:79-107 | proof helper: the first loss from a step is that step when it loses money, and otherwise the first loss from the next step |
| Ledger.ReplayFirst | src/bank.rs:79-99 | proof helper: replaying from a step is that step, then replaying from the next one |
| Ledger.RunChoice | src/bank.rs:80-101 | one iteration of the test loop on the bank's methods changes the bank as `Perform` changes its books; its balance sum never exceeds 1_000_000, and leaves 1_000_000 exactly when `FirstLoss` stops at this step |
| Ledger.TestBank | src/bank.rs:69-108 | the test never panics on an assertion or an unwrap; it stops at exactly the step `FirstLoss` names, which is a deletion; the run reports no failure exactly when the final total equals 1_000_000; the total never exceeds 1_000_000 |
| Ledger.PickOfTwo | src/bank.rs:92-93 | with the treasury and one more account, picks 0 and 1 choose ids 0 and 1, in key order |
| Ledger.MinimisedSeedLoses | src/bank.rs:114-120 | the first funded deletion of create, a transfer of a positive amount from pick 0 to pick 1, delete pick 1 is the third step |
| Ledger.TestMinimisedSeed | src/bank.rs:114-120 | `test_bank` on those three choices stops at the deletion with less than 1_000_000 left |
| Ledger.MinimisedSeed | src/bank.rs:113-120 | a create, a transfer of a positive amount from the treasury into the new account, and a delete of it leave 1_000_000 minus that amount, so the conservation check at lines 100-106 fails |
| RingQueue.Queue.constructor | src/lib.rs:12-18 | a buffer of `size` zeros, `inp == outp == 0`, nothing queued |
| RingQueue.Queue.Push | src/lib.rs:20-23 | requires a non-empty buffer; writes `n` at `inp` and leaves every other slot alone; `inp` advances modulo the length and `outp` stays; both stay in range; with room left, the buffer represents the queue with `n` appended |
| RingQueue.Queue.Pop | src/lib.rs:25-29 | requires a non-empty buffer; returns the slot at `outp`; `outp` advances modulo the length and `inp` and the buffer stay; on a non-empty queue the result is the oldest value and the buffer represents the rest |
| RingQueue.Queue.Len | src/lib.rs:31-33 | panics with a subtraction overflow exactly when `inp < outp`, and with a remainder by zero exactly when the buffer is empty otherwise; any result is below the length |
| RingQueue.Queue.LenMatchesCount | src/lib.rs:31-33 | on a faithful queue, `len` equals the number of queued values if and only if the buffer is non-empty, not full, and `outp` plus the count stays below the length |
| RingQueue.Queue.LenPanics | src/lib.rs:31-33 | a length-0 buffer divides by zero; a non-full queue whose write index has wrapped back to the start (`outp` plus the count reaches `buf.len()`) underflows |
| RingQueue.Queue.FullReportsZero | src/lib.rs:31-33 | a full queue reports length 0 |
| RingQueue.StoresAppend | src/lib.rs:20-23 | writing at the slot after the stored values, while there is room, stores one more value at the back |
| RingQueue.StoresTail | src/lib.rs:25-29 | the oldest stored value sits at `outp`, and the rest are stored from the next slot on |
| RingQueue.WrapIsMod | src/lib.rs:22 | advancing an index by one slot is the source's `% buf.len()` |
| Counting.RemIsMod | src/lib.rs:27 | `Rem(p, n)` is `p % n`, so the read index after `p` removals is `p % len` and a pick lands on account `pick % count` |
| RingQueue.RemSucc | src/lib.rs:27 | advancing the read index by one slot matches one more removal |
| RingQueue.Apply | src/lib.rs:45-54 | the guarded `push_back` and `pop_front` keep the reference within `len_max` |
| RingQueue.LenCheckAgrees | src/lib.rs:58 | for a queue that represents the reference state, the test's length comparison passes exactly when `Agrees` holds |
| RingQueue.FirstFailure | src/lib.rs:43-58 | the comparison fails after the step returned and passes after every earlier step; no failure means every step passes |
| RingQueue.RunLast | src/lib.rs:43-58 | running the actions is running all but the last one, then one more step |
| RingQueue.FillingPushFails | src/lib.rs:45-58 | a run fails no later than the guarded push that brings the number of values pushed so far up to `len_max` |
| RingQueue.RunAction | src/lib.rs:44-57 | one guarded step on both queues leaves the buffer representing `Step` of the reference and the returned reference contents equal to its model; the removal comparison at line 53 holds |
| RingQueue.TestQueue | src/lib.rs:36-61 | the test never panics in `push`, `pop` or the removal comparison at line 53 (first in, first out under the guards); it stops at exactly the step `FirstFailure` predicts |
| RingQueue.ZeroCapacityFailsFirst | src/lib.rs:39-40 | with `len_max == 0` no guarded branch runs, yet the comparison at line 58 fails at the first step |
| RingQueue.WrappedDisagrees | src/lib.rs:58 | once the values pushed so far reach `len_max` with some still queued, the comparison fails |
| RingQueue.SmallRuns | src/lib.rs:43-58 | one push on capacity 1 fails at once; push, pop, push on capacity 2 fails at the third step; push, push, pop, pop on capacity 3 passes |
| RingQueue.LastSlotUnderflows | src/lib.rs:20-33 | on a buffer of 3, push, pop, push, push leaves two unwrapped values in slots 1 and 2 with `inp` back at 0, so `len` underflows, and the test fails at the fourth step |
| RingQueue.PushPopInOrder | src/lib.rs:20-29 | two pushes then two pops on a buffer of 2 return the values in push order |

## Left out

- `src/badcounter.rs` is not part of this model. Its controlled-thread harness only coordinates OS threads, through `Mutex`, `Condvar`, an `mpsc` channel and a thread-local cell, and its counter's lost update only appears under interleaving.
- The `arbtest` driver (`choose`, `choose_iter`, `int_in_range`, `arbitrary`, `seed`, `minimize`) becomes an arbitrary finite sequence of choices. `choose_iter` over the accounts becomes the account at position `pick % count`, so every existing account can be chosen. Running out of random bytes is the end of the sequence.
- The failure report (`eprint!` of the created-accounts and transfers counters, then `panic!`) becomes a returned step index. The two counters are only printed, so they are not modelled.
- Machine-integer panics other than those in `len` are ruled out by preconditions rather than modelled. `CreateAccount` requires the `u64` counter not to overflow, and `TestBank` requires fewer than 2^64 - 1 choices. `Transfer` requires the amount to be a `u128`. The balance sum cannot overflow, because it never exceeds 1_000_000. `Queue.constructor` requires `size` to fit in `usize`, so `inp + 1` and `outp + 1` cannot overflow.
- The model assumes overflow checks are on, as in the default `cargo test` profile: the `inp - outp` of `src/lib.rs:32` and the `account_id_next += 1` of `src/bank.rs:32` panic on overflow there, whereas a release build would wrap instead.
- Allocation failure in `vec![0; size]` is not modelled.
