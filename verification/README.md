# Club-fee ledger of the Buddy System, in Dafny

This project models package `fee` of the Buddy System backend (`pkg/fee/fee.go`). The package keeps the club's membership-fee ledger in two MongoDB collections:

- **fees** holds one document per term, keyed by `(year, semester)`. Each document has the fee `amount` and the ordered `logs` array of payment-log ids.
- **logs** holds payment logs: `member_id`, `type` (`unapproved`, `approved` or `direct`), `amount` and `updated_at`.

Members submit payment claims. Managers approve or reject claims and record direct deposits. Queries report what a member has paid (`Amount`), who has paid the term's fee (`Dones`), whose approved total in the term is below the fee (`Yets`), and the term's payment history (`All`).

The database is modelled as a value, `Store(fees: map<Term, Fee>, logs: seq<Log>)`:

- The fees collection is a map, because every access looks a fee up by its `(year, semester)` key.
- The logs collection is a sequence in insertion order, because every query iterates a cursor over it and sums along the way.

Each operation is a pure function from a store to a new store or to a query result. A query document such as `{_id: {$in: ids}, type: "approved"}` is a `seq<Clause>` that `FeeQuery.Find` evaluates. The driver's array updates map onto sequence functions:

- `$push` is `FeeLedger.PushLog`.
- `$pull` is `FeeLedger.Pull`.
- `DeleteOne` is `FeeLedger.DeleteOne`.
- `UpdateMany ... $set` is `FeeLedger.ApproveLogs`.

A newly generated ObjectID and `time.Now().Unix()` are parameters (`id`, `now`). A stored id passed to an insert is treated as the driver does: `InsertOne` rejects the duplicate key. So `Submit` returns `DuplicateKey` and changes nothing. `Deposit` has already done its `$push` by then and discards the insert's error, so only the push remains.

Files:

- `store.dfy` (module `FeeStore`): records, the store, errors, the consistency predicates (`Valid`, `NoDangling`, `Fresh`) and the sums.
- `query.dfy` (module `FeeQuery`): query documents and `Find`.
- `sort.dfy` (module `FeeSort`): ordering by `updatedAt`.
- `ledger.dfy` (module `FeeLedger`): the operations of `fee.go`.
- `props.dfy` (module `FeeProps`): properties that relate several operations or several calls.

Behaviour of the code that a reader might not expect:

- `Dones` and `Yets` count only `approved` logs. A `direct` deposit, which has an empty member id, is never credited to any member.
- `Approve` does not look at the current type. An id of a `direct` log passed to it turns that log into an `approved` log of the empty member. Its amount is then tallied under the member id `""`, so `Dones` or `Yets` can return `""`.
- `Submit` does not check that the term exists. With no such term the `$push` matches nothing, and the log is stored but listed by no term.
- `Amount` checks only that the term exists. It sums the member's approved logs across all terms (`FeeProps.AmountCountsOtherTerms`).
- A member with no approved log in a term is in neither `Dones` nor `Yets`. A member whose approved total in the term is zero or negative is in `Yets` when the fee is positive.
- `Reject` trusts the caller's term. If the term is wrong, the log is deleted but its own term still lists its id (`FeeProps.RejectElsewhereDangles`).

## Model

| member | source | states |
|---|---|---|
| FeeLedger.New | pkg/fee/fee.go:29-36 | the new fee sits under the given (year, semester) key, carries the given amount and lists no logs |
| FeeLedger.Create | pkg/fee/fee.go:56-68 | fails with `DuplicatedFee` exactly when the (year, semester) key exists; otherwise adds one fee under that key with the given amount and an empty log list, keeps every other fee and all logs |
| FeeLedger.Submit | pkg/fee/fee.go:91-108 | fails with `DuplicateKey` exactly when the id is already stored; otherwise appends an `unapproved` log with the given member, amount and time, and appends its id to the end of the term's list (no change when the term is absent), keeping every other fee |
| FeeLedger.PushLog | pkg/fee/fee.go:97-106 | `$push` onto a term: same keys, the named term's list gains the id at its end with year, semester and amount kept, every other fee unchanged, nothing changes when the term is absent |
| FeeLedger.ApproveLogs | pkg/fee/fee.go:408-416 | the `$set` of `UpdateMany`: same length, order, ids, members and amounts; each log whose id is listed becomes `approved` at `now`; every other log is unchanged |
| FeeLedger.Approve | pkg/fee/fee.go:399-416 | leaves the fees unchanged; exactly the stored logs with a listed id become `approved` at `now`, ids absent from the store are ignored, all other logs keep every field |
| FeeLedger.Pull | pkg/fee/fee.go:444-446 | `$pull`: the result holds exactly the elements other than the id, so no occurrence remains, and a list without the id is returned unchanged |
| FeeLedger.PullCount | pkg/fee/fee.go:444-446 | `$pull` removes every copy of the id and keeps the count of every other id |
| FeeLedger.PullAppend | pkg/fee/fee.go:444-446 | `$pull` of a concatenation is the concatenation of the pulls, so the ids left keep their order |
| FeeLedger.PullAllCount | pkg/fee/fee.go:438-448 | pulling each id of a list in turn drops every listed id and keeps the count of every other id |
| FeeLedger.PullAllAppend | pkg/fee/fee.go:438-448 | pulling a list of ids from a concatenation is the concatenation of the pulls, so the ids left keep their order |
| FeeLedger.DeleteOne | pkg/fee/fee.go:451 | `DeleteOne({_id: id})`: when no document has the id nothing changes; otherwise the removed document is the first one whose id is `id`, everything before and after it stays in order, so exactly one document goes |
| FeeLedger.DeleteOneUnique | pkg/fee/fee.go:451 | when ids are unique, `DeleteOne` leaves exactly the documents whose id differs, in order, and the ids stay unique |
| FeeLedger.RejectOne | pkg/fee/fee.go:439-453 | one round of the loop: same fee keys, other terms unchanged, the named term keeps its key and amount and its list becomes the `$pull` of `id` from its old list; an unknown id leaves the logs unchanged, and with unique ids the logs are the old logs without `id`, in order |
| FeeLedger.Reject | pkg/fee/fee.go:438-454 | same fee keys, other terms unchanged, the named term's list is its old list without any rejected id; with unique ids the logs are exactly the old logs without the rejected ids, in order, and none of the ids remains stored |
| FeeLedger.Deposit | pkg/fee/fee.go:473-487 | pushes the id onto the term first; stores a `direct` log with an empty member when the id is new, and leaves the logs unchanged (insert error discarded) when it is not |
| FeeLedger.Amount | pkg/fee/fee.go:130-160 | fails with `NoDocuments` exactly when the term is absent; otherwise equals the member's total over all approved logs, whatever term lists them |
| FeeLedger.Tally | pkg/fee/fee.go:204-211 | the `amounts[member] += amount` loop: keys are the accumulator's plus every member on the cursor, and each value is the accumulated value plus that member's total on the cursor |
| FeeLedger.Dones | pkg/fee/fee.go:182-223 | fails with `NoDocuments` exactly when the term is absent; otherwise a member is returned iff it has an approved log the term lists and its approved total there reaches the fee |
| FeeLedger.Yets | pkg/fee/fee.go:262-303 | fails with `NoDocuments` exactly when the term is absent; otherwise a member is returned iff it has an approved log the term lists and its approved total there is below the fee |
| FeeLedger.All | pkg/fee/fee.go:341-377 | fails with `NoDocuments` exactly when the term is absent; otherwise a sorted-by-`updatedAt` permutation of the term's approved and direct logs, holding exactly the stored logs that the term lists and that are not `unapproved` |
| FeeQuery.Find | pkg/fee/fee.go:188-199 | a cursor holds exactly the collection's documents that match every clause of the filter |
| FeeQuery.FindCount | pkg/fee/fee.go:188-199 | a cursor yields each matching document as often as the collection holds it, and no other document, so no sum over it counts a document twice |
| FeeSort.SortByTime | pkg/fee/fee.go:377 | the result is ordered by `updatedAt` and is a permutation of its input |
| FeeProps.CreateKeepsConsistent | pkg/fee/fee.go:56-68 | a successful Create keeps fees under their own keys, log ids unique and no term listing a missing log |
| FeeProps.SubmitKeepsConsistent | pkg/fee/fee.go:91-108 | a successful Submit keeps the store consistent |
| FeeProps.DepositKeepsConsistent | pkg/fee/fee.go:473-487 | Deposit keeps the store consistent, whether or not the insert is refused |
| FeeProps.ApproveKeepsConsistent | pkg/fee/fee.go:399-416 | Approve keeps the store consistent |
| FeeProps.RejectKeepsConsistent | pkg/fee/fee.go:438-454 | Reject keeps the store consistent when no other term lists a rejected id |
| FeeProps.RejectElsewhereDangles | pkg/fee/fee.go:438-454 | rejecting a log under a term that does not list it deletes the log while its own term still lists it |
| FeeProps.RejectUnknownIsNoOp | pkg/fee/fee.go:438-454 | rejecting an id no document uses leaves the store unchanged |
| FeeProps.ApproveIdempotent | pkg/fee/fee.go:399-416 | approving the same ids twice gives the store that the second approval alone gives |
| FeeProps.SubmitThenApprove | pkg/fee/fee.go:91-106 | approving a just-submitted claim raises its member's approved total in the term by its amount and leaves every other member's total unchanged |
| FeeProps.SubmitLeavesTallies | pkg/fee/fee.go:91-108 | a successful Submit leaves `Amount`, `Dones` and `Yets` unchanged for every term and member |
| FeeProps.SubmitLeavesAll | pkg/fee/fee.go:91-108 | a successful Submit leaves `All` unchanged for every term |
| FeeProps.DepositLeavesTallies | pkg/fee/fee.go:473-487 | a deposit with a new id leaves `Amount`, `Dones` and `Yets` unchanged for every term and member |
| FeeProps.DepositShowsInAll | pkg/fee/fee.go:473-487 | a deposit with a new id on an existing term adds exactly its direct log to that term's `All` |
| FeeProps.DonesYetsPartition | pkg/fee/fee.go:216-223 | `Dones` and `Yets` fail together; when they succeed they are disjoint and together hold exactly the members with an approved log in the term |
| FeeProps.AmountSplit | pkg/fee/fee.go:139-154 | `Amount` equals the member's approved total in the term plus the member's approved logs that the term does not list |
| FeeProps.AmountCoversTerm | pkg/fee/fee.go:139-154 | with non-negative approved amounts, `Amount` is at least the total that `Dones` and `Yets` compare with the fee |
| FeeProps.AmountCountsOtherTerms | pkg/fee/fee.go:139-144 | a payment approved under one term counts in `Amount` for another term, whose `Dones` is empty |
| FeeProps.AllOnce | pkg/fee/fee.go:350-371 | with unique log ids, every log `All` returns appears exactly once |
| FeeProps.FreshIdExists | pkg/fee/fee.go:91 | some id is used by no stored log and listed by no term, so a new log can always be given one |
| FeeProps.PaidScenario | pkg/fee/fee.go:204-223 | a fee of 50000 and two approved claims of 30000 from one member give `Amount` 60000, that member in `Dones` and nobody in `Yets` |
| FeeProps.DepositScenario | pkg/fee/fee.go:473-487 | a deposit of 50000 on a new term makes `All` return exactly that one direct log |

## Left out

- Connecting to MongoDB, the one-second `context.WithTimeout`, `Disconnect` and cursor `Decode`/`Close` errors are I/O. The model has no connection or timeout error. Each operation is one step that either completes or returns a modelled error.
- Create: a lookup error other than "no documents" is reported as `ErrDuplicatedFee`. The model has no such error, because it comes from the driver, not from the ledger.
- Submit, Deposit and Reject issue several independent writes, and these are not atomic. Concurrency and the partial states a crash could leave between those writes are not modelled.
- Reject's early return when one of its per-id writes fails is not modelled, because only I/O can make those writes fail.
- The file defining `Log`, `Logs` and `NewLog` is not part of this model. `Log` is a datatype with the fields the queries use. `NewLog` becomes a log with a caller-supplied id and timestamp.
- `time.Now().Unix()` and ObjectID generation are parameters. `FeeProps.FreshIdExists` shows that an unused id always exists.
- Dones, Yets: the member ids are not resolved to `member.Member` records through the `members` collection, because that package is not part of this model. The queries return the set of selected member ids.
- Go's `int` is 64 bits wide. Sums and amounts are unbounded integers here, so no overflow wrap-around is modelled.
- Equal `updatedAt` values are not ordered in any particular way. FeeLedger.All's contract admits every sorted permutation, as Go's unstable `sort.Slice` does. The model's own definition picks one of them.
- FeeProps.AmountCoversTerm: the bound holds only when the member's approved amounts are non-negative, because amounts are never validated.
- `main.go` (flag parsing and route registration, with an empty fee route group) and `middleware/reject.go` (an empty handler) contain no ledger logic.
