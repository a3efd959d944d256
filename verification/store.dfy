/** The records of the club-fee ledger and the two collections that hold them.

    The `fees` collection is looked up by its natural key (year, semester), so it is
    a map.  The `logs` collection is a sequence in the order the documents were
    inserted: every query iterates a cursor over it and sums along the way.
 */
module FeeStore {

  /** A MongoDB ObjectID, abstracted to a natural number. */
  type LogId = nat

  /** The `type` field of a payment log. */
  datatype LogType = Unapproved | Approved | Direct

  /** One payment event: a member's claim, or a direct deposit with an empty member. */
  datatype Log = Log(id: LogId, memberId: string, kind: LogType, amount: int, updatedAt: int)

  /** The fee of one term and the ids of the logs pushed onto it, in push order. */
  datatype Fee = Fee(year: int, semester: int, amount: int, logs: seq<LogId>)

  /** The natural key of a fee document. */
  datatype Term = Term(year: int, semester: int)

  datatype Store = Store(fees: map<Term, Fee>, logs: seq<Log>)

  datatype Error =
    | DuplicatedFee   // ErrDuplicatedFee
    | NoDocuments     // the driver's ErrNoDocuments from FindOne
    | DuplicateKey    // the driver's rejection of InsertOne with a stored _id

  datatype Result<T> = Ok(value: T) | Err(error: Error)

  function KeyOf(f: Fee): Term {
    Term(f.year, f.semester)
  }

  /** The `_id`s of a run of log documents, in order. */
  function Ids(logs: seq<Log>): seq<LogId> {
    if logs == [] then [] else [logs[0].id] + Ids(logs[1..])
  }

  /** Every fee document sits under its own (year, semester) key. */
  ghost predicate Keyed(fees: map<Term, Fee>) {
    forall t :: t in fees ==> KeyOf(fees[t]) == t
  }

  /** No two log documents share an `_id`. */
  ghost predicate UniqueIds(logs: seq<Log>) {
    logs == [] || (logs[0].id !in Ids(logs[1..]) && UniqueIds(logs[1..]))
  }

  /** Fees under their own key and unique log ids. The `_id` index makes the ids unique;
      the keys stay unique only through the check-then-insert in `Create`, since the
      fees collection has no unique index on (year, semester). */
  ghost predicate Valid(st: Store) {
    Keyed(st.fees) && UniqueIds(st.logs)
  }

  ghost predicate Referenced(fees: map<Term, Fee>, id: LogId) {
    exists t :: t in fees && id in fees[t].logs
  }

  /** An id no document uses, as a newly generated ObjectID is. */
  ghost predicate Fresh(st: Store, id: LogId) {
    id !in Ids(st.logs) && !Referenced(st.fees, id)
  }

  /** Every id a term lists belongs to a stored log. */
  ghost predicate NoDangling(st: Store) {
    forall t, id :: t in st.fees && id in st.fees[t].logs ==> id in Ids(st.logs)
  }

  ghost predicate Consistent(st: Store) {
    Valid(st) && NoDangling(st)
  }

  /** `after` is `before` with `id` appended to the log list of term `t`, if there is one. */
  ghost predicate Pushed(before: map<Term, Fee>, after: map<Term, Fee>, t: Term, id: LogId) {
    && after.Keys == before.Keys
    && (forall u :: u in before && u != t ==> after[u] == before[u])
    && (t in before ==>
          && after[t].year == before[t].year
          && after[t].semester == before[t].semester
          && after[t].amount == before[t].amount
          && after[t].logs == before[t].logs + [id])
  }

  /** Somebody in `logs` has member id `m`. */
  ghost predicate Pays(logs: seq<Log>, m: string) {
    exists l :: l in logs && l.memberId == m
  }

  /** Sum of the amounts of `logs`. */
  function Total(logs: seq<Log>): int {
    if logs == [] then 0 else logs[0].amount + Total(logs[1..])
  }

  /** Sum of the amounts of the logs of member `m`. */
  function MemberTotal(logs: seq<Log>, m: string): int {
    if logs == [] then 0
    else (if logs[0].memberId == m then logs[0].amount else 0) + MemberTotal(logs[1..], m)
  }

  /** A Go map read: the zero value for a missing key. */
  function Get(amounts: map<string, int>, m: string): int {
    if m in amounts then amounts[m] else 0
  }

  lemma {:induction false} IdsAppend(logs: seq<Log>, x: Log)
    ensures Ids(logs + [x]) == Ids(logs) + [x.id]
    decreases |logs|
  {
    if logs != [] {
      assert (logs + [x])[1..] == logs[1..] + [x];
      IdsAppend(logs[1..], x);
    }
  }

  lemma {:induction false} IdsMember(logs: seq<Log>, l: Log)
    requires l in logs
    ensures l.id in Ids(logs)
    decreases |logs|
  {
    if logs[0] != l {
      IdsMember(logs[1..], l);
    }
  }

  lemma {:induction false} UniqueAppend(logs: seq<Log>, x: Log)
    requires UniqueIds(logs)
    requires x.id !in Ids(logs)
    ensures UniqueIds(logs + [x])
    decreases |logs|
  {
    if logs != [] {
      assert (logs + [x])[1..] == logs[1..] + [x];
      IdsAppend(logs[1..], x);
      UniqueAppend(logs[1..], x);
    }
  }

  lemma {:induction false} MemberTotalAppend(logs: seq<Log>, x: Log, m: string)
    ensures MemberTotal(logs + [x], m) == MemberTotal(logs, m) + (if x.memberId == m then x.amount else 0)
    decreases |logs|
  {
    if logs != [] {
      assert (logs + [x])[1..] == logs[1..] + [x];
      MemberTotalAppend(logs[1..], x, m);
    }
  }
}
