/** The operations of package `fee` as transitions and queries over a `Store`.

    The clock and the ObjectID generator are parameters: `now` is the Unix time the
    driver would stamp, `id` the id `NewLog` would generate.
 */
module FeeLedger {
  import opened FeeStore
  import opened FeeSort
  import opened FeeQuery

  // ---------------------------------------------------------------------------
  // Document helpers: constructors, the `$push` and `$pull` array updates, and the
  // cursor filters of the queries.

  /** A fresh fee record with no logs. */
  function New(year: int, semester: int, amount: int): (f: Fee)
    ensures KeyOf(f) == Term(year, semester)
    ensures f.amount == amount && f.logs == []
  {
    Fee(year, semester, amount, [])
  }

  /** `UpdateOne({year, semester}, {$push: {logs: id}})`; a missing term matches nothing. */
  function PushLog(fees: map<Term, Fee>, t: Term, id: LogId): (r: map<Term, Fee>)
    ensures Pushed(fees, r, t, id)
  {
    if t in fees then fees[t := fees[t].(logs := fees[t].logs + [id])] else fees
  }

  /** `$pull`: every occurrence of `id` removed, the rest in order. */
  function Pull(xs: seq<LogId>, id: LogId): (r: seq<LogId>)
    ensures forall x :: x in r <==> x in xs && x != id
    ensures id !in xs ==> r == xs
    decreases |xs|
  {
    if xs == [] then []
    else
      assert xs == [xs[0]] + xs[1..];
      (if xs[0] == id then [] else [xs[0]]) + Pull(xs[1..], id)
  }

  /** The elements of `xs` that are not in `ids`, in order. */
  function PullAll(xs: seq<LogId>, ids: seq<LogId>): (r: seq<LogId>)
    ensures forall x :: x in r <==> x in xs && x !in ids
    decreases |xs|
  {
    if xs == [] then []
    else
      assert xs == [xs[0]] + xs[1..];
      (if xs[0] in ids then [] else [xs[0]]) + PullAll(xs[1..], ids)
  }

  /** `DeleteOne({_id: id})`: the first document with that id is removed. */
  function DeleteOne(logs: seq<Log>, id: LogId): (r: seq<Log>)
    ensures id !in Ids(logs) ==> r == logs
    ensures id in Ids(logs) ==> |r| == |logs| - 1
    ensures forall l :: l in r ==> l in logs
    ensures id in Ids(logs) ==> RemovedFirst(logs, id, r)
    decreases |logs|
  {
    if logs == [] then []
    else if logs[0].id == id then
      assert logs[..0] == [];
      logs[1..]
    else
      var rest := DeleteOne(logs[1..], id);
      RemovedFirstCons(logs[0], logs[1..], id, rest);
      assert logs == [logs[0]] + logs[1..];
      [logs[0]] + rest
  }

  /** `r` is `logs` without its first document whose id is `id`. */
  ghost predicate RemovedFirst(logs: seq<Log>, id: LogId, r: seq<Log>) {
    exists i :: 0 <= i < |logs| && logs[i].id == id && id !in Ids(logs[..i]) && r == logs[..i] + logs[i + 1..]
  }

  /** A document with another id in front keeps the first `id` document the one removed. */
  lemma RemovedFirstCons(x: Log, tail: seq<Log>, id: LogId, rest: seq<Log>)
    requires x.id != id
    requires id in Ids(tail) ==> RemovedFirst(tail, id, rest)
    ensures id in Ids([x] + tail) ==> RemovedFirst([x] + tail, id, [x] + rest)
  {
    var logs := [x] + tail;
    assert logs[1..] == tail;
    if id in Ids(logs) {
      var j :| 0 <= j < |tail| && tail[j].id == id && id !in Ids(tail[..j]) && rest == tail[..j] + tail[j + 1..];
      var k := j + 1;
      var front := logs[..k];
      assert front == [x] + tail[..j];
      assert front[1..] == tail[..j];
      assert id !in Ids(front);
      assert logs[k + 1..] == tail[j + 1..];
      assert 0 <= k < |logs| && logs[k].id == id && id !in Ids(logs[..k]) && [x] + rest == logs[..k] + logs[k + 1..];
    }
  }


  /** The logs whose id is not in `ids`, in order. */
  function Keep(logs: seq<Log>, ids: seq<LogId>): (r: seq<Log>)
    ensures forall l :: l in r <==> l in logs && l.id !in ids
    ensures forall x :: x in Ids(r) <==> x in Ids(logs) && x !in ids
    decreases |logs|
  {
    if logs == [] then []
    else
      var rest := Keep(logs[1..], ids);
      if logs[0].id in ids then rest
      else
        assert ([logs[0]] + rest)[1..] == rest;
        [logs[0]] + rest
  }

  /** The approved logs a term lists: what `Dones` and `Yets` sum. */
  ghost function TermApprovals(st: Store, t: Term): seq<Log>
    requires t in st.fees
  {
    Find(st.logs, ApprovedIn(st.fees[t].logs))
  }

  /** Member `m` has an approved log listed by term `t` and their sum reaches the fee. */
  ghost predicate Done(st: Store, t: Term, m: string) {
    t in st.fees && Pays(TermApprovals(st, t), m) && st.fees[t].amount <= MemberTotal(TermApprovals(st, t), m)
  }

  /** Member `m` has an approved log listed by term `t` but their sum falls short of the fee. */
  ghost predicate Yet(st: Store, t: Term, m: string) {
    t in st.fees && Pays(TermApprovals(st, t), m) && MemberTotal(TermApprovals(st, t), m) < st.fees[t].amount
  }

  // ---------------------------------------------------------------------------
  // Mutations

  /** Inserts a new fee for (year, semester) unless one exists. */
  function Create(st: Store, year: int, semester: int, amount: int): (r: Result<Store>)
    ensures Term(year, semester) in st.fees <==> r.Err?
    ensures r.Err? ==> r.error == DuplicatedFee
    ensures r.Ok? ==> r.value.logs == st.logs
    ensures r.Ok? ==> r.value.fees.Keys == st.fees.Keys + {Term(year, semester)}
    ensures r.Ok? ==> forall t :: t in st.fees ==> r.value.fees[t] == st.fees[t]
    ensures r.Ok? ==> var f := r.value.fees[Term(year, semester)];
                      KeyOf(f) == Term(year, semester) && f.amount == amount && f.logs == []
  {
    var key := Term(year, semester);
    if key in st.fees then Err(DuplicatedFee)
    else Ok(st.(fees := st.fees[key := New(year, semester, amount)]))
  }

  /** Inserts an unapproved log for `memberId`, then pushes its id onto the term. */
  function Submit(st: Store, memberId: string, year: int, semester: int, amount: int, id: LogId, now: int)
    : (r: Result<Store>)
    ensures id in Ids(st.logs) <==> r.Err?
    ensures r.Err? ==> r.error == DuplicateKey
    ensures r.Ok? ==> r.value.logs == st.logs + [Log(id, memberId, Unapproved, amount, now)]
    ensures r.Ok? ==> Pushed(st.fees, r.value.fees, Term(year, semester), id)
  {
    if id in Ids(st.logs) then Err(DuplicateKey)
    else
      var log := Log(id, memberId, Unapproved, amount, now);
      Ok(Store(PushLog(st.fees, Term(year, semester), id), st.logs + [log]))
  }

  function ApproveLogs(logs: seq<Log>, ids: seq<LogId>, now: int): (r: seq<Log>)
    ensures |r| == |logs|
    ensures forall i :: 0 <= i < |logs| ==>
              r[i].id == logs[i].id && r[i].memberId == logs[i].memberId && r[i].amount == logs[i].amount
    ensures forall i :: 0 <= i < |logs| && logs[i].id in ids ==>
              r[i].kind == Approved && r[i].updatedAt == now
    ensures forall i :: 0 <= i < |logs| && logs[i].id !in ids ==> r[i] == logs[i]
    decreases |logs|
  {
    if logs == [] then []
    else
      var l := logs[0];
      [if l.id in ids then l.(kind := Approved, updatedAt := now) else l] + ApproveLogs(logs[1..], ids, now)
  }

  /** `UpdateMany({_id: {$in: ids}}, {$set: {type: "approved", updated_at: now}})`. */
  function Approve(st: Store, ids: seq<LogId>, now: int): (r: Store)
    ensures r.fees == st.fees
    ensures |r.logs| == |st.logs|
    ensures forall i :: 0 <= i < |st.logs| ==>
              && r.logs[i].id == st.logs[i].id
              && r.logs[i].memberId == st.logs[i].memberId
              && r.logs[i].amount == st.logs[i].amount
    ensures forall i :: 0 <= i < |st.logs| && st.logs[i].id in ids ==>
              r.logs[i].kind == Approved && r.logs[i].updatedAt == now
    ensures forall i :: 0 <= i < |st.logs| && st.logs[i].id !in ids ==> r.logs[i] == st.logs[i]
  {
    st.(logs := ApproveLogs(st.logs, ids, now))
  }

  /** One round of the loop in `Reject`: pull `id` from term `t`, then delete its log. */
  function RejectOne(st: Store, t: Term, id: LogId): (r: Store)
    ensures r.fees.Keys == st.fees.Keys
    ensures forall u :: u in st.fees && u != t ==> r.fees[u] == st.fees[u]
    ensures t in st.fees ==> KeyOf(r.fees[t]) == KeyOf(st.fees[t]) && r.fees[t].amount == st.fees[t].amount
    ensures t in st.fees ==> r.fees[t].logs == Pull(st.fees[t].logs, id)
    ensures id !in Ids(st.logs) ==> r.logs == st.logs
    ensures UniqueIds(st.logs) ==> r.logs == Keep(st.logs, [id]) && UniqueIds(r.logs)
  {
    DeleteOneUnique(st.logs, id);
    Store(if t in st.fees then st.fees[t := st.fees[t].(logs := Pull(st.fees[t].logs, id))] else st.fees,
          DeleteOne(st.logs, id))
  }

  /** Pulls every id of `ids` from term (year, semester) and deletes the logs with those ids. */
  function Reject(st: Store, year: int, semester: int, ids: seq<LogId>): (r: Store)
    ensures r.fees.Keys == st.fees.Keys
    ensures forall t :: t in st.fees && t != Term(year, semester) ==> r.fees[t] == st.fees[t]
    ensures Term(year, semester) in st.fees ==>
              r.fees[Term(year, semester)] ==
              st.fees[Term(year, semester)].(logs := PullAll(st.fees[Term(year, semester)].logs, ids))
    ensures forall id :: id in ids && Term(year, semester) in r.fees ==> id !in r.fees[Term(year, semester)].logs
    ensures UniqueIds(st.logs) ==> r.logs == Keep(st.logs, ids) && UniqueIds(r.logs)
    ensures UniqueIds(st.logs) ==> forall id :: id in ids ==> id !in Ids(r.logs)
    decreases |ids|
  {
    if ids == [] then
      PullNone(if Term(year, semester) in st.fees then st.fees[Term(year, semester)].logs else [], ids);
      KeepNone(st.logs, ids);
      st
    else
      var next := RejectOne(st, Term(year, semester), ids[0]);
      PullStep(if Term(year, semester) in st.fees then st.fees[Term(year, semester)].logs else [], ids);
      DeleteOneUnique(st.logs, ids[0]);
      KeepStep(st.logs, ids);
      Reject(next, year, semester, ids[1..])
  }

  /** Pushes a fresh id onto the term, then inserts a direct log with an empty member;
      the insert's error is discarded, so a stored id leaves only the push behind. */
  function Deposit(st: Store, year: int, semester: int, amount: int, id: LogId, now: int): (r: Store)
    ensures Pushed(st.fees, r.fees, Term(year, semester), id)
    ensures id !in Ids(st.logs) ==> r.logs == st.logs + [Log(id, "", Direct, amount, now)]
    ensures id in Ids(st.logs) ==> r.logs == st.logs
  {
    var fees := PushLog(st.fees, Term(year, semester), id);
    var deposit := Log(id, "", Direct, amount, now);
    Store(fees, if id in Ids(st.logs) then st.logs else st.logs + [deposit])
  }

  // ---------------------------------------------------------------------------
  // Queries

  /** The sum of every approved log of `memberId`, whichever term lists it; the term
      is only checked for existence. */
  function Amount(st: Store, year: int, semester: int, memberId: string): (r: Result<int>)
    ensures Term(year, semester) !in st.fees <==> r.Err?
    ensures r.Err? ==> r.error == NoDocuments
    ensures r.Ok? ==> r.value == MemberTotal(Find(st.logs, AnyApproved()), memberId)
  {
    if Term(year, semester) !in st.fees then Err(NoDocuments)
    else
      ApprovedOfTotal(st.logs, memberId);
      Ok(Total(Find(st.logs, ApprovedOf(memberId))))
  }

  /** The loop `amounts[log.MemberID] += log.Amount` over a cursor, starting from `acc`. */
  function Tally(acc: map<string, int>, cursor: seq<Log>): (amounts: map<string, int>)
    ensures forall m :: m in amounts <==> m in acc || Pays(cursor, m)
    ensures forall m :: m in amounts ==> amounts[m] == Get(acc, m) + MemberTotal(cursor, m)
    decreases |cursor|
  {
    if cursor == [] then acc
    else
      var l := cursor[0];
      assert cursor == [l] + cursor[1..];
      Tally(acc[l.memberId := Get(acc, l.memberId) + l.amount], cursor[1..])
  }

  /** The members whose approved logs in the term add up to at least its fee. */
  function Dones(st: Store, year: int, semester: int): (r: Result<set<string>>)
    ensures Term(year, semester) !in st.fees <==> r.Err?
    ensures r.Err? ==> r.error == NoDocuments
    ensures r.Ok? ==> forall m :: m in r.value <==> Done(st, Term(year, semester), m)
  {
    var key := Term(year, semester);
    if key !in st.fees then Err(NoDocuments)
    else
      var fee := st.fees[key];
      var amounts := Tally(map[], Find(st.logs, ApprovedIn(fee.logs)));
      Ok(set m | m in amounts && fee.amount <= amounts[m])
  }

  /** The members whose approved logs in the term add up to less than its fee. */
  function Yets(st: Store, year: int, semester: int): (r: Result<set<string>>)
    ensures Term(year, semester) !in st.fees <==> r.Err?
    ensures r.Err? ==> r.error == NoDocuments
    ensures r.Ok? ==> forall m :: m in r.value <==> Yet(st, Term(year, semester), m)
  {
    var key := Term(year, semester);
    if key !in st.fees then Err(NoDocuments)
    else
      var fee := st.fees[key];
      var amounts := Tally(map[], Find(st.logs, ApprovedIn(fee.logs)));
      Ok(set m | m in amounts && amounts[m] < fee.amount)
  }

  /** The approved and direct logs the term lists, ordered by `updatedAt`. */
  function All(st: Store, year: int, semester: int): (r: Result<seq<Log>>)
    ensures Term(year, semester) !in st.fees <==> r.Err?
    ensures r.Err? ==> r.error == NoDocuments
    ensures r.Ok? ==> SortedByTime(r.value)
    ensures r.Ok? ==> multiset(r.value) == multiset(Find(st.logs, ListedIn(st.fees[Term(year, semester)].logs)))
    ensures r.Ok? ==> forall l :: l in r.value <==>
              l in st.logs && l.id in st.fees[Term(year, semester)].logs && l.kind != Unapproved
  {
    var key := Term(year, semester);
    if key !in st.fees then Err(NoDocuments)
    else
      var cursor := Find(st.logs, ListedIn(st.fees[key].logs));
      var r := SortByTime(cursor);
      assert forall l :: l in r <==> l in multiset(cursor);
      assert forall l :: Matches(l, ListedIn(st.fees[key].logs)) <==> l.id in st.fees[key].logs && l.kind != Unapproved by {
        forall l { ListedInMatches(l, st.fees[key].logs); }
      }
      Ok(r)
  }

  // ---------------------------------------------------------------------------
  // Lemmas the definitions above rely on.

  lemma {:induction false} ApprovedOfTotal(logs: seq<Log>, m: string)
    ensures Total(Find(logs, ApprovedOf(m))) == MemberTotal(Find(logs, AnyApproved()), m)
    decreases |logs|
  {
    if logs != [] {
      var x := logs[0];
      ApprovedOfTotal(logs[1..], m);
      ApprovedOfMatches(x, m);
      AnyApprovedMatches(x);
      var mine := Find(logs[1..], ApprovedOf(m));
      var approved := Find(logs[1..], AnyApproved());
      if x.kind == Approved {
        assert Find(logs, AnyApproved()) == [x] + approved;
        assert ([x] + approved)[1..] == approved;
        if x.memberId == m {
          assert Find(logs, ApprovedOf(m)) == [x] + mine;
          assert ([x] + mine)[1..] == mine;
        } else {
          assert Find(logs, ApprovedOf(m)) == mine;
        }
      } else {
        assert Find(logs, AnyApproved()) == approved;
        assert Find(logs, ApprovedOf(m)) == mine;
      }
    }
  }

  lemma {:induction false} PullNone(xs: seq<LogId>, ids: seq<LogId>)
    requires ids == []
    ensures PullAll(xs, ids) == xs
    decreases |xs|
  {
    if xs != [] {
      PullNone(xs[1..], ids);
    }
  }

  lemma {:induction false} KeepNone(logs: seq<Log>, ids: seq<LogId>)
    requires ids == []
    ensures Keep(logs, ids) == logs
    decreases |logs|
  {
    if logs != [] {
      KeepNone(logs[1..], ids);
    }
  }

  /** Pulling the first id, then the rest, is pulling them all. */
  lemma {:induction false} PullStep(xs: seq<LogId>, ids: seq<LogId>)
    requires ids != []
    ensures PullAll(Pull(xs, ids[0]), ids[1..]) == PullAll(xs, ids)
    decreases |xs|
  {
    if xs != [] {
      PullStep(xs[1..], ids);
      assert ids == [ids[0]] + ids[1..];
      if xs[0] == ids[0] {
        assert Pull(xs, ids[0]) == Pull(xs[1..], ids[0]);
        assert PullAll(xs, ids) == PullAll(xs[1..], ids);
      } else {
        assert Pull(xs, ids[0]) == [xs[0]] + Pull(xs[1..], ids[0]);
        assert Pull(xs, ids[0])[1..] == Pull(xs[1..], ids[0]);
      }
    }
  }

  /** `$pull` works element by element: it keeps the order of the ids it leaves. */
  lemma {:induction false} PullAppend(a: seq<LogId>, b: seq<LogId>, id: LogId)
    ensures Pull(a + b, id) == Pull(a, id) + Pull(b, id)
    decreases |a|
  {
    if a != [] {
      PullAppend(a[1..], b, id);
      assert (a + b)[1..] == a[1..] + b;
    } else {
      assert a + b == b;
    }
  }

  /** `$pull` removes every copy of `id` and keeps the count of every other id. */
  lemma {:induction false} PullCount(xs: seq<LogId>, id: LogId)
    ensures multiset(Pull(xs, id)) == multiset(xs)[id := 0]
    decreases |xs|
  {
    if xs != [] {
      PullCount(xs[1..], id);
      assert xs == [xs[0]] + xs[1..];
    }
  }

  /** Removing several ids keeps the count of every id not among them. */
  lemma {:induction false} PullAllCount(xs: seq<LogId>, ids: seq<LogId>, x: LogId)
    ensures multiset(PullAll(xs, ids))[x] == if x in ids then 0 else multiset(xs)[x]
    decreases |xs|
  {
    if xs != [] {
      PullAllCount(xs[1..], ids, x);
      assert xs == [xs[0]] + xs[1..];
    }
  }

  /** Removing several ids also keeps the order of the ids left. */
  lemma {:induction false} PullAllAppend(a: seq<LogId>, b: seq<LogId>, ids: seq<LogId>)
    ensures PullAll(a + b, ids) == PullAll(a, ids) + PullAll(b, ids)
    decreases |a|
  {
    if a != [] {
      PullAllAppend(a[1..], b, ids);
      assert (a + b)[1..] == a[1..] + b;
    } else {
      assert a + b == b;
    }
  }

  /** Keeping the logs without the first id, then without the rest, keeps those without any. */
  lemma {:induction false} KeepStep(logs: seq<Log>, ids: seq<LogId>)
    requires ids != []
    ensures Keep(Keep(logs, [ids[0]]), ids[1..]) == Keep(logs, ids)
    decreases |logs|
  {
    if logs != [] {
      KeepStep(logs[1..], ids);
      assert ids == [ids[0]] + ids[1..];
      var once := Keep(logs[1..], [ids[0]]);
      if logs[0].id == ids[0] {
        assert Keep(logs, [ids[0]]) == once;
        assert Keep(logs, ids) == Keep(logs[1..], ids);
      } else {
        assert Keep(logs, [ids[0]]) == [logs[0]] + once;
        assert ([logs[0]] + once)[1..] == once;
        if logs[0].id in ids {
          assert Keep(logs, ids) == Keep(logs[1..], ids);
        } else {
          assert Keep(logs, ids) == [logs[0]] + Keep(logs[1..], ids);
        }
      }
    }
  }

  /** With unique ids, deleting the first document with `id` deletes all of them. */
  lemma {:induction false} DeleteOneUnique(logs: seq<Log>, id: LogId)
    ensures UniqueIds(logs) ==> DeleteOne(logs, id) == Keep(logs, [id]) && UniqueIds(DeleteOne(logs, id))
    decreases |logs|
  {
    if logs != [] && UniqueIds(logs) {
      DeleteOneUnique(logs[1..], id);
      if logs[0].id == id {
        NotStoredKeep(logs[1..], [id]);
      } else {
        var r := DeleteOne(logs, id);
        assert r == [logs[0]] + DeleteOne(logs[1..], id);
        assert r[1..] == DeleteOne(logs[1..], id);
      }
    }
  }

  /** Removing ids that no document has changes nothing. */
  lemma {:induction false} NotStoredKeep(logs: seq<Log>, ids: seq<LogId>)
    requires forall id :: id in ids ==> id !in Ids(logs)
    ensures Keep(logs, ids) == logs
    decreases |logs|
  {
    if logs != [] {
      NotStoredKeep(logs[1..], ids);
    }
  }
}
