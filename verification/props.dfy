/** Properties of the fee ledger that relate several operations or several calls. */
module FeeProps {
  import opened FeeStore
  import opened FeeSort
  import opened FeeQuery
  import opened FeeLedger

  // ---------------------------------------------------------------------------
  // Every mutation keeps the store consistent.

  lemma CreateKeepsConsistent(st: Store, year: int, semester: int, amount: int)
    requires Consistent(st)
    ensures Create(st, year, semester, amount).Ok? ==> Consistent(Create(st, year, semester, amount).value)
  {
  }

  lemma SubmitKeepsConsistent(st: Store, memberId: string, year: int, semester: int, amount: int, id: LogId, now: int)
    requires Consistent(st)
    ensures var r := Submit(st, memberId, year, semester, amount, id, now);
            r.Ok? ==> Consistent(r.value)
  {
    var log := Log(id, memberId, Unapproved, amount, now);
    if id !in Ids(st.logs) {
      UniqueAppend(st.logs, log);
      IdsAppend(st.logs, log);
    }
  }

  lemma DepositKeepsConsistent(st: Store, year: int, semester: int, amount: int, id: LogId, now: int)
    requires Consistent(st)
    ensures Consistent(Deposit(st, year, semester, amount, id, now))
  {
    var log := Log(id, "", Direct, amount, now);
    if id !in Ids(st.logs) {
      UniqueAppend(st.logs, log);
      IdsAppend(st.logs, log);
    }
  }

  lemma {:induction false} ApproveLogsIds(logs: seq<Log>, ids: seq<LogId>, now: int)
    ensures Ids(ApproveLogs(logs, ids, now)) == Ids(logs)
    ensures UniqueIds(logs) ==> UniqueIds(ApproveLogs(logs, ids, now))
    decreases |logs|
  {
    if logs != [] {
      ApproveLogsIds(logs[1..], ids, now);
      var r := ApproveLogs(logs, ids, now);
      assert r[1..] == ApproveLogs(logs[1..], ids, now);
    }
  }

  lemma ApproveKeepsConsistent(st: Store, ids: seq<LogId>, now: int)
    requires Consistent(st)
    ensures Consistent(Approve(st, ids, now))
  {
    ApproveLogsIds(st.logs, ids, now);
  }

  /** A rejection keeps the store consistent when no other term lists a rejected id. */
  lemma RejectKeepsConsistent(st: Store, year: int, semester: int, ids: seq<LogId>)
    requires Consistent(st)
    requires forall t, id :: t in st.fees && t != Term(year, semester) && id in st.fees[t].logs ==> id !in ids
    ensures Consistent(Reject(st, year, semester, ids))
  {
  }

  /** Naming the wrong term deletes the log but leaves its own term listing it. */
  lemma RejectElsewhereDangles()
    ensures var st := Store(map[Term(2024, 1) := Fee(2024, 1, 50000, [7])], [Log(7, "M1", Approved, 50000, 0)]);
            Consistent(st) && !NoDangling(Reject(st, 2024, 2, [7]))
  {
    var st := Store(map[Term(2024, 1) := Fee(2024, 1, 50000, [7])], [Log(7, "M1", Approved, 50000, 0)]);
    assert Ids(st.logs) == [7];
    var r := Reject(st, 2024, 2, [7]);
    assert 7 in r.fees[Term(2024, 1)].logs;
    assert 7 !in Ids(r.logs);
  }

  // ---------------------------------------------------------------------------
  // Reject

  /** Rejecting an id that no document uses changes nothing. */
  lemma RejectUnknownIsNoOp(st: Store, year: int, semester: int, id: LogId)
    requires Fresh(st, id)
    ensures Reject(st, year, semester, [id]) == st
  {
  }

  // ---------------------------------------------------------------------------
  // Approve

  /** Approving twice leaves what the second approval alone would. */
  lemma ApproveIdempotent(st: Store, ids: seq<LogId>, t1: int, t2: int)
    ensures Approve(Approve(st, ids, t1), ids, t2) == Approve(st, ids, t2)
  {
  }

  /** Approving ids that no stored log has changes no log. */
  lemma ApproveAbsent(logs: seq<Log>, ids: seq<LogId>, now: int)
    requires forall id :: id in ids ==> id !in Ids(logs)
    ensures ApproveLogs(logs, ids, now) == logs
  {
  }

  /** Approving a just-submitted claim adds its amount to its member's sum in the term,
      and to nobody else's. */
  lemma SubmitThenApprove(st: Store, memberId: string, year: int, semester: int, amount: int,
                          id: LogId, t0: int, t1: int, m: string)
    requires Term(year, semester) in st.fees
    requires Submit(st, memberId, year, semester, amount, id, t0).Ok?
    ensures var after := Approve(Submit(st, memberId, year, semester, amount, id, t0).value, [id], t1);
            MemberTotal(TermApprovals(after, Term(year, semester)), m)
            == MemberTotal(TermApprovals(st, Term(year, semester)), m) + (if m == memberId then amount else 0)
  {
    var t := Term(year, semester);
    var submitted := Submit(st, memberId, year, semester, amount, id, t0).value;
    var after := Approve(submitted, [id], t1);
    var log := Log(id, memberId, Unapproved, amount, t0);
    var approved := Log(id, memberId, Approved, amount, t1);
    var ids := st.fees[t].logs;
    // Only the new log carries the approved id.
    ApproveAbsent(st.logs, [id], t1);
    assert after.logs == st.logs + [approved] by {
      var r := ApproveLogs(st.logs + [log], [id], t1);
      forall i | 0 <= i < |st.logs|
        ensures r[i] == st.logs[i]
      {
        IdsMember(st.logs, st.logs[i]);
      }
    }
    // The pushed id selects no older log.
    forall l | l in st.logs
      ensures Matches(l, ApprovedIn(ids + [id])) <==> Matches(l, ApprovedIn(ids))
    {
      IdsMember(st.logs, l);
      ApprovedInMatches(l, ids);
      ApprovedInMatches(l, ids + [id]);
    }
    FindSame(st.logs, ApprovedIn(ids + [id]), ApprovedIn(ids));
    FindAppend(st.logs, approved, ApprovedIn(ids + [id]));
    ApprovedInMatches(approved, ids + [id]);
    MemberTotalAppend(Find(st.logs, ApprovedIn(ids)), approved, m);
  }

  // ---------------------------------------------------------------------------
  // Submit and Deposit as seen by the queries

  /** An unapproved claim counts toward no sum and no partition, whichever term it names. */
  lemma SubmitLeavesTallies(st: Store, memberId: string, year: int, semester: int, amount: int,
                            id: LogId, now: int, y: int, s: int, m: string)
    requires Submit(st, memberId, year, semester, amount, id, now).Ok?
    ensures var after := Submit(st, memberId, year, semester, amount, id, now).value;
            && Amount(after, y, s, m) == Amount(st, y, s, m)
            && Dones(after, y, s) == Dones(st, y, s)
            && Yets(after, y, s) == Yets(st, y, s)
  {
    var after := Submit(st, memberId, year, semester, amount, id, now).value;
    var log := Log(id, memberId, Unapproved, amount, now);
    var t := Term(y, s);
    FindAppend(st.logs, log, ApprovedOf(m));
    ApprovedOfMatches(log, m);
    assert Find(after.logs, ApprovedOf(m)) == Find(st.logs, ApprovedOf(m));
    if t in st.fees {
      var ids' := after.fees[t].logs;
      NotStoredFilters(st.logs, st.fees[t].logs, ids', id);
      FindAppend(st.logs, log, ApprovedIn(ids'));
      ApprovedInMatches(log, ids');
      assert Find(after.logs, ApprovedIn(ids')) == Find(st.logs, ApprovedIn(st.fees[t].logs));
    }
  }

  /** An unapproved claim does not show in any term's history. */
  lemma SubmitLeavesAll(st: Store, memberId: string, year: int, semester: int, amount: int,
                        id: LogId, now: int, y: int, s: int)
    requires Submit(st, memberId, year, semester, amount, id, now).Ok?
    ensures All(Submit(st, memberId, year, semester, amount, id, now).value, y, s) == All(st, y, s)
  {
    var after := Submit(st, memberId, year, semester, amount, id, now).value;
    var log := Log(id, memberId, Unapproved, amount, now);
    var t := Term(y, s);
    if t in st.fees {
      var ids' := after.fees[t].logs;
      NotStoredFilters(st.logs, st.fees[t].logs, ids', id);
      FindAppend(st.logs, log, ListedIn(ids'));
      ListedInMatches(log, ids');
      assert Find(after.logs, ListedIn(ids')) == Find(st.logs, ListedIn(st.fees[t].logs));
    }
  }

  /** A term list that gained at most an id no stored log has selects the same cursors. */
  lemma NotStoredFilters(logs: seq<Log>, ids: seq<LogId>, ids': seq<LogId>, id: LogId)
    requires id !in Ids(logs)
    requires ids' == ids || ids' == ids + [id]
    ensures Find(logs, ApprovedIn(ids')) == Find(logs, ApprovedIn(ids))
    ensures Find(logs, ListedIn(ids')) == Find(logs, ListedIn(ids))
  {
    forall l | l in logs
      ensures (Matches(l, ApprovedIn(ids')) <==> Matches(l, ApprovedIn(ids)))
           && (Matches(l, ListedIn(ids')) <==> Matches(l, ListedIn(ids)))
    {
      IdsMember(logs, l);
      ApprovedInMatches(l, ids);
      ApprovedInMatches(l, ids');
      ListedInMatches(l, ids);
      ListedInMatches(l, ids');
    }
    FindSame(logs, ApprovedIn(ids'), ApprovedIn(ids));
    FindSame(logs, ListedIn(ids'), ListedIn(ids));
  }

  /** A direct deposit counts toward nobody's total and no paid/unpaid partition. */
  lemma DepositLeavesTallies(st: Store, year: int, semester: int, amount: int, id: LogId, now: int,
                             y: int, s: int, m: string)
    requires id !in Ids(st.logs)
    ensures var after := Deposit(st, year, semester, amount, id, now);
            && Amount(after, y, s, m) == Amount(st, y, s, m)
            && Dones(after, y, s) == Dones(st, y, s)
            && Yets(after, y, s) == Yets(st, y, s)
  {
    var after := Deposit(st, year, semester, amount, id, now);
    var log := Log(id, "", Direct, amount, now);
    var t := Term(y, s);
    FindAppend(st.logs, log, ApprovedOf(m));
    ApprovedOfMatches(log, m);
    assert Find(after.logs, ApprovedOf(m)) == Find(st.logs, ApprovedOf(m));
    if t in st.fees {
      var ids' := after.fees[t].logs;
      NotStoredFilters(st.logs, st.fees[t].logs, ids', id);
      FindAppend(st.logs, log, ApprovedIn(ids'));
      ApprovedInMatches(log, ids');
      assert Find(after.logs, ApprovedIn(ids')) == Find(st.logs, ApprovedIn(st.fees[t].logs));
    }
  }

  /** A direct deposit with a new id joins the term's history exactly once. */
  lemma DepositShowsInAll(st: Store, year: int, semester: int, amount: int, id: LogId, now: int)
    requires Term(year, semester) in st.fees
    requires id !in Ids(st.logs)
    ensures var after := Deposit(st, year, semester, amount, id, now);
            multiset(All(after, year, semester).value)
            == multiset(All(st, year, semester).value) + multiset{Log(id, "", Direct, amount, now)}
  {
    var t := Term(year, semester);
    var after := Deposit(st, year, semester, amount, id, now);
    var log := Log(id, "", Direct, amount, now);
    NotStoredFilters(st.logs, st.fees[t].logs, after.fees[t].logs, id);
    FindAppend(st.logs, log, ListedIn(after.fees[t].logs));
    ListedInMatches(log, after.fees[t].logs);
  }

  // ---------------------------------------------------------------------------
  // Dones, Yets and Amount

  /** Every member with an approved log in the term is in exactly one of Dones and Yets;
      a member without one is in neither. */
  lemma DonesYetsPartition(st: Store, year: int, semester: int)
    ensures Dones(st, year, semester).Err? <==> Yets(st, year, semester).Err?
    ensures Dones(st, year, semester).Ok? ==>
              Dones(st, year, semester).value !! Yets(st, year, semester).value
    ensures Dones(st, year, semester).Ok? ==>
              forall m :: m in Dones(st, year, semester).value || m in Yets(st, year, semester).value
                          <==> Pays(TermApprovals(st, Term(year, semester)), m)
  {
  }

  /** The approved logs whose id is not in `ids`. */
  ghost function ApprovedOutside(logs: seq<Log>, ids: seq<LogId>): (r: seq<Log>)
    ensures forall l :: l in r ==> l in logs && l.kind == Approved
    decreases |logs|
  {
    if logs == [] then []
    else (if logs[0].kind == Approved && logs[0].id !in ids then [logs[0]] else []) + ApprovedOutside(logs[1..], ids)
  }

  lemma {:induction false} ApprovedSplit(logs: seq<Log>, ids: seq<LogId>, m: string)
    ensures MemberTotal(Find(logs, AnyApproved()), m)
            == MemberTotal(Find(logs, ApprovedIn(ids)), m) + MemberTotal(ApprovedOutside(logs, ids), m)
    decreases |logs|
  {
    if logs != [] {
      var x := logs[0];
      ApprovedSplit(logs[1..], ids, m);
      AnyApprovedMatches(x);
      ApprovedInMatches(x, ids);
      var all := Find(logs[1..], AnyApproved());
      var inside := Find(logs[1..], ApprovedIn(ids));
      var outside := ApprovedOutside(logs[1..], ids);
      if x.kind == Approved {
        assert Find(logs, AnyApproved()) == [x] + all;
        assert ([x] + all)[1..] == all;
        if x.id in ids {
          assert Find(logs, ApprovedIn(ids)) == [x] + inside;
          assert ([x] + inside)[1..] == inside;
          assert ApprovedOutside(logs, ids) == outside;
        } else {
          assert Find(logs, ApprovedIn(ids)) == inside;
          assert ApprovedOutside(logs, ids) == [x] + outside;
          assert ([x] + outside)[1..] == outside;
        }
      } else {
        assert Find(logs, AnyApproved()) == all;
        assert Find(logs, ApprovedIn(ids)) == inside;
        assert ApprovedOutside(logs, ids) == outside;
      }
    }
  }

  /** `Amount` is the member's approved sum in the term plus their approved logs that the term
      does not list: the query is not scoped to the term it names. */
  lemma AmountSplit(st: Store, year: int, semester: int, m: string)
    requires Term(year, semester) in st.fees
    ensures Amount(st, year, semester, m).Ok?
    ensures Amount(st, year, semester, m).value
            == MemberTotal(TermApprovals(st, Term(year, semester)), m)
               + MemberTotal(ApprovedOutside(st.logs, st.fees[Term(year, semester)].logs), m)
  {
    ApprovedSplit(st.logs, st.fees[Term(year, semester)].logs, m);
  }

  lemma {:induction false} MemberTotalNonNegative(logs: seq<Log>, m: string)
    requires forall l :: l in logs && l.memberId == m ==> 0 <= l.amount
    ensures 0 <= MemberTotal(logs, m)
    decreases |logs|
  {
    if logs != [] {
      MemberTotalNonNegative(logs[1..], m);
    }
  }

  /** With non-negative approved amounts, `Amount` is at least the sum `Dones` compares. */
  lemma AmountCoversTerm(st: Store, year: int, semester: int, m: string)
    requires Term(year, semester) in st.fees
    requires forall l :: l in st.logs && l.kind == Approved && l.memberId == m ==> 0 <= l.amount
    ensures MemberTotal(TermApprovals(st, Term(year, semester)), m) <= Amount(st, year, semester, m).value
  {
    AmountSplit(st, year, semester, m);
    MemberTotalNonNegative(ApprovedOutside(st.logs, st.fees[Term(year, semester)].logs), m);
  }

  /** A payment approved under one term shows in `Amount` for another term that lists nothing. */
  lemma AmountCountsOtherTerms()
    ensures var st := Store(map[Term(2024, 1) := Fee(2024, 1, 50000, [7]), Term(2024, 2) := Fee(2024, 2, 50000, [])],
                            [Log(7, "M1", Approved, 50000, 0)]);
            Amount(st, 2024, 2, "M1") == Ok(50000) && Dones(st, 2024, 2) == Ok({})
  {
    var st := Store(map[Term(2024, 1) := Fee(2024, 1, 50000, [7]), Term(2024, 2) := Fee(2024, 2, 50000, [])],
                    [Log(7, "M1", Approved, 50000, 0)]);
    var log := st.logs[0];
    AmountSplit(st, 2024, 2, "M1");
    ApprovedInMatches(log, []);
    assert Find(st.logs, ApprovedIn([])) == [];
    assert ApprovedOutside(st.logs, []) == [log];
    assert MemberTotal([log], "M1") == 50000;
    assert Dones(st, 2024, 2).value == {} by {
      forall m ensures !Done(st, Term(2024, 2), m) { }
    }
  }

  // ---------------------------------------------------------------------------
  // All

  lemma {:induction false} FindUnique(logs: seq<Log>, f: seq<Clause>)
    requires UniqueIds(logs)
    ensures UniqueIds(Find(logs, f))
    ensures forall x :: x in Ids(Find(logs, f)) ==> x in Ids(logs)
    decreases |logs|
  {
    if logs != [] {
      FindUnique(logs[1..], f);
      var rest := Find(logs[1..], f);
      var r := Find(logs, f);
      assert Ids(logs) == [logs[0].id] + Ids(logs[1..]);
      if Matches(logs[0], f) {
        assert r == [logs[0]] + rest;
        assert r[1..] == rest;
        assert Ids(r) == [logs[0].id] + Ids(rest);
      } else {
        assert r == rest;
      }
    }
  }

  lemma {:induction false} UniqueOnce(s: seq<Log>)
    requires UniqueIds(s)
    ensures forall l :: l in s ==> multiset(s)[l] == 1
    decreases |s|
  {
    if s != [] {
      UniqueOnce(s[1..]);
      assert s == [s[0]] + s[1..];
      if s[0] in s[1..] {
        IdsMember(s[1..], s[0]);
      }
    }
  }

  /** With unique ids, `All` lists every selected log exactly once. */
  lemma AllOnce(st: Store, year: int, semester: int)
    requires Valid(st)
    requires Term(year, semester) in st.fees
    ensures forall l :: l in All(st, year, semester).value ==> multiset(All(st, year, semester).value)[l] == 1
  {
    var cursor := Find(st.logs, ListedIn(st.fees[Term(year, semester)].logs));
    FindUnique(st.logs, ListedIn(st.fees[Term(year, semester)].logs));
    UniqueOnce(cursor);
  }

  // ---------------------------------------------------------------------------
  // Fresh ids

  lemma {:induction false} SetBound(s: set<LogId>) returns (b: LogId)
    ensures forall x :: x in s ==> x < b
    decreases |s|
  {
    if s == {} {
      b := 0;
    } else {
      var x :| x in s;
      var b' := SetBound(s - {x});
      b := if x < b' then b' else x + 1;
      assert forall y :: y in s ==> y == x || y in s - {x};
    }
  }

  /** Some id is used by no document, so a new log can always be given one. */
  lemma FreshIdExists(st: Store)
    ensures exists id :: Fresh(st, id)
  {
    var used := (set x | x in Ids(st.logs)) + (set t, x | t in st.fees && x in st.fees[t].logs :: x);
    var b := SetBound(used);
    assert b !in used;
    assert forall x :: x in Ids(st.logs) ==> x in used;
    assert forall t, x :: t in st.fees && x in st.fees[t].logs ==> x in used;
    assert !Referenced(st.fees, b);
    assert Fresh(st, b);
  }

  // ---------------------------------------------------------------------------
  // Scenarios

  /** Two approved claims of 30000 pay a fee of 50000. */
  lemma PaidScenario()
    ensures var s1 := Create(Store(map[], []), 2024, 1, 50000);
            && s1.Ok?
            && var s2 := Submit(s1.value, "M1", 2024, 1, 30000, 1, 100);
            && s2.Ok?
            && var s3 := Submit(s2.value, "M1", 2024, 1, 30000, 2, 101);
            && s3.Ok?
            && var s4 := Approve(s3.value, [1, 2], 200);
            && Amount(s4, 2024, 1, "M1") == Ok(60000)
            && Dones(s4, 2024, 1) == Ok({"M1"})
            && Yets(s4, 2024, 1) == Ok({})
  {
    var t := Term(2024, 1);
    var s1 := Create(Store(map[], []), 2024, 1, 50000).value;
    assert s1 == Store(map[t := Fee(2024, 1, 50000, [])], []);
    var s2 := Submit(s1, "M1", 2024, 1, 30000, 1, 100).value;
    assert s2.fees.Keys == {t} && s2.fees[t] == Fee(2024, 1, 50000, [1]);
    assert s2.logs == [Log(1, "M1", Unapproved, 30000, 100)];
    assert Ids(s2.logs) == [1];
    var s3 := Submit(s2, "M1", 2024, 1, 30000, 2, 101).value;
    assert s3.fees.Keys == {t} && s3.fees[t] == Fee(2024, 1, 50000, [1, 2]);
    assert s3.logs == [Log(1, "M1", Unapproved, 30000, 100), Log(2, "M1", Unapproved, 30000, 101)];
    var s4 := Approve(s3, [1, 2], 200);
    assert s4.fees == PaidStore().fees;
    assert s4.logs[0] == PaidStore().logs[0];
    assert s4.logs[1] == PaidStore().logs[1];
    assert s4.logs == PaidStore().logs;
    PaidStoreQueries();
  }

  /** The store of the paid scenario once both claims are approved. */
  function PaidStore(): Store {
    Store(map[Term(2024, 1) := Fee(2024, 1, 50000, [1, 2])],
          [Log(1, "M1", Approved, 30000, 200), Log(2, "M1", Approved, 30000, 200)])
  }

  lemma PaidStoreQueries()
    ensures Amount(PaidStore(), 2024, 1, "M1") == Ok(60000)
    ensures Dones(PaidStore(), 2024, 1) == Ok({"M1"})
    ensures Yets(PaidStore(), 2024, 1) == Ok({})
  {
    var st := PaidStore();
    var t := Term(2024, 1);
    var a := st.logs[0];
    var b := st.logs[1];
    ApprovedInMatches(a, [1, 2]);
    ApprovedInMatches(b, [1, 2]);
    ApprovedOfMatches(a, "M1");
    ApprovedOfMatches(b, "M1");
    assert st.logs[1..] == [b];
    assert Find(st.logs, ApprovedIn([1, 2])) == [a, b];
    assert Find(st.logs, ApprovedOf("M1")) == [a, b];
    assert [a, b][1..] == [b];
    assert MemberTotal([b], "M1") == 30000;
    assert MemberTotal([a, b], "M1") == 60000;
    assert Total([b]) == 30000;
    assert Pays([a, b], "M1");
    assert Dones(st, 2024, 1).value == {"M1"} by {
      forall m ensures Done(st, t, m) <==> m == "M1" { }
    }
    assert Yets(st, 2024, 1).value == {} by {
      forall m ensures !Yet(st, t, m) { }
    }
  }

  /** A deposit on a new term is its whole history. */
  lemma DepositScenario()
    ensures var s1 := Create(Store(map[], []), 2024, 1, 50000);
            && s1.Ok?
            && All(Deposit(s1.value, 2024, 1, 50000, 1, 100), 2024, 1) == Ok([Log(1, "", Direct, 50000, 100)])
  {
    var t := Term(2024, 1);
    var d := Log(1, "", Direct, 50000, 100);
    var s1 := Create(Store(map[], []), 2024, 1, 50000).value;
    assert s1 == Store(map[t := Fee(2024, 1, 50000, [])], []);
    var s2 := Deposit(s1, 2024, 1, 50000, 1, 100);
    assert s2.fees.Keys == {t} && s2.fees[t] == Fee(2024, 1, 50000, [1]);
    assert s2.logs == [d];
    ListedInMatches(d, [1]);
    assert [d][1..] == [];
    assert Find(s2.logs, ListedIn([1])) == [d];
    assert SortByTime([d]) == [d];
  }
}
