/** Query documents over the `logs` collection and the cursor a `Find` returns. */
module FeeQuery {
  import opened FeeStore

  /** One element of a query document; a filter holds when all of its clauses do. */
  datatype Clause =
    | IdIn(ids: seq<LogId>)          // {_id: {$in: ids}}
    | MemberIs(memberId: string)     // {member_id: m}
    | TypeIs(kind: LogType)          // {type: t}
    | TypeIn(kinds: set<LogType>)    // {$or: [{type: t1}, {type: t2}, ...]}

  predicate Holds(l: Log, c: Clause) {
    match c
    case IdIn(ids) => l.id in ids
    case MemberIs(m) => l.memberId == m
    case TypeIs(k) => l.kind == k
    case TypeIn(ks) => l.kind in ks
  }

  predicate Matches(l: Log, filter: seq<Clause>) {
    forall i :: 0 <= i < |filter| ==> Holds(l, filter[i])
  }

  /** The documents matching `filter`, in the collection's natural order. */
  function Find(logs: seq<Log>, filter: seq<Clause>): (r: seq<Log>)
    ensures forall l :: l in r <==> l in logs && Matches(l, filter)
    ensures |r| <= |logs|
    decreases |logs|
  {
    if logs == [] then []
    else
      assert logs == [logs[0]] + logs[1..];
      (if Matches(logs[0], filter) then [logs[0]] else []) + Find(logs[1..], filter)
  }

  /** A cursor yields each matching document as often as the collection holds it, and no other. */
  lemma {:induction false} FindCount(logs: seq<Log>, filter: seq<Clause>, l: Log)
    ensures multiset(Find(logs, filter))[l] == if Matches(l, filter) then multiset(logs)[l] else 0
    decreases |logs|
  {
    if logs != [] {
      FindCount(logs[1..], filter, l);
      assert logs == [logs[0]] + logs[1..];
    }
  }

  /** `{_id: {$in: ids}, type: "approved"}`: the cursor `Dones` and `Yets` sum. */
  function ApprovedIn(ids: seq<LogId>): seq<Clause> {
    [IdIn(ids), TypeIs(Approved)]
  }

  /** `{member_id: m, type: "approved"}`: the cursor `Amount` sums. */
  function ApprovedOf(m: string): seq<Clause> {
    [MemberIs(m), TypeIs(Approved)]
  }

  /** `{_id: {$in: ids}, $or: [{type: "approved"}, {type: "direct"}]}`: the cursor `All` sorts. */
  function ListedIn(ids: seq<LogId>): seq<Clause> {
    [IdIn(ids), TypeIn({Approved, Direct})]
  }

  /** `{type: "approved"}`. */
  function AnyApproved(): seq<Clause> {
    [TypeIs(Approved)]
  }

  lemma ApprovedInMatches(l: Log, ids: seq<LogId>)
    ensures Matches(l, ApprovedIn(ids)) <==> l.id in ids && l.kind == Approved
  {
    assert Holds(l, ApprovedIn(ids)[0]) && Holds(l, ApprovedIn(ids)[1]) ==> Matches(l, ApprovedIn(ids));
  }

  lemma ApprovedOfMatches(l: Log, m: string)
    ensures Matches(l, ApprovedOf(m)) <==> l.memberId == m && l.kind == Approved
  {
    assert Holds(l, ApprovedOf(m)[0]) && Holds(l, ApprovedOf(m)[1]) ==> Matches(l, ApprovedOf(m));
  }

  lemma ListedInMatches(l: Log, ids: seq<LogId>)
    ensures Matches(l, ListedIn(ids)) <==> l.id in ids && l.kind != Unapproved
  {
    assert Holds(l, ListedIn(ids)[0]) && Holds(l, ListedIn(ids)[1]) ==> Matches(l, ListedIn(ids));
  }

  lemma AnyApprovedMatches(l: Log)
    ensures Matches(l, AnyApproved()) <==> l.kind == Approved
  {
    assert Holds(l, AnyApproved()[0]) ==> Matches(l, AnyApproved());
  }

  /** Inserting a document adds it to the end of every cursor it matches. */
  lemma {:induction false} FindAppend(logs: seq<Log>, x: Log, filter: seq<Clause>)
    ensures Find(logs + [x], filter) == Find(logs, filter) + (if Matches(x, filter) then [x] else [])
    decreases |logs|
  {
    if logs != [] {
      assert (logs + [x])[1..] == logs[1..] + [x];
      FindAppend(logs[1..], x, filter);
    }
  }

  /** Two filters that agree on every document of the collection select the same cursor. */
  lemma {:induction false} FindSame(logs: seq<Log>, f: seq<Clause>, g: seq<Clause>)
    requires forall l :: l in logs ==> (Matches(l, f) <==> Matches(l, g))
    ensures Find(logs, f) == Find(logs, g)
    decreases |logs|
  {
    if logs != [] {
      FindSame(logs[1..], f, g);
    }
  }
}
