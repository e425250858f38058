/** The order of calls by (started_at, id), which both paging and retention follow. */
module CallOrder {
  import opened Ordering
  import opened SpyTables

  datatype Key = Key(startedAt: real, id: CallId)

  predicate Before(a: Key, b: Key) {
    a.startedAt < b.startedAt || (a.startedAt == b.startedAt && Less(a.id, b.id))
  }

  lemma {:induction false} BeforeTransitive(a: Key, b: Key, c: Key)
    requires Before(a, b) && Before(b, c)
    ensures Before(a, c)
  {
    hide Less;
    if a.startedAt == b.startedAt == c.startedAt { LessTransitive(a.id, b.id, c.id); }
  }

  lemma {:induction false} BeforeTotal(a: Key, b: Key)
    ensures a == b || Before(a, b) || Before(b, a)
  {
    hide Less;
    LessTotal(a.id, b.id);
  }

  lemma {:induction false} BeforeAsymmetric(a: Key, b: Key)
    requires Before(a, b)
    ensures a != b && !Before(b, a)
  {
    hide Less;
    LessAsymmetric(a.id, b.id);
    LessIrreflexive(a.id);
  }

  /** Earlier, or at the same time with the id that sorts first. */
  lemma {:induction false} BeforeIff(a: Key, b: Key)
    ensures Before(a, b) <==>
      a.startedAt < b.startedAt || (!(b.startedAt < a.startedAt) && Ascends(a.id, b.id))
  {
    hide Less; hide Ascends;
    LessAscends(a.id, b.id);
  }

  function KeyOf(calls: map<CallId, CallRow>, id: CallId): Key
    requires id in calls
  {
    Key(calls[id].startedAt, id)
  }
}
