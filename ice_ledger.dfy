/**
 * The penalty ledger (the `ice_log` table): its rows, the store that assigns
 * their ids, the queries the sync engine runs against it, and the invariants
 * the engine is meant to keep.
 */
module IceLedger {
  import opened Wrappers

  datatype Kind = Principal | Interest

  datatype Status = Pending | Complete

  /**
   * One row of `ice_log`. Timestamps and the proof URL are left out; `id` is
   * assigned by the store when the row is inserted.
   */
  datatype IceLog = IceLog(
    id: nat,
    rosterId: int,
    teamName: string,
    playerName: string,
    weekIncurred: int,
    score: real,
    kind: Kind,
    parentId: Option<nat>,
    status: Status,
    season: string)

  /** What identifies a principal penalty: (roster, week, player name, season). */
  type Key = (int, int, string, string)

  function KeyOf(r: IceLog): Key {
    (r.rosterId, r.weekIncurred, r.playerName, r.season)
  }

  /** The table as a value: its rows in insertion order and the next id the store hands out. */
  datatype Store = Store(records: seq<IceLog>, nextId: nat)

  ghost predicate DistinctIds(rs: seq<IceLog>) {
    forall i, j :: 0 <= i < j < |rs| ==> rs[i].id != rs[j].id
  }

  /** Ids are unique and all below the store's next id. */
  ghost predicate WellFormed(s: Store) {
    && DistinctIds(s.records)
    && forall i :: 0 <= i < |s.records| ==> s.records[i].id < s.nextId
  }

  /** Inserting a row: the store ignores the id the row carries and stamps its own. */
  function Inserted(s: Store, row: IceLog): (t: Store)
    ensures WellFormed(s) ==> WellFormed(t)
    ensures |t.records| == |s.records| + 1 && t.records[..|s.records|] == s.records
    ensures t.records[|s.records|] == row.(id := s.nextId) && t.nextId == s.nextId + 1
  {
    Store(s.records + [row.(id := s.nextId)], s.nextId + 1)
  }

  /** The duplicate check: is there a PRINCIPAL row (of any status) with this key? */
  predicate HasPrincipal(rs: seq<IceLog>, key: Key) {
    exists i :: 0 <= i < |rs| && rs[i].kind == Principal && KeyOf(rs[i]) == key
  }

  /** No two PRINCIPAL rows share a key. */
  ghost predicate UniquePrincipals(rs: seq<IceLog>) {
    forall i, j :: 0 <= i < j < |rs| && rs[i].kind == Principal && rs[j].kind == Principal ==> KeyOf(rs[i]) != KeyOf(rs[j])
  }

  /** Every INTEREST row points at a PRINCIPAL row of the same season in the table. */
  ghost predicate ParentsClosed(rs: seq<IceLog>) {
    forall i :: 0 <= i < |rs| && rs[i].kind == Interest ==> ParentIn(rs[i], rs)
  }

  ghost predicate ParentIn(child: IceLog, rs: seq<IceLog>) {
    exists j :: 0 <= j < |rs| && rs[j].kind == Principal && child.parentId == Some(rs[j].id) && rs[j].season == child.season
  }

  predicate IsInterestOf(r: IceLog, parent: nat) {
    r.kind == Interest && r.parentId == Some(parent)
  }

  /** The count query: INTEREST rows whose parent is `parent`. */
  function InterestCount(rs: seq<IceLog>, parent: nat): (n: nat)
    ensures n <= |rs|
    decreases |rs|
  {
    if rs == [] then 0
    else InterestCount(rs[..|rs| - 1], parent) + (if IsInterestOf(rs[|rs| - 1], parent) then 1 else 0)
  }

  lemma InterestCountSnoc(rs: seq<IceLog>, r: IceLog, parent: nat)
    ensures InterestCount(rs + [r], parent) == InterestCount(rs, parent) + (if IsInterestOf(r, parent) then 1 else 0)
  {
    assert (rs + [r])[..|rs|] == rs;
  }

  /**
   * The latest-week query: the largest `weekIncurred` of a row of `season`
   * (ordered descending, first row), or None when the season has no rows.
   */
  function LatestWeek(rs: seq<IceLog>, season: string): (w: Option<int>)
    ensures w.None? <==> forall i :: 0 <= i < |rs| ==> rs[i].season != season
    ensures w.Some? ==> forall i :: 0 <= i < |rs| && rs[i].season == season ==> rs[i].weekIncurred <= w.value
    ensures w.Some? ==> exists i :: 0 <= i < |rs| && rs[i].season == season && rs[i].weekIncurred == w.value
    decreases |rs|
  {
    if rs == [] then None
    else
      var prefix := rs[..|rs| - 1];
      assert forall i :: 0 <= i < |prefix| ==> prefix[i] == rs[i];
      var prev := LatestWeek(prefix, season);
      var last := rs[|rs| - 1];
      if last.season != season then prev
      else if prev.Some? && prev.value >= last.weekIncurred then prev
      else Some(last.weekIncurred)
  }

  predicate IsPendingPrincipal(r: IceLog, season: string) {
    r.kind == Principal && r.status == Pending && r.season == season
  }

  /** The principals query: PENDING PRINCIPAL rows of `season`, in table order. */
  function PendingPrincipals(rs: seq<IceLog>, season: string): (ps: seq<IceLog>)
    ensures forall r :: r in ps <==> r in rs && IsPendingPrincipal(r, season)
    decreases |rs|
  {
    if rs == [] then []
    else
      var prefix := rs[..|rs| - 1];
      assert rs == prefix + [rs[|rs| - 1]];
      PendingPrincipals(prefix, season) + (if IsPendingPrincipal(rs[|rs| - 1], season) then [rs[|rs| - 1]] else [])
  }

  lemma {:induction false} PendingPrincipalsDistinct(rs: seq<IceLog>, season: string)
    requires DistinctIds(rs)
    ensures DistinctIds(PendingPrincipals(rs, season))
    decreases |rs|
  {
    if rs != [] {
      var prefix := rs[..|rs| - 1];
      var last := rs[|rs| - 1];
      PendingPrincipalsDistinct(prefix, season);
      var pre := PendingPrincipals(prefix, season);
      forall k | 0 <= k < |pre| ensures pre[k].id != last.id {
        assert pre[k] in prefix;
        var i :| 0 <= i < |prefix| && prefix[i] == pre[k];
        assert rs[i] == pre[k];
      }
    }
  }

  lemma {:induction false} InterestCountAppend(a: seq<IceLog>, b: seq<IceLog>, parent: nat)
    ensures InterestCount(a + b, parent) == InterestCount(a, parent) + InterestCount(b, parent)
    decreases |b|
  {
    if b != [] {
      var b' := b[..|b| - 1];
      assert (a + b)[..|a + b| - 1] == a + b';
      InterestCountAppend(a, b', parent);
    } else {
      assert a + b == a;
    }
  }

  lemma InterestCountNoInterest(a: seq<IceLog>, b: seq<IceLog>, parent: nat)
    requires forall k :: 0 <= k < |b| ==> b[k].kind != Interest
    ensures InterestCount(a + b, parent) == InterestCount(a, parent)
  {
    InterestCountAppend(a, b, parent);
    NoInterestCountsZero(b, parent);
  }

  lemma {:induction false} NoInterestCountsZero(b: seq<IceLog>, parent: nat)
    requires forall k :: 0 <= k < |b| ==> b[k].kind != Interest
    ensures InterestCount(b, parent) == 0
    decreases |b|
  {
    if b != [] {
      var prefix := b[..|b| - 1];
      assert forall k :: 0 <= k < |prefix| ==> prefix[k] == b[k];
      NoInterestCountsZero(prefix, parent);
    }
  }

  /** A key present stays present when rows are appended. */
  lemma HasPrincipalExtend(a: seq<IceLog>, b: seq<IceLog>, key: Key)
    requires |a| <= |b| && b[..|a|] == a
    requires HasPrincipal(a, key)
    ensures HasPrincipal(b, key)
  {
    var i :| 0 <= i < |a| && a[i].kind == Principal && KeyOf(a[i]) == key;
    assert b[i] == a[i];
  }

  /** Appending rows none of which is a PRINCIPAL keeps principals unique. */
  lemma UniquePrincipalsAppend(a: seq<IceLog>, b: seq<IceLog>)
    requires UniquePrincipals(a)
    requires forall k :: 0 <= k < |b| ==> b[k].kind != Principal
    ensures UniquePrincipals(a + b)
  {
  }

  /** Appending rows none of which is a PRINCIPAL leaves the principals query unchanged. */
  lemma {:induction false} PendingPrincipalsAppend(a: seq<IceLog>, b: seq<IceLog>, season: string)
    requires forall k :: 0 <= k < |b| ==> b[k].kind != Principal
    ensures PendingPrincipals(a + b, season) == PendingPrincipals(a, season)
    decreases |b|
  {
    if b != [] {
      var b' := b[..|b| - 1];
      assert (a + b)[..|a + b| - 1] == a + b';
      PendingPrincipalsAppend(a, b', season);
    } else {
      assert a + b == a;
    }
  }

  /** Appending rows whose INTEREST rows all have a parent already in `a` keeps parent closure. */
  lemma ParentsClosedAppend(a: seq<IceLog>, b: seq<IceLog>)
    requires ParentsClosed(a)
    requires forall k :: 0 <= k < |b| && b[k].kind == Interest ==> ParentIn(b[k], a)
    ensures ParentsClosed(a + b)
  {
    var ab := a + b;
    forall i | 0 <= i < |ab| && ab[i].kind == Interest ensures ParentIn(ab[i], ab) {
      var j :| 0 <= j < |a| && a[j].kind == Principal && ab[i].parentId == Some(a[j].id) && a[j].season == ab[i].season;
      assert ab[j] == a[j];
    }
  }

  /**
   * The table as an object: `insert` appends one row and hands out the next id.
   * Rows are never updated or removed here.
   */
  class Ledger {
    var records: seq<IceLog>
    var nextId: nat

    function State(): Store
      reads this
    {
      Store(records, nextId)
    }

    ghost predicate Valid()
      reads this
    {
      WellFormed(State())
    }

    constructor (initial: Store)
      requires WellFormed(initial)
      ensures Valid() && State() == initial
    {
      records := initial.records;
      nextId := initial.nextId;
    }

    method Insert(row: IceLog)
      modifies this
      ensures State() == Inserted(old(State()), row)
    {
      records := records + [row.(id := nextId)];
      nextId := nextId + 1;
    }
  }
}
