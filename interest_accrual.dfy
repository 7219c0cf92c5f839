/**
 * Interest reconciliation: each PENDING principal should carry one INTEREST
 * row per week elapsed beyond a one-week grace period; a run inserts only the
 * shortfall.
 */
module InterestAccrual {
  import opened Wrappers
  import opened IceLedger

  const InterestPlayerName: string := "INTEREST PENALTY"

  /** How many INTEREST rows `p` should have by `currentWeek`. */
  function Target(p: IceLog, currentWeek: int): int {
    currentWeek - p.weekIncurred - 1
  }

  /** How many INTEREST rows a run inserts for `p`: the shortfall, and none within the grace period. */
  function Needed(rs: seq<IceLog>, p: IceLog, currentWeek: int): (n: nat)
    ensures n == Max(0, Target(p, currentWeek) - InterestCount(rs, p.id))
  {
    var targetInterest := Target(p, currentWeek);
    if targetInterest > 0 then
      var needed := targetInterest - InterestCount(rs, p.id);
      if needed > 0 then needed else 0
    else 0
  }

  /** The INTEREST row inserted for principal `p`: it copies the parent's roster, team and week. */
  function InterestRow(p: IceLog, season: string): IceLog {
    IceLog(0, p.rosterId, p.teamName, InterestPlayerName, p.weekIncurred, 0.0, Interest, Some(p.id), Pending, season)
  }

  /** `n` inserts of the same row. */
  function InsertCopies(s: Store, row: IceLog, n: nat): Store
    decreases n
  {
    if n == 0 then s else Inserted(InsertCopies(s, row, n - 1), row)
  }

  /** Reconciling one principal. */
  function AccrueOne(s: Store, p: IceLog, currentWeek: int, season: string): Store {
    InsertCopies(s, InterestRow(p, season), Needed(s.records, p, currentWeek))
  }

  /** Reconciling a list of principals in order. */
  function AccrueAll(s: Store, ps: seq<IceLog>, currentWeek: int, season: string): Store
    decreases |ps|
  {
    if ps == [] then s else AccrueOne(AccrueAll(s, ps[..|ps| - 1], currentWeek, season), ps[|ps| - 1], currentWeek, season)
  }

  // ---------------------------------------------------------------------------
  // Properties

  /** `n` inserts append `n` copies of `row`, each with the next id. */
  lemma {:induction false} InsertCopiesShape(s: Store, row: IceLog, n: nat)
    ensures var t := InsertCopies(s, row, n);
      && |t.records| == |s.records| + n
      && t.records[..|s.records|] == s.records
      && t.nextId == s.nextId + n
      && (WellFormed(s) ==> WellFormed(t))
      && forall k :: |s.records| <= k < |t.records| ==> t.records[k] == row.(id := s.nextId + (k - |s.records|))
    decreases n
  {
    if n > 0 {
      InsertCopiesShape(s, row, n - 1);
    }
  }

  lemma {:induction false} InsertCopiesCount(s: Store, row: IceLog, n: nat, parent: nat)
    ensures InterestCount(InsertCopies(s, row, n).records, parent) ==
            InterestCount(s.records, parent) + (if IsInterestOf(row, parent) then n else 0)
    decreases n
  {
    if n > 0 {
      InsertCopiesCount(s, row, n - 1, parent);
      var prev := InsertCopies(s, row, n - 1);
      InterestCountSnoc(prev.records, row.(id := prev.nextId), parent);
    }
  }

  /**
   * Reconciling `p` inserts exactly max(0, target - have) rows, after which
   * `p` has max(have, target) INTEREST rows; no other parent's count changes,
   * and within the grace period nothing happens.
   */
  lemma AccrueOneSpec(s: Store, p: IceLog, currentWeek: int, season: string)
    ensures var t := AccrueOne(s, p, currentWeek, season);
      var have := InterestCount(s.records, p.id);
      && |t.records| == |s.records| + Max(0, Target(p, currentWeek) - have)
      && InterestCount(t.records, p.id) == Max(have, Target(p, currentWeek))
      && (forall parent :: parent != p.id ==> InterestCount(t.records, parent) == InterestCount(s.records, parent))
      && (Target(p, currentWeek) <= 0 ==> t == s)
  {
    var n := Needed(s.records, p, currentWeek);
    InsertCopiesShape(s, InterestRow(p, season), n);
    InsertCopiesCount(s, InterestRow(p, season), n, p.id);
    forall parent | parent != p.id
      ensures InterestCount(AccrueOne(s, p, currentWeek, season).records, parent) == InterestCount(s.records, parent)
    {
      InsertCopiesCount(s, InterestRow(p, season), n, parent);
    }
  }

  /** Every row a reconciliation of `p` appends is a PENDING INTEREST row of `p` with score 0. */
  lemma AccrueOneRows(s: Store, p: IceLog, currentWeek: int, season: string)
    ensures var t := AccrueOne(s, p, currentWeek, season);
      && |s.records| <= |t.records|
      && t.records[..|s.records|] == s.records
      && (WellFormed(s) ==> WellFormed(t))
      && forall k :: |s.records| <= k < |t.records| ==>
           && t.records[k].kind == Interest && t.records[k].parentId == Some(p.id)
           && t.records[k].rosterId == p.rosterId && t.records[k].teamName == p.teamName
           && t.records[k].weekIncurred == p.weekIncurred && t.records[k].score == 0.0
           && t.records[k].status == Pending && t.records[k].playerName == InterestPlayerName
           && t.records[k].season == season
  {
    InsertCopiesShape(s, InterestRow(p, season), Needed(s.records, p, currentWeek));
  }

  /** With no interest yet, a principal of week `w` gets none while `currentWeek <= w + 1`, else `currentWeek - w - 1`. */
  lemma AccrueGracePeriod(s: Store, p: IceLog, currentWeek: int, season: string)
    requires InterestCount(s.records, p.id) == 0
    ensures InterestCount(AccrueOne(s, p, currentWeek, season).records, p.id) ==
            if currentWeek <= p.weekIncurred + 1 then 0 else currentWeek - p.weekIncurred - 1
  {
    AccrueOneSpec(s, p, currentWeek, season);
  }

  /**
   * Skipped runs heal themselves: reconciling at an earlier week and then at
   * `later` leaves `p` with as many INTEREST rows as reconciling at `later` alone.
   */
  lemma AccrueCatchUp(s: Store, p: IceLog, earlier: int, later: int, season: string)
    requires earlier <= later
    ensures InterestCount(AccrueOne(AccrueOne(s, p, earlier, season), p, later, season).records, p.id) ==
            InterestCount(AccrueOne(s, p, later, season).records, p.id)
  {
    AccrueOneSpec(s, p, earlier, season);
    AccrueOneSpec(AccrueOne(s, p, earlier, season), p, later, season);
    AccrueOneSpec(s, p, later, season);
  }

  /** A parent none of the principals has keeps its count. */
  lemma {:induction false} AccrueAllOtherParent(s: Store, ps: seq<IceLog>, currentWeek: int, season: string, parent: nat)
    requires forall k :: 0 <= k < |ps| ==> ps[k].id != parent
    ensures InterestCount(AccrueAll(s, ps, currentWeek, season).records, parent) == InterestCount(s.records, parent)
    decreases |ps|
  {
    if ps != [] {
      var prefix := ps[..|ps| - 1];
      AccrueAllOtherParent(s, prefix, currentWeek, season, parent);
      AccrueOneSpec(AccrueAll(s, prefix, currentWeek, season), ps[|ps| - 1], currentWeek, season);
    }
  }

  /**
   * After reconciling principals with distinct ids, each of them has
   * max(have, target) INTEREST rows, where `have` is its count before.
   */
  lemma {:induction false} AccrueAllCounts(s: Store, ps: seq<IceLog>, currentWeek: int, season: string)
    requires DistinctIds(ps)
    ensures forall k :: 0 <= k < |ps| ==>
      InterestCount(AccrueAll(s, ps, currentWeek, season).records, ps[k].id) ==
      Max(InterestCount(s.records, ps[k].id), Target(ps[k], currentWeek))
    decreases |ps|
  {
    if ps != [] {
      var prefix := ps[..|ps| - 1];
      var last := ps[|ps| - 1];
      var mid := AccrueAll(s, prefix, currentWeek, season);
      AccrueAllCounts(s, prefix, currentWeek, season);
      AccrueAllOtherParent(s, prefix, currentWeek, season, last.id);
      AccrueOneSpec(mid, last, currentWeek, season);
      forall k | 0 <= k < |ps|
        ensures InterestCount(AccrueAll(s, ps, currentWeek, season).records, ps[k].id) ==
                Max(InterestCount(s.records, ps[k].id), Target(ps[k], currentWeek))
      {
        if k < |prefix| {
          assert prefix[k] == ps[k];
        }
      }
    }
  }

  /**
   * Reconciliation only appends, and each row it appends is a PENDING INTEREST
   * row of one of the principals it was given.
   */
  lemma {:induction false} AccrueAllRows(s: Store, ps: seq<IceLog>, currentWeek: int, season: string)
    ensures var t := AccrueAll(s, ps, currentWeek, season);
      && |s.records| <= |t.records|
      && t.records[..|s.records|] == s.records
      && (WellFormed(s) ==> WellFormed(t))
      && forall k :: |s.records| <= k < |t.records| ==>
           t.records[k].kind == Interest && t.records[k].status == Pending && t.records[k].season == season &&
           exists j :: 0 <= j < |ps| && t.records[k].parentId == Some(ps[j].id)
    decreases |ps|
  {
    if ps != [] {
      var prefix := ps[..|ps| - 1];
      var last := ps[|ps| - 1];
      var mid := AccrueAll(s, prefix, currentWeek, season);
      AccrueAllRows(s, prefix, currentWeek, season);
      AccrueOneRows(mid, last, currentWeek, season);
      var t := AccrueAll(s, ps, currentWeek, season);
      forall k | |s.records| <= k < |t.records|
        ensures t.records[k].kind == Interest && t.records[k].status == Pending && t.records[k].season == season
        ensures exists j :: 0 <= j < |ps| && t.records[k].parentId == Some(ps[j].id)
      {
        if k < |mid.records| {
          assert t.records[k] == mid.records[k];
          var j :| 0 <= j < |prefix| && mid.records[k].parentId == Some(prefix[j].id);
          assert ps[j] == prefix[j];
        } else {
          assert t.records[k].parentId == Some(ps[|ps| - 1].id);
        }
      }
    }
  }

  /** When no principal has a shortfall, reconciliation changes nothing. */
  lemma {:induction false} AccrueAllNoop(s: Store, ps: seq<IceLog>, currentWeek: int, season: string)
    requires forall k :: 0 <= k < |ps| ==> InterestCount(s.records, ps[k].id) >= Target(ps[k], currentWeek)
    ensures AccrueAll(s, ps, currentWeek, season) == s
    decreases |ps|
  {
    if ps != [] {
      var prefix := ps[..|ps| - 1];
      assert forall k :: 0 <= k < |prefix| ==> prefix[k] == ps[k];
      AccrueAllNoop(s, prefix, currentWeek, season);
    }
  }

  // ---------------------------------------------------------------------------
  // The reconciliation as the source runs it

  /**
   * Reconciles one principal: counts its INTEREST rows, then inserts the
   * shortfall one row at a time; returns how many it inserted.
   */
  method AccruePrincipal(ledger: Ledger, p: IceLog, currentWeek: int, season: string) returns (added: nat)
    modifies ledger
    ensures ledger.State() == AccrueOne(old(ledger.State()), p, currentWeek, season)
    ensures added == Needed(old(ledger.records), p, currentWeek)
  {
    ghost var s0 := ledger.State();
    added := 0;
    var targetInterest := currentWeek - p.weekIncurred - 1;
    if targetInterest > 0 {
      var count := InterestCount(ledger.records, p.id);
      var needed := targetInterest - count;
      if needed > 0 {
        var i := 0;
        while i < needed
          invariant 0 <= i <= needed
          invariant ledger.State() == InsertCopies(s0, InterestRow(p, season), i)
          invariant added == i
        {
          ledger.Insert(IceLog(0, p.rosterId, p.teamName, InterestPlayerName, p.weekIncurred, 0.0,
                               Interest, Some(p.id), Pending, season));
          added := added + 1;
          i := i + 1;
        }
      }
    }
  }
}
