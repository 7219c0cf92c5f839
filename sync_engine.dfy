/**
 * The sync run (`runSyncLogic`): choose where to start scanning from the
 * ledger, detect principals week by week, reconcile interest for every
 * pending principal of the season, and report what was done.
 */
module SyncEngine {
  import opened Wrappers
  import opened IceLedger
  import opened Sleeper
  import opened PenaltyDetector
  import opened InterestAccrual

  /** What a successful run reports. */
  datatype SyncSummary = SyncSummary(newIces: int, interestAdded: int, currentWeek: int, currentSeason: string, startWeek: int)

  /** A run's reply and the ledger it leaves behind. */
  datatype SyncOutcome = SyncOutcome(result: Result<SyncSummary, string>, store: Store)

  const NflStateError: string := "Could not fetch NFL state"

  /** `latestEntry?.week_incurred || 0`. */
  function LastWeekInDb(rs: seq<IceLog>, season: string): int {
    var latest := LatestWeek(rs, season);
    if latest.Some? then latest.value else 0
  }

  /**
   * The first week to scan: the latest week recorded for the season (that week
   * is scanned again), never below 1, and 1 whenever the current week is 1.
   */
  function StartWeek(rs: seq<IceLog>, season: string, currentWeek: int): (start: int)
    ensures start >= 1
    ensures currentWeek == 1 ==> start == 1
    ensures currentWeek != 1 ==> forall i :: 0 <= i < |rs| && rs[i].season == season ==> rs[i].weekIncurred <= start
    ensures currentWeek != 1 && start > 1 ==> exists i :: 0 <= i < |rs| && rs[i].season == season && rs[i].weekIncurred == start
  {
    if currentWeek == 1 then 1 else Max(1, LastWeekInDb(rs, season))
  }

  /** Where the scan looks names up: the player directory and the roster map. */
  function Context(up: Upstream, season: string): ScanContext {
    ScanContext(season, up.players, RosterTeams(up.rosters, up.users))
  }

  /** The ledger after the principal scan of a run at `st`. */
  function Scanned(s: Store, up: Upstream, st: NflState): Store {
    Detect(s, ScanRows(up.matchups, Context(up, st.season), StartWeek(s.records, st.season, st.week), st.week))
  }

  /** The ledger after interest reconciliation over the pending principals of the season. */
  function Reconciled(s: Store, st: NflState): Store {
    AccrueAll(s, PendingPrincipals(s.records, st.season), st.week, st.season)
  }

  /** One sync run over ledger `s` with upstream data `up`. */
  function Sync(s: Store, up: Upstream): (o: SyncOutcome)
    ensures up.state.None? ==> o == SyncOutcome(Failure(NflStateError), s)
    ensures up.state.Some? ==> o.result.Success? && o.result.value.currentWeek == up.state.value.week &&
                               o.result.value.currentSeason == up.state.value.season
  {
    match up.state
    case None => SyncOutcome(Failure(NflStateError), s)
    case Some(st) =>
      var detected := Scanned(s, up, st);
      var accrued := Reconciled(detected, st);
      SyncOutcome(
        Success(SyncSummary(|detected.records| - |s.records|, |accrued.records| - |detected.records|,
                            st.week, st.season, StartWeek(s.records, st.season, st.week))),
        accrued)
  }

  // ---------------------------------------------------------------------------
  // Properties of a run

  /** Extending the ledger never moves the start week back. */
  lemma StartWeekMonotone(a: seq<IceLog>, b: seq<IceLog>, season: string, currentWeek: int)
    requires |a| <= |b| && b[..|a|] == a
    ensures StartWeek(a, season, currentWeek) <= StartWeek(b, season, currentWeek)
  {
    var start := StartWeek(a, season, currentWeek);
    if currentWeek != 1 && start > 1 {
      var i :| 0 <= i < |a| && a[i].season == season && a[i].weekIncurred == start;
      assert b[i] == a[i];
    }
  }

  /** The scan only appends PRINCIPAL rows: the old rows are untouched and no INTEREST row is added. */
  lemma ScannedRows(s: Store, up: Upstream, st: NflState)
    ensures var t := Scanned(s, up, st);
      && |s.records| <= |t.records|
      && t.records[..|s.records|] == s.records
      && (WellFormed(s) ==> WellFormed(t))
      && forall k :: |s.records| <= k < |t.records| ==>
           t.records[k].kind == Principal && t.records[k].status == Pending && t.records[k].season == st.season
  {
    var ctx := Context(up, st.season);
    var start := StartWeek(s.records, st.season, st.week);
    var rows := ScanRows(up.matchups, ctx, start, st.week);
    DetectExtends(s, rows);
    ScanRowsShape(up.matchups, ctx, start, st.week);
    var t := Scanned(s, up, st);
    forall k | |s.records| <= k < |t.records|
      ensures t.records[k].kind == Principal && t.records[k].status == Pending && t.records[k].season == st.season
    {
      var j :| 0 <= j < |rows| && t.records[k] == rows[j].(id := t.records[k].id);
      assert rows[j] in rows;
    }
  }

  /** Reconciliation keeps every row it finds and keeps the ledger well formed. */
  lemma ReconciledExtends(s: Store, st: NflState)
    ensures var t := Reconciled(s, st);
      && |s.records| <= |t.records|
      && t.records[..|s.records|] == s.records
      && (WellFormed(s) ==> WellFormed(t))
  {
    AccrueAllRows(s, PendingPrincipals(s.records, st.season), st.week, st.season);
  }

  /**
   * Every row reconciliation appends is a PENDING INTEREST row of the season
   * whose parent is a PRINCIPAL of the season already in the ledger.
   */
  lemma ReconciledRows(s: Store, st: NflState)
    ensures var t := Reconciled(s, st);
      forall k :: |s.records| <= k < |t.records| ==>
        && t.records[k].kind == Interest && t.records[k].status == Pending && t.records[k].season == st.season
        && ParentIn(t.records[k], s.records)
  {
    var ps := PendingPrincipals(s.records, st.season);
    var t := Reconciled(s, st);
    AccrueAllRows(s, ps, st.week, st.season);
    forall k | |s.records| <= k < |t.records| ensures ParentIn(t.records[k], s.records) {
      var j :| 0 <= j < |ps| && t.records[k].parentId == Some(ps[j].id);
      assert ps[j] in ps;
      var i :| 0 <= i < |s.records| && s.records[i] == ps[j];
    }
  }

  /** Reconciliation leaves the principals query as it was. */
  lemma ReconciledPrincipals(s: Store, st: NflState)
    ensures PendingPrincipals(Reconciled(s, st).records, st.season) == PendingPrincipals(s.records, st.season)
  {
    var t := Reconciled(s, st);
    ReconciledExtends(s, st);
    ReconciledRows(s, st);
    var added := t.records[|s.records|..];
    assert t.records == s.records + added;
    forall k | 0 <= k < |added| ensures added[k].kind != Principal {
      assert added[k] == t.records[|s.records| + k];
    }
    PendingPrincipalsAppend(s.records, added, st.season);
  }

  /** The ledger a run leaves, stage by stage. */
  lemma SyncStages(s: Store, up: Upstream)
    requires up.state.Some?
    ensures Sync(s, up).store == Reconciled(Scanned(s, up, up.state.value), up.state.value)
  {
  }

  /** A run whose stages and counts are known: its reply and ledger in terms of them. */
  lemma SyncAt(s: Store, up: Upstream, st: NflState, detected: Store, accrued: Store, newIces: int, interestAdded: int)
    requires up.state == Some(st) && Scanned(s, up, st) == detected && Reconciled(detected, st) == accrued
    requires newIces == |detected.records| - |s.records| && interestAdded == |accrued.records| - |detected.records|
    ensures Sync(s, up).store == accrued
    ensures Sync(s, up).result ==
            Success(SyncSummary(newIces, interestAdded, st.week, st.season, StartWeek(s.records, st.season, st.week)))
  {
  }

  /** What a run reports: the rows each stage added, the NFL state and the start week. */
  lemma SyncReport(s: Store, up: Upstream)
    requires up.state.Some?
    ensures var st := up.state.value;
      var detected := Scanned(s, up, st);
      Sync(s, up).result == Success(SyncSummary(
        |detected.records| - |s.records|, |Reconciled(detected, st).records| - |detected.records|,
        st.week, st.season, StartWeek(s.records, st.season, st.week)))
  {
  }

  /**
   * A run only appends: every row it finds stays as it was (so no status is
   * ever changed), and the rows it adds are PENDING rows of the current season,
   * first `newIces` PRINCIPAL rows, then `interestAdded` INTEREST rows.
   */
  lemma SyncAppendOnly(s: Store, up: Upstream)
    ensures var o := Sync(s, up);
      && |s.records| <= |o.store.records|
      && o.store.records[..|s.records|] == s.records
      && (WellFormed(s) ==> WellFormed(o.store))
      && (o.result.Success? ==>
            var sum := o.result.value;
            && sum.newIces >= 0 && sum.interestAdded >= 0
            && |o.store.records| == |s.records| + sum.newIces + sum.interestAdded
            && (forall k :: |s.records| <= k < |o.store.records| ==>
                  o.store.records[k].status == Pending && o.store.records[k].season == sum.currentSeason)
            && (forall k :: |s.records| <= k < |s.records| + sum.newIces ==> o.store.records[k].kind == Principal)
            && (forall k :: |s.records| + sum.newIces <= k < |o.store.records| ==> o.store.records[k].kind == Interest))
  {
    if up.state.Some? {
      var st := up.state.value;
      var detected := Scanned(s, up, st);
      ScannedRows(s, up, st);
      ReconciledExtends(detected, st);
      ReconciledRows(detected, st);
      SyncStages(s, up);
      SyncReport(s, up);
      var t := Reconciled(detected, st);
      assert t.records[..|detected.records|] == detected.records;
      assert t.records[..|s.records|] == detected.records[..|s.records|];
      forall k | |s.records| <= k < |detected.records| ensures t.records[k] == detected.records[k] {
        assert t.records[..|detected.records|][k] == t.records[k];
      }
    }
  }

  /** A run keeps ids unique and below the store's next id. */
  lemma SyncWellFormed(s: Store, up: Upstream)
    requires WellFormed(s)
    ensures WellFormed(Sync(s, up).store)
  {
    SyncAppendOnly(s, up);
  }

  /** A run never creates a second PRINCIPAL with an existing (roster, week, player name, season). */
  lemma SyncKeepsUniquePrincipals(s: Store, up: Upstream)
    requires UniquePrincipals(s.records)
    ensures UniquePrincipals(Sync(s, up).store.records)
  {
    if up.state.Some? {
      var st := up.state.value;
      var ctx := Context(up, st.season);
      var detected := Scanned(s, up, st);
      DetectKeepsUnique(s, ScanRows(up.matchups, ctx, StartWeek(s.records, st.season, st.week), st.week));
      var t := Reconciled(detected, st);
      ReconciledExtends(detected, st);
      ReconciledRows(detected, st);
      var added := t.records[|detected.records|..];
      assert t.records == detected.records + added;
      forall k | 0 <= k < |added| ensures added[k].kind != Principal {
        assert added[k] == t.records[|detected.records| + k];
      }
      UniquePrincipalsAppend(detected.records, added);
      SyncStages(s, up);
    }
  }

  lemma ScannedKeepsParentsClosed(s: Store, up: Upstream, st: NflState)
    requires ParentsClosed(s.records)
    ensures ParentsClosed(Scanned(s, up, st).records)
  {
    var t := Scanned(s, up, st);
    ScannedRows(s, up, st);
    var added := t.records[|s.records|..];
    assert t.records == s.records + added;
    ParentsClosedAppend(s.records, added);
  }

  lemma ReconciledKeepsParentsClosed(s: Store, st: NflState)
    requires ParentsClosed(s.records)
    ensures ParentsClosed(Reconciled(s, st).records)
  {
    var t := Reconciled(s, st);
    ReconciledExtends(s, st);
    ReconciledRows(s, st);
    var added := t.records[|s.records|..];
    assert t.records == s.records + added;
    forall k | 0 <= k < |added| && added[k].kind == Interest ensures ParentIn(added[k], s.records) {
      assert added[k] == t.records[|s.records| + k];
    }
    ParentsClosedAppend(s.records, added);
  }

  /** A run keeps every INTEREST row pointing at a PRINCIPAL of its season that is in the ledger. */
  lemma SyncKeepsParentsClosed(s: Store, up: Upstream)
    requires ParentsClosed(s.records)
    ensures ParentsClosed(Sync(s, up).store.records)
  {
    if up.state.Some? {
      var st := up.state.value;
      ScannedKeepsParentsClosed(s, up, st);
      ReconciledKeepsParentsClosed(Scanned(s, up, st), st);
      SyncStages(s, up);
    }
  }

  /** Reconciliation brings every pending principal of the season to its target. */
  lemma ReconciledCounts(s: Store, st: NflState)
    requires DistinctIds(s.records)
    ensures var t := Reconciled(s, st);
      forall p :: p in PendingPrincipals(t.records, st.season) ==>
        InterestCount(t.records, p.id) == Max(InterestCount(s.records, p.id), Target(p, st.week))
  {
    var ps := PendingPrincipals(s.records, st.season);
    ReconciledPrincipals(s, st);
    PendingPrincipalsDistinct(s.records, st.season);
    AccrueAllCounts(s, ps, st.week, st.season);
    forall p | p in ps
      ensures InterestCount(Reconciled(s, st).records, p.id) == Max(InterestCount(s.records, p.id), Target(p, st.week))
    {
      var k :| 0 <= k < |ps| && ps[k] == p;
    }
  }

  /** The principal scan adds no INTEREST row, so it changes no interest count. */
  lemma ScannedCounts(s: Store, up: Upstream, st: NflState, parent: nat)
    ensures InterestCount(Scanned(s, up, st).records, parent) == InterestCount(s.records, parent)
  {
    var t := Scanned(s, up, st);
    ScannedRows(s, up, st);
    var added := t.records[|s.records|..];
    assert t.records == s.records + added;
    InterestCountNoInterest(s.records, added, parent);
  }

  /**
   * After a run, every PENDING principal of the season has exactly
   * max(have, currentWeek - weekIncurred - 1) INTEREST rows, where `have` is
   * the number it had before the run (0 for a principal the run created).
   */
  lemma SyncInterestCounts(s: Store, up: Upstream)
    requires WellFormed(s) && up.state.Some?
    ensures var t := Sync(s, up).store;
      forall p :: p in PendingPrincipals(t.records, up.state.value.season) ==>
        InterestCount(t.records, p.id) == Max(InterestCount(s.records, p.id), Target(p, up.state.value.week))
  {
    var st := up.state.value;
    var detected := Scanned(s, up, st);
    ScannedRows(s, up, st);
    ReconciledCounts(detected, st);
    SyncStages(s, up);
    forall p | p in PendingPrincipals(Reconciled(detected, st).records, st.season)
      ensures InterestCount(Reconciled(detected, st).records, p.id) == Max(InterestCount(s.records, p.id), Target(p, st.week))
    {
      ScannedCounts(s, up, st, p.id);
    }
  }

  /** The candidate rows of a run at `st`. */
  function RunRows(s: Store, up: Upstream, st: NflState): seq<IceLog> {
    ScanRows(up.matchups, Context(up, st.season), StartWeek(s.records, st.season, st.week), st.week)
  }

  lemma ScannedCovers(s: Store, up: Upstream, st: NflState)
    ensures var t := Scanned(s, up, st);
      forall r :: r in RunRows(s, up, st) ==> HasPrincipal(t.records, KeyOf(r))
  {
    var rows := RunRows(s, up, st);
    ScanRowsShape(up.matchups, Context(up, st.season), StartWeek(s.records, st.season, st.week), st.week);
    DetectCovers(s, rows);
    forall r | r in rows ensures HasPrincipal(Scanned(s, up, st).records, KeyOf(r)) {
      var j :| 0 <= j < |rows| && rows[j] == r;
    }
  }

  lemma ScannedAdds(s: Store, up: Upstream, st: NflState)
    ensures var rows := RunRows(s, up, st);
      var t := Scanned(s, up, st);
      forall k :: |s.records| <= k < |t.records| ==>
        exists j :: 0 <= j < |rows| && t.records[k] == rows[j].(id := t.records[k].id)
  {
    ScanRowsShape(up.matchups, Context(up, st.season), StartWeek(s.records, st.season, st.week), st.week);
    DetectExtends(s, RunRows(s, up, st));
  }

  /**
   * Every qualifying starter of every week in the scanned window has its
   * PRINCIPAL in the ledger after the run, and every PRINCIPAL the run added is
   * one of those starters' rows.
   */
  lemma SyncPrincipals(s: Store, up: Upstream)
    requires up.state.Some?
    ensures var rows := RunRows(s, up, up.state.value);
      var t := Sync(s, up).store;
      && (forall r :: r in rows ==> HasPrincipal(t.records, KeyOf(r)))
      && (forall k :: |s.records| <= k < |t.records| && t.records[k].kind == Principal ==>
            exists j :: 0 <= j < |rows| && t.records[k] == rows[j].(id := t.records[k].id))
  {
    var st := up.state.value;
    var rows := RunRows(s, up, st);
    var detected := Scanned(s, up, st);
    var t := Reconciled(detected, st);
    SyncStages(s, up);
    ScannedCovers(s, up, st);
    ScannedAdds(s, up, st);
    ReconciledExtends(detected, st);
    forall r | r in rows ensures HasPrincipal(t.records, KeyOf(r)) {
      HasPrincipalExtend(detected.records, t.records, KeyOf(r));
    }
    ReconciledRows(detected, st);
    forall k | |s.records| <= k < |t.records| && t.records[k].kind == Principal
      ensures exists j :: 0 <= j < |rows| && t.records[k] == rows[j].(id := t.records[k].id)
    {
      assert k < |detected.records|;
      assert t.records[k] == t.records[..|detected.records|][k];
    }
  }

  /** A second scan over a ledger the first run produced finds nothing new. */
  lemma RescanNoop(s: Store, up: Upstream)
    requires up.state.Some?
    ensures var t := Sync(s, up).store; Scanned(t, up, up.state.value) == t
  {
    var st := up.state.value;
    var ctx := Context(up, st.season);
    var t := Sync(s, up).store;
    var start1 := StartWeek(s.records, st.season, st.week);
    var start2 := StartWeek(t.records, st.season, st.week);
    var rows1 := RunRows(s, up, st);
    var rows2 := RunRows(t, up, st);
    SyncAppendOnly(s, up);
    StartWeekMonotone(s.records, t.records, st.season, st.week);
    ScanRowsNarrower(up.matchups, ctx, start1, start2, st.week);
    SyncPrincipals(s, up);
    forall j | 0 <= j < |rows2| ensures HasPrincipal(t.records, KeyOf(rows2[j])) {
      assert rows2[j] in rows1;
    }
    DetectNoop(t, rows2);
  }

  /** Every candidate of a run lies at or after every week the ledger holds for the season. */
  lemma ScanSkipsEarlierWeeks(s: Store, up: Upstream, st: NflState, i: nat)
    requires st.week != 1 && i < |s.records| && s.records[i].season == st.season
    ensures forall r :: r in RunRows(s, up, st) ==> r.weekIncurred >= s.records[i].weekIncurred
  {
    ScanRowsShape(up.matchups, Context(up, st.season), StartWeek(s.records, st.season, st.week), st.week);
  }

  /**
   * A week before the latest week the ledger holds for the season is never
   * scanned again after week 1: if its fetch failed on an earlier run, no run
   * adds its principals.
   */
  lemma SkippedWeekStaysMissing(s: Store, up: Upstream, i: nat, v: int)
    requires up.state.Some? && up.state.value.week != 1
    requires i < |s.records| && s.records[i].season == up.state.value.season && v < s.records[i].weekIncurred
    ensures var t := Sync(s, up).store;
      forall k :: |s.records| <= k < |t.records| && t.records[k].kind == Principal ==> t.records[k].weekIncurred != v
  {
    var st := up.state.value;
    var rows := RunRows(s, up, st);
    var t := Sync(s, up).store;
    SyncPrincipals(s, up);
    ScanSkipsEarlierWeeks(s, up, st, i);
    forall k | |s.records| <= k < |t.records| && t.records[k].kind == Principal ensures t.records[k].weekIncurred != v {
      var j :| 0 <= j < |rows| && t.records[k] == rows[j].(id := t.records[k].id);
      assert rows[j] in rows;
    }
  }

  /** A second reconciliation right after the first adds nothing. */
  lemma ReconcileNoop(s: Store, st: NflState)
    requires DistinctIds(s.records)
    ensures var t := Reconciled(s, st); Reconciled(t, st) == t
  {
    var t := Reconciled(s, st);
    var ps := PendingPrincipals(s.records, st.season);
    ReconciledPrincipals(s, st);
    ReconciledCounts(s, st);
    forall k | 0 <= k < |ps| ensures InterestCount(t.records, ps[k].id) >= Target(ps[k], st.week) {
      assert ps[k] in ps;
    }
    AccrueAllNoop(t, ps, st.week, st.season);
  }

  /**
   * Idempotence: a second run with the same upstream data and the same
   * current week inserts nothing and leaves the ledger as the first run left it.
   */
  lemma SyncIdempotent(s: Store, up: Upstream)
    requires WellFormed(s)
    ensures var first := Sync(s, up);
      var second := Sync(first.store, up);
      && second.store == first.store
      && (second.result.Success? ==> second.result.value.newIces == 0 && second.result.value.interestAdded == 0)
  {
    if up.state.Some? {
      var st := up.state.value;
      var s1 := Scanned(s, up, st);
      var t := Sync(s, up).store;
      ScannedRows(s, up, st);
      SyncStages(s, up);
      RescanNoop(s, up);
      ReconcileNoop(s1, st);
      SyncStages(t, up);
      SyncReport(t, up);
    }
  }

  // ---------------------------------------------------------------------------
  // A worked run: season "2025", an empty ledger, current week 3, and roster 10
  // fielding starter "p1" with 0 points in week 1 (weeks 2 and 3 clean).

  function ScenarioMatchup(): Matchup {
    Matchup(10, ["p1"], Some([0.0]))
  }

  function ScenarioUpstream(): Upstream {
    Upstream(Some(NflState(3, "2025")), None, None, Some(map[]), map[1 := [ScenarioMatchup()], 2 := [], 3 := []])
  }

  function ScenarioPrincipal(): IceLog {
    IceLog(0, 10, "Team 10", "Player p1", 1, 0.0, Principal, None, Pending, "2025")
  }

  function ScenarioInterest(): IceLog {
    IceLog(1, 10, "Team 10", "INTEREST PENALTY", 1, 0.0, Interest, Some(0), Pending, "2025")
  }

  /** The week-1 starter yields the scenario's principal row, named after the fallbacks. */
  lemma ScenarioRow()
    ensures PrincipalRow(ScenarioMatchup(), 0, 1, Context(ScenarioUpstream(), "2025")) == ScenarioPrincipal()
  {
    assert IntToString(10) == "10" by {
      assert NatToString(10) == NatToString(1) + [DigitChar(0)];
    }
  }

  /** Weeks 1 to 3 yield that one candidate row. */
  lemma ScenarioRows()
    ensures ScanRows(ScenarioUpstream().matchups, Context(ScenarioUpstream(), "2025"), 1, 3) == [ScenarioPrincipal()]
  {
    var m := ScenarioMatchup();
    var up := ScenarioUpstream();
    var ctx := Context(up, "2025");
    ScenarioRow();
    assert MatchupRows(m, 1, ctx) == [ScenarioPrincipal()] by {
      assert StarterRows(m, 1, ctx, 0) == [];
    }
    assert MatchupsRows([m], 1, ctx) == [ScenarioPrincipal()] by {
      assert [m][..0] == [];
    }
    assert ScanRows(up.matchups, ctx, 1, 1) == [ScenarioPrincipal()];
    assert ScanRows(up.matchups, ctx, 1, 2) == [ScenarioPrincipal()] by {
      assert FetchMatchups(up.matchups, 2) == Some([]);
    }
    assert FetchMatchups(up.matchups, 3) == Some([]);
  }

  /** The scan of the empty ledger from week 1 inserts the principal with id 0. */
  lemma ScenarioScan()
    ensures Scanned(Store([], 0), ScenarioUpstream(), NflState(3, "2025")) == Store([ScenarioPrincipal()], 1)
  {
    var p := ScenarioPrincipal();
    assert StartWeek([], "2025", 3) == 1;
    ScenarioRows();
    assert [p][..0] == [];
    assert Detect(Store([], 0), []) == Store([], 0);
    assert !HasPrincipal([], KeyOf(p));
  }

  /** At week 3 the week-1 principal is one week past its grace period: one INTEREST row. */
  lemma ScenarioReconcile()
    ensures Reconciled(Store([ScenarioPrincipal()], 1), NflState(3, "2025")) ==
            Store([ScenarioPrincipal(), ScenarioInterest()], 2)
  {
    var p := ScenarioPrincipal();
    var s1 := Store([p], 1);
    assert PendingPrincipals(s1.records, "2025") == [p] by {
      assert s1.records[..0] == [];
    }
    assert InterestCount(s1.records, 0) == 0 by {
      assert s1.records[..0] == [];
    }
    assert AccrueOne(s1, p, 3, "2025") == Store([p, ScenarioInterest()], 2);
    assert [p][..0] == [];
    assert AccrueAll(s1, [], 3, "2025") == s1;
  }

  /**
   * The worked run scans from week 1, creates the week-1 PRINCIPAL and, one
   * week past the grace period, one INTEREST row pointing at it.
   */
  lemma WeekThreeScenario(s: Store, up: Upstream)
    requires s == Store([], 0) && up == ScenarioUpstream()
    ensures Sync(s, up).store.records == [ScenarioPrincipal(), ScenarioInterest()]
    ensures Sync(s, up).result.Success?
    ensures Sync(s, up).result.value.newIces == 1 && Sync(s, up).result.value.interestAdded == 1
    ensures Sync(s, up).result.value.startWeek == 1
  {
    var s1 := Store([ScenarioPrincipal()], 1);
    var s2 := Store([ScenarioPrincipal(), ScenarioInterest()], 2);
    ScenarioScan();
    ScenarioReconcile();
    assert StartWeek([], "2025", 3) == 1;
    SyncAt(s, up, NflState(3, "2025"), s1, s2, 1, 1);
  }

  // ---------------------------------------------------------------------------
  // The run as the source performs it

  /** The week loop: detection over weeks `startWeek..currentWeek` inclusive, counting inserts. */
  method ScanWeeks(ledger: Ledger, matchups: map<int, seq<Matchup>>, ctx: ScanContext, startWeek: int, currentWeek: int)
    returns (newIces: nat)
    modifies ledger
    ensures ledger.State() == Detect(old(ledger.State()), ScanRows(matchups, ctx, startWeek, currentWeek))
    ensures |ledger.records| == |old(ledger.records)| + newIces
  {
    ghost var s0 := ledger.State();
    newIces := 0;
    var week := startWeek;
    while week <= currentWeek
      invariant startWeek <= week && (week <= currentWeek + 1 || week == startWeek)
      invariant ledger.State() == Detect(s0, ScanRows(matchups, ctx, startWeek, week - 1))
      invariant |ledger.records| == |s0.records| + newIces
      decreases currentWeek - week
    {
      ghost var done := ScanRows(matchups, ctx, startWeek, week - 1);
      ghost var next := WeekRows(FetchMatchups(matchups, week), week, ctx);
      assert ScanRows(matchups, ctx, startWeek, week) == done + next;
      DetectAppend(s0, done, next);
      var created := DetectWeek(ledger, FetchMatchups(matchups, week), week, ctx);
      newIces := newIces + created;
      week := week + 1;
    }
    assert ScanRows(matchups, ctx, startWeek, week - 1) == ScanRows(matchups, ctx, startWeek, currentWeek);
  }

  /** The interest loop over the principals snapshot, in its order, counting inserts. */
  method ReconcileInterest(ledger: Ledger, principals: seq<IceLog>, currentWeek: int, season: string)
    returns (interestAdded: nat)
    modifies ledger
    ensures ledger.State() == AccrueAll(old(ledger.State()), principals, currentWeek, season)
    ensures |ledger.records| == |old(ledger.records)| + interestAdded
  {
    ghost var s1 := ledger.State();
    interestAdded := 0;
    var k := 0;
    while k < |principals|
      invariant 0 <= k <= |principals|
      invariant ledger.State() == AccrueAll(s1, principals[..k], currentWeek, season)
      invariant |ledger.records| == |s1.records| + interestAdded
    {
      assert principals[..k + 1][..k] == principals[..k];
      ghost var before := ledger.State();
      var added := AccruePrincipal(ledger, principals[k], currentWeek, season);
      AccrueOneSpec(before, principals[k], currentWeek, season);
      interestAdded := interestAdded + added;
      k := k + 1;
    }
    assert principals[..|principals|] == principals;
  }

  /**
   * The preparation of a run: the start week from the ledger's latest week of
   * the season, and the roster map the scan names teams from.
   */
  method PrepareScan(records: seq<IceLog>, up: Upstream, nflState: NflState) returns (startWeek: int, ctx: ScanContext)
    ensures startWeek == StartWeek(records, nflState.season, nflState.week)
    ensures ctx == Context(up, nflState.season)
  {
    var latestEntry := LatestWeek(records, nflState.season);
    var lastWeekInDb := if latestEntry.Some? then latestEntry.value else 0;
    startWeek := Max(1, lastWeekInDb);
    if nflState.week == 1 {
      startWeek := 1;
    }
    var rosterMap := BuildRosterMap(up.rosters, up.users);
    ctx := ScanContext(nflState.season, up.players, rosterMap);
  }

  /**
   * One sync run against `ledger` once the NFL state is known: scans weeks
   * `startWeek..currentWeek`, then reconciles interest, counting the inserts of
   * each kind.
   */
  method RunWithState(ledger: Ledger, up: Upstream, nflState: NflState) returns (res: Result<SyncSummary, string>)
    requires ledger.Valid() && up.state == Some(nflState)
    modifies ledger
    ensures ledger.Valid()
    ensures res == Sync(old(ledger.State()), up).result
    ensures ledger.State() == Sync(old(ledger.State()), up).store
  {
    ghost var s0 := ledger.State();
    var currentWeek := nflState.week;
    var currentSeason := nflState.season;
    var startWeek, ctx := PrepareScan(ledger.records, up, nflState);

    var newIces := ScanWeeks(ledger, up.matchups, ctx, startWeek, currentWeek);
    ghost var s1 := ledger.State();

    var principals := PendingPrincipals(ledger.records, currentSeason);
    var interestAdded := ReconcileInterest(ledger, principals, currentWeek, currentSeason);
    SyncAt(s0, up, nflState, s1, ledger.State(), newIces, interestAdded);
    SyncWellFormed(s0, up);

    res := Success(SyncSummary(newIces, interestAdded, currentWeek, currentSeason, startWeek));
  }

  /**
   * One sync run against `ledger`: fails before touching the ledger when the
   * NFL state is missing, and otherwise runs with the state it read.
   */
  method RunSyncLogic(ledger: Ledger, up: Upstream) returns (res: Result<SyncSummary, string>)
    requires ledger.Valid()
    modifies ledger
    ensures ledger.Valid()
    ensures res == Sync(old(ledger.State()), up).result
    ensures ledger.State() == Sync(old(ledger.State()), up).store
  {
    if up.state.None? {
      return Failure(NflStateError);
    }
    res := RunWithState(ledger, up, up.state.value);
  }
}
