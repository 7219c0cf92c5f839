/**
 * Principal detection: which starters of which weeks give rise to a PRINCIPAL
 * row, and the duplicate-checked insertion of those rows into the ledger.
 */
module PenaltyDetector {
  import opened Wrappers
  import opened IceLedger
  import opened Sleeper

  /** What one run fixes before scanning: the season, the player directory and the roster map. */
  datatype ScanContext = ScanContext(season: string, players: Option<map<string, PlayerInfo>>, teams: map<int, string>)

  /**
   * `m.starters[index]`; when the starters list is shorter than the points list
   * JavaScript yields `undefined`, which prints and indexes as "undefined".
   */
  function PlayerIdAt(m: Matchup, i: nat): string {
    if i < |m.starters| then m.starters[i] else "undefined"
  }

  /** A starter qualifies when it scored zero or less and is not the empty-slot id "0". */
  predicate Qualifies(score: real, playerId: string) {
    score <= 0.0 && playerId != "0"
  }

  predicate QualifiesAt(m: Matchup, i: nat)
    requires m.startersPoints.Some? && i < |m.startersPoints.value|
  {
    Qualifies(m.startersPoints.value[i], PlayerIdAt(m, i))
  }

  /** The PRINCIPAL row inserted for starter `i` of `m` in `week`. */
  function PrincipalRow(m: Matchup, i: nat, week: int, ctx: ScanContext): IceLog
    requires m.startersPoints.Some? && i < |m.startersPoints.value|
  {
    IceLog(0, m.rosterId, TeamFor(ctx.teams, m.rosterId), PlayerName(ctx.players, PlayerIdAt(m, i)),
           week, m.startersPoints.value[i], Principal, None, Pending, ctx.season)
  }

  /** Candidate rows of the first `n` starters of `m`, in index order. */
  function StarterRows(m: Matchup, week: int, ctx: ScanContext, n: nat): seq<IceLog>
    requires m.startersPoints.Some? && n <= |m.startersPoints.value|
    decreases n
  {
    if n == 0 then []
    else StarterRows(m, week, ctx, n - 1) + (if QualifiesAt(m, n - 1) then [PrincipalRow(m, n - 1, week, ctx)] else [])
  }

  /** Candidate rows of a matchup; none when `starters_points` is missing. */
  function MatchupRows(m: Matchup, week: int, ctx: ScanContext): seq<IceLog> {
    if m.startersPoints.None? then [] else StarterRows(m, week, ctx, |m.startersPoints.value|)
  }

  /** Candidate rows of a list of matchups, in list order. */
  function MatchupsRows(ms: seq<Matchup>, week: int, ctx: ScanContext): seq<IceLog>
    decreases |ms|
  {
    if ms == [] then [] else MatchupsRows(ms[..|ms| - 1], week, ctx) + MatchupRows(ms[|ms| - 1], week, ctx)
  }

  /** Candidate rows of one week's fetch; none when the fetch returned null. */
  function WeekRows(fetched: Option<seq<Matchup>>, week: int, ctx: ScanContext): seq<IceLog> {
    if fetched.None? then [] else MatchupsRows(fetched.value, week, ctx)
  }

  /** Candidate rows of weeks `lo..hi` inclusive, in ascending week order. */
  function ScanRows(matchups: map<int, seq<Matchup>>, ctx: ScanContext, lo: int, hi: int): seq<IceLog>
    decreases hi - lo
  {
    if hi < lo then [] else ScanRows(matchups, ctx, lo, hi - 1) + WeekRows(FetchMatchups(matchups, hi), hi, ctx)
  }

  /** Starter `i` of matchup `j` of week `w` was fetched and qualifies. */
  ghost predicate QualifyingStarter(matchups: map<int, seq<Matchup>>, w: int, j: int, i: int) {
    && w in matchups
    && 0 <= j < |matchups[w]|
    && matchups[w][j].startersPoints.Some?
    && 0 <= i < |matchups[w][j].startersPoints.value|
    && QualifiesAt(matchups[w][j], i)
  }

  // ---------------------------------------------------------------------------
  // Which rows are candidates

  lemma {:induction false} StarterRowsSpec(m: Matchup, week: int, ctx: ScanContext, n: nat, r: IceLog)
    requires m.startersPoints.Some? && n <= |m.startersPoints.value|
    ensures r in StarterRows(m, week, ctx, n) <==> (exists i :: 0 <= i < n && QualifiesAt(m, i) && r == PrincipalRow(m, i, week, ctx))
    decreases n
  {
    if n > 0 {
      StarterRowsSpec(m, week, ctx, n - 1, r);
      var earlier := StarterRows(m, week, ctx, n - 1);
      var tail := if QualifiesAt(m, n - 1) then [PrincipalRow(m, n - 1, week, ctx)] else [];
      assert StarterRows(m, week, ctx, n) == earlier + tail;
      if r in earlier + tail {
        if r in earlier {
          var i :| 0 <= i < n - 1 && QualifiesAt(m, i) && r == PrincipalRow(m, i, week, ctx);
        } else {
          assert QualifiesAt(m, n - 1) && r == PrincipalRow(m, n - 1, week, ctx);
        }
      }
      if exists i :: 0 <= i < n && QualifiesAt(m, i) && r == PrincipalRow(m, i, week, ctx) {
        var i :| 0 <= i < n && QualifiesAt(m, i) && r == PrincipalRow(m, i, week, ctx);
        if i < n - 1 {
          assert r in earlier;
        } else {
          assert r in tail;
        }
      }
    }
  }

  /** `r` is the PRINCIPAL row of some qualifying starter of `m`. */
  ghost predicate RowOfMatchup(m: Matchup, week: int, ctx: ScanContext, r: IceLog) {
    m.startersPoints.Some? &&
    exists i :: 0 <= i < |m.startersPoints.value| && QualifiesAt(m, i) && r == PrincipalRow(m, i, week, ctx)
  }

  /** A matchup's candidates are the rows of its qualifying starters; none without starters_points. */
  lemma MatchupRowsSpec(m: Matchup, week: int, ctx: ScanContext, r: IceLog)
    ensures r in MatchupRows(m, week, ctx) <==> RowOfMatchup(m, week, ctx, r)
  {
    if m.startersPoints.Some? {
      StarterRowsSpec(m, week, ctx, |m.startersPoints.value|, r);
    }
  }

  lemma {:induction false} MatchupsRowsSound(ms: seq<Matchup>, week: int, ctx: ScanContext, r: IceLog)
    requires r in MatchupsRows(ms, week, ctx)
    ensures exists j :: 0 <= j < |ms| && RowOfMatchup(ms[j], week, ctx, r)
    decreases |ms|
  {
    var prefix := ms[..|ms| - 1];
    var last := ms[|ms| - 1];
    assert MatchupsRows(ms, week, ctx) == MatchupsRows(prefix, week, ctx) + MatchupRows(last, week, ctx);
    if r in MatchupsRows(prefix, week, ctx) {
      MatchupsRowsSound(prefix, week, ctx, r);
      var j :| 0 <= j < |prefix| && RowOfMatchup(prefix[j], week, ctx, r);
      assert ms[j] == prefix[j];
    } else {
      MatchupRowsSpec(last, week, ctx, r);
    }
  }

  lemma {:induction false} MatchupsRowsComplete(ms: seq<Matchup>, week: int, ctx: ScanContext, j: int, r: IceLog)
    requires 0 <= j < |ms| && RowOfMatchup(ms[j], week, ctx, r)
    ensures r in MatchupsRows(ms, week, ctx)
    decreases |ms|
  {
    var prefix := ms[..|ms| - 1];
    var last := ms[|ms| - 1];
    assert MatchupsRows(ms, week, ctx) == MatchupsRows(prefix, week, ctx) + MatchupRows(last, week, ctx);
    if j < |prefix| {
      assert prefix[j] == ms[j];
      MatchupsRowsComplete(prefix, week, ctx, j, r);
      assert r in MatchupsRows(prefix, week, ctx);
    } else {
      assert ms[j] == last;
      MatchupRowsSpec(last, week, ctx, r);
      assert r in MatchupRows(last, week, ctx);
    }
  }

  /** A week's candidates are exactly the rows of the qualifying starters of its matchups. */
  lemma MatchupsRowsSpec(ms: seq<Matchup>, week: int, ctx: ScanContext, r: IceLog)
    ensures r in MatchupsRows(ms, week, ctx) <==> (exists j :: 0 <= j < |ms| && RowOfMatchup(ms[j], week, ctx, r))
  {
    if r in MatchupsRows(ms, week, ctx) {
      MatchupsRowsSound(ms, week, ctx, r);
    }
    if exists j :: 0 <= j < |ms| && RowOfMatchup(ms[j], week, ctx, r) {
      var j :| 0 <= j < |ms| && RowOfMatchup(ms[j], week, ctx, r);
      MatchupsRowsComplete(ms, week, ctx, j, r);
    }
  }

  /** `r` is the PRINCIPAL row of some qualifying starter of a matchup fetched for week `w`. */
  ghost predicate RowOfWeek(matchups: map<int, seq<Matchup>>, w: int, ctx: ScanContext, r: IceLog) {
    w in matchups && exists j :: 0 <= j < |matchups[w]| && RowOfMatchup(matchups[w][j], w, ctx, r)
  }

  /** A week's candidates come from its fetched matchups; a week whose fetch failed has none. */
  lemma WeekRowsSpec(matchups: map<int, seq<Matchup>>, w: int, ctx: ScanContext, r: IceLog)
    ensures r in WeekRows(FetchMatchups(matchups, w), w, ctx) <==> RowOfWeek(matchups, w, ctx, r)
  {
    if w in matchups {
      MatchupsRowsSpec(matchups[w], w, ctx, r);
    }
  }

  lemma {:induction false} ScanRowsSound(matchups: map<int, seq<Matchup>>, ctx: ScanContext, lo: int, hi: int, r: IceLog)
    requires r in ScanRows(matchups, ctx, lo, hi)
    ensures exists w :: lo <= w <= hi && RowOfWeek(matchups, w, ctx, r)
    decreases hi - lo
  {
    var earlier := ScanRows(matchups, ctx, lo, hi - 1);
    var latest := WeekRows(FetchMatchups(matchups, hi), hi, ctx);
    assert ScanRows(matchups, ctx, lo, hi) == earlier + latest;
    if r in earlier {
      ScanRowsSound(matchups, ctx, lo, hi - 1, r);
      var w :| lo <= w <= hi - 1 && RowOfWeek(matchups, w, ctx, r);
    } else {
      WeekRowsSpec(matchups, hi, ctx, r);
    }
  }

  lemma {:induction false} ScanRowsComplete(matchups: map<int, seq<Matchup>>, ctx: ScanContext, lo: int, hi: int, w: int, r: IceLog)
    requires lo <= w <= hi && RowOfWeek(matchups, w, ctx, r)
    ensures r in ScanRows(matchups, ctx, lo, hi)
    decreases hi - lo
  {
    var earlier := ScanRows(matchups, ctx, lo, hi - 1);
    var latest := WeekRows(FetchMatchups(matchups, hi), hi, ctx);
    assert ScanRows(matchups, ctx, lo, hi) == earlier + latest;
    if w < hi {
      ScanRowsComplete(matchups, ctx, lo, hi - 1, w, r);
      assert r in earlier;
    } else {
      WeekRowsSpec(matchups, hi, ctx, r);
      assert r in latest;
    }
  }

  /** A row is a candidate of weeks lo..hi exactly when it is a candidate of one of those weeks. */
  lemma ScanRowsWeeks(matchups: map<int, seq<Matchup>>, ctx: ScanContext, lo: int, hi: int, r: IceLog)
    ensures r in ScanRows(matchups, ctx, lo, hi) <==> (exists w :: lo <= w <= hi && RowOfWeek(matchups, w, ctx, r))
  {
    if r in ScanRows(matchups, ctx, lo, hi) {
      ScanRowsSound(matchups, ctx, lo, hi, r);
    }
    if exists w :: lo <= w <= hi && RowOfWeek(matchups, w, ctx, r) {
      var w :| lo <= w <= hi && RowOfWeek(matchups, w, ctx, r);
      ScanRowsComplete(matchups, ctx, lo, hi, w, r);
    }
  }

  /**
   * A row is a candidate of the scan exactly when it is the PRINCIPAL row of a
   * qualifying starter of a fetched matchup with points, in a week of the window.
   */
  lemma ScanRowsSpec(matchups: map<int, seq<Matchup>>, ctx: ScanContext, lo: int, hi: int, r: IceLog)
    ensures r in ScanRows(matchups, ctx, lo, hi) <==>
      (exists w, j, i :: lo <= w <= hi && QualifyingStarter(matchups, w, j, i) && r == PrincipalRow(matchups[w][j], i, w, ctx))
  {
    ScanRowsWeeks(matchups, ctx, lo, hi, r);
    if r in ScanRows(matchups, ctx, lo, hi) {
      var w :| lo <= w <= hi && RowOfWeek(matchups, w, ctx, r);
      var j :| 0 <= j < |matchups[w]| && RowOfMatchup(matchups[w][j], w, ctx, r);
      var i :| 0 <= i < |matchups[w][j].startersPoints.value| && QualifiesAt(matchups[w][j], i) && r == PrincipalRow(matchups[w][j], i, w, ctx);
      assert QualifyingStarter(matchups, w, j, i);
    }
    if exists w, j, i :: lo <= w <= hi && QualifyingStarter(matchups, w, j, i) && r == PrincipalRow(matchups[w][j], i, w, ctx) {
      var w, j, i :| lo <= w <= hi && QualifyingStarter(matchups, w, j, i) && r == PrincipalRow(matchups[w][j], i, w, ctx);
      assert RowOfMatchup(matchups[w][j], w, ctx, r);
      assert RowOfWeek(matchups, w, ctx, r);
      assert exists w' :: lo <= w' <= hi && RowOfWeek(matchups, w', ctx, r);
    }
  }

  /** Every candidate is a PENDING PRINCIPAL without parent, scored at most 0, of a week in the window and of the run's season. */
  lemma ScanRowsShape(matchups: map<int, seq<Matchup>>, ctx: ScanContext, lo: int, hi: int)
    ensures forall r :: r in ScanRows(matchups, ctx, lo, hi) ==>
      && r.kind == Principal && r.status == Pending && r.parentId.None?
      && r.score <= 0.0 && lo <= r.weekIncurred <= hi && r.season == ctx.season
  {
    forall r | r in ScanRows(matchups, ctx, lo, hi)
      ensures r.kind == Principal && r.status == Pending && r.parentId.None?
      ensures r.score <= 0.0 && lo <= r.weekIncurred <= hi && r.season == ctx.season
    {
      ScanRowsSpec(matchups, ctx, lo, hi, r);
    }
  }

  /** Raising the window's first week keeps only candidates the wider window already had. */
  lemma ScanRowsNarrower(matchups: map<int, seq<Matchup>>, ctx: ScanContext, lo: int, lo': int, hi: int)
    requires lo <= lo'
    ensures forall r :: r in ScanRows(matchups, ctx, lo', hi) ==> r in ScanRows(matchups, ctx, lo, hi)
  {
    forall r | r in ScanRows(matchups, ctx, lo', hi) ensures r in ScanRows(matchups, ctx, lo, hi) {
      ScanRowsSpec(matchups, ctx, lo', hi, r);
      ScanRowsSpec(matchups, ctx, lo, hi, r);
    }
  }

  // ---------------------------------------------------------------------------
  // Duplicate-checked insertion

  /** Inserting the candidates in order, each only when no PRINCIPAL with its key exists yet. */
  function Detect(s: Store, rows: seq<IceLog>): Store
    decreases |rows|
  {
    if rows == [] then s
    else
      DetectOne(Detect(s, rows[..|rows| - 1]), rows[|rows| - 1])
  }

  /** The duplicate-checked insert of one candidate row. */
  function DetectOne(s: Store, row: IceLog): Store {
    if HasPrincipal(s.records, KeyOf(row)) then s else Inserted(s, row)
  }

  /** One more candidate: inserted exactly when its key is not yet present. */
  lemma DetectSnoc(s: Store, rows: seq<IceLog>, row: IceLog)
    ensures Detect(s, rows + [row]) == DetectOne(Detect(s, rows), row)
  {
    assert (rows + [row])[..|rows|] == rows;
  }

  /** Detection over the first j + 1 matchups extends detection over the first j by matchup j; a matchup without points adds nothing. */
  lemma DetectMatchupsStep(s: Store, ms: seq<Matchup>, j: nat, week: int, ctx: ScanContext)
    requires j < |ms|
    ensures Detect(s, MatchupsRows(ms[..j + 1], week, ctx)) ==
      if ms[j].startersPoints.Some? then Detect(Detect(s, MatchupsRows(ms[..j], week, ctx)), MatchupRows(ms[j], week, ctx))
      else Detect(s, MatchupsRows(ms[..j], week, ctx))
  {
    assert ms[..j + 1][..j] == ms[..j];
    assert MatchupsRows(ms[..j + 1], week, ctx) == MatchupsRows(ms[..j], week, ctx) + MatchupRows(ms[j], week, ctx);
    DetectAppend(s, MatchupsRows(ms[..j], week, ctx), MatchupRows(ms[j], week, ctx));
  }

  /** Detection over the first index + 1 starters extends detection over the first index by one starter. */
  lemma DetectStarterStep(s: Store, m: Matchup, week: int, ctx: ScanContext, index: nat)
    requires m.startersPoints.Some? && index < |m.startersPoints.value|
    ensures Detect(s, StarterRows(m, week, ctx, index + 1)) ==
      if QualifiesAt(m, index) then DetectOne(Detect(s, StarterRows(m, week, ctx, index)), PrincipalRow(m, index, week, ctx))
      else Detect(s, StarterRows(m, week, ctx, index))
  {
    if QualifiesAt(m, index) {
      DetectSnoc(s, StarterRows(m, week, ctx, index), PrincipalRow(m, index, week, ctx));
    } else {
      assert StarterRows(m, week, ctx, index + 1) == StarterRows(m, week, ctx, index);
    }
  }

  lemma {:induction false} DetectAppend(s: Store, a: seq<IceLog>, b: seq<IceLog>)
    ensures Detect(s, a + b) == Detect(Detect(s, a), b)
    decreases |b|
  {
    if b == [] {
      assert a + b == a;
    } else {
      assert (a + b)[..|a + b| - 1] == a + b[..|b| - 1];
      DetectAppend(s, a, b[..|b| - 1]);
    }
  }

  /**
   * Detection only appends: the old rows stay as they were, and each new row is
   * one of the candidates with a fresh id handed out by the store.
   */
  lemma {:induction false} DetectExtends(s: Store, rows: seq<IceLog>)
    ensures var t := Detect(s, rows);
      && |s.records| <= |t.records| <= |s.records| + |rows|
      && t.records[..|s.records|] == s.records
      && t.nextId == s.nextId + (|t.records| - |s.records|)
      && (WellFormed(s) ==> WellFormed(t))
      && forall k :: |s.records| <= k < |t.records| ==>
           t.records[k].id == s.nextId + (k - |s.records|) &&
           exists j :: 0 <= j < |rows| && t.records[k] == rows[j].(id := t.records[k].id)
    decreases |rows|
  {
    if rows != [] {
      var prefix := rows[..|rows| - 1];
      DetectExtends(s, prefix);
      var prev := Detect(s, prefix);
      forall k | |s.records| <= k < |prev.records|
        ensures exists j :: 0 <= j < |rows| && prev.records[k] == rows[j].(id := prev.records[k].id)
      {
        var j :| 0 <= j < |prefix| && prev.records[k] == prefix[j].(id := prev.records[k].id);
        assert rows[j] == prefix[j];
      }
    }
  }

  /** After detection every PRINCIPAL candidate's key is in the ledger. */
  lemma {:induction false} DetectCovers(s: Store, rows: seq<IceLog>)
    requires forall j :: 0 <= j < |rows| ==> rows[j].kind == Principal
    ensures forall j :: 0 <= j < |rows| ==> HasPrincipal(Detect(s, rows).records, KeyOf(rows[j]))
    decreases |rows|
  {
    if rows != [] {
      var prefix := rows[..|rows| - 1];
      var row := rows[|rows| - 1];
      DetectCovers(s, prefix);
      var prev := Detect(s, prefix);
      var t := Detect(s, rows);
      forall j | 0 <= j < |rows| ensures HasPrincipal(t.records, KeyOf(rows[j])) {
        if j < |prefix| {
          assert rows[j] == prefix[j];
          var i :| 0 <= i < |prev.records| && prev.records[i].kind == Principal && KeyOf(prev.records[i]) == KeyOf(rows[j]);
          assert t.records[i] == prev.records[i];
        } else if !HasPrincipal(prev.records, KeyOf(row)) {
          assert t.records[|prev.records|] == row.(id := prev.nextId);
        }
      }
    }
  }

  /** Detection never creates a second PRINCIPAL with an existing key. */
  lemma {:induction false} DetectKeepsUnique(s: Store, rows: seq<IceLog>)
    requires UniquePrincipals(s.records)
    ensures UniquePrincipals(Detect(s, rows).records)
    decreases |rows|
  {
    if rows != [] {
      var prefix := rows[..|rows| - 1];
      var row := rows[|rows| - 1];
      DetectKeepsUnique(s, prefix);
      var prev := Detect(s, prefix);
      if !HasPrincipal(prev.records, KeyOf(row)) {
        var t := Inserted(prev, row);
        forall i, j | 0 <= i < j < |t.records| && t.records[i].kind == Principal && t.records[j].kind == Principal
          ensures KeyOf(t.records[i]) != KeyOf(t.records[j])
        {
          if j == |prev.records| {
            assert t.records[i] == prev.records[i];
          } else {
            assert t.records[i] == prev.records[i] && t.records[j] == prev.records[j];
          }
        }
      }
    }
  }

  /** When every candidate's key is already present, detection changes nothing. */
  lemma {:induction false} DetectNoop(s: Store, rows: seq<IceLog>)
    requires forall j :: 0 <= j < |rows| ==> HasPrincipal(s.records, KeyOf(rows[j]))
    ensures Detect(s, rows) == s
    decreases |rows|
  {
    if rows != [] {
      var prefix := rows[..|rows| - 1];
      assert forall j :: 0 <= j < |prefix| ==> prefix[j] == rows[j];
      DetectNoop(s, prefix);
    }
  }

  // ---------------------------------------------------------------------------
  // The duplicate check keys on the resolved name

  /**
   * The same starter slot scanned under two contexts that resolve its name
   * differently (say, the player directory failed to load on one run) gets two
   * PRINCIPAL rows: same roster, week, score and season, different names.
   */
  lemma RenamedStarterDuplicates(s: Store, m: Matchup, index: nat, week: int, ctx1: ScanContext, ctx2: ScanContext)
    requires m.startersPoints.Some? && index < |m.startersPoints.value|
    requires ctx1.season == ctx2.season
    requires PlayerName(ctx1.players, PlayerIdAt(m, index)) != PlayerName(ctx2.players, PlayerIdAt(m, index))
    requires !HasPrincipal(s.records, KeyOf(PrincipalRow(m, index, week, ctx1)))
    requires !HasPrincipal(s.records, KeyOf(PrincipalRow(m, index, week, ctx2)))
    ensures var t := DetectOne(DetectOne(s, PrincipalRow(m, index, week, ctx1)), PrincipalRow(m, index, week, ctx2));
      && |t.records| == |s.records| + 2
      && t.records[|s.records|].kind == Principal && t.records[|s.records| + 1].kind == Principal
      && t.records[|s.records|].rosterId == t.records[|s.records| + 1].rosterId == m.rosterId
      && t.records[|s.records|].weekIncurred == t.records[|s.records| + 1].weekIncurred == week
      && t.records[|s.records|].score == t.records[|s.records| + 1].score
      && t.records[|s.records|].season == t.records[|s.records| + 1].season
  {
    var row1 := PrincipalRow(m, index, week, ctx1);
    var row2 := PrincipalRow(m, index, week, ctx2);
    var s1 := DetectOne(s, row1);
    assert s1 == Inserted(s, row1);
    forall i | 0 <= i < |s1.records| && s1.records[i].kind == Principal
      ensures KeyOf(s1.records[i]) != KeyOf(row2)
    {
      if i < |s.records| {
        assert s1.records[i] == s.records[i];
      }
    }
  }

  /**
   * A starter missing from the directory is stored as "Player <id>"; once the
   * directory resolves it, the same slot yields a second PRINCIPAL.
   */
  lemma DirectoryRecoveryDuplicates(s: Store, m: Matchup, ctx1: ScanContext, ctx2: ScanContext)
    requires s == Store([], 0) && m == Matchup(10, ["p1"], Some([0.0]))
    requires ctx1 == ScanContext("2025", None, map[])
    requires ctx2 == ScanContext("2025", Some(map["p1" := PlayerInfo("Pat", "Mahomes")]), map[])
    ensures var t := DetectOne(DetectOne(s, PrincipalRow(m, 0, 1, ctx1)), PrincipalRow(m, 0, 1, ctx2));
      && |t.records| == 2
      && t.records[0].playerName == "Player p1" && t.records[1].playerName == "Pat Mahomes"
      && t.records[0].rosterId == t.records[1].rosterId == 10
  {
    assert PlayerName(ctx1.players, "p1") == "Player p1";
    assert PlayerName(ctx2.players, "p1") == "Pat Mahomes";
    assert "Player p1"[1] != "Pat Mahomes"[1];
    RenamedStarterDuplicates(s, m, 0, 1, ctx1, ctx2);
  }

  // ---------------------------------------------------------------------------
  // The detector as the source runs it

  /**
   * One starter of a matchup: when it scored zero or less and is not the
   * empty slot, resolve its name and insert its PRINCIPAL unless one with the
   * same key exists; returns the number of rows inserted.
   */
  method DetectStarter(ledger: Ledger, m: Matchup, index: nat, week: int, ctx: ScanContext) returns (created: nat)
    requires m.startersPoints.Some? && index < |m.startersPoints.value|
    modifies ledger
    ensures ledger.State() ==
      if QualifiesAt(m, index) then DetectOne(old(ledger.State()), PrincipalRow(m, index, week, ctx)) else old(ledger.State())
    ensures |ledger.records| == |old(ledger.records)| + created
  {
    created := 0;
    var score := m.startersPoints.value[index];
    if score <= 0.0 {
      var playerId := PlayerIdAt(m, index);
      if playerId != "0" {
        var realPlayerName := PlayerName(ctx.players, playerId);
        var existing := HasPrincipal(ledger.records, (m.rosterId, week, realPlayerName, ctx.season));
        if !existing {
          ledger.Insert(IceLog(0, m.rosterId, TeamFor(ctx.teams, m.rosterId), realPlayerName, week, score,
                               Principal, None, Pending, ctx.season));
          created := 1;
        }
      }
    }
  }

  /** Scans the starters of one matchup with points; returns how many principals it inserted. */
  method DetectMatchup(ledger: Ledger, m: Matchup, week: int, ctx: ScanContext) returns (created: nat)
    requires m.startersPoints.Some?
    modifies ledger
    ensures ledger.State() == Detect(old(ledger.State()), MatchupRows(m, week, ctx))
    ensures |ledger.records| == |old(ledger.records)| + created
  {
    ghost var s0 := ledger.State();
    created := 0;
    var index := 0;
    while index < |m.startersPoints.value|
      invariant 0 <= index <= |m.startersPoints.value|
      invariant ledger.State() == Detect(s0, StarterRows(m, week, ctx, index))
      invariant |ledger.records| == |s0.records| + created
    {
      DetectStarterStep(s0, m, week, ctx, index);
      var n := DetectStarter(ledger, m, index, week, ctx);
      created := created + n;
      index := index + 1;
    }
  }

  /** One round of the matchup loop: scan matchup j, or skip it when it carries no points. */
  method DetectNext(ledger: Ledger, ms: seq<Matchup>, j: nat, week: int, ctx: ScanContext, ghost s0: Store) returns (created: nat)
    requires j < |ms|
    requires ledger.State() == Detect(s0, MatchupsRows(ms[..j], week, ctx))
    modifies ledger
    ensures ledger.State() == Detect(s0, MatchupsRows(ms[..j + 1], week, ctx))
    ensures |ledger.records| == |old(ledger.records)| + created
  {
    DetectMatchupsStep(s0, ms, j, week, ctx);
    created := 0;
    if ms[j].startersPoints.Some? {
      created := DetectMatchup(ledger, ms[j], week, ctx);
    }
  }

  /**
   * Scans one week's fetched matchups, skipping a null fetch and matchups
   * without `starters_points`; returns how many principals it inserted.
   */
  method DetectWeek(ledger: Ledger, fetched: Option<seq<Matchup>>, week: int, ctx: ScanContext) returns (created: nat)
    modifies ledger
    ensures ledger.State() == Detect(old(ledger.State()), WeekRows(fetched, week, ctx))
    ensures |ledger.records| == |old(ledger.records)| + created
  {
    created := 0;
    if fetched.None? {
      return;
    }
    ghost var s0 := ledger.State();
    var ms := fetched.value;
    var j := 0;
    while j < |ms|
      invariant 0 <= j <= |ms|
      invariant ledger.State() == Detect(s0, MatchupsRows(ms[..j], week, ctx))
      invariant |ledger.records| == |s0.records| + created
    {
      var n := DetectNext(ledger, ms, j, week, ctx, s0);
      created := created + n;
      j := j + 1;
    }
    assert ms[..|ms|] == ms;
  }
}
