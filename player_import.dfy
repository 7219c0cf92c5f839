/**
 * The player-directory importer: project each upstream player object onto the
 * five columns of the players table, keep the skill positions, and upsert the
 * result in chunks of 500, stopping at the first chunk the store rejects.
 */
module PlayerImport {
  import opened Wrappers

  /**
   * One value of the upstream directory object, reduced to the fields the
   * importer reads; a field the object lacks is `None`.
   */
  datatype RawPlayer = RawPlayer(
    playerId: Option<string>,
    firstName: Option<string>,
    lastName: Option<string>,
    position: Option<string>,
    team: Option<string>)

  /** A row of the players table as sent to the store. */
  datatype PlayerRow = PlayerRow(
    id: Option<string>,
    firstName: Option<string>,
    lastName: Option<string>,
    position: Option<string>,
    team: Option<string>)

  /** The reply of the import route. */
  datatype Response = Ok(count: nat) | ServerError(status: nat, message: string)

  const ActivePositions: seq<string> := ["QB", "RB", "WR", "TE", "K", "DEF"]
  const ChunkSize: nat := 500

  // ---------------------------------------------------------------------------
  // Projection and filter

  function Project(p: RawPlayer): PlayerRow {
    PlayerRow(p.playerId, p.firstName, p.lastName, p.position, p.team)
  }

  /** The projection of every directory value, in the order the values are given. */
  function ProjectAll(raw: seq<RawPlayer>): (rows: seq<PlayerRow>)
    ensures |rows| == |raw|
    ensures forall i :: 0 <= i < |raw| ==>
      && rows[i].id == raw[i].playerId
      && rows[i].firstName == raw[i].firstName && rows[i].lastName == raw[i].lastName
      && rows[i].position == raw[i].position && rows[i].team == raw[i].team
  {
    seq(|raw|, i requires 0 <= i < |raw| => Project(raw[i]))
  }

  /** A row is kept when its position is present, non-empty and one of the skill positions. */
  predicate IsActive(row: PlayerRow) {
    row.position.Some? && row.position.value != "" && row.position.value in ActivePositions
  }

  /** The kept rows, in their original order. */
  function FilterActive(rows: seq<PlayerRow>): (active: seq<PlayerRow>)
    ensures |active| <= |rows|
    ensures forall r :: r in active ==> IsActive(r)
    decreases |rows|
  {
    if rows == [] then []
    else FilterActive(rows[..|rows| - 1]) + (if IsActive(rows[|rows| - 1]) then [rows[|rows| - 1]] else [])
  }

  /** The filter drops exactly the inactive rows: every active row keeps all its occurrences. */
  lemma {:induction false} FilterActiveKeeps(rows: seq<PlayerRow>)
    ensures forall r :: multiset(FilterActive(rows))[r] == if IsActive(r) then multiset(rows)[r] else 0
    decreases |rows|
  {
    if rows != [] {
      var prefix := rows[..|rows| - 1];
      var last := rows[|rows| - 1];
      assert rows == prefix + [last];
      FilterActiveKeeps(prefix);
    }
  }

  /** The filter distributes over concatenation, so it keeps the relative order of rows. */
  lemma {:induction false} FilterActiveAppend(a: seq<PlayerRow>, b: seq<PlayerRow>)
    ensures FilterActive(a + b) == FilterActive(a) + FilterActive(b)
    decreases |b|
  {
    if b != [] {
      var prefix := b[..|b| - 1];
      var last := b[|b| - 1];
      var tail := if IsActive(last) then [last] else [];
      assert (a + b)[..|a + b| - 1] == a + prefix;
      assert (a + b)[|a + b| - 1] == last;
      assert FilterActive(a + b) == FilterActive(a + prefix) + tail;
      FilterActiveAppend(a, prefix);
      assert FilterActive(b) == FilterActive(prefix) + tail;
      assert (FilterActive(a) + FilterActive(prefix)) + tail == FilterActive(a) + (FilterActive(prefix) + tail);
    } else {
      assert a + b == a;
    }
  }

  // ---------------------------------------------------------------------------
  // Chunks

  function Min(a: int, b: int): int {
    if a <= b then a else b
  }

  /** `slice(i, i + 500)`: at most 500 rows starting at `i`. */
  function Slice<T>(xs: seq<T>, i: nat): (chunk: seq<T>)
    requires i <= |xs|
    ensures |chunk| == Min(ChunkSize, |xs| - i)
    ensures forall k :: 0 <= k < |chunk| ==> chunk[k] == xs[i + k]
  {
    xs[i..Min(i + ChunkSize, |xs|)]
  }

  /** The number of loop rounds: one per started block of 500 rows. */
  function ChunkCount(n: nat): nat {
    (n + ChunkSize - 1) / ChunkSize
  }

  /** The chunks the loop slices, the k-th starting at row 500 * k. */
  function Chunks<T>(xs: seq<T>): seq<seq<T>> {
    seq(ChunkCount(|xs|), k requires 0 <= k < ChunkCount(|xs|) => Slice(xs, ChunkSize * k))
  }

  function Flatten<T>(ss: seq<seq<T>>): (xs: seq<T>)
    decreases |ss|
  {
    if ss == [] then [] else Flatten(ss[..|ss| - 1]) + ss[|ss| - 1]
  }

  /** Chunk k starts inside the rows; this is what makes `Chunks` well defined. */
  lemma ChunkStart(n: nat, k: nat)
    requires k < ChunkCount(n)
    ensures ChunkSize * k < n
  {
  }

  /** The first k chunks cover exactly the first min(500 k, n) rows. */
  lemma {:induction false} FlattenChunksPrefix<T>(xs: seq<T>, k: nat)
    requires k <= ChunkCount(|xs|)
    ensures Flatten(Chunks(xs)[..k]) == xs[..Min(ChunkSize * k, |xs|)]
    decreases k
  {
    if k > 0 {
      var cs := Chunks(xs);
      assert cs[..k][..k - 1] == cs[..k - 1];
      FlattenChunksPrefix(xs, k - 1);
      ChunkStart(|xs|, k - 1);
      var lo := ChunkSize * (k - 1);
      assert cs[k - 1] == xs[lo..Min(lo + ChunkSize, |xs|)];
      assert xs[..lo] + xs[lo..Min(lo + ChunkSize, |xs|)] == xs[..Min(ChunkSize * k, |xs|)];
    }
  }

  /**
   * The chunks partition the rows: they concatenate back to the rows, none is
   * empty or longer than 500, and every chunk but the last holds exactly 500.
   */
  lemma ChunksPartition<T>(xs: seq<T>)
    ensures Flatten(Chunks(xs)) == xs
    ensures forall k :: 0 <= k < |Chunks(xs)| ==> 1 <= |Chunks(xs)[k]| <= ChunkSize
    ensures forall k :: 0 <= k < |Chunks(xs)| - 1 ==> |Chunks(xs)[k]| == ChunkSize
  {
    var cs := Chunks(xs);
    FlattenChunksPrefix(xs, |cs|);
    assert cs[..|cs|] == cs;
    forall k | 0 <= k < |cs| ensures 1 <= |cs[k]| <= ChunkSize {
      ChunkStart(|xs|, k);
    }
  }

  // ---------------------------------------------------------------------------
  // The import as the route runs it

  /** The rows the importer sends, before chunking. */
  function ActiveRows(raw: seq<RawPlayer>): seq<PlayerRow> {
    FilterActive(ProjectAll(raw))
  }

  /**
   * The import route. `upsertErrors` holds the store's error message for each
   * upsert call (numbered from 0) that fails. Returns the chunks sent, in order,
   * and the reply: a 500 with the message of the first failed upsert, after
   * which nothing more is sent, or the number of rows kept.
   */
  method ImportPlayers(raw: seq<RawPlayer>, upsertErrors: map<nat, string>)
    returns (sent: seq<seq<PlayerRow>>, response: Response)
    ensures var chunks := Chunks(ActiveRows(raw));
      && |sent| <= |chunks| && sent == chunks[..|sent|]
      && (response.Ok? <==> forall k :: 0 <= k < |chunks| ==> k !in upsertErrors)
      && (response.Ok? ==> sent == chunks && response.count == |ActiveRows(raw)|)
      && (response.ServerError? ==>
            && response.status == 500
            && |sent| > 0 && |sent| - 1 in upsertErrors
            && response.message == upsertErrors[|sent| - 1]
            && forall k :: 0 <= k < |sent| - 1 ==> k !in upsertErrors)
  {
    var playersArray := ProjectAll(raw);
    var activePlayers := FilterActive(playersArray);
    ghost var chunks := Chunks(activePlayers);
    sent := [];
    var i := 0;
    while i < |activePlayers|
      invariant i == ChunkSize * |sent|
      invariant |sent| <= |chunks| && sent == chunks[..|sent|]
      invariant i < |activePlayers| ==> |sent| < |chunks|
      invariant i >= |activePlayers| ==> |sent| == |chunks|
      invariant forall k :: 0 <= k < |sent| ==> k !in upsertErrors
      decreases |activePlayers| - i
    {
      var chunk := activePlayers[i..Min(i + ChunkSize, |activePlayers|)];
      assert chunk == chunks[|sent|];
      sent := sent + [chunk];
      if |sent| - 1 in upsertErrors {
        return sent, ServerError(500, upsertErrors[|sent| - 1]);
      }
      i := i + ChunkSize;
    }
    assert sent == chunks;
    response := Ok(|activePlayers|);
  }
}
