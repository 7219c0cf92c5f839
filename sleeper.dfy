/**
 * The data the sync engine reads from the Sleeper API, taken as given inputs
 * (a failed fetch is `None`), and the display-name resolution built on it.
 */
module Sleeper {
  import opened Wrappers

  /** The current NFL week and season (`/state/nfl`). */
  datatype NflState = NflState(week: int, season: string)

  /** A league user; `teamName` is `metadata.team_name`. */
  datatype User = User(userId: string, displayName: Option<string>, teamName: Option<string>)

  datatype Roster = Roster(rosterId: int, ownerId: Option<string>)

  /** An entry of the player directory (`/players/nfl`), as the sync engine reads it. */
  datatype PlayerInfo = PlayerInfo(firstName: string, lastName: string)

  /** One roster's lineup for a week; `startersPoints` is None when the field is missing. */
  datatype Matchup = Matchup(rosterId: int, starters: seq<string>, startersPoints: Option<seq<real>>)

  /**
   * Everything one sync run fetches. A week absent from `matchups` is a week
   * whose matchup fetch returned null.
   */
  datatype Upstream = Upstream(
    state: Option<NflState>,
    users: Option<seq<User>>,
    rosters: Option<seq<Roster>>,
    players: Option<map<string, PlayerInfo>>,
    matchups: map<int, seq<Matchup>>)

  function FetchMatchups(matchups: map<int, seq<Matchup>>, week: int): Option<seq<Matchup>> {
    if week in matchups then Some(matchups[week]) else None
  }

  function DigitChar(d: nat): char
    requires d < 10
  {
    "0123456789"[d]
  }

  function NatToString(n: nat): (s: string)
    ensures |s| >= 1
    decreases n
  {
    if n < 10 then [DigitChar(n)] else NatToString(n / 10) + [DigitChar(n % 10)]
  }

  /** JavaScript's rendering of an integral number inside a template string. */
  function IntToString(i: int): string {
    if i < 0 then "-" + NatToString(-i) else NatToString(i)
  }

  /** JavaScript truthiness of an optional string: present and not empty. */
  predicate Truthy(s: Option<string>) {
    s.Some? && s.value != ""
  }

  /** `users.find(u => u.user_id === ownerId)`: the first user with that id. */
  function FindUser(users: seq<User>, ownerId: Option<string>): (u: Option<User>)
    ensures u.None? <==> forall i :: 0 <= i < |users| ==> Some(users[i].userId) != ownerId
    ensures u.Some? ==> exists i :: 0 <= i < |users| && users[i] == u.value && Some(users[i].userId) == ownerId &&
                          forall j :: 0 <= j < i ==> Some(users[j].userId) != ownerId
    decreases |users|
  {
    if users == [] then None
    else if Some(users[0].userId) == ownerId then Some(users[0])
    else
      var u := FindUser(users[1..], ownerId);
      assert forall i :: 0 <= i < |users| - 1 ==> users[1..][i] == users[i + 1];
      u
  }

  function FallbackTeamName(rosterId: int): string {
    "Team " + IntToString(rosterId)
  }

  /**
   * The team name of a roster: the owner's `metadata.team_name`, else the
   * owner's `display_name`, else "Team <roster id>" (empty strings fall through).
   */
  function TeamNameOf(r: Roster, users: seq<User>): (name: string)
    ensures name != ""
  {
    var u := FindUser(users, r.ownerId);
    if u.Some? && Truthy(u.value.teamName) then u.value.teamName.value
    else if u.Some? && Truthy(u.value.displayName) then u.value.displayName.value
    else FallbackTeamName(r.rosterId)
  }

  /** The roster map filled by `rosters.forEach`: a later roster with the same id overwrites an earlier one. */
  function TeamsFrom(rosters: seq<Roster>, users: seq<User>): (m: map<int, string>)
    ensures forall k :: k in m <==> exists i :: 0 <= i < |rosters| && rosters[i].rosterId == k
    decreases |rosters|
  {
    if rosters == [] then map[]
    else
      var prefix := rosters[..|rosters| - 1];
      var last := rosters[|rosters| - 1];
      assert forall i :: 0 <= i < |prefix| ==> prefix[i] == rosters[i];
      TeamsFrom(prefix, users)[last.rosterId := TeamNameOf(last, users)]
  }

  /** Each roster id is mapped to the name its last roster in the list resolves to. */
  lemma {:induction false} TeamsFromLastWins(rosters: seq<Roster>, users: seq<User>, i: int)
    requires 0 <= i < |rosters| && IsLastRoster(rosters, i)
    ensures rosters[i].rosterId in TeamsFrom(rosters, users)
    ensures TeamsFrom(rosters, users)[rosters[i].rosterId] == TeamNameOf(rosters[i], users)
    decreases |rosters|
  {
    var prefix := rosters[..|rosters| - 1];
    if i < |rosters| - 1 {
      assert prefix[i] == rosters[i];
      assert IsLastRoster(prefix, i) by {
        forall j | i < j < |prefix| ensures prefix[j].rosterId != prefix[i].rosterId {
          assert prefix[j] == rosters[j];
        }
      }
      TeamsFromLastWins(prefix, users, i);
    }
  }

  /** No later roster in the list has the same roster id. */
  ghost predicate IsLastRoster(rosters: seq<Roster>, i: int)
    requires 0 <= i < |rosters|
  {
    forall j :: i < j < |rosters| ==> rosters[j].rosterId != rosters[i].rosterId
  }

  /** The roster map, empty when either the rosters or the users fetch failed. */
  function RosterTeams(rosters: Option<seq<Roster>>, users: Option<seq<User>>): map<int, string> {
    if rosters.Some? && users.Some? then TeamsFrom(rosters.value, users.value) else map[]
  }

  /** The map over the first i + 1 rosters is the map over the first i with roster i's entry set. */
  lemma TeamsFromSnoc(rs: seq<Roster>, i: nat, users: seq<User>)
    requires i < |rs|
    ensures TeamsFrom(rs[..i + 1], users) == TeamsFrom(rs[..i], users)[rs[i].rosterId := TeamNameOf(rs[i], users)]
  {
    assert rs[..i + 1][..i] == rs[..i];
  }

  /** Builds the roster map the way the source does, one roster at a time. */
  method BuildRosterMap(rosters: Option<seq<Roster>>, users: Option<seq<User>>) returns (m: map<int, string>)
    ensures m == RosterTeams(rosters, users)
  {
    m := map[];
    if rosters.Some? && users.Some? {
      var rs := rosters.value;
      var i := 0;
      while i < |rs|
        invariant 0 <= i <= |rs|
        invariant m == TeamsFrom(rs[..i], users.value)
      {
        TeamsFromSnoc(rs, i, users.value);
        m := m[rs[i].rosterId := TeamNameOf(rs[i], users.value)];
        i := i + 1;
      }
      assert rs[..|rs|] == rs;
    }
  }

  /** The team name written on a principal: `rosterMap[rosterId] || "Team <rosterId>"`. */
  function TeamFor(teams: map<int, string>, rosterId: int): string {
    if rosterId in teams && teams[rosterId] != "" then teams[rosterId] else FallbackTeamName(rosterId)
  }

  /**
   * The team name on a principal is the name the last roster with that id
   * resolves to, and "Team <roster id>" when no roster has that id or a fetch failed.
   */
  lemma TeamForResolves(rosters: Option<seq<Roster>>, users: Option<seq<User>>, rosterId: int)
    ensures var name := TeamFor(RosterTeams(rosters, users), rosterId);
      && name != ""
      && ((rosters.None? || users.None? || forall i :: 0 <= i < |rosters.value| ==> rosters.value[i].rosterId != rosterId)
          ==> name == FallbackTeamName(rosterId))
      && (forall i :: (rosters.Some? && users.Some? && 0 <= i < |rosters.value| && rosters.value[i].rosterId == rosterId &&
                       IsLastRoster(rosters.value, i)) ==> name == TeamNameOf(rosters.value[i], users.value))
  {
    if rosters.Some? && users.Some? {
      forall i | 0 <= i < |rosters.value| && rosters.value[i].rosterId == rosterId && IsLastRoster(rosters.value, i) {
        TeamsFromLastWins(rosters.value, users.value, i);
      }
    }
  }

  /** The display name of a starter: "<first> <last>" from the directory, else "Player <id>". */
  function PlayerName(players: Option<map<string, PlayerInfo>>, playerId: string): string {
    if players.Some? && playerId in players.value then
      var p := players.value[playerId];
      p.firstName + " " + p.lastName
    else
      "Player " + playerId
  }

  /**
   * Two starters missing from the directory get the same placeholder name only
   * when they have the same id, so the duplicate check still tells them apart.
   */
  lemma PlaceholderNamesDistinct(players: Option<map<string, PlayerInfo>>, a: string, b: string)
    requires players.None? || (a !in players.value && b !in players.value)
    ensures PlayerName(players, a) == PlayerName(players, b) <==> a == b
  {
    if PlayerName(players, a) == PlayerName(players, b) {
      assert a == PlayerName(players, a)[7..];
      assert b == PlayerName(players, b)[7..];
    }
  }
}
