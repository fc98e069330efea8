/**
 * The candidate list shown in the player drop-down: the roster narrowed by the chosen
 * league, then by the chosen team, then by a case-insensitive search on the name.
 */
module Candidates {
  import opened Text
  import opened Sequences
  import opened Roster

  /** The drop-down entry that switches a league or team filter off. */
  const All: string := "All"

  /**
   * The search box text as it is compared: `text.strip().lower()`. It is empty, which
   * switches the name search off, exactly when the box holds only whitespace; otherwise
   * it has no whitespace at its ends and no upper-case ASCII letter.
   */
  function SearchKey(raw: string): (r: string)
    ensures r == [] <==> forall i :: 0 <= i < |raw| ==> IsSpace(raw[i])
    ensures IsTrimmed(r) && |r| <= |raw|
    ensures forall i :: 0 <= i < |r| ==> !('A' <= r[i] <= 'Z')
  {
    LowerTrimmed(Trim(raw));
    Lower(Trim(raw))
  }

  /** What the three filtering steps ask of one player. */
  predicate Matches(p: Player, league: string, team: string, key: string) {
    && (league == All || p.league == league)
    && (team == All || p.team == team)
    && (key == [] || IsSubstring(key, Lower(p.name)))
  }

  /** Step one: the whole roster for "All", else the players of the chosen league. */
  function ByLeague(players: seq<Player>, league: string): (r: seq<Player>)
    ensures IsSubsequence(r, players)
    ensures forall p :: multiset(r)[p] == if league == All || p.league == league then multiset(players)[p] else 0
  {
    if league == All then
      SubsequenceRefl(players);
      players
    else
      var inLeague := (p: Player) => p.league == league;
      FilterMultiset(inLeague, players);
      Filter(inLeague, players)
  }

  /** Step two: the list unchanged for "All", else the players of the chosen team. */
  function ByTeam(players: seq<Player>, team: string): (r: seq<Player>)
    ensures IsSubsequence(r, players)
    ensures forall p :: multiset(r)[p] == if team == All || p.team == team then multiset(players)[p] else 0
  {
    if team == All then
      SubsequenceRefl(players);
      players
    else
      var inTeam := (p: Player) => p.team == team;
      FilterMultiset(inTeam, players);
      Filter(inTeam, players)
  }

  /** Step three: for a non-empty key, the players whose lower-cased name contains it. */
  function BySearch(players: seq<Player>, key: string): (r: seq<Player>)
    ensures IsSubsequence(r, players)
    ensures forall p :: multiset(r)[p] == if key == [] || IsSubstring(key, Lower(p.name)) then multiset(players)[p] else 0
  {
    if key == [] then
      SubsequenceRefl(players);
      players
    else
      var found := (p: Player) => IsSubstring(key, Lower(p.name));
      FilterMultiset(found, players);
      Filter(found, players)
  }

  /** The three steps together select the matching players, with their multiplicity. */
  lemma StepsSelectMatches(players: seq<Player>, league: string, team: string, key: string)
    ensures forall p :: multiset(BySearch(ByTeam(ByLeague(players, league), team), key))[p]
                        == if Matches(p, league, team, key) then multiset(players)[p] else 0
    ensures forall p :: p in BySearch(ByTeam(ByLeague(players, league), team), key) ==> Matches(p, league, team, key)
    ensures forall p :: p in players && Matches(p, league, team, key) ==> p in BySearch(ByTeam(ByLeague(players, league), team), key)
  {
    var byLeague := ByLeague(players, league);
    var byTeam := ByTeam(byLeague, team);
    var r := BySearch(byTeam, key);
    forall p ensures multiset(r)[p] == if Matches(p, league, team, key) then multiset(players)[p] else 0 {
      assert multiset(byLeague)[p] == if league == All || p.league == league then multiset(players)[p] else 0;
      assert multiset(byTeam)[p] == if team == All || p.team == team then multiset(byLeague)[p] else 0;
    }
    forall p | p in r ensures Matches(p, league, team, key) {
      assert multiset(r)[p] > 0;
    }
    forall p | p in players && Matches(p, league, team, key) ensures p in r {
      assert multiset(players)[p] > 0;
      assert multiset(r)[p] > 0;
    }
  }

  /**
   * The whole pipeline. The result keeps the roster's order, holds only players that
   * match all three choices, and holds every matching player as often as the roster does.
   */
  function Candidates(players: seq<Player>, league: string, team: string, rawSearch: string): (r: seq<Player>)
    ensures IsSubsequence(r, players)
    ensures forall p :: p in r ==> Matches(p, league, team, SearchKey(rawSearch))
    ensures forall p :: p in players && Matches(p, league, team, SearchKey(rawSearch)) ==> p in r
    ensures forall p :: multiset(r)[p] == if Matches(p, league, team, SearchKey(rawSearch)) then multiset(players)[p] else 0
  {
    var byLeague := ByLeague(players, league);
    var byTeam := ByTeam(byLeague, team);
    var r := BySearch(byTeam, SearchKey(rawSearch));
    SubsequenceTrans(byTeam, byLeague, players);
    SubsequenceTrans(r, byTeam, players);
    StepsSelectMatches(players, league, team, SearchKey(rawSearch));
    r
  }
}
