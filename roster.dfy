/**
 * The roster loader: the loop of `load_players` that turns the parsed
 * `players.json` records into the normalised player records the game uses.
 */
module Roster {
  import opened Wrappers
  import opened Text
  import opened Sequences

  /** One parsed JSON object; a field is `None` when its key is absent. */
  datatype RawRecord = RawRecord(
    name: Option<string>,
    league: Option<string>,
    team: Option<string>,
    position: Option<string>,
    nationality: Option<string>)

  /** A normalised player record, as appended to the roster. */
  datatype Player = Player(
    name: string,
    league: string,
    team: string,
    position: string,
    nationality: string)

  const UnknownLeague: string := "Unknown League"
  const UnknownTeam: string := "Unknown Team"

  /** The two defaults are themselves stripped, non-empty strings. */
  lemma DefaultsTrimmed()
    ensures UnknownLeague != [] && IsTrimmed(UnknownLeague)
    ensures UnknownTeam != [] && IsTrimmed(UnknownTeam)
  {
  }

  /**
   * `str(p.get(key, "")).strip()`: the empty string for an absent key, otherwise the value
   * with exactly its leading and trailing whitespace removed.
   */
  function Field(f: Option<string>): (r: string)
    ensures IsTrimmed(r)
    ensures f.None? ==> r == []
    ensures f.Some? ==> exists k :: StrippedAt(f.value, r, k)
  {
    Trim(f.GetOr(""))
  }

  /** `s or default`: Python's `or` picks the default for the empty string. */
  function OrDefault(s: string, default: string): (r: string)
    requires default != [] && IsTrimmed(default)
    ensures r != [] && (IsTrimmed(s) ==> IsTrimmed(r))
    ensures s != [] ==> r == s
  {
    if s == [] then default else s
  }

  /** A raw record is kept when its stripped name is non-empty. */
  predicate Kept(r: RawRecord) {
    Field(r.name) != []
  }

  /** `if not name: continue` drops a record exactly when its name is absent or all whitespace. */
  lemma KeptIffNamed(r: RawRecord)
    ensures Kept(r) <==> r.name.Some? && exists i :: 0 <= i < |r.name.value| && !IsSpace(r.name.value[i])
  {
    if r.name.Some? {
      assert Field(r.name) == Trim(r.name.value);
    }
  }

  /** What the loader promises of every record it returns. */
  predicate WellFormed(p: Player) {
    && p.name != [] && IsTrimmed(p.name)
    && p.league != [] && IsTrimmed(p.league)
    && p.team != [] && IsTrimmed(p.team)
    && IsTrimmed(p.position)
    && IsTrimmed(p.nationality)
  }

  /** Every record of a roster is well formed. */
  predicate AllWellFormed(players: seq<Player>) {
    forall k :: 0 <= k < |players| ==> WellFormed(players[k])
  }

  /** The record appended for one kept raw record. */
  function Normalize(r: RawRecord): (p: Player)
    ensures p.name == Field(r.name)
    ensures p.league == (if Field(r.league) == [] then UnknownLeague else Field(r.league))
    ensures p.team == (if Field(r.team) == [] then UnknownTeam else Field(r.team))
    ensures p.position == Field(r.position) && p.nationality == Field(r.nationality)
  {
    DefaultsTrimmed();
    Player(
      Field(r.name),
      OrDefault(Field(r.league), UnknownLeague),
      OrDefault(Field(r.team), UnknownTeam),
      Field(r.position),
      Field(r.nationality))
  }

  /** A kept raw record normalises to a well-formed player. */
  lemma NormalizeWellFormed(r: RawRecord)
    requires Kept(r)
    ensures WellFormed(Normalize(r))
  {
    var p := Normalize(r);
    assert p.name != [] && IsTrimmed(p.name);
    assert p.league != [] && IsTrimmed(p.league);
    assert p.team != [] && IsTrimmed(p.team);
    assert IsTrimmed(p.position) && IsTrimmed(p.nationality);
  }

  /** The roster the loader builds: the kept records, in input order, each normalised. */
  function Load(data: seq<RawRecord>): seq<Player> {
    MapSeq(Normalize, Filter(Kept, data))
  }

  /** Every loaded record is well formed. */
  lemma LoadWellFormed(data: seq<RawRecord>)
    ensures AllWellFormed(Load(data))
  {
    var kept := Filter(Kept, data);
    forall k | 0 <= k < |Load(data)| ensures WellFormed(Load(data)[k]) {
      assert kept[k] in kept;
      NormalizeWellFormed(kept[k]);
    }
  }

  /** The roster keeps the input order: it is a subsequence of all records, each normalised. */
  lemma LoadInOrder(data: seq<RawRecord>)
    ensures IsSubsequence(Load(data), MapSeq(Normalize, data))
  {
    MapSubsequence(Normalize, Filter(Kept, data), data);
  }

  /** Every roster entry is the normalised form of a raw record with a name. */
  lemma LoadOnlyKept(data: seq<RawRecord>)
    ensures forall p :: p in Load(data) ==> exists r :: r in data && Kept(r) && p == Normalize(r)
  {
    var kept := Filter(Kept, data);
    FilterMultiset(Kept, data);
    forall x | x in kept ensures x in data {
      assert multiset(kept)[x] > 0;
    }
    forall p | p in Load(data) ensures exists r :: r in data && Kept(r) && p == Normalize(r) {
      var k :| 0 <= k < |kept| && Load(data)[k] == p;
      assert kept[k] in kept;
    }
  }

  /** Nothing is deduplicated: a record with a name contributes once for each of its occurrences. */
  lemma LoadKeepsDuplicates(data: seq<RawRecord>, r: RawRecord)
    requires Kept(r)
    ensures multiset(Load(data))[Normalize(r)] >= multiset(data)[r]
  {
    FilterMultiset(Kept, data);
    MapMultiset(Normalize, Filter(Kept, data), r);
  }

  /** A raw record with a name has its normalised record in the roster. */
  lemma LoadContainsKept(data: seq<RawRecord>, r: RawRecord)
    requires r in data && Kept(r)
    ensures Normalize(r) in Load(data)
  {
    var kept := Filter(Kept, data);
    FilterKeeps(Kept, data, r);
    var k :| 0 <= k < |kept| && kept[k] == r;
    assert Load(data)[k] == Normalize(r);
  }

  /** One iteration of the loading loop: a kept record is appended, any other is skipped. */
  lemma LoadSnoc(data: seq<RawRecord>, r: RawRecord)
    ensures Load(data + [r]) == if Kept(r) then Load(data) + [Normalize(r)] else Load(data)
  {
    FilterSnoc(Kept, data, r);
    if Kept(r) {
      MapSeqSnoc(Normalize, Filter(Kept, data), r);
    }
  }

  /** The same step, on a prefix of the input. */
  lemma LoadPrefix(data: seq<RawRecord>, i: nat)
    requires i < |data|
    ensures Load(data[..i + 1]) == if Kept(data[i]) then Load(data[..i]) + [Normalize(data[i])] else Load(data[..i])
  {
    assert data[..i + 1] == data[..i] + [data[i]];
    LoadSnoc(data[..i], data[i]);
  }

  /** The loop of `load_players`: append the normalised record of every raw record with a name. */
  method LoadPlayers(data: seq<RawRecord>) returns (players: seq<Player>)
    ensures players == Load(data)
    ensures AllWellFormed(players)
  {
    players := [];
    var i := 0;
    while i < |data|
      invariant 0 <= i <= |data|
      invariant players == Load(data[..i])
    {
      var p := data[i];
      var name := Field(p.name);
      LoadPrefix(data, i);
      if name != [] {
        players := players + [Normalize(p)];
      }
      i := i + 1;
    }
    assert data[..i] == data;
    LoadWellFormed(data);
  }
}
