/**
 * `compute_similarity`: the closeness score (0-100) of a guessed player to the secret one.
 * 100 is returned exactly for a case-insensitive name match; any other guess scores a
 * baseline of 10 plus fixed bonuses for shared attributes and shared name characters.
 */
module Similarity {
  import opened Text
  import opened Roster

  const Baseline: int := 10
  const LeagueBonus: int := 25
  const TeamBonus: int := 30
  const PositionBonus: int := 10
  const NationalityBonus: int := 8
  const NameBonusCap: int := 15

  /** The two names are the same after lower-casing (they are not stripped again). */
  predicate SameName(secret: Player, guess: Player) {
    Lower(secret.name) == Lower(guess.name)
  }

  /** The number of distinct characters the two lower-cased names have in common. */
  function NameOverlap(secret: Player, guess: Player): (n: nat)
    ensures n <= |Chars(Lower(secret.name))| && n <= |Chars(Lower(guess.name))|
  {
    var both := Chars(Lower(secret.name)) * Chars(Lower(guess.name));
    assert both <= Chars(Lower(secret.name)) && both <= Chars(Lower(guess.name));
    SubsetCard(both, Chars(Lower(secret.name)));
    SubsetCard(both, Chars(Lower(guess.name)));
    |both|
  }

  lemma SubsetCard(a: set<char>, b: set<char>)
    requires a <= b
    ensures |a| <= |b|
  {
    assert b == a + (b - a);
  }

  function Min(a: int, b: int): int { if a <= b then a else b }
  function Max(a: int, b: int): int { if a >= b then a else b }

  /** The score of `guess` against `secret`, with the weights of this version of the game. */
  function ComputeSimilarity(secret: Player, guess: Player): (r: int)
    ensures r == 100 <==> SameName(secret, guess)
    ensures !SameName(secret, guess) ==> Baseline <= r <= 98
  {
    if SameName(secret, guess) then 100
    else
      var s0 := Baseline;
      var s1 := if secret.league == guess.league then s0 + LeagueBonus else s0;
      var s2 := if secret.team == guess.team then s1 + TeamBonus else s1;
      var s3 := if secret.position != [] && secret.position == guess.position then s2 + PositionBonus else s2;
      var s4 := if secret.nationality != [] && secret.nationality == guess.nationality then s3 + NationalityBonus else s3;
      var s5 := s4 + Min(NameBonusCap, NameOverlap(secret, guess));
      Max(0, Min(99, s5))
  }

  /** Swapping the secret and the guess does not change the score. */
  lemma SimilaritySymmetric(a: Player, b: Player)
    ensures ComputeSimilarity(a, b) == ComputeSimilarity(b, a)
  {
    assert Chars(Lower(a.name)) * Chars(Lower(b.name)) == Chars(Lower(b.name)) * Chars(Lower(a.name));
  }

  /** Every player scores 100 against itself. */
  lemma SimilarityReflexive(p: Player)
    ensures ComputeSimilarity(p, p) == 100
  {
  }

  /**
   * A guess that earns no attribute bonus (different league and team, and a position and
   * nationality that differ from the secret's or that the secret leaves blank) scores the
   * baseline plus the capped name overlap.
   */
  lemma NoSharedAttributes(secret: Player, guess: Player)
    requires !SameName(secret, guess)
    requires secret.league != guess.league && secret.team != guess.team
    requires secret.position == [] || secret.position != guess.position
    requires secret.nationality == [] || secret.nationality != guess.nationality
    ensures ComputeSimilarity(secret, guess) == Baseline + Min(NameBonusCap, NameOverlap(secret, guess))
  {
  }

  /** With nothing in common, not even a character of the names, the score is exactly the baseline. */
  lemma NothingShared(secret: Player, guess: Player)
    requires secret.name != []
    requires secret.league != guess.league && secret.team != guess.team
    requires secret.position == [] || secret.position != guess.position
    requires secret.nationality == [] || secret.nationality != guess.nationality
    requires forall c :: c in Lower(secret.name) ==> c !in Lower(guess.name)
    ensures ComputeSimilarity(secret, guess) == Baseline
  {
    var both := Chars(Lower(secret.name)) * Chars(Lower(guess.name));
    assert both == {};
    assert Lower(secret.name)[0] in Lower(secret.name);
    assert Lower(secret.name)[0] !in Lower(guess.name);
  }

  /** Matching the secret's league raises a non-exact score by exactly the league bonus. */
  lemma LeagueMatchAdds(secret: Player, guess: Player)
    requires !SameName(secret, guess) && secret.league != guess.league
    ensures ComputeSimilarity(secret, guess.(league := secret.league)) == ComputeSimilarity(secret, guess) + LeagueBonus
  {
  }

  /** Matching the secret's team raises a non-exact score by exactly the team bonus, whatever the league. */
  lemma TeamMatchAdds(secret: Player, guess: Player)
    requires !SameName(secret, guess) && secret.team != guess.team
    ensures ComputeSimilarity(secret, guess.(team := secret.team)) == ComputeSimilarity(secret, guess) + TeamBonus
  {
  }

  /** Matching a non-empty position of the secret adds exactly the position bonus. */
  lemma PositionMatchAdds(secret: Player, guess: Player)
    requires !SameName(secret, guess) && secret.position != [] && secret.position != guess.position
    ensures ComputeSimilarity(secret, guess.(position := secret.position)) == ComputeSimilarity(secret, guess) + PositionBonus
  {
  }

  /** Matching a non-empty nationality of the secret adds exactly the nationality bonus. */
  lemma NationalityMatchAdds(secret: Player, guess: Player)
    requires !SameName(secret, guess) && secret.nationality != [] && secret.nationality != guess.nationality
    ensures ComputeSimilarity(secret, guess.(nationality := secret.nationality)) == ComputeSimilarity(secret, guess) + NationalityBonus
  {
  }

  /** When the secret's position is empty, the guess's position does not affect the score. */
  lemma BlankSecretPositionIgnored(secret: Player, guess: Player, position: string)
    requires secret.position == []
    ensures ComputeSimilarity(secret, guess.(position := position)) == ComputeSimilarity(secret, guess)
  {
  }

  /** When the secret's nationality is empty, the guess's nationality does not affect the score. */
  lemma BlankSecretNationalityIgnored(secret: Player, guess: Player, nationality: string)
    requires secret.nationality == []
    ensures ComputeSimilarity(secret, guess.(nationality := nationality)) == ComputeSimilarity(secret, guess)
  {
  }

  const HaalandChars: set<char> := {'e', 'r', 'l', 'i', 'n', 'g', ' ', 'h', 'a', 'd'}
  const FodenChars: set<char> := {'p', 'h', 'i', 'l', ' ', 'f', 'o', 'd', 'e', 'n'}

  /** The distinct characters of the two example names, lower-cased. */
  lemma ExampleNameChars()
    ensures Chars(Lower("Erling Haaland")) == HaalandChars
    ensures Chars(Lower("Phil Foden")) == FodenChars
  {
    assert Lower("Erling Haaland") == "erling haaland";
    assert Lower("Phil Foden") == "phil foden";
  }

  /** The two example names share seven distinct characters. */
  lemma ExampleSharedChars()
    ensures |HaalandChars * FodenChars| == 7
  {
    assert HaalandChars * FodenChars == {'e', 'l', 'i', 'n', ' ', 'h', 'd'};
  }

  /** Two example players from the same club, Erling Haaland and Phil Foden: same team and league, different position and nationality. */
  lemma ExampleSameClub()
    ensures ComputeSimilarity(
              Player("Erling Haaland", "Premier League", "Manchester City", "FW", "Norway"),
              Player("Phil Foden", "Premier League", "Manchester City", "MF", "England")) == 72
  {
    var s := Player("Erling Haaland", "Premier League", "Manchester City", "FW", "Norway");
    var g := Player("Phil Foden", "Premier League", "Manchester City", "MF", "England");
    ExampleNameChars();
    ExampleSharedChars();
    assert NameOverlap(s, g) == 7;
    assert !SameName(s, g) by { assert Lower(s.name)[0] != Lower(g.name)[0]; }
  }
}
