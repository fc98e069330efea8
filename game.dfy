/**
 * The per-session game state: the secret player, the guess history (most recent
 * first), and the score and player of the last guess; `new_game` and the
 * "check score" button are the two ways it changes.
 */
module Game {
  import opened Wrappers
  import opened Roster
  import opened Similarity

  /** One row of the history table. `time` is the formatted clock reading, passed in. */
  datatype Entry = Entry(time: string, guess: string, score: int)

  /**
   * How a player is shown in the drop-down and in the history: the name first and the
   * league last, with the team between two " | " separators.
   */
  function Label(p: Player): (r: string)
    ensures |r| == |p.name| + |p.team| + |p.league| + 6
    ensures r[..|p.name|] == p.name && r[|r| - |p.league|..] == p.league
    ensures r[|p.name| + 3..|p.name| + 3 + |p.team|] == p.team
    ensures r[|p.name|..|p.name| + 3] == " | " && r[|p.name| + 3 + |p.team|..|p.name| + 6 + |p.team|] == " | "
  {
    p.name + " | " + p.team + " | " + p.league
  }

  predicate NoBar(s: string) {
    '|' !in s
  }

  /** In `a + " | " + x` with no bar in `a`, the first bar sits just after `a` and its space. */
  lemma FirstBar(a: string, x: string)
    requires NoBar(a)
    ensures (a + " | " + x)[|a| + 1] == '|'
    ensures forall i :: 0 <= i <= |a| ==> (a + " | " + x)[i] != '|'
  {
    var s := a + " | " + x;
    forall i | 0 <= i <= |a| ensures s[i] != '|' {
      if i < |a| {
        assert s[i] == a[i];
        assert a[i] in a;
      }
    }
  }

  /** A bar-free head is recovered from `a + " | " + x`, and so is the rest. */
  lemma SplitAtBar(a: string, x: string, b: string, y: string)
    requires NoBar(a) && NoBar(b)
    requires a + " | " + x == b + " | " + y
    ensures a == b && x == y
  {
    FirstBar(a, x);
    FirstBar(b, y);
    assert |a| == |b|;
    assert a == (a + " | " + x)[..|a|];
    assert b == (b + " | " + y)[..|b|];
    assert x == (a + " | " + x)[|a| + 3..];
    assert y == (b + " | " + y)[|b| + 3..];
  }

  /** When names and teams contain no bar, the label determines name, team and league. */
  lemma LabelInjective(p: Player, q: Player)
    requires NoBar(p.name) && NoBar(p.team) && NoBar(q.name) && NoBar(q.team)
    requires Label(p) == Label(q)
    ensures p.name == q.name && p.team == q.team && p.league == q.league
  {
    SplitLabel(p.name, p.team, p.league, q.name, q.team, q.league);
  }

  /** Two three-part labels with bar-free first and second parts agree part by part. */
  lemma SplitLabel(n1: string, t1: string, l1: string, n2: string, t2: string, l2: string)
    requires NoBar(n1) && NoBar(t1) && NoBar(n2) && NoBar(t2)
    requires n1 + " | " + t1 + " | " + l1 == n2 + " | " + t2 + " | " + l2
    ensures n1 == n2 && t1 == t2 && l1 == l2
  {
    assert n1 + " | " + t1 + " | " + l1 == n1 + " | " + (t1 + " | " + l1);
    assert n2 + " | " + t2 + " | " + l2 == n2 + " | " + (t2 + " | " + l2);
    SplitAtBar(n1, t1 + " | " + l1, n2, t2 + " | " + l2);
    SplitAtBar(t1, l1, t2, l2);
  }

  /** The scores a guess can get: 100 for the secret's name, otherwise between 10 and 98. */
  predicate PossibleScore(score: int) {
    score == 100 || Baseline <= score <= 98
  }

  class GameSession {
    var secret: Player
    var history: seq<Entry>
    var lastScore: Option<int>
    var lastGuess: Option<Player>

    /**
     * The session invariant: the last score and the last guess are set exactly when the
     * history is non-empty, and then describe its first entry, which is the score of the
     * last guess against the current secret; every recorded score is a possible score.
     */
    ghost predicate Valid()
      reads this
    {
      && (history == [] <==> lastScore == None)
      && (history == [] <==> lastGuess == None)
      && (history != [] ==>
            && lastGuess.Some?
            && lastScore == Some(history[0].score)
            && history[0].guess == Label(lastGuess.value)
            && history[0].score == ComputeSimilarity(secret, lastGuess.value))
      && (forall k :: 0 <= k < |history| ==> PossibleScore(history[k].score))
    }

    /** Session start: the first `new_game` on the loaded roster, which the app never lets be empty. */
    constructor (players: seq<Player>)
      requires |players| > 0
      ensures Valid()
      ensures secret in players
      ensures history == [] && lastScore == None && lastGuess == None
    {
      assert players[0] in players;
      var s :| s in players;
      secret := s;
      history := [];
      lastScore := None;
      lastGuess := None;
    }

    /** `new_game`: pick any roster player as the secret and forget every guess. */
    method NewGame(players: seq<Player>)
      requires |players| > 0
      modifies this
      ensures Valid()
      ensures secret in players
      ensures history == [] && lastScore == None && lastGuess == None
    {
      assert players[0] in players;
      var s :| s in players;
      secret := s;
      history := [];
      lastScore := None;
      lastGuess := None;
    }

    /** The "check score" button: score the selected player and put the result on top of the history. */
    method SubmitGuess(selected: Player, now: string)
      requires Valid()
      modifies this
      ensures Valid()
      ensures secret == old(secret)
      ensures lastScore == Some(ComputeSimilarity(secret, selected))
      ensures lastGuess == Some(selected)
      ensures history == [Entry(now, Label(selected), ComputeSimilarity(secret, selected))] + old(history)
      ensures |history| == |old(history)| + 1 && history[1..] == old(history)
    {
      var score := ComputeSimilarity(secret, selected);
      lastScore := Some(score);
      lastGuess := Some(selected);
      history := [Entry(now, Label(selected), score)] + history;
    }
  }

  /** A session played through: start, a guess, "New Game", then a guess of the new secret itself. */
  method PlayTwoGuesses(players: seq<Player>, g: Player, now1: string, now2: string) returns (last: Option<int>)
    requires |players| > 0
    ensures last == Some(100)
  {
    var session := new GameSession(players);
    session.SubmitGuess(g, now1);
    session.NewGame(players);
    assert session.history == [];
    session.SubmitGuess(session.secret, now2);
    assert |session.history| == 1;
    last := session.lastScore;
  }
}
