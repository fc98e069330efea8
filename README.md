# Semantle Football — a Dafny model of the game core

Semantle Football is a small web guessing game. A secret footballer is drawn from a
roster loaded from `players.json`. The player narrows the roster with league, team and
name-search filters, picks a guess, and gets a closeness score from 0 to 100. Only an
exact (case-insensitive) name match scores 100. Every guess goes on top of a history.

This project models the four pieces of logic under the UI calls of `streamlit_app.py`:

- **Roster loading** (`Roster`): the loop of `load_players`. Every field is stripped; a
  record whose stripped name is empty is dropped; a blank league or team becomes
  `"Unknown League"` / `"Unknown Team"`. Input order is kept, with no deduplication and
  no sorting. `LoadPlayers` is the loop, proved against `Load`, which normalises each
  record of `Filter(Kept, data)`.
- **Similarity scoring** (`Similarity`): `compute_similarity`, with the source's weights:
  baseline 10; league +25; team +30 (both can fire); position +10 and nationality +8, each
  only when the secret's field is non-empty; plus the number of distinct characters the
  lower-cased names share, capped at 15; then a clamp to [0, 99].
- **Candidate filtering** (`Candidates`): by league unless "All", then by team unless
  "All", then by the stripped, lower-cased search text as a substring of the lower-cased
  name when that text is non-empty.
- **The game session** (`Game`): a `GameSession` class with the secret, the guess
  history (most recent first), the last score and the last guess. `NewGame` models
  `new_game` and `SubmitGuess` models the "check score" button. `Label` renders a player.

Supporting modules: `Wrappers` (an `Option` type), `Text` (ASCII `strip`, `lower`,
`set(s)`, substring), `Sequences` (list-comprehension filter and map, subsequences).

Other revisions of this game use other scoring and loading rules. This model follows
this file's code, in which:

- the team and league bonuses are not mutually exclusive;
- names are lower-cased but not stripped again before comparing;
- there is no team-token bonus and no position-group matching;
- the loader neither deduplicates nor sorts, and has no league, goalkeeper or minutes filter;
- the non-exact score starts from a baseline of 10.

Because the largest non-exact score is 10+25+30+10+8+15 = 98, the `min(99, ...)` clamp
never takes effect. `ComputeSimilarity`'s contract records this.

## Model

| member | source | states |
|---|---|---|
| `Text.Trim` | streamlit_app.py:33-41 | `strip()` removes exactly the leading and trailing whitespace: the result is a slice of the input, everything before and after it is whitespace, its own ends are not, and it is empty exactly when the input is all whitespace |
| `Text.Lower` | streamlit_app.py:55 | `lower()` keeps the length, lower-cases each character in place and leaves no upper-case ASCII letter |
| `Roster.Field` | streamlit_app.py:33-41 | `str(p.get(key, "")).strip()`: an absent key gives the empty string, a present value gives that value with exactly its surrounding whitespace removed |
| `Roster.KeptIffNamed` | streamlit_app.py:33-35 | `if not name: continue` keeps a record (`Kept`) exactly when its name is present and holds a non-whitespace character |
| `Roster.Normalize` | streamlit_app.py:36-42 | the record built from a raw record: the stripped name, position and nationality; the stripped league or team, or "Unknown League" / "Unknown Team" when blank |
| `Roster.NormalizeWellFormed` | streamlit_app.py:33-42 | a raw record with a non-blank name becomes a record whose name, league and team are stripped and non-empty and whose position and nationality are stripped |
| `Roster.LoadSnoc` | streamlit_app.py:32-42 | one iteration of the loop: a record with a name appends its normalised record, any other record leaves the roster unchanged |
| `Roster.LoadPlayers` | streamlit_app.py:31-43 | the loop of `load_players` builds exactly `Load(data)`, and every record it returns is well formed |
| `Roster.LoadInOrder` | streamlit_app.py:31-43 | the roster keeps the input order: it is a subsequence of the normalised input records |
| `Roster.LoadOnlyKept` | streamlit_app.py:33-35 | every roster entry is the normalised form of an input record whose name is non-blank |
| `Roster.LoadKeepsDuplicates` | streamlit_app.py:36-42 | nothing is deduplicated: a record with a name contributes its normalised record at least once for each of its occurrences in the input |
| `Roster.LoadContainsKept` | streamlit_app.py:32-42 | every raw record whose stripped name is non-empty has its normalised record in the roster |
| `Roster.LoadWellFormed` | streamlit_app.py:33-42 | every loaded record has a stripped non-empty name, a non-empty league and team, and stripped position and nationality |
| `Similarity.NameOverlap` | streamlit_app.py:70 | the shared distinct characters of the lower-cased names number at most the distinct characters of either name |
| `Similarity.ComputeSimilarity` | streamlit_app.py:54-73 | the score is 100 exactly when the lower-cased names are equal; any other guess scores between 10 and 98, so never 100 |
| `Similarity.SimilarityReflexive` | streamlit_app.py:55-56 | a player scored against itself gets 100 |
| `Similarity.SimilaritySymmetric` | streamlit_app.py:54-73 | swapping secret and guess leaves the score unchanged |
| `Similarity.NoSharedAttributes` | streamlit_app.py:58-73 | a non-exact guess earning no attribute bonus (different league and team; a position and a nationality each different from the secret's or blank in the secret) scores 10 plus min(15, shared name characters) |
| `Similarity.NothingShared` | streamlit_app.py:54-73 | a guess earning no attribute bonus and sharing no name character with a named secret scores exactly the baseline 10 |
| `Similarity.LeagueMatchAdds` | streamlit_app.py:60-61 | turning a league mismatch into a match raises a non-exact score by exactly 25 |
| `Similarity.TeamMatchAdds` | streamlit_app.py:62-63 | turning a team mismatch into a match raises a non-exact score by exactly 30, independent of the league bonus |
| `Similarity.PositionMatchAdds` | streamlit_app.py:64-65 | matching the secret's non-empty position raises a non-exact score by exactly 10 |
| `Similarity.NationalityMatchAdds` | streamlit_app.py:66-67 | matching the secret's non-empty nationality raises a non-exact score by exactly 8 |
| `Similarity.BlankSecretPositionIgnored` | streamlit_app.py:64-65 | when the secret's position is empty, the guess's position does not affect the score, whatever the other fields |
| `Similarity.BlankSecretNationalityIgnored` | streamlit_app.py:66-67 | when the secret's nationality is empty, the guess's nationality does not affect the score, whatever the other fields |
| `Similarity.ExampleSameClub` | streamlit_app.py:54-73 | Haaland against Foden (same league and team, different position and nationality, 7 shared name characters) scores 72 |
| `Candidates.SearchKey` | streamlit_app.py:119 | the search text as compared is empty (search off) exactly when the box holds only whitespace; otherwise it is stripped, no longer than the input and free of upper-case ASCII letters |
| `Candidates.ByLeague` | streamlit_app.py:111 | the league step keeps, in order and with multiplicity, the players of the chosen league, or everyone for "All" |
| `Candidates.ByTeam` | streamlit_app.py:116-117 | the team step keeps, in order and with multiplicity, the players of the chosen team, or everyone for "All" |
| `Candidates.BySearch` | streamlit_app.py:120-121 | the search step keeps, in order and with multiplicity, the players whose lower-cased name contains the key, or everyone for an empty key |
| `Candidates.StepsSelectMatches` | streamlit_app.py:111-121 | the three steps in a row keep exactly the players matching all three choices, each as often as it occurs in the roster |
| `Candidates.Candidates` | streamlit_app.py:111-121 | the drop-down list is an order-preserving subsequence of the roster; it holds only matching players and holds every matching player as often as the roster does |
| `Game.Label` | streamlit_app.py:130-131 | the label starts with the name, ends with the league, and has the team between the two bar separators, each a bar with a space on either side |
| `Game.LabelInjective` | streamlit_app.py:130-131 | when names and teams contain no bar, two players with the same label have the same name, team and league |
| `Game.GameSession.constructor` | streamlit_app.py:83-89 | a session starts with a secret from the non-empty roster, no history, no last score and no last guess |
| `Game.GameSession.NewGame` | streamlit_app.py:48-52 | `new_game` picks a secret from the roster and clears history, last score and last guess, whatever the session held before |
| `Game.GameSession.SubmitGuess` | streamlit_app.py:139-150 | a guess sets the last score to the similarity of secret and guess and the last guess to the guess; it puts one entry (time, label, score) at index 0 of the history, keeps the old entries after it, leaves the secret unchanged, and keeps the session invariant |
| `Game.PlayTwoGuesses` | streamlit_app.py:87-150 | after a guess and "New Game", guessing the new secret gives a last score of 100 |

## Left out

- Page setup, widgets, `st.stop`/`st.rerun`, the reveal toggle, HTML and markdown output and the history table display (streamlit_app.py:12-16, 78-191): these are UI.
- `@st.cache_data`, the file-existence check and `json.load` (streamlit_app.py:23-29): these are file I/O and caching. The model starts from parsed records; the missing-file case, which returns an empty roster, is the empty input of `LoadPlayers`.
- `str(...)` of arbitrary JSON values (streamlit_app.py:33-41): a field is modelled as absent or a string. The source would turn a number into its digits and a JSON `null` into `"None"`; the model does not capture that.
- Text.Trim: strips only the whitespace characters below 128 that Python's `str.strip()` removes. Unicode whitespace such as U+00A0 is not stripped.
- Text.Lower: lower-cases ASCII letters only. Python's full Unicode `str.lower()` is not modelled, so names differing only in the case of a non-ASCII letter compare as different here.
- `random.choice` (streamlit_app.py:49): modelled as an unconstrained choice of a roster element (`:|`). Uniformity is not modelled.
- `datetime.now()` (streamlit_app.py:147): the formatted timestamp is the `now` parameter of `SubmitGuess`.
- The progress value `score / 100` (streamlit_app.py:159): floating point for display.
- The sorted league and team option lists and the `[:8000]` cap of the drop-down (streamlit_app.py:108, 113, 135): display concerns. The selected guess is taken as a parameter, and `SubmitGuess` does not require it to be in the roster.
