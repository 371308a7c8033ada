/**
  Sequences of requests. Node.js runs each handler to completion, so any
  interleaving of clients amounts to some sequence of operations applied one
  after another; the lemmas here hold for every such sequence.
 */
module Traces {
  import opened Options
  import Text
  import SessionIds
  import opened Vocabulary
  import opened Engine

  /** One request, together with the random choices it makes. */
  datatype Op =
    | StartOp(mode: Option<string>, pick: nat, id: string)
    | RestartOp(sessionId: string, pick: nat)
    | JoinOp(sessionId: string, name: string)
    | GuessOp(sessionId: string, guess: string, guesser: string, ranking: seq<string>)
    | ModeOp(sessionId: string)

  /** The random choices lie in range and the new id is a fresh six-digit id, as `generateSessionId` ensures. */
  predicate Admissible(games: Games, v: Vocab, op: Op) {
    match op
    case StartOp(_, pick, id) => IsPick(Valid(v), pick) && SessionIds.IsSessionId(id) && id !in games
    case RestartOp(_, pick) => IsPick(Valid(v), pick)
    case GuessOp(_, _, _, ranking) => IsRanking(ranking, v)
    case _ => true
  }

  function Apply(games: Games, v: Vocab, op: Op): (o: Outcome)
    requires Admissible(games, v, op)
    ensures games.Keys <= o.games.Keys
  {
    match op
    case StartOp(mode, pick, id) => Start(games, mode, v, pick, id)
    case RestartOp(sid, pick) => Restart(games, sid, v, pick)
    case JoinOp(sid, name) => Join(games, sid, name)
    case GuessOp(sid, guess, guesser, ranking) => Guess(games, sid, guess, guesser, v, ranking)
    case ModeOp(sid) => Outcome(games, GetMode(games, sid), [])
  }

  predicate AdmissibleRun(games: Games, v: Vocab, ops: seq<Op>)
    decreases |ops|
  {
    |ops| == 0 || (Admissible(games, v, ops[0]) && AdmissibleRun(Apply(games, v, ops[0]).games, v, ops[1..]))
  }

  /** The session table after the requests `ops`. */
  function Run(games: Games, v: Vocab, ops: seq<Op>): Games
    requires AdmissibleRun(games, v, ops)
    decreases |ops|
  {
    if |ops| == 0 then games else Run(Apply(games, v, ops[0]).games, v, ops[1..])
  }

  /** One request keeps every session's mode. */
  lemma ApplyKeepsModes(games: Games, v: Vocab, op: Op)
    requires Admissible(games, v, op)
    ensures forall sid :: sid in games ==> Apply(games, v, op).games[sid].mode == games[sid].mode
  {
  }

  /** One request keeps every session's turn state and target sound. */
  lemma ApplyPreservesInv(games: Games, v: Vocab, op: Op)
    requires Inv(games, v)
    requires Admissible(games, v, op)
    ensures Inv(Apply(games, v, op).games, v)
  {
    match op
    case StartOp(mode, pick, id) => StartPreservesInv(games, mode, v, pick, id);
    case RestartOp(sid, pick) => RestartPreservesInv(games, sid, v, pick);
    case JoinOp(sid, name) => JoinPreservesInv(games, sid, name, v);
    case GuessOp(sid, guess, guesser, ranking) => GuessPreservesInv(games, sid, guess, guesser, v, ranking);
    case ModeOp(_) =>
  }

  /**
    Every reachable session table satisfies the invariants: no duplicate
    players, at most two of them, a turn index that is 0 until both have
    joined and 0 or 1 afterwards, and a valid target.
   */
  lemma {:induction false} RunPreservesInv(games: Games, v: Vocab, ops: seq<Op>)
    requires Inv(games, v)
    requires AdmissibleRun(games, v, ops)
    ensures Inv(Run(games, v, ops), v)
    decreases |ops|
  {
    if |ops| > 0 {
      ApplyPreservesInv(games, v, ops[0]);
      RunPreservesInv(Apply(games, v, ops[0]).games, v, ops[1..]);
    }
  }

  /**
    Sessions are never removed and a session's mode never changes, restarts
    included; hence `GetMode` answers the same before and after any requests.
   */
  lemma {:induction false} ModeNeverChanges(games: Games, v: Vocab, ops: seq<Op>, sid: string)
    requires AdmissibleRun(games, v, ops)
    requires sid in games
    ensures sid in Run(games, v, ops)
    ensures GetMode(Run(games, v, ops), sid) == GetMode(games, sid)
    decreases |ops|
  {
    if |ops| > 0 {
      ApplyKeepsModes(games, v, ops[0]);
      ModeNeverChanges(Apply(games, v, ops[0]).games, v, ops[1..], sid);
    }
  }

  /** The vocabulary, similarity order and session id of the two-player scenario below. */
  const DogCat: Vocab := Vocab(["dog", "cat"], {"dog", "cat"})
  const DogCatRanking: seq<string> := ["dog", "cat"]
  const ScenarioId: string := "123456"

  lemma DogCatValid()
    ensures Valid(DogCat) == DogCatRanking
  {
    assert FilterEmbedded(["cat"], DogCat.embedded) == ["cat"];
  }

  /** The new alternating game of the scenario, with its players so far. */
  function ScenarioGame(players: seq<string>): Engine.Game {
    Engine.Game(Some("dog"), "alternating", players, 0)
  }

  lemma ScenarioStart()
    ensures var s0 := Start(map[], Some("alternating"), DogCat, 0, ScenarioId);
            ScenarioId in s0.games && s0.games[ScenarioId] == ScenarioGame([])
  {
    DogCatValid();
    assert PickTarget(Valid(DogCat), 0) == Some("dog");
  }

  lemma ScenarioJoin(games: Games, before: seq<string>, name: string)
    requires ScenarioId in games && games[ScenarioId] == ScenarioGame(before)
    requires |before| < 2 && name !in before
    ensures var o := Join(games, ScenarioId, name);
            && ScenarioId in o.games
            && o.games[ScenarioId] == ScenarioGame(before + [name])
            && o.events == if |before| == 1 then [TurnChanged((before + [name])[0])] else []
  {
    assert IsAlternating(ScenarioGame(before));
  }

  /**
    Two players join an alternating game: the first arrival announces
    nothing, the second announces the first arrival as mover.
   */
  lemma ScenarioTwoPlayersJoin()
    ensures var s0 := Start(map[], Some("alternating"), DogCat, 0, ScenarioId);
            var s1 := Join(s0.games, ScenarioId, "alice");
            var s2 := Join(s1.games, ScenarioId, "bob");
            && s1.events == []
            && s2.events == [TurnChanged("alice")]
            && ScenarioId in s2.games
            && s2.games[ScenarioId] == ScenarioGame(["alice", "bob"])
  {
    ScenarioStart();
    var s0 := Start(map[], Some("alternating"), DogCat, 0, ScenarioId);
    ScenarioJoin(s0.games, [], "alice");
    var s1 := Join(s0.games, ScenarioId, "alice");
    assert [] + ["alice"] == ["alice"];
    ScenarioJoin(s1.games, ["alice"], "bob");
    assert ["alice"] + ["bob"] == ["alice", "bob"];
  }

  /**
    Continuing: the second player cannot guess out of turn, and the first
    player's wrong guess ranks below the target and hands the turn on.
   */
  lemma ScenarioTurnsAlternate(games: Games)
    requires ScenarioId in games
    requires games[ScenarioId] == ScenarioGame(["alice", "bob"])
    ensures var s3 := Guess(games, ScenarioId, "cat", "bob", DogCat, DogCatRanking);
            var s4 := Guess(games, ScenarioId, "Cat", "alice", DogCat, DogCatRanking);
            && s3.reply == Rejected(NotYourTurn("bob"))
            && s4.reply == Guessed(2, false)
            && s4.events == [NewGuess("cat", 2, false, "alice"), TurnChanged("bob")]
  {
    DogCatValid();
    var g := games[ScenarioId];
    assert IsMover(g, "alice") && !IsMover(g, "bob");
    assert Text.ToLower("Cat") == "cat";
    assert Rank(DogCatRanking, "cat") == 2;
  }
}
