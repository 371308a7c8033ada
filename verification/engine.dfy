/**
  The game engine: the table of live sessions and its five operations
  (start, restart, join, guess, mode lookup).

  Each request handler of the server runs to completion before the next one
  starts, so every operation is a pure transition from the session table to a
  new table, a reply to the caller, and the ordered list of events broadcast
  to the session's room. A rejected request leaves the table alone and
  broadcasts nothing.
 */
module Engine {
  import opened Options
  import opened Text
  import opened SessionIds
  import opened Vocabulary

  /** The only mode with turn enforcement; every other string behaves as open play. */
  const Alternating: string := "alternating"
  /** The mode a session gets when the start request names none. */
  const DefaultMode: string := "open"

  datatype Game = Game(target: Option<string>, mode: string, players: seq<string>, currentPlayerIndex: nat)

  /** Live sessions by session id. */
  type Games = map<string, Game>

  /** What the server broadcasts to a session's room, in emission order. */
  datatype Event =
    | NewGuess(guess: string, rank: int, correct: bool, guesser: string)
    | TurnChanged(currentPlayer: string)
    | GameRestarted

  /** The reasons a request is turned down (HTTP 400 in the server). */
  datatype Error =
    | InvalidSession
    | WaitingForPlayer
    | NotYourTurn(guesser: string)
    | WordNotInList

  /** What the caller gets back; `Joined` stands for the join handler, which answers nothing. */
  datatype Reply =
    | Started(sessionId: string, mode: string)
    | Restarted
    | Guessed(rank: int, correct: bool)
    | ModeIs(mode: string)
    | Joined
    | Rejected(error: Error)

  datatype Outcome = Outcome(games: Games, reply: Reply, events: seq<Event>)

  predicate IsAlternating(g: Game) {
    g.mode == Alternating
  }

  /** `game.players[game.currentPlayerIndex] === p`; an index past the end reads `undefined`. */
  predicate IsMover(g: Game, p: string) {
    g.currentPlayerIndex < |g.players| && g.players[g.currentPlayerIndex] == p
  }

  /** Whether the turn rules let `p` guess now. */
  predicate MayGuess(g: Game, p: string) {
    !IsAlternating(g) || (|g.players| >= 2 && IsMover(g, p))
  }

  // ---------------------------------------------------------------------------
  // Invariants

  predicate NoDuplicates(s: seq<string>) {
    forall i, j :: 0 <= i < j < |s| ==> s[i] != s[j]
  }

  /** At most two distinct players, index 0 until both have joined, nobody registered in open play. */
  predicate TurnStateOk(g: Game) {
    && NoDuplicates(g.players)
    && |g.players| <= 2
    && (|g.players| < 2 ==> g.currentPlayerIndex == 0)
    && (|g.players| == 2 ==> g.currentPlayerIndex < 2)
    && (!IsAlternating(g) ==> g.players == [])
  }

  predicate GameOk(g: Game, v: Vocab) {
    TurnStateOk(g) && TargetOk(g.target, v)
  }

  predicate Inv(games: Games, v: Vocab) {
    forall sid :: sid in games ==> GameOk(games[sid], v)
  }

  // ---------------------------------------------------------------------------
  // Operations

  /**
    `POST /api/start` given the id `generateSessionId` produced: a new session
    with a random valid target, the requested mode (default "open"), no
    players and turn index 0.
   */
  function Start(games: Games, mode: Option<string>, v: Vocab, pick: nat, id: string): (o: Outcome)
    requires IsPick(Valid(v), pick)
    requires id !in games
    ensures o.games.Keys == games.Keys + {id}
    ensures forall sid :: sid in games ==> o.games[sid] == games[sid]
    ensures o.games[id].players == [] && o.games[id].currentPlayerIndex == 0
    ensures TargetOk(o.games[id].target, v)
    ensures mode.Some? ==> o.games[id].mode == mode.value
    ensures mode.None? ==> o.games[id].mode == DefaultMode
    ensures o.reply == Started(id, o.games[id].mode)
    ensures o.events == []
  {
    var m := mode.GetOr(DefaultMode);
    Outcome(games[id := Game(PickTarget(Valid(v), pick), m, [], 0)], Started(id, m), [])
  }

  /** The whole start request: draw a fresh id, then create the session under it. */
  method StartGame(games: Games, mode: Option<string>, v: Vocab, pick: nat, draws: seq<nat>) returns (o: Outcome)
    requires IsPick(Valid(v), pick)
    requires forall i :: 0 <= i < |draws| ==> draws[i] < IdRange
    requires exists i :: 0 <= i < |draws| && IdOf(draws[i]) !in games
    ensures o.reply.Started?
    ensures IsSessionId(o.reply.sessionId) && o.reply.sessionId !in games
    ensures o.games.Keys == games.Keys + {o.reply.sessionId}
    ensures forall sid :: sid in games ==> o.games[sid] == games[sid]
    ensures o == Start(games, mode, v, pick, o.reply.sessionId)
    ensures Inv(games, v) ==> Inv(o.games, v)
  {
    var id := GenerateSessionId(games, draws);
    o := Start(games, mode, v, pick, id);
  }

  /**
    `POST /api/restart`: an unknown id is refused; a known session is reset
    in place (new target, no players, index 0, same mode) and its room told so.
   */
  function Restart(games: Games, sid: string, v: Vocab, pick: nat): (o: Outcome)
    requires IsPick(Valid(v), pick)
    ensures sid !in games ==> o == Outcome(games, Rejected(InvalidSession), [])
    ensures sid in games ==> o.reply == Restarted && o.events == [GameRestarted]
    ensures o.games.Keys == games.Keys
    ensures forall k :: k in games && k != sid ==> o.games[k] == games[k]
    ensures sid in games ==>
              && o.games[sid].mode == games[sid].mode
              && o.games[sid].players == []
              && o.games[sid].currentPlayerIndex == 0
              && TargetOk(o.games[sid].target, v)
  {
    if sid !in games then Outcome(games, Rejected(InvalidSession), [])
    else
      var g := games[sid];
      var g' := g.(target := PickTarget(Valid(v), pick), players := [], currentPlayerIndex := 0);
      Outcome(games[sid := g'], Restarted, [GameRestarted])
  }

  /**
    The socket `join` handler: ignored for an unknown session; in an
    alternating session a new name is registered while there is room for it,
    and the first turn is announced when the second player arrives.
   */
  function Join(games: Games, sid: string, name: string): (o: Outcome)
    ensures o.reply == Joined
    ensures o.games.Keys == games.Keys
    ensures forall k :: k in games && k != sid ==> o.games[k] == games[k]
    ensures sid !in games ==> o.games == games && o.events == []
    ensures sid in games ==>
              var g, g' := games[sid], o.games[sid];
              && g'.target == g.target && g'.mode == g.mode
              && g'.currentPlayerIndex == g.currentPlayerIndex
              && (if IsAlternating(g) && name !in g.players && |g.players| < 2
                  then g'.players == g.players + [name]
                  else g'.players == g.players)
              && o.events == if |g.players| < 2 <= |g'.players| then [TurnChanged(g'.players[0])] else []
  {
    if sid !in games then Outcome(games, Joined, [])
    else
      var g := games[sid];
      if IsAlternating(g) && name !in g.players && |g.players| < 2 then
        var players := g.players + [name];
        var events := if |players| == 2 then [TurnChanged(players[0])] else [];
        Outcome(games[sid := g.(players := players)], Joined, events)
      else Outcome(games, Joined, [])
  }

  /**
    `POST /api/guess`. The checks run in this order: unknown session, an
    alternating game still waiting for its second player, a guesser who is
    not the mover, a lower-cased guess missing from the noun list. An accepted
    guess is broadcast first; in alternating play a wrong guess then passes
    the turn on and announces the new mover.
   */
  function Guess(games: Games, sid: string, raw: string, guesser: string, v: Vocab, ranking: seq<string>): (o: Outcome)
    requires IsRanking(ranking, v)
    ensures o.reply.Rejected? || o.reply.Guessed?
    ensures o.reply.Rejected? ==> o.games == games && o.events == []
    ensures o.games.Keys == games.Keys
    ensures forall k :: k in games && k != sid ==> o.games[k] == games[k]
    ensures sid in games ==> o.games[sid].(currentPlayerIndex := games[sid].currentPlayerIndex) == games[sid]
    ensures o.reply == Rejected(InvalidSession) <==> sid !in games
    ensures o.reply == Rejected(WaitingForPlayer) <==>
              sid in games && IsAlternating(games[sid]) && |games[sid].players| < 2
    ensures o.reply == Rejected(NotYourTurn(guesser)) <==>
              sid in games && IsAlternating(games[sid]) && |games[sid].players| >= 2
              && !IsMover(games[sid], guesser)
    ensures o.reply == Rejected(WordNotInList) <==>
              sid in games && MayGuess(games[sid], guesser) && ToLower(raw) !in v.nouns
    ensures o.reply.Guessed? ==>
              && sid in games
              && o.reply.correct == (games[sid].target == Some(ToLower(raw)))
              && o.reply.rank == Rank(ranking, ToLower(raw))
              && 1 <= |o.events| <= 2
              && o.events[0] == NewGuess(ToLower(raw), o.reply.rank, o.reply.correct, guesser)
    ensures o.reply.Guessed? <==> sid in games && MayGuess(games[sid], guesser) && ToLower(raw) in v.nouns
    ensures o.reply.Guessed? && (o.reply.correct || !IsAlternating(games[sid])) ==>
              o.games == games && |o.events| == 1
    ensures o.reply.Guessed? && !o.reply.correct && IsAlternating(games[sid]) ==>
              var g := games[sid];
              var next := (g.currentPlayerIndex + 1) % |g.players|;
              && o.games[sid].currentPlayerIndex == next
              && |o.events| == 2
              && o.events[1] == TurnChanged(g.players[next])
  {
    var w := ToLower(raw);
    if sid !in games then Outcome(games, Rejected(InvalidSession), [])
    else
      var g := games[sid];
      if IsAlternating(g) && |g.players| < 2 then Outcome(games, Rejected(WaitingForPlayer), [])
      else if IsAlternating(g) && !IsMover(g, guesser) then Outcome(games, Rejected(NotYourTurn(guesser)), [])
      else if w !in v.nouns then Outcome(games, Rejected(WordNotInList), [])
      else
        var rank := Rank(ranking, w);
        var correct := g.target == Some(w);
        var announced := NewGuess(w, rank, correct, guesser);
        if IsAlternating(g) && !correct then
          var next := (g.currentPlayerIndex + 1) % |g.players|;
          Outcome(games[sid := g.(currentPlayerIndex := next)], Guessed(rank, correct),
                  [announced, TurnChanged(g.players[next])])
        else
          Outcome(games, Guessed(rank, correct), [announced])
  }

  /** `GET /api/mode/:sessionId`. */
  function GetMode(games: Games, sid: string): (r: Reply)
    ensures r.ModeIs? <==> sid in games
    ensures r.ModeIs? ==> r.mode == games[sid].mode
    ensures !r.ModeIs? ==> r == Rejected(InvalidSession)
  {
    if sid in games then ModeIs(games[sid].mode) else Rejected(InvalidSession)
  }

  // ---------------------------------------------------------------------------
  // Invariant preservation

  lemma StartPreservesInv(games: Games, mode: Option<string>, v: Vocab, pick: nat, id: string)
    requires Inv(games, v)
    requires IsPick(Valid(v), pick)
    requires id !in games
    ensures Inv(Start(games, mode, v, pick, id).games, v)
  {
  }

  lemma RestartPreservesInv(games: Games, sid: string, v: Vocab, pick: nat)
    requires Inv(games, v)
    requires IsPick(Valid(v), pick)
    ensures Inv(Restart(games, sid, v, pick).games, v)
  {
  }

  lemma JoinPreservesInv(games: Games, sid: string, name: string, v: Vocab)
    requires Inv(games, v)
    ensures Inv(Join(games, sid, name).games, v)
  {
    var o := Join(games, sid, name);
    if sid in games {
      var g, g' := games[sid], o.games[sid];
      if IsAlternating(g) && name !in g.players && |g.players| < 2 {
        assert g'.players == g.players + [name];
        assert |g.players| == 1 ==> g.players[0] != name;
        assert NoDuplicates(g'.players);
        assert TurnStateOk(g');
      }
      assert GameOk(g', v);
    }
    forall k | k in o.games
      ensures GameOk(o.games[k], v)
    {
    }
  }

  lemma GuessPreservesInv(games: Games, sid: string, raw: string, guesser: string, v: Vocab, ranking: seq<string>)
    requires Inv(games, v)
    requires IsRanking(ranking, v)
    ensures Inv(Guess(games, sid, raw, guesser, v, ranking).games, v)
  {
  }

  // ---------------------------------------------------------------------------
  // Turn rules

  /**
    The turn check comes before word validation: in an alternating session a
    word outside the noun list is reported as a turn problem whenever there is
    one, and as an unknown word only when the guesser is the mover.
   */
  lemma TurnCheckBeforeWordCheck(games: Games, sid: string, raw: string, guesser: string, v: Vocab, ranking: seq<string>)
    requires IsRanking(ranking, v)
    requires sid in games && IsAlternating(games[sid])
    requires ToLower(raw) !in v.nouns
    ensures Guess(games, sid, raw, guesser, v, ranking).reply ==
              if |games[sid].players| < 2 then Rejected(WaitingForPlayer)
              else if !IsMover(games[sid], guesser) then Rejected(NotYourTurn(guesser))
              else Rejected(WordNotInList)
  {
  }

  /** Before the second player joins an alternating session, nobody's guess is taken. */
  lemma NobodyGuessesAlone(games: Games, sid: string, raw: string, guesser: string, v: Vocab, ranking: seq<string>)
    requires IsRanking(ranking, v)
    requires sid in games && IsAlternating(games[sid]) && |games[sid].players| < 2
    ensures Guess(games, sid, raw, guesser, v, ranking) == Outcome(games, Rejected(WaitingForPlayer), [])
  {
  }

  /** In a two-player alternating game anyone but the mover is refused, and nothing changes. */
  lemma OutOfTurnRefused(games: Games, sid: string, raw: string, p: string, v: Vocab, ranking: seq<string>)
    requires IsRanking(ranking, v)
    requires sid in games && IsAlternating(games[sid]) && |games[sid].players| >= 2
    requires !IsMover(games[sid], p)
    ensures Guess(games, sid, raw, p, v, ranking) == Outcome(games, Rejected(NotYourTurn(p)), [])
  {
  }

  /**
    Strict rotation: when the mover of a two-player session guesses a wrong
    noun, the other player is announced and becomes the mover, and the
    previous mover's next guess is refused whatever it is.
   */
  lemma WrongGuessPassesTurn(games: Games, sid: string, raw: string, v: Vocab, ranking: seq<string>, raw2: string, ranking2: seq<string>)
    requires Inv(games, v)
    requires IsRanking(ranking, v) && IsRanking(ranking2, v)
    requires sid in games && IsAlternating(games[sid]) && |games[sid].players| == 2
    requires ToLower(raw) in v.nouns && games[sid].target != Some(ToLower(raw))
    ensures var g := games[sid];
            var mover, other := g.players[g.currentPlayerIndex], g.players[1 - g.currentPlayerIndex];
            var o := Guess(games, sid, raw, mover, v, ranking);
            && other != mover
            && o.reply == Guessed(Rank(ranking, ToLower(raw)), false)
            && o.events == [NewGuess(ToLower(raw), Rank(ranking, ToLower(raw)), false, mover), TurnChanged(other)]
            && IsMover(o.games[sid], other)
            && Guess(o.games, sid, raw2, mover, v, ranking2) == Outcome(o.games, Rejected(NotYourTurn(mover)), [])
  {
    var g := games[sid];
    var i := g.currentPlayerIndex;
    var mover, other := g.players[i], g.players[1 - i];
    assert g.players[0] != g.players[1];
    assert (i + 1) % 2 == 1 - i;
    var o := Guess(games, sid, raw, mover, v, ranking);
    var g' := o.games[sid];
    assert g' == g.(currentPlayerIndex := 1 - i);
    assert IsMover(g', other) && !IsMover(g', mover);
    OutOfTurnRefused(o.games, sid, raw2, mover, v, ranking2);
  }

  /**
    There is no finished state: a correct guess changes nothing, so the same
    player may guess again and is answered exactly as before.
   */
  lemma CorrectGuessKeepsPlaying(games: Games, sid: string, raw: string, guesser: string, v: Vocab, ranking: seq<string>)
    requires IsRanking(ranking, v)
    requires Guess(games, sid, raw, guesser, v, ranking).reply.Guessed?
    requires Guess(games, sid, raw, guesser, v, ranking).reply.correct
    ensures var o := Guess(games, sid, raw, guesser, v, ranking);
            && o.games == games
            && Guess(o.games, sid, raw, guesser, v, ranking) == o
  {
  }

  /** In open play anybody, registered or not, may guess any listed noun, and nothing changes. */
  lemma OpenPlayAcceptsAnyone(games: Games, sid: string, raw: string, guesser: string, v: Vocab, ranking: seq<string>)
    requires IsRanking(ranking, v)
    requires sid in games && !IsAlternating(games[sid])
    requires ToLower(raw) in v.nouns
    ensures var o := Guess(games, sid, raw, guesser, v, ranking);
            o.reply.Guessed? && o.games == games
  {
  }

  /**
    The rank reported for an accepted guess: between 1 and the number of
    valid nouns when the noun has a vector, 0 when it has none; the target
    itself always ranks at least 1 and is the only correct guess.
   */
  lemma AcceptedGuessRank(games: Games, sid: string, raw: string, guesser: string, v: Vocab, ranking: seq<string>)
    requires Inv(games, v)
    requires IsRanking(ranking, v)
    requires Guess(games, sid, raw, guesser, v, ranking).reply.Guessed?
    ensures var r := Guess(games, sid, raw, guesser, v, ranking).reply;
            var w := ToLower(raw);
            && (w in v.embedded <==> 1 <= r.rank <= |Valid(v)|)
            && (w !in v.embedded <==> r.rank == 0)
            && (r.correct <==> games[sid].target == Some(w))
            && (r.correct ==> r.rank >= 1)
  {
    var w := ToLower(raw);
    RankOfNoun(ranking, v, w);
    if games[sid].target == Some(w) {
      TargetRankPositive(ranking, v, w);
    }
  }
}
