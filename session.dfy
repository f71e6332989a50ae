/**
 * The session object whose fields `GameSession.run` updates in place. Each
 * method is proved to move the fields exactly as `Turns.Next` and
 * `Turns.Play` move a `Turns.Game`.
 */
module Session {
  import opened Wrappers
  import opened Cities
  import opened Turns

  class GameSession {
    const sessionId: nat
    var players: seq<Member>
    var turn: nat
    var used: set<string>
    var current: Option<string>
    /** The move slot `submit_move` writes and the turn loop reads after its wait. */
    var currentMove: Option<string>
    var gameOver: bool
    var eliminated: seq<string>

    /** The fields the turn loop works on, as a value. */
    function State(): Game
      reads this
    {
      Game(players, turn, used, current, eliminated)
    }

    predicate Valid()
      reads this
    {
      Turns.Valid(State())
    }

    constructor (id: nat, roster: seq<Member>)
      ensures sessionId == id && State() == Start(roster)
      ensures currentMove == None && !gameOver
      ensures Valid()
    {
      sessionId := id;
      players := roster;
      turn := 0;
      used := {};
      current := None;
      currentMove := None;
      gameOver := false;
      eliminated := [];
    }

    /** The elimination steps the loop repeats for each failure: record, pop, re-derive the index. */
    method RemoveActive()
      requires turn < |players|
      modifies this
      ensures State() == Eliminate(old(State()))
      ensures currentMove == old(currentMove) && gameOver == old(gameOver)
    {
      eliminated := eliminated + [players[turn].name];
      players := players[..turn] + players[turn + 1..];
      if turn >= |players| {
        turn := 0;
      }
    }

    /**
     * The checks of one iteration of the loop, in the order `run` makes them:
     * a timeout, then a city not on the list, then a city already used, then
     * a first letter that does not chain; a move passing all four is
     * accepted in its normalised form. Nothing is changed.
     */
    method Check(move: Option<string>) returns (outcome: Outcome)
      ensures outcome == Validate(State(), move)
    {
      if move.None? {
        return Eliminated(Timeout);
      }
      var m := Normalize(move.value);
      if m !in CityList {
        return Eliminated(UnknownCity);
      }
      if m in used {
        return Eliminated(RepeatedCity);
      }
      CityNonEmpty(m);
      if current.Some? {
        var required := LastSignificantLetter(current.value);
        if Some(m[0]) != required {
          return Eliminated(WrongLetter);
        }
      }
      return Accepted(m);
    }

    /**
     * One iteration of the loop. `move` is what the move slot holds when the
     * wait ends: `None` if nobody submitted in time. The move slot keeps it.
     */
    method Step(move: Option<string>) returns (outcome: Outcome)
      requires Valid() && |players| > 1
      modifies this
      ensures Valid() && |players| >= 1
      ensures outcome == Validate(old(State()), move)
      ensures State() == Next(old(State()), move)
      ensures currentMove == move && gameOver == old(gameOver)
    {
      ghost var g := State();
      ghost var r := Next(g, move);
      currentMove := move;
      outcome := Check(move);
      if outcome.Eliminated? {
        assert r == Eliminate(g);
        RemoveActive();
      } else {
        assert r == Accept(g, outcome.city);
        used := used + {outcome.city};
        current := Some(outcome.city);
        turn := RingNext(turn, |players|);
      }
      assert State() == r;
    }

    /**
     * `run`: play turns while more than one player remains, the k-th wait
     * yielding `moves[k]` and every later wait timing out, then mark the
     * game over.
     */
    method Run(moves: seq<Option<string>>)
      requires Valid()
      modifies this
      ensures Valid() && |players| <= 1
      ensures State() == Play(old(State()), moves)
      ensures gameOver
    {
      var rest := moves;
      while |players| > 1
        invariant Valid()
        invariant Play(State(), rest) == Play(old(State()), moves)
        decreases Budget(State())
      {
        var move := Head(rest);
        rest := Tail(rest);
        NextShrinksBudget(State(), move);
        var _ := Step(move);
      }
      gameOver := true;
    }
  }
}
