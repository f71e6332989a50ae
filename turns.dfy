/**
 * One game of cities as values: the state `GameSession.run` keeps, the
 * validation of one move, the effect of one turn, and a whole game driven by
 * a sequence of wait outcomes. The class `Session.GameSession` is proved to
 * follow these definitions step by step.
 */
module Turns {
  import opened Wrappers
  import opened Cities

  /** A player as the session sees it: the registry id and the display name. */
  datatype Member = Member(id: nat, name: string)

  /**
   * The state of one session: the roster in turn order, the index of the
   * active player, the cities already named, the city the next move must
   * chain from (`None` before the first accepted move) and the names of the
   * eliminated players in the order they were eliminated.
   */
  datatype Game = Game(
    players: seq<Member>,
    turn: nat,
    used: set<string>,
    current: Option<string>,
    eliminated: seq<string>)

  /** Why the active player is eliminated. */
  datatype Reason = Timeout | UnknownCity | RepeatedCity | WrongLetter

  /** What one turn does: exactly one of these happens. */
  datatype Outcome = Accepted(city: string) | Eliminated(reason: Reason)

  /**
   * The invariant the turn loop keeps: the index names a player whenever
   * there is one, every used city is a listed city, and the current city is
   * one of them.
   */
  predicate Valid(g: Game) {
    && (|g.players| > 0 ==> g.turn < |g.players|)
    && g.used <= CityList
    && (g.current.Some? ==> g.current.value in g.used)
  }

  /** A freshly formed session. */
  function Start(roster: seq<Member>): (g: Game)
    ensures Valid(g) && g.players == roster && g.eliminated == [] && g.used == {}
  {
    Game(roster, 0, {}, None, [])
  }

  /** The display names of a roster, in order. */
  function Names(ps: seq<Member>): (r: seq<string>)
    ensures |r| == |ps|
    ensures forall i :: 0 <= i < |ps| ==> r[i] == ps[i].name
  {
    seq(|ps|, i requires 0 <= i < |ps| => ps[i].name)
  }

  /** The chaining rule: no city yet, or `m` starts with the previous city's letter. */
  predicate Chains(previous: Option<string>, m: string) {
    previous.None? || (|m| > 0 && Some(m[0]) == LastSignificantLetter(previous.value))
  }

  /** A normalised move the game accepts. */
  predicate Acceptable(g: Game, m: string) {
    m in CityList && m !in g.used && Chains(g.current, m)
  }

  /**
   * The validation of `GameSession.run`: a missing move is a timeout; a
   * present one is normalised and checked against the list, then the used
   * set, then the chaining letter, stopping at the first failure.
   */
  function Validate(g: Game, move: Option<string>): (o: Outcome)
    ensures o.Accepted? ==> o.city in CityList && o.city !in g.used
  {
    match move
    case None => Eliminated(Timeout)
    case Some(raw) =>
      var m := Normalize(raw);
      if m !in CityList then Eliminated(UnknownCity)
      else if m in g.used then Eliminated(RepeatedCity)
      else
        CityNonEmpty(m);
        if g.current.Some? && Some(m[0]) != LastSignificantLetter(g.current.value) then Eliminated(WrongLetter)
        else Accepted(m)
  }

  /**
   * The validation order: a timeout exactly when no move came; otherwise an
   * unknown city, then a repeated city, then a wrong first letter, each
   * only when the checks before it passed; acceptance exactly when the
   * normalised move passes all three.
   */
  lemma ValidateCases(g: Game, move: Option<string>)
    ensures var o := Validate(g, move);
      && (o == Eliminated(Timeout) <==> move.None?)
      && (move.Some? ==> var m := Normalize(move.value);
            && (o == Eliminated(UnknownCity) <==> m !in CityList)
            && (o == Eliminated(RepeatedCity) <==> m in CityList && m in g.used)
            && (o == Eliminated(WrongLetter) <==> m in CityList && m !in g.used && !Chains(g.current, m))
            && (o == Accepted(m) <==> Acceptable(g, m)))
  {
    if move.Some? {
      var m := Normalize(move.value);
      if m in CityList && m !in g.used {
        CityNonEmpty(m);
        if Chains(g.current, m) {
          assert Validate(g, move) == Accepted(m);
        } else {
          assert Validate(g, move) == Eliminated(WrongLetter);
        }
      }
    }
  }

  /** The position after `i` in a ring of `n` places. */
  function RingNext(i: nat, n: nat): (j: nat)
    requires i < n
    ensures j < n && j == (i + 1) % n
  {
    if i + 1 < n then i + 1 else 0
  }

  /**
   * Elimination of the active player: the name is recorded, the player is
   * removed and the index is kept unless it now runs past the end, when it
   * wraps to 0. Either way the player after the eliminated one in ring order
   * becomes active.
   */
  function Eliminate(g: Game): (r: Game)
    requires g.turn < |g.players|
    ensures r.eliminated == g.eliminated + [g.players[g.turn].name]
    ensures |r.players| == |g.players| - 1
    ensures forall j :: 0 <= j < g.turn ==> r.players[j] == g.players[j]
    ensures forall j :: g.turn <= j < |r.players| ==> r.players[j] == g.players[j + 1]
    ensures r.turn == if g.turn < |r.players| then g.turn else 0
    ensures |r.players| > 0 ==> r.players[r.turn] == g.players[RingNext(g.turn, |g.players|)]
    ensures r.used == g.used && r.current == g.current
  {
    var rest := g.players[..g.turn] + g.players[g.turn + 1..];
    var r := g.(players := rest,
                eliminated := g.eliminated + [g.players[g.turn].name],
                turn := if g.turn >= |rest| then 0 else g.turn);
    assert |rest| > 0 && g.turn == |rest| ==> rest[0] == g.players[0];
    r
  }

  /**
   * Acceptance of city `m`: it is recorded as used and becomes the city to
   * chain from, and the turn passes to the next player in ring order.
   */
  function Accept(g: Game, m: string): (r: Game)
    requires g.turn < |g.players|
    ensures r.players == g.players && r.eliminated == g.eliminated
    ensures r.used == g.used + {m} && r.current == Some(m)
    ensures r.turn == RingNext(g.turn, |g.players|)
  {
    g.(used := g.used + {m}, current := Some(m), turn := RingNext(g.turn, |g.players|))
  }

  /** One iteration of the turn loop, given what the wait for a move produced. */
  function Next(g: Game, move: Option<string>): (r: Game)
    requires Valid(g) && |g.players| > 1
    ensures Valid(r) && |r.players| >= 1
  {
    ValidateCases(g, move);
    match Validate(g, move)
    case Accepted(m) => Accept(g, m)
    case Eliminated(_) => Eliminate(g)
  }

  /**
   * Every turn does exactly one thing: an accepted move leaves the roster and
   * the eliminations as they were and adds one new city; an elimination
   * removes one player and leaves the cities as they were.
   */
  lemma {:induction false} ExactlyOneOutcome(g: Game, move: Option<string>)
    requires Valid(g) && |g.players| > 1
    ensures var r := Next(g, move);
      && (Validate(g, move).Accepted? <==>
            |r.players| == |g.players| && r.eliminated == g.eliminated && |r.used| == |g.used| + 1)
      && (Validate(g, move).Eliminated? <==>
            |r.players| == |g.players| - 1 && |r.eliminated| == |g.eliminated| + 1 && r.used == g.used)
  {
    var o := Validate(g, move);
    if o.Accepted? {
      assert o.city !in g.used;
    }
  }

  /** The measure that bounds a game: each turn removes a player or uses up a city. */
  function Budget(g: Game): nat {
    |g.players| + |CityList - g.used|
  }

  lemma {:induction false} NextShrinksBudget(g: Game, move: Option<string>)
    requires Valid(g) && |g.players| > 1
    ensures Budget(Next(g, move)) < Budget(g)
  {
    var o := Validate(g, move);
    if o.Accepted? {
      assert Next(g, move) == Accept(g, o.city);
      FreshShrinks(CityList, g.used, o.city);
    } else {
      assert Next(g, move) == Eliminate(g);
    }
  }

  /** Using up a fresh element of `u` leaves fewer unused ones. */
  lemma FreshShrinks<T>(u: set<T>, used: set<T>, m: T)
    requires m in u && m !in used
    ensures |u - (used + {m})| < |u - used|
  {
    assert u - (used + {m}) == (u - used) - {m};
  }

  /** The move supplied for the next turn: `None`, a timeout, once `moves` runs out. */
  function Head(moves: seq<Option<string>>): Option<string> {
    if moves == [] then None else moves[0]
  }

  function Tail(moves: seq<Option<string>>): seq<Option<string>> {
    if moves == [] then [] else moves[1..]
  }

  /**
   * The whole turn loop: turns are played while more than one player
   * remains, the k-th wait producing `moves[k]` and every wait after the
   * last one timing out.
   */
  function Play(g: Game, moves: seq<Option<string>>): (r: Game)
    requires Valid(g)
    ensures Valid(r) && |r.players| <= 1
    ensures |g.players| > 0 ==> |r.players| == 1
    decreases Budget(g)
  {
    if |g.players| <= 1 then g
    else
      NextShrinksBudget(g, Head(moves));
      Play(Next(g, Head(moves)), Tail(moves))
  }

  /** The number of turns `Play` takes. */
  function TurnCount(g: Game, moves: seq<Option<string>>): nat
    requires Valid(g)
    decreases Budget(g)
  {
    if |g.players| <= 1 then 0
    else
      NextShrinksBudget(g, Head(moves));
      1 + TurnCount(Next(g, Head(moves)), Tail(moves))
  }

  /** The winner once the loop ends: the one player left, if any. */
  function Winner(g: Game): (w: Option<string>)
    ensures w.Some? <==> |g.players| > 0
    ensures w.Some? ==> w.value == g.players[0].name
  {
    if |g.players| > 0 then Some(g.players[0].name) else None
  }

  /**
   * A game only loses players to elimination: the names on the roster and
   * the names eliminated together stay the same multiset, so the eliminated
   * count plus the roster size stays the initial roster size.
   */
  lemma {:induction false} NextKeepsNames(g: Game, move: Option<string>)
    requires Valid(g) && |g.players| > 1
    ensures var r := Next(g, move);
      multiset(Names(r.players)) + multiset(r.eliminated) == multiset(Names(g.players)) + multiset(g.eliminated)
  {
    if Validate(g, move).Eliminated? {
      assert Next(g, move) == Eliminate(g);
      EliminateKeepsNames(g);
    } else {
      assert Next(g, move) == Accept(g, Validate(g, move).city);
    }
  }

  /** The eliminated player's name moves from the roster to the eliminations. */
  lemma {:induction false} EliminateKeepsNames(g: Game)
    requires g.turn < |g.players|
    ensures var r := Eliminate(g);
      multiset(Names(r.players)) + multiset(r.eliminated) == multiset(Names(g.players)) + multiset(g.eliminated)
  {
    var ps, i := g.players, g.turn;
    assert Eliminate(g).players == ps[..i] + ps[i + 1..];
    RemoveKeepsNames(ps, i);
  }

  /** Splicing out the member at `i` removes exactly that member's name. */
  lemma {:induction false} RemoveKeepsNames(ps: seq<Member>, i: nat)
    requires i < |ps|
    ensures multiset(Names(ps[..i] + ps[i + 1..])) + multiset{ps[i].name} == multiset(Names(ps))
  {
    var front, back := ps[..i], ps[i + 1..];
    assert ps == front + [ps[i]] + back;
    NamesConcat(front, [ps[i]]);
    NamesConcat(front + [ps[i]], back);
    NamesConcat(front, back);
    var nf, nb := Names(front), Names(back);
    assert Names([ps[i]]) == [ps[i].name];
    assert Names(ps) == nf + [ps[i].name] + nb;
    assert multiset(Names(ps)) == multiset(nf) + multiset{ps[i].name} + multiset(nb);
  }

  lemma NamesConcat(a: seq<Member>, b: seq<Member>)
    ensures Names(a + b) == Names(a) + Names(b)
  {
  }

  lemma {:induction false} PlayKeepsNames(g: Game, moves: seq<Option<string>>)
    requires Valid(g)
    ensures var r := Play(g, moves);
      && multiset(Names(r.players)) + multiset(r.eliminated) == multiset(Names(g.players)) + multiset(g.eliminated)
      && |r.players| + |r.eliminated| == |g.players| + |g.eliminated|
    decreases Budget(g)
  {
    if |g.players| > 1 {
      NextShrinksBudget(g, Head(moves));
      NextKeepsNames(g, Head(moves));
      PlayKeepsNames(Next(g, Head(moves)), Tail(moves));
    }
    var r := Play(g, moves);
    assert |multiset(Names(r.players)) + multiset(r.eliminated)| == |r.players| + |r.eliminated|;
  }

  /**
   * Cities are only ever added, and each turn adds a city or removes a
   * player, so a game lasts at most |CityList| turns more than it has
   * players to eliminate.
   */
  lemma {:induction false} PlayBounds(g: Game, moves: seq<Option<string>>)
    requires Valid(g)
    ensures var r := Play(g, moves);
      && g.used <= r.used <= CityList
      && TurnCount(g, moves) == |r.used| - |g.used| + |g.players| - |r.players|
      && TurnCount(g, moves) <= |CityList| + |g.players|
    decreases Budget(g)
  {
    if |g.players| > 1 {
      NextShrinksBudget(g, Head(moves));
      ExactlyOneOutcome(g, Head(moves));
      PlayBounds(Next(g, Head(moves)), Tail(moves));
    }
    var r := Play(g, moves);
    assert |g.used| <= |r.used| <= |CityList| by {
      SubsetCard(g.used, r.used);
      SubsetCard(r.used, CityList);
    }
  }

  lemma {:induction false} SubsetCard<T>(a: set<T>, b: set<T>)
    requires a <= b
    ensures |a| <= |b|
  {
    assert b == a + (b - a);
  }

  /** When the loop ends, a game that started with players has exactly one winner. */
  lemma {:induction false} PlayHasWinner(g: Game, moves: seq<Option<string>>)
    requires Valid(g) && |g.players| > 0
    ensures var r := Play(g, moves);
      && Winner(r).Some?
      && |r.eliminated| == |g.eliminated| + |g.players| - 1
  {
    PlayKeepsNames(g, moves);
  }

  /**
   * Three players A, B, C. A names "москва" (accepted, B is next); B names
   * "москва" again and is eliminated, and since index 1 is still inside the
   * shortened roster [A, C] the turn stays at 1, which is now C; C lets the
   * wait run out and is eliminated, the index wraps to 0 and A wins.
   */
  lemma {:induction false} ThreePlayerGame()
    ensures var a, b, c := Member(1, "A"), Member(2, "B"), Member(3, "C");
      var r := Play(Start([a, b, c]), [Some("москва"), Some("москва"), None]);
      && r == Game([a], 0, {"москва"}, Some("москва"), ["B", "C"])
      && Winner(r) == Some("A")
  {
    var a, b, c := Member(1, "A"), Member(2, "B"), Member(3, "C");
    var moves := [Some("москва"), Some("москва"), None];
    var g0 := Start([a, b, c]);
    var g1 := Game([a, b, c], 1, {"москва"}, Some("москва"), []);
    var g2 := Game([a, c], 1, {"москва"}, Some("москва"), ["B"]);
    var g3 := Game([a], 0, {"москва"}, Some("москва"), ["B", "C"]);
    FirstMoveAccepted();
    RepeatEliminates();
    TimeoutEliminates();
    assert Play(g0, moves) == Play(g1, moves[1..]);
    assert Play(g1, moves[1..]) == Play(g2, [None]);
    assert Play(g2, [None]) == Play(g3, []);
  }

  lemma FirstMoveAccepted()
    ensures var a, b, c := Member(1, "A"), Member(2, "B"), Member(3, "C"); Next(Start([a, b, c]), Some("москва")) == Game([a, b, c], 1, {"москва"}, Some("москва"), [])
  {
    var a, b, c := Member(1, "A"), Member(2, "B"), Member(3, "C");
    MoscowNormal();
    assert Validate(Start([a, b, c]), Some("москва")) == Accepted("москва");
  }

  lemma RepeatEliminates()
    ensures var a, b, c := Member(1, "A"), Member(2, "B"), Member(3, "C");
      var g := Game([a, b, c], 1, {"москва"}, Some("москва"), []);
      Valid(g) && Next(g, Some("москва")) == Game([a, c], 1, {"москва"}, Some("москва"), ["B"])
  {
    var a, b, c := Member(1, "A"), Member(2, "B"), Member(3, "C");
    MoscowNormal();
    var g := Game([a, b, c], 1, {"москва"}, Some("москва"), []);
    assert Validate(g, Some("москва")) == Eliminated(RepeatedCity);
    assert [a, b, c][..1] + [a, b, c][2..] == [a, c];
  }

  lemma TimeoutEliminates()
    ensures var a, c := Member(1, "A"), Member(3, "C");
      var g := Game([a, c], 1, {"москва"}, Some("москва"), ["B"]);
      Valid(g) && Next(g, None) == Game([a], 0, {"москва"}, Some("москва"), ["B", "C"])
  {
    var a, c := Member(1, "A"), Member(3, "C");
    MoscowNormal();
    assert [a, c][..1] + [a, c][2..] == [a];
  }
}
