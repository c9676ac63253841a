/** The per-frame state machine of the Snake game (lab8/snake/snake.py).
    Each pass of the game's main loop polls the key events, applies the
    no-reversal rule, moves the head one cell, grows or shifts the body,
    scores and respawns the fruit, ends the game on a wall or self
    collision, and raises the level at each 30-point threshold.
    Drawing, fonts, frame timing and the random generator are not part
    of this model: the random fruit cell is an input `spawn`. */
module SnakeGame {

  datatype Dir = Up | Down | Left | Right

  /** A grid position in pixels; y grows downwards, as on screen. */
  datatype Point = Point(x: int, y: int)

  /** One polled event: an arrow key, the Escape key, or anything else
      (other keys, mouse events, the window's close button), which the
      game ignores. */
  datatype Event = Arrow(key: Dir) | Escape | Other

  /** Running: the loop goes on. GameOver: game_over() was called (wall or
      self collision). Quit: Escape was pressed. Both end the process. */
  datatype Status = Running | GameOver | Quit

  const Cell: int := 10
  const WindowX: int := 720
  const WindowY: int := 480
  const BorderThickness: int := 10
  const TopMargin: int := 40
  const AreaLeft: int := BorderThickness
  const AreaTop: int := TopMargin
  const AreaRight: int := WindowX - BorderThickness
  const AreaBottom: int := WindowY - BorderThickness
  const InitialSpeed: int := 15
  const SpeedStep: int := 5
  const FruitScore: int := 10
  const LevelScore: int := 30
  const InitialLength: int := 4

  /** The module-level variables the main loop reassigns. */
  datatype State = State(
    direction: Dir,
    changeTo: Dir,
    head: Point,
    body: seq<Point>,
    fruit: Point,
    score: int,
    level: int,
    speed: int,
    status: Status)

  function Opposite(d: Dir): Dir
  {
    match d
    case Up => Down
    case Down => Up
    case Left => Right
    case Right => Left
  }

  predicate Horizontal(d: Dir)
  {
    d == Left || d == Right
  }

  /** The four guarded assignments to `direction`, in the source's order.
      A request for the opposite direction is ignored; any other request
      becomes the new direction. */
  function Turn(current: Dir, requested: Dir): (d: Dir)
    ensures requested == Opposite(current) ==> d == current
    ensures requested != Opposite(current) ==> d == requested
  {
    var d1 := if requested == Up && current != Down then Up else current;
    var d2 := if requested == Down && d1 != Up then Down else d1;
    var d3 := if requested == Left && d2 != Right then Left else d2;
    if requested == Right && d3 != Left then Right else d3
  }

  /** The head moves exactly one cell along the axis of `d`, in the sense
      of `d`; the other coordinate is unchanged. */
  function Move(p: Point, d: Dir): (q: Point)
    ensures Horizontal(d) ==> q.y == p.y && (q.x - p.x == Cell || p.x - q.x == Cell)
    ensures !Horizontal(d) ==> q.x == p.x && (q.y - p.y == Cell || p.y - q.y == Cell)
    ensures d == Up ==> q.y < p.y
    ensures d == Down ==> q.y > p.y
    ensures d == Left ==> q.x < p.x
    ensures d == Right ==> q.x > p.x
  {
    match d
    case Up => p.(y := p.y - Cell)
    case Down => p.(y := p.y + Cell)
    case Left => p.(x := p.x - Cell)
    case Right => p.(x := p.x + Cell)
  }

  /** Inside the play area: the wall test of the main loop fails. */
  predicate InArea(p: Point)
  {
    AreaLeft <= p.x < AreaRight && AreaTop <= p.y < AreaBottom
  }

  /** The cells `randrange(left + 10, right, 10)` x `randrange(top + 10,
      bottom, 10)` can produce. */
  predicate OnFruitGrid(p: Point)
  {
    && AreaLeft + Cell <= p.x < AreaRight && (p.x - (AreaLeft + Cell)) % Cell == 0
    && AreaTop + Cell <= p.y < AreaBottom && (p.y - (AreaTop + Cell)) % Cell == 0
  }

  predicate OnGrid(p: Point)
  {
    p.x % Cell == 0 && p.y % Cell == 0
  }

  /** The head equals a body segment after index 0. */
  predicate HitsBody(head: Point, body: seq<Point>)
  {
    exists i :: 1 <= i < |body| && body[i] == head
  }

  /** The direction request left in `change_to` after the events, when
      none of them is Escape: the last arrow key, or the previous request. */
  function LastArrow(events: seq<Event>, previous: Dir): (d: Dir)
    ensures d == previous || Arrow(d) in events
    ensures (forall e | e in events :: !e.Arrow?) ==> d == previous
    decreases |events|
  {
    if events == [] then previous
    else match events[|events| - 1]
      case Arrow(k) => k
      case _ => LastArrow(events[..|events| - 1], previous)
  }

  /** When some event is an arrow key, the request is the key of the last
      arrow event: later arrow events overwrite earlier ones. */
  lemma {:induction false} LastArrowIsLast(events: seq<Event>, previous: Dir)
    requires exists i :: 0 <= i < |events| && events[i].Arrow?
    ensures exists i :: 0 <= i < |events| && events[i] == Arrow(LastArrow(events, previous)) &&
              forall j :: i < j < |events| ==> !events[j].Arrow?
    decreases |events|
  {
    var n := |events| - 1;
    if events[n].Arrow? {
      assert events[n] == Arrow(LastArrow(events, previous));
    } else {
      var front := events[..n];
      var k :| 0 <= k < |events| && events[k].Arrow?;
      assert k < n && front[k] == events[k];
      LastArrowIsLast(front, previous);
      var i :| 0 <= i < |front| && front[i] == Arrow(LastArrow(front, previous)) &&
               forall j :: i < j < |front| ==> !front[j].Arrow?;
      assert events[i] == front[i];
      assert forall j :: i < j < |events| ==> !events[j].Arrow? by {
        forall j | i < j < |events| ensures !events[j].Arrow? {
          if j < n { assert events[j] == front[j]; }
        }
      }
    }
  }

  /** The state before the first frame; `spawn` is the first fruit draw. */
  function Initial(spawn: Point): State
  {
    State(Right, Right, Point(100, TopMargin + 10),
          [Point(100, TopMargin + 10), Point(90, TopMargin + 10),
           Point(80, TopMargin + 10), Point(70, TopMargin + 10)],
          spawn, 0, 1, InitialSpeed, Running)
  }

  /** The movement half of a frame, for the request `changeTo`: turn, move
      the head, insert it at index 0, then either score and respawn the
      fruit from `spawn` or pop the tail. */
  function Advance(s: State, changeTo: Dir, spawn: Point): State
  {
    var direction := Turn(s.direction, changeTo);
    var head := Move(s.head, direction);
    var grown := [head] + s.body;
    var ate := head == s.fruit;
    var body := if ate then grown else grown[..|grown| - 1];
    var score := if ate then s.score + FruitScore else s.score;
    var fruit := if ate then spawn else s.fruit;
    s.(direction := direction, changeTo := changeTo, head := head, body := body,
       score := score, fruit := fruit)
  }

  /** The checks that close a frame: a wall or self collision ends the
      game, otherwise reaching level * 30 points raises level and speed. */
  function Settle(m: State): State
  {
    if !InArea(m.head) || HitsBody(m.head, m.body) then m.(status := GameOver)
    else if m.score >= m.level * LevelScore then
      m.(level := m.level + 1, speed := m.speed + SpeedStep)
    else m
  }

  /** One pass of the main loop. `spawn` is the fruit draw used if the
      fruit is eaten in this frame. */
  function Step(s: State, events: seq<Event>, spawn: Point): State
    requires s.status == Running
  {
    if Escape in events then s.(status := Quit)
    else Settle(Advance(s, LastArrow(events, s.changeTo), spawn))
  }

  /** What holds of every state the game reaches. */
  ghost predicate Inv(s: State)
  {
    && s.score >= 0 && s.score % FruitScore == 0
    && |s.body| == InitialLength + s.score / FruitScore
    && s.body[0] == s.head
    && OnGrid(s.head)
    && OnFruitGrid(s.fruit)
    && s.level >= 1
    && s.speed == InitialSpeed + SpeedStep * (s.level - 1)
    && (s.status == Running ==>
          && s.level == s.score / LevelScore + 1
          && InArea(s.head)
          && !HitsBody(s.head, s.body))
  }

  lemma InitialInv(spawn: Point)
    requires OnFruitGrid(spawn)
    ensures Inv(Initial(spawn))
  {
  }

  /** The level counter follows the score: crossing a 30-point threshold
      by one fruit raises the level by exactly one. */
  lemma LevelTracksScore(score: int, level: int)
    requires score >= 0 && score % FruitScore == 0 && level == score / LevelScore + 1
    ensures (score + FruitScore >= level * LevelScore) ==
            (score + FruitScore == level * LevelScore)
    ensures score + FruitScore >= level * LevelScore ==>
              level + 1 == (score + FruitScore) / LevelScore + 1
    ensures score + FruitScore < level * LevelScore ==>
              level == (score + FruitScore) / LevelScore + 1
    ensures score < level * LevelScore
  {
  }

  lemma {:induction false} StepKeepsInv(s: State, events: seq<Event>, spawn: Point)
    requires Inv(s) && s.status == Running && OnFruitGrid(spawn)
    ensures Inv(Step(s, events, spawn))
  {
    if Escape !in events {
      LevelTracksScore(s.score, s.level);
      var t := Step(s, events, spawn);
      var head := Move(s.head, Turn(s.direction, LastArrow(events, s.changeTo)));
      assert t.head == head;
      assert OnGrid(head);
      if head == s.fruit {
        assert (s.score + FruitScore) / FruitScore == s.score / FruitScore + 1;
      }
    }
  }

  /** Step when no event is Escape: the requested direction is taken
      unless it reverses the current one. */
  lemma StepTurns(s: State, events: seq<Event>, spawn: Point)
    requires s.status == Running && Escape !in events
    ensures var req := LastArrow(events, s.changeTo);
            Step(s, events, spawn).direction ==
              (if req == Opposite(s.direction) then s.direction else req)
  {
  }

  /** Escape ends the game at once and leaves everything else unchanged. */
  lemma StepQuits(s: State, events: seq<Event>, spawn: Point)
    requires s.status == Running && Escape in events
    ensures Step(s, events, spawn) == s.(status := Quit)
  {
  }

  /** The head moves one cell along the axis of the new direction and the
      new head becomes element 0 of the body; the rest of the body is the
      old body, without its tail unless the fruit was eaten. */
  lemma StepMovesHead(s: State, events: seq<Event>, spawn: Point)
    requires s.status == Running && Escape !in events && |s.body| >= 1
    ensures var t := Step(s, events, spawn);
            && (Horizontal(t.direction) ==> t.head.y == s.head.y && (t.head.x - s.head.x == Cell || s.head.x - t.head.x == Cell))
            && (!Horizontal(t.direction) ==> t.head.x == s.head.x && (t.head.y - s.head.y == Cell || s.head.y - t.head.y == Cell))
            && |t.body| >= 1 && t.body[0] == t.head
            && t.body[1..] == (if t.head == s.fruit then s.body else s.body[..|s.body| - 1])
  {
    var t := Step(s, events, spawn);
    var d := Turn(s.direction, LastArrow(events, s.changeTo));
    var head := Move(s.head, d);
    var grown := [head] + s.body;
    assert t.direction == d && t.head == head;
    assert t.body == (if head == s.fruit then grown else grown[..|grown| - 1]);
    assert grown[1..] == s.body;
    assert grown[..|grown| - 1][1..] == s.body[..|s.body| - 1];
  }

  /** Eating: the head lands on the fruit exactly when the score rises by
      10 and the body grows by one; otherwise score and length are kept. */
  lemma StepGrowth(s: State, events: seq<Event>, spawn: Point)
    requires s.status == Running && Escape !in events && |s.body| >= 1
    ensures var t := Step(s, events, spawn);
            && (t.head == s.fruit ==> t.score == s.score + FruitScore && |t.body| == |s.body| + 1 && t.fruit == spawn)
            && (t.head != s.fruit ==> t.score == s.score && |t.body| == |s.body| && t.fruit == s.fruit)
  {
  }

  /** The fruit always lies on the grid randrange can produce. */
  lemma StepFruitOnGrid(s: State, events: seq<Event>, spawn: Point)
    requires s.status == Running && OnFruitGrid(s.fruit) && OnFruitGrid(spawn)
    ensures OnFruitGrid(Step(s, events, spawn).fruit)
  {
  }

  /** The game ends in a frame exactly when the new head is outside the
      play area or on a body segment after index 0. */
  lemma StepEndsIff(s: State, events: seq<Event>, spawn: Point)
    requires s.status == Running && Escape !in events
    ensures var t := Step(s, events, spawn);
            t.status == GameOver <==> !InArea(t.head) || HitsBody(t.head, t.body)
    ensures Step(s, events, spawn).status != Quit
  {
  }

  /** In a frame that keeps the game running, the level rises by exactly
      one and the speed by 5 when the score reaches level * 30, and they
      are kept otherwise; the level never decreases. */
  lemma StepLevelUp(s: State, events: seq<Event>, spawn: Point)
    requires s.status == Running
    ensures var t := Step(s, events, spawn);
            && t.level >= s.level
            && (t.status == Running && Escape !in events ==>
                  && (t.score >= s.level * LevelScore ==> t.level == s.level + 1 && t.speed == s.speed + SpeedStep)
                  && (t.score < s.level * LevelScore ==> t.level == s.level && t.speed == s.speed))
  {
  }

  /** One frame of input: the polled events and the fruit draw. */
  datatype Frame = Frame(events: seq<Event>, spawn: Point)

  predicate FruitDraws(frames: seq<Frame>)
  {
    forall i :: 0 <= i < |frames| ==> OnFruitGrid(frames[i].spawn)
  }

  /** The main loop run over a sequence of frames, stopping once the game
      has ended. */
  function Run(s: State, frames: seq<Frame>): State
    decreases |frames|
  {
    if frames == [] || s.status != Running then s
    else Run(Step(s, frames[0].events, frames[0].spawn), frames[1..])
  }

  lemma {:induction false} RunKeepsInv(s: State, frames: seq<Frame>)
    requires Inv(s) && FruitDraws(frames)
    ensures Inv(Run(s, frames))
    decreases |frames|
  {
    if frames != [] && s.status == Running {
      StepKeepsInv(s, frames[0].events, frames[0].spawn);
      RunKeepsInv(Step(s, frames[0].events, frames[0].spawn), frames[1..]);
    }
  }

  /** Over any number of frames the level and the score never decrease. */
  lemma {:induction false} RunMonotone(s: State, frames: seq<Frame>)
    ensures Run(s, frames).level >= s.level
    ensures Run(s, frames).score >= s.score
    decreases |frames|
  {
    if frames != [] && s.status == Running {
      var t := Step(s, frames[0].events, frames[0].spawn);
      assert t.level >= s.level && t.score >= s.score;
      RunMonotone(t, frames[1..]);
    }
  }

  /** The event loop at the top of each frame: arrow keys overwrite the
      request, Escape ends the program at once, other events are ignored. */
  method PollEvents(events: seq<Event>, previous: Dir) returns (changeTo: Dir, quit: bool)
    ensures quit <==> Escape in events
    ensures !quit ==> changeTo == LastArrow(events, previous)
  {
    changeTo := previous;
    var i := 0;
    while i < |events|
      invariant 0 <= i <= |events|
      invariant Escape !in events[..i]
      invariant changeTo == LastArrow(events[..i], previous)
    {
      assert events[..i + 1][..i] == events[..i];
      if events[i] == Escape {
        return changeTo, true;
      } else if events[i].Arrow? {
        changeTo := events[i].key;
      }
      i := i + 1;
    }
    assert events[..i] == events;
    quit := false;
  }

  /** The self-collision loop over `snake_body[1:]`; game_over() stops it at
      the first hit. */
  method HitsSelf(head: Point, body: seq<Point>) returns (hit: bool)
    ensures hit <==> HitsBody(head, body)
  {
    var i := 1;
    while i < |body|
      invariant 1 <= i <= |body| || (|body| == 0 && i == 1)
      invariant forall j :: 1 <= j < i && j < |body| ==> body[j] != head
    {
      if body[i] == head {
        return true;
      }
      i := i + 1;
    }
    hit := false;
  }

  class Game {
    var direction: Dir
    var changeTo: Dir
    var head: Point
    var body: seq<Point>
    var fruit: Point
    var score: int
    var level: int
    var speed: int
    var status: Status

    function Snapshot(): State
      reads this
    {
      State(direction, changeTo, head, body, fruit, score, level, speed, status)
    }

    ghost predicate Valid()
      reads this
    {
      Inv(Snapshot())
    }

    /** The module-level initialisation; `spawn` is the first fruit draw. */
    constructor (spawn: Point)
      requires OnFruitGrid(spawn)
      ensures Snapshot() == Initial(spawn)
      ensures Valid()
    {
      direction := Right;
      changeTo := Right;
      head := Point(100, TopMargin + 10);
      body := [Point(100, TopMargin + 10), Point(90, TopMargin + 10),
               Point(80, TopMargin + 10), Point(70, TopMargin + 10)];
      fruit := spawn;
      score := 0;
      level := 1;
      speed := InitialSpeed;
      status := Running;
      new;
      InitialInv(spawn);
    }

    /** Lines 125-159 of a frame for the request `changeTo`: turn, move,
        insert the head, then score and respawn the fruit or pop the tail. */
    method AdvanceSnake(request: Dir, spawn: Point)
      modifies this
      ensures Snapshot() == Advance(old(Snapshot()), request, spawn)
    {
      changeTo := request;
      direction := Turn(direction, changeTo);
      head := Move(head, direction);
      body := [head] + body;
      var fruitSpawn := true;
      if head == fruit {
        score := score + FruitScore;
        fruitSpawn := false;
      } else {
        body := body[..|body| - 1];
      }
      if !fruitSpawn {
        fruit := spawn;
      }
    }

    /** One pass of the main loop, updating the game's variables in place. */
    method Tick(events: seq<Event>, spawn: Point)
      requires Valid() && status == Running && OnFruitGrid(spawn)
      modifies this
      ensures Snapshot() == Step(old(Snapshot()), events, spawn)
      ensures Valid()
    {
      ghost var s := Snapshot();
      StepKeepsInv(s, events, spawn);
      var request, quit := PollEvents(events, changeTo);
      if quit {
        status := Quit;
        return;
      }
      AdvanceSnake(request, spawn);

      if !InArea(head) {
        status := GameOver;
        return;
      }
      var hit := HitsSelf(head, body);
      if hit {
        status := GameOver;
        return;
      }

      if score >= level * LevelScore {
        level := level + 1;
        speed := speed + SpeedStep;
      }
    }
  }
}
