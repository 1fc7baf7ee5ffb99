/** The maze game of the 404 page: its board, and the simulation that moves the player and the ghosts over it. */
module Maze {
  // '#' wall, '.' dot, 'o' power pellet, 'P' player start, 'G' ghost start
  const MAZE: seq<string> := [
    "###################",
    "#o.......#.......o#",
    "#.##.###.#.###.##.#",
    "#.......G.G.......#",
    "#.##.#.#####.#.##.#",
    "#....#...#...#....#",
    "####.###.#.###.####",
    "#.................#",
    "#.##.#.#####.#.##.#",
    "#....#...P...#....#",
    "#.##.###.#.###.##.#",
    "#o.......#.......o#",
    "###################"]

  const COLS: int := 19
  const ROWS: int := 13

  const PAC_SPEED := 6.5
  const GHOST_SPEED := 5.2
  const FRIGHT_SPEED := 3.2
  const FRIGHT_MS := 6000.0
  const READY_MS := 1200.0
  const RESUME_MS := 400.0
  const START_LIVES: int := 3

  function Cell(x: int, y: int): char {
    if 0 <= y < |MAZE| && 0 <= x < |MAZE[y]| then MAZE[y][x] else '#'
  }

  predicate InBoard(x: int, y: int) {
    0 <= x < COLS && 0 <= y < ROWS
  }

  predicate IsWall(x: int, y: int) {
    !InBoard(x, y) || Cell(x, y) == '#'
  }

  datatype Dir = Dir(x: int, y: int)

  const NONE := Dir(0, 0)
  const UP := Dir(0, -1)
  const DOWN := Dir(0, 1)
  const LEFT := Dir(-1, 0)
  const RIGHT := Dir(1, 0)

  predicate IsDir(d: Dir) {
    d == UP || d == DOWN || d == LEFT || d == RIGHT
  }

  predicate IsOpen(x: int, y: int, d: Dir) {
    d != NONE && !IsWall(x + d.x, y + d.y)
  }

  predicate Opposite(a: Dir, b: Dir) {
    a.x == -b.x && a.y == -b.y && a != NONE
  }

  /** An actor: the tile it leaves, its progress towards the next one, and its direction. */
  datatype Pac = Pac(tx: int, ty: int, t: real, dir: Dir, want: Dir, facing: Dir)

  datatype Ghost = Ghost(tx: int, ty: int, t: real, dir: Dir, homeX: int, homeY: int, chase: real, eaten: bool)

  /** On an open tile, between it and the next, and on the way only to an open tile. */
  predicate Standing(tx: int, ty: int, t: real, dir: Dir) {
    && !IsWall(tx, ty)
    && 0.0 <= t < 1.0
    && (dir == NONE || (IsDir(dir) && IsOpen(tx, ty, dir)))
  }

  predicate PacStands(p: Pac) {
    && Standing(p.tx, p.ty, p.t, p.dir)
    && (p.dir == NONE ==> p.t == 0.0)
    && (p.want == NONE || IsDir(p.want))
  }

  predicate GhostStands(g: Ghost) {
    Standing(g.tx, g.ty, g.t, g.dir) && !IsWall(g.homeX, g.homeY)
  }

  /** A dot, a pellet or nothing, as the maze says. */
  function FreshDot(i: int): int {
    if Cell(i % COLS, i / COLS) == '.' then 1 else if Cell(i % COLS, i / COLS) == 'o' then 2 else 0
  }

  function FreshDots(): (dots: seq<int>)
    ensures |dots| == COLS * ROWS && forall i | 0 <= i < |dots| :: 0 <= dots[i] <= 2
  {
    seq(COLS * ROWS, i requires 0 <= i => FreshDot(i))
  }

  /** A fresh board has a dot where the maze has one, a pellet where it has one, and nothing elsewhere. */
  lemma FreshDotsExact(x: nat, y: nat)
    requires x < COLS && y < ROWS
    ensures var i := y * COLS + x;
            && i < COLS * ROWS
            && (FreshDots()[i] == 1 <==> Cell(x, y) == '.')
            && (FreshDots()[i] == 2 <==> Cell(x, y) == 'o')
            && (FreshDots()[i] == 0 <==> Cell(x, y) !in {'.', 'o'})
  {
    hide Cell;
    var i := y * COLS + x;
    assert i / COLS == y && i % COLS == x;
    assert FreshDots()[i] == FreshDot(i);
  }

  /** How many cells hold `v`. */
  function Count(dots: seq<int>, v: int): nat {
    if dots == [] then 0 else Count(dots[..|dots| - 1], v) + if dots[|dots| - 1] == v then 1 else 0
  }

  lemma {:induction false} CountUpdate(dots: seq<int>, i: nat, v: int, w: int)
    requires i < |dots|
    ensures Count(dots[i := w], v) == Count(dots, v) - (if dots[i] == v then 1 else 0) + (if w == v then 1 else 0)
  {
    var last := |dots| - 1;
    if i < last {
      CountUpdate(dots[..last], i, v, w);
      assert dots[i := w][..last] == dots[..last][i := w];
    } else {
      assert dots[i := w][..last] == dots[..last];
    }
  }

  /** The marks in the maze: where the player and the two ghosts start. */
  lemma StartsAreMarked()
    ensures Cell(9, 9) == 'P' && Cell(8, 3) == 'G' && Cell(10, 3) == 'G'
    ensures Cell(7, 3) == '.' && Cell(11, 3) == '.'
  {
  }

  function StartPac(): Pac {
    Pac(9, 9, 0.0, NONE, NONE, LEFT)
  }

  /** `makeActors`: the first ghost chases and sets off to the left, the second mostly wanders. */
  function StartGhosts(): seq<Ghost> {
    [Ghost(8, 3, 0.0, LEFT, 8, 3, 0.8, false), Ghost(10, 3, 0.0, RIGHT, 10, 3, 0.35, false)]
  }

  /** The actors start on their marks. */
  lemma StartsExact()
    ensures Cell(StartPac().tx, StartPac().ty) == 'P' && StartPac().dir == NONE && StartPac().t == 0.0
    ensures |StartGhosts()| == 2 && StartGhosts()[0] != StartGhosts()[1]
    ensures forall g | g in StartGhosts() ::
              Cell(g.tx, g.ty) == 'G' && g.homeX == g.tx && g.homeY == g.ty && g.t == 0.0 && !g.eaten
  {
    StartsAreMarked();
    hide Cell;
  }

  lemma StartsStand()
    ensures PacStands(StartPac())
    ensures forall g | g in StartGhosts() :: GhostStands(g)
  {
    StartsAreMarked();
    hide Cell;
  }

  /** Where a moving actor is drawn: between its tile and the next. */
  function Along(tile: int, d: int, t: real): real {
    tile as real + d as real * t
  }

  function Distance(a: real, b: real): real {
    if a < b then b - a else a - b
  }

  /** Close enough to collide. */
  predicate Touches(g: Ghost, p: Pac) {
    Distance(Along(g.tx, g.dir.x, g.t), Along(p.tx, p.dir.x, p.t))
    + Distance(Along(g.ty, g.dir.y, g.t), Along(p.ty, p.dir.y, p.t)) < 0.7
  }

  /** Two actors touch when the places they are drawn at are less than 0.7 tiles apart, counted along the corridors. */
  lemma TouchesExact(g: Ghost, p: Pac)
    ensures var dx := g.tx as real + g.dir.x as real * g.t - (p.tx as real + p.dir.x as real * p.t);
            var dy := g.ty as real + g.dir.y as real * g.t - (p.ty as real + p.dir.y as real * p.t);
            Touches(g, p) <==> (if dx < 0.0 then -dx else dx) + (if dy < 0.0 then -dy else dy) < 0.7
  {
    hide Distance;
    var gx, gy := Along(g.tx, g.dir.x, g.t), Along(g.ty, g.dir.y, g.t);
    var px, py := Along(p.tx, p.dir.x, p.t), Along(p.ty, p.dir.y, p.t);
    assert gx == g.tx as real + g.dir.x as real * g.t && gy == g.ty as real + g.dir.y as real * g.t;
    assert px == p.tx as real + p.dir.x as real * p.t && py == p.ty as real + p.dir.y as real * p.t;
    hide Along;
    DistanceExact(gx, px);
    DistanceExact(gy, py);
  }

  lemma DistanceExact(a: real, b: real)
    ensures Distance(a, b) == if a - b < 0.0 then -(a - b) else a - b
  {
  }

  /** A ghost that is not frightened, or was eaten already, costs a life when it touches the player. */
  predicate Kills(g: Ghost, p: Pac, frightened: bool) {
    Touches(g, p) && !(frightened && !g.eaten)
  }

  function SentHome(g: Ghost): Ghost {
    g.(eaten := true, tx := g.homeX, ty := g.homeY, t := 0.0, dir := NONE)
  }

  /** How many ghosts touch the player. */
  function Touching(ghosts: seq<Ghost>, p: Pac): nat {
    if ghosts == [] then 0
    else Touching(ghosts[..|ghosts| - 1], p) + if Touches(ghosts[|ghosts| - 1], p) then 1 else 0
  }

  /** One frame of a ghost: on its way it keeps its direction, and what it gains is its speed. */
  predicate Advances(g: Ghost, after: Ghost, frightened: bool, dt: real) {
    var t := g.t + (if frightened then FRIGHT_SPEED else GHOST_SPEED) * dt;
    && after.homeX == g.homeX && after.homeY == g.homeY && after.eaten == g.eaten && after.chase == g.chase
    && (t < 1.0 ==> after == g.(t := t, dir := if g.t > 0.0 then g.dir else after.dir))
    && (g.t > 0.0 && 1.0 <= t < 2.0 ==> after.tx == g.tx + g.dir.x && after.ty == g.ty + g.dir.y && after.t == t - 1.0)
  }

  // ---- the choice of a ghost's direction ----

  function Exits(x: int, y: int, avoid: Dir, dirs: seq<Dir>): (exits: seq<Dir>)
    requires forall d | d in dirs :: IsDir(d)
    ensures forall d :: d in exits <==> d in dirs && IsOpen(x, y, d) && !Opposite(d, avoid)
  {
    if dirs == [] then []
    else (if IsOpen(x, y, dirs[0]) && !Opposite(dirs[0], avoid) then [dirs[0]] else []) + Exits(x, y, avoid, dirs[1..])
  }

  /** The ways on from a tile that do not lead back; every open way where there is no such way. */
  function Ways(x: int, y: int, dir: Dir): (ways: seq<Dir>)
    ensures forall d | d in ways :: IsDir(d) && IsOpen(x, y, d)
    ensures forall d | d in ways && Opposite(d, dir) :: forall e | IsDir(e) && IsOpen(x, y, e) :: Opposite(e, dir)
    ensures ways == [] ==> forall e | IsDir(e) :: !IsOpen(x, y, e)
  {
    hide Cell;
    assert forall e :: e in DIRS <==> IsDir(e);
    var ahead := Exits(x, y, dir, DIRS);
    if ahead != [] then ahead else Exits(x, y, NONE, DIRS)
  }

  /** Squared distance to the player's tile after one step; a frightened ghost wants it large. */
  function Cost(gx: int, gy: int, px: int, py: int, frightened: bool, d: Dir): int {
    var dx, dy := gx + d.x - px, gy + d.y - py;
    if frightened then -(dx * dx + dy * dy) else dx * dx + dy * dy
  }

  function Square(n: int): int {
    n * n
  }

  /** The first option of least cost: the head of the stably sorted options. */
  function Cheapest(gx: int, gy: int, px: int, py: int, frightened: bool, options: seq<Dir>): (best: Dir)
    requires options != []
    ensures best in options
    ensures forall d | d in options :: Cost(gx, gy, px, py, frightened, best) <= Cost(gx, gy, px, py, frightened, d)
  {
    if |options| == 1 then options[0]
    else
      var rest := Cheapest(gx, gy, px, py, frightened, options[1..]);
      if Cost(gx, gy, px, py, frightened, options[0]) <= Cost(gx, gy, px, py, frightened, rest) then options[0]
      else rest
  }

  /** No other way leads nearer to the player's tile or, for a frightened ghost, farther from it. */
  predicate Hunts(gx: int, gy: int, px: int, py: int, frightened: bool, d: Dir, ways: seq<Dir>) {
    forall e | e in ways ::
      var near, far := Square(gx + d.x - px) + Square(gy + d.y - py), Square(gx + e.x - px) + Square(gy + e.y - py);
      if frightened then far <= near else near <= far
  }

  lemma CheapestHunts(gx: int, gy: int, px: int, py: int, frightened: bool, options: seq<Dir>)
    requires options != []
    ensures Hunts(gx, gy, px, py, frightened, Cheapest(gx, gy, px, py, frightened, options), options)
  {
  }

  /** `Math.random`. */
  method Random() returns (r: real)
    ensures 0.0 <= r < 1.0
  {
    r := *;
    if r < 0.0 || 1.0 <= r {
      r := 0.0;
    }
  }

  /** A pellet makes eaten ghosts edible again. */
  function Calmed(ghosts: seq<Ghost>): (calmed: seq<Ghost>)
    ensures |calmed| == |ghosts| && forall i | 0 <= i < |calmed| :: calmed[i] == ghosts[i].(eaten := false)
  {
    if ghosts == [] then [] else [ghosts[0].(eaten := false)] + Calmed(ghosts[1..])
  }

  /** Turning round in the middle of a corridor does not move the player. */
  lemma ReversalKeepsPlace(tile: int, d: int, t: real)
    requires -1 <= d <= 1
    ensures Along(tile + d, -d, 1.0 - t) == Along(tile, d, t)
  {
  }

  /** Instant reversal between two tiles. */
  function Reversed(p: Pac): Pac {
    if p.t > 0.0 && Opposite(p.want, p.dir)
    then p.(tx := p.tx + p.dir.x, ty := p.ty + p.dir.y, t := 1.0 - p.t, dir := p.want, facing := p.want)
    else p
  }

  /** The turn at a tile's centre: the wanted way, else straight on, else a stop. */
  function Turned(p: Pac): Pac {
    if p.t != 0.0 then p
    else
      var d := if IsOpen(p.tx, p.ty, p.want) then p.want else if IsOpen(p.tx, p.ty, p.dir) then p.dir else NONE;
      p.(dir := d, facing := if d != NONE then d else p.facing)
  }

  /** Half-way to an open tile, the way back is open too. */
  lemma ReversalStands(p: Pac)
    requires PacStands(p) && p.t > 0.0 && Opposite(p.want, p.dir)
    ensures p.t < 1.0 && p.want.x == -p.dir.x && p.want.y == -p.dir.y && -1 <= p.dir.x <= 1 && -1 <= p.dir.y <= 1
    ensures PacStands(p.(tx := p.tx + p.dir.x, ty := p.ty + p.dir.y, t := 1.0 - p.t, dir := p.want, facing := p.want))
  {
    hide IsWall;
  }

  /** The position among `n` that a draw from [0, 1) picks. */
  function IndexAt(draw: real, n: nat): (i: nat)
    requires 0.0 <= draw < 1.0 && 0 < n
    ensures i < n && i as real <= draw * n as real < i as real + 1.0
  {
    assert (1.0 - draw) * n as real > 0.0 && draw * n as real >= 0.0;
    (draw * n as real).Floor
  }

  const DIRS: seq<Dir> := [UP, LEFT, DOWN, RIGHT]

  datatype Phase = Idle | Ready | Playing | Paused | Won | Lost

  class Game {
    var phase: Phase
    var dots: array<int>
    var remaining: int
    var score: int
    var lives: int
    var frightUntil: real
    var readyUntil: real
    var clock: real
    var pac: Pac
    var ghosts: seq<Ghost>
    /** Ghosts eaten in this round. */
    ghost var caught: nat

    /** The score is what was eaten since the round began, and `remaining` is what is left on the board. */
    ghost predicate Tallied()
      reads this`dots, this`remaining, this`score, this`caught, dots
    {
      && dots.Length == COLS * ROWS
      && (forall i | 0 <= i < dots.Length :: 0 <= dots[i] <= 2)
      && remaining == Count(dots[..], 1) + Count(dots[..], 2)
      && score == 10 * (Count(FreshDots(), 1) - Count(dots[..], 1)) + 50 * (Count(FreshDots(), 2) - Count(dots[..], 2))
            + 200 * caught
    }

    ghost predicate GhostsStand()
      reads this`ghosts
    {
      forall i | 0 <= i < |ghosts| :: GhostStands(ghosts[i])
    }

    ghost predicate ActorsStand()
      reads this`pac, this`ghosts
    {
      PacStands(pac) && GhostsStand()
    }

    ghost predicate Valid()
      reads this, dots
    {
      && Tallied()
      && ActorsStand()
      && 0 <= lives <= START_LIVES
      && (phase == Lost <==> lives == 0)
      && (phase == Won ==> remaining <= 0)
    }

    constructor ()
      ensures Valid() && phase == Idle && fresh(dots)
    {
      StartsStand();
      dots := new int[COLS * ROWS](i requires 0 <= i < COLS * ROWS => FreshDots()[i]);
      phase, score, lives, caught := Idle, 0, START_LIVES, 0;
      frightUntil, readyUntil, clock := 0.0, 0.0, 0.0;
      pac, ghosts := StartPac(), StartGhosts();
      new;
      assert dots[..] == FreshDots();
      remaining := CountLeft();
    }

    /** Number of non-empty cells, summed over the array. */
    method CountLeft() returns (n: nat)
      requires forall i | 0 <= i < dots.Length :: 0 <= dots[i] <= 2
      ensures n == Count(dots[..], 1) + Count(dots[..], 2)
    {
      n := 0;
      for i := 0 to dots.Length
        invariant n == Count(dots[..i], 1) + Count(dots[..i], 2)
      {
        assert dots[..i + 1][..i] == dots[..i];
        if dots[i] != 0 {
          n := n + 1;
        }
      }
      assert dots[..dots.Length] == dots[..];
    }

    /** `resetLevel`. */
    method ResetLevel()
      modifies this
      ensures Tallied() && ActorsStand() && fresh(dots) && lives == START_LIVES && score == 0 && caught == 0
      ensures phase == old(phase) && clock == old(clock)
      ensures pac == StartPac() && ghosts == StartGhosts() && frightUntil == 0.0
    {
      StartsStand();
      dots := new int[COLS * ROWS](i requires 0 <= i < COLS * ROWS => FreshDots()[i]);
      assert dots[..] == FreshDots();
      remaining := CountLeft();
      score, lives, frightUntil, caught := 0, START_LIVES, 0.0, 0;
      pac, ghosts := StartPac(), StartGhosts();
    }

    /** `start`: a new round, or the paused one goes on. */
    method Start()
      requires Valid()
      modifies this
      ensures Valid() && phase == Ready && (dots == old(dots) || fresh(dots))
      ensures old(phase) in {Idle, Won, Lost} ==> score == 0 && lives == START_LIVES
      ensures old(phase) !in {Idle, Won, Lost} ==>
                score == old(score) && lives == old(lives) && remaining == old(remaining) && pac == old(pac)
                    && ghosts == old(ghosts)
    {
      if phase == Idle || phase == Won || phase == Lost {
        ResetLevel();
      }
      readyUntil := clock + if phase == Paused then RESUME_MS else READY_MS;
      phase := Ready;
    }

    /** `loseLife`. */
    method LoseLife()
      requires Tallied() && ActorsStand() && phase == Playing && 1 <= lives <= START_LIVES
      modifies this`lives, this`phase, this`pac, this`ghosts, this`frightUntil, this`readyUntil
      ensures Valid() && lives == old(lives) - 1
      ensures phase == if lives == 0 then Lost else Ready
      ensures lives != 0 ==> pac == StartPac() && ghosts == StartGhosts() && frightUntil == 0.0
    {
      lives := lives - 1;
      if lives <= 0 {
        phase := Lost;
        return;
      }
      StartsStand();
      pac, ghosts := StartPac(), StartGhosts();
      frightUntil := 0.0;
      readyUntil := clock + READY_MS;
      phase := Ready;
    }

    /** Eat what lies on the tile just reached. */
    method Eat(tx: int, ty: int)
      requires Tallied() && GhostsStand() && !IsWall(tx, ty)
      modifies this`remaining, this`score, this`frightUntil, this`ghosts, dots
      ensures Tallied() && GhostsStand() && dots[ty * COLS + tx] == 0
      ensures var d := old(dots[ty * COLS + tx]);
              && score == old(score) + (if d == 2 then 50 else if d == 1 then 10 else 0)
              && remaining == old(remaining) - (if d == 0 then 0 else 1)
      ensures forall i | 0 <= i < dots.Length && i != ty * COLS + tx :: dots[i] == old(dots[i])
      ensures ghosts == if old(dots[ty * COLS + tx]) == 2 then Calmed(old(ghosts)) else old(ghosts)
      ensures frightUntil == if old(dots[ty * COLS + tx]) == 2 then clock + FRIGHT_MS else old(frightUntil)
    {
      hide FreshDots;
      var i := ty * COLS + tx;
      assert 0 <= i < COLS * ROWS;
      var d := dots[i];
      if d != 0 {
        CountUpdate(dots[..], i, 1, 0);
        CountUpdate(dots[..], i, 2, 0);
        ghost var before := dots[..];
        dots[i] := 0;
        assert dots[..] == before[i := 0];
        remaining := remaining - 1;
        score := score + if d == 2 then 50 else 10;
        if d == 2 {
          frightUntil := clock + FRIGHT_MS;
          ghosts := Calmed(ghosts);
        }
      }
    }

    /** `stepPac`: reverse at once, turn at tile centres, eat on arrival. */
    method StepPac(dt: real)
      requires Tallied() && ActorsStand() && 0.0 <= dt
      modifies this`pac, this`remaining, this`score, this`frightUntil, this`ghosts, dots
      ensures Tallied() && ActorsStand() && pac.want == old(pac.want)
      // between two centres it moves by exactly its speed and nothing else happens
      ensures var p := Turned(Reversed(old(pac)));
              p.dir == NONE || p.t + PAC_SPEED * dt < 1.0 ==>
                && pac == (if p.dir == NONE then p else p.(t := p.t + PAC_SPEED * dt))
                && dots[..] == old(dots[..]) && ghosts == old(ghosts) && frightUntil == old(frightUntil)
      // reaching the next centre it is on that tile, which is now empty
      ensures var p := Turned(Reversed(old(pac)));
              p.dir != NONE && 1.0 <= p.t + PAC_SPEED * dt < 2.0 ==>
                && pac.tx == p.tx + p.dir.x && pac.ty == p.ty + p.dir.y
                && dots[..] == old(dots[..])[pac.ty * COLS + pac.tx := 0]
                && pac.t == if pac.dir == NONE then 0.0 else p.t + PAC_SPEED * dt - 1.0
    {
      hide Cell, FreshDots;
      Reverse();
      TurnAtCentre();
      ghost var p := pac;
      if pac.dir == NONE {
        return;
      }
      pac := pac.(t := pac.t + PAC_SPEED * dt);
      ghost var arrivals := 0;
      while pac.t >= 1.0
        invariant Tallied() && GhostsStand()
        invariant !IsWall(pac.tx, pac.ty) && 0.0 <= pac.t && pac.want == old(pac.want)
        invariant if pac.dir == NONE then pac.t == 0.0 else IsDir(pac.dir) && IsOpen(pac.tx, pac.ty, pac.dir)
        invariant 0 <= arrivals && (0 < arrivals ==> arrivals as real <= p.t + PAC_SPEED * dt)
        invariant pac.dir != NONE ==> pac.t == p.t + PAC_SPEED * dt - arrivals as real
        invariant arrivals == 0 ==>
                    && pac == p.(t := p.t + PAC_SPEED * dt)
                    && dots[..] == old(dots[..]) && ghosts == old(ghosts) && frightUntil == old(frightUntil)
        invariant arrivals == 1 ==>
                    && pac.tx == p.tx + p.dir.x && pac.ty == p.ty + p.dir.y
                    && dots[..] == old(dots[..])[pac.ty * COLS + pac.tx := 0]
        decreases pac.t.Floor
      {
        var stopped := Arrive();
        arrivals := arrivals + 1;
        if stopped {
          break;
        }
      }
    }

    /** The next tile's centre: eat what is there and go on, turn or stop. */
    method Arrive() returns (stopped: bool)
      requires Tallied() && GhostsStand() && 1.0 <= pac.t && IsDir(pac.dir) && IsOpen(pac.tx, pac.ty, pac.dir)
      requires !IsWall(pac.tx, pac.ty) && (pac.want == NONE || IsDir(pac.want))
      modifies this`pac, this`remaining, this`score, this`frightUntil, this`ghosts, dots
      ensures Tallied() && GhostsStand() && !IsWall(pac.tx, pac.ty) && pac.want == old(pac.want)
      ensures pac.tx == old(pac.tx + pac.dir.x) && pac.ty == old(pac.ty + pac.dir.y)
      ensures dots[..] == old(dots[..])[pac.ty * COLS + pac.tx := 0]
      ensures stopped <==> pac.dir == NONE
      ensures pac.dir
           == if IsOpen(pac.tx, pac.ty, pac.want) then pac.want
              else if IsOpen(pac.tx, pac.ty, old(pac).dir) then old(pac).dir
              else NONE
      ensures if stopped then pac.t == 0.0
              else pac.t == old(pac.t) - 1.0 && IsDir(pac.dir) && IsOpen(pac.tx, pac.ty, pac.dir)
    {
      hide Cell, FreshDots;
      ghost var before := dots[..];
      pac := pac.(tx := pac.tx + pac.dir.x, ty := pac.ty + pac.dir.y, t := pac.t - 1.0);
      assert 0 <= pac.ty * COLS + pac.tx < COLS * ROWS;
      Eat(pac.tx, pac.ty);
      assert dots[..] == before[pac.ty * COLS + pac.tx := 0];
      if IsOpen(pac.tx, pac.ty, pac.want) {
        pac := pac.(dir := pac.want);
      } else if !IsOpen(pac.tx, pac.ty, pac.dir) {
        pac := pac.(dir := NONE, t := 0.0);
        return true;
      }
      pac := pac.(facing := pac.dir);
      stopped := false;
    }

    /** Instant reversal in the middle of a corridor: the player stays where it is and heads back. */
    method Reverse()
      requires PacStands(pac)
      modifies this`pac
      ensures PacStands(pac) && pac == Reversed(old(pac))
      ensures if old(pac).t > 0.0 && Opposite(old(pac).want, old(pac).dir) then pac.dir == old(pac).want
              else pac == old(pac)
      ensures Along(pac.tx, pac.dir.x, pac.t) == old(Along(pac.tx, pac.dir.x, pac.t))
      ensures Along(pac.ty, pac.dir.y, pac.t) == old(Along(pac.ty, pac.dir.y, pac.t))
    {
      hide Along, PacStands;
      if pac.t > 0.0 && Opposite(pac.want, pac.dir) {
        ReversalStands(pac);
        ReversalKeepsPlace(pac.tx, pac.dir.x, pac.t);
        ReversalKeepsPlace(pac.ty, pac.dir.y, pac.t);
        pac := pac.(tx := pac.tx + pac.dir.x, ty := pac.ty + pac.dir.y, t := 1.0 - pac.t, dir := pac.want,
                    facing := pac.want);
      }
    }

    /** At a tile's centre: take the wanted way if it is open, keep going if that is, and stop otherwise. */
    method TurnAtCentre()
      requires PacStands(pac)
      modifies this`pac
      ensures PacStands(pac) && pac == Turned(old(pac))
      ensures pac.tx == old(pac).tx && pac.ty == old(pac).ty && pac.t == old(pac).t && pac.want == old(pac).want
      ensures pac.dir
           == if old(pac).t != 0.0 then old(pac).dir
              else if IsOpen(old(pac).tx, old(pac).ty, old(pac).want) then old(pac).want
              else if IsOpen(old(pac).tx, old(pac).ty, old(pac).dir) then old(pac).dir
              else NONE
    {
      hide Cell, Along;
      if pac.t == 0.0 {
        if IsOpen(pac.tx, pac.ty, pac.want) {
          pac := pac.(dir := pac.want);
        } else if !IsOpen(pac.tx, pac.ty, pac.dir) {
          pac := pac.(dir := NONE);
        }
        if pac.dir != NONE {
          pac := pac.(facing := pac.dir);
        }
      }
    }

    /** `chooseGhostDir`: an open way that is not back, or back at a dead end; chasing or at random, by two draws. */
    method ChooseGhostDir(g: Ghost, frightened: bool, r: real, s: real) returns (d: Dir)
      requires 0.0 <= r < 1.0 && 0.0 <= s < 1.0
      ensures d == NONE || (IsDir(d) && IsOpen(g.tx, g.ty, d))
      // it turns back only where there is no other way, and stops only where there is none at all
      ensures Opposite(d, g.dir) ==> forall e | IsDir(e) && IsOpen(g.tx, g.ty, e) :: Opposite(e, g.dir)
      ensures d == NONE <==> forall e | IsDir(e) :: !IsOpen(g.tx, g.ty, e)
      // a hunter takes no way that leaves it farther from the player than another; a frightened one none that
      // leaves it nearer
      ensures var ways := Ways(g.tx, g.ty, g.dir);
              ways != [] ==>
                && d in ways
                && (r < g.chase ==> Hunts(g.tx, g.ty, pac.tx, pac.ty, frightened, d, ways))
                && (r >= g.chase ==> d == ways[IndexAt(s, |ways|)])
    {
      hide IsOpen, Opposite, Hunts;
      var options := Ways(g.tx, g.ty, g.dir);
      if |options| == 0 {
        return NONE;
      }
      if r < g.chase {
        CheapestHunts(g.tx, g.ty, pac.tx, pac.ty, frightened, options);
        return Cheapest(g.tx, g.ty, pac.tx, pac.ty, frightened, options);
      }
      return options[IndexAt(s, |options|)];
    }

    /** The choice with the two draws made. */
    method Heading(g: Ghost, frightened: bool) returns (d: Dir)
      ensures d == NONE || (IsDir(d) && IsOpen(g.tx, g.ty, d))
    {
      var r := Random();
      var s := Random();
      d := ChooseGhostDir(g, frightened, r, s);
    }

    /** `stepGhosts`. */
    method StepGhosts(dt: real)
      requires ActorsStand() && 0.0 <= dt
      modifies this`ghosts
      ensures ActorsStand() && |ghosts| == |old(ghosts)|
      ensures forall i | 0 <= i < |ghosts| ::
                Advances(old(ghosts)[i], ghosts[i], old(clock < frightUntil) && !old(ghosts)[i].eaten, dt)
    {
      hide Cell;
      var frightened := clock < frightUntil;
      for i := 0 to |ghosts|
        invariant ActorsStand() && |ghosts| == |old(ghosts)|
        invariant forall j | 0 <= j < i :: Advances(old(ghosts)[j], ghosts[j], frightened && !old(ghosts)[j].eaten, dt)
        invariant forall j | i <= j < |ghosts| :: ghosts[j] == old(ghosts)[j]
      {
        assert ghosts[i] in ghosts;
        var g := StepGhost(ghosts[i], frightened && !ghosts[i].eaten, dt);
        ghosts := ghosts[i := g];
      }
    }

    /** One ghost: choose a way at a tile's centre, move, and choose again at every centre it passes. */
    method StepGhost(ghost0: Ghost, frightened: bool, dt: real) returns (g: Ghost)
      requires GhostStands(ghost0) && 0.0 <= dt
      ensures GhostStands(g) && Advances(ghost0, g, frightened, dt)
      // a frightened ghost is slower
      ensures frightened && ghost0.t + 3.2 * dt < 1.0 ==> g.t == ghost0.t + 3.2 * dt
      ensures !frightened && ghost0.t + 5.2 * dt < 1.0 ==> g.t == ghost0.t + 5.2 * dt
    {
      hide Cell;
      g := ghost0;
      if g.t == 0.0 {
        var d := Heading(g, frightened);
        g := g.(dir := d);
      }
      g := g.(t := g.t + (if frightened then FRIGHT_SPEED else GHOST_SPEED) * dt);
      ghost var first := g;
      ghost var arrivals := 0;
      while g.t >= 1.0
        invariant 0 <= arrivals && g.t == first.t - arrivals as real
        invariant arrivals == 0 ==> g == first
        invariant arrivals == 1 ==> g.tx == first.tx + first.dir.x && g.ty == first.ty + first.dir.y
        invariant 0.0 <= g.t && GhostStands(g.(t := 0.0))
        invariant g.homeX == ghost0.homeX && g.homeY == ghost0.homeY && g.eaten == ghost0.eaten
                    && g.chase == ghost0.chase
        decreases g.t.Floor
      {
        g := g.(tx := g.tx + g.dir.x, ty := g.ty + g.dir.y, t := g.t - 1.0);
        arrivals := arrivals + 1;
        var d := Heading(g, frightened);
        g := g.(dir := d);
      }
    }

    /** An eaten ghost is worth 200 and starts again at home. */
    method EatGhost(i: nat)
      requires Valid() && phase == Playing && i < |ghosts|
      modifies this`ghosts, this`score, this`caught
      ensures Valid() && ghosts == old(ghosts)[i := SentHome(old(ghosts)[i])]
      ensures var g := old(ghosts)[i];
              ghosts[i] == Ghost(g.homeX, g.homeY, 0.0, NONE, g.homeX, g.homeY, g.chase, true)
      ensures score == old(score) + 200 && caught == old(caught) + 1
    {
      hide Cell, FreshDots, Count, PacStands;
      assert GhostStands(ghosts[i]);
      score := score + 200;
      caught := caught + 1;
      ghosts := ghosts[i := SentHome(ghosts[i])];
    }

    /** `checkCollisions`: a frightened ghost is eaten and sent home, any other costs a life. */
    method CheckCollisions()
      requires Valid() && phase == Playing
      modifies this`ghosts, this`score, this`caught, this`lives, this`phase, this`pac, this`frightUntil, this`readyUntil
      ensures Valid()
      ensures phase == Playing ==>
                pac == old(pac) && lives == old(lives) && score - 200 * caught == old(score - 200 * caught)
      ensures phase != Playing ==> lives == old(lives) - 1 && phase == if lives == 0 then Lost else Ready
      ensures phase != Playing <==>
                exists i :: 0 <= i < |old(ghosts)| && Kills(old(ghosts)[i], old(pac), old(clock < frightUntil))
      // otherwise exactly the ghosts that touch the player are eaten
      ensures phase == Playing ==>
                && |ghosts| == |old(ghosts)| && caught == old(caught) + Touching(old(ghosts), pac)
                && forall i | 0 <= i < |ghosts| ::
                      ghosts[i] == if Touches(old(ghosts)[i], pac) then SentHome(old(ghosts)[i]) else old(ghosts)[i]
    {
      hide Cell, FreshDots, Touches, Tallied, GhostsStand;
      var frightened := clock < frightUntil;
      for i := 0 to |ghosts|
        invariant Valid() && phase == Playing && |ghosts| == |old(ghosts)|
        invariant pac == old(pac) && lives == old(lives) && score - 200 * caught == old(score - 200 * caught)
        invariant caught == old(caught) + Touching(old(ghosts)[..i], pac)
        invariant forall j | 0 <= j < i :: !Kills(old(ghosts)[j], pac, frightened)
        invariant forall j | 0 <= j < i ::
                    ghosts[j] == if Touches(old(ghosts)[j], pac) then SentHome(old(ghosts)[j]) else old(ghosts)[j]
        invariant forall j | i <= j < |ghosts| :: ghosts[j] == old(ghosts)[j]
      {
        assert old(ghosts)[..i + 1][..i] == old(ghosts)[..i];
        var g := ghosts[i];
        assert g in ghosts;
        if Touches(g, pac) {
          if frightened && !g.eaten {
            EatGhost(i);
          } else {
            assert Kills(old(ghosts)[i], old(pac), frightened);
            LoseLife();
            return;
          }
        }
      }
      assert old(ghosts)[..|ghosts|] == old(ghosts);
    }

    /** `update`: one frame of at most 50 milliseconds. */
    method Update(dt: real)
      requires Valid() && 0.0 <= dt
      modifies this, dots
      ensures Valid() && dots == old(dots)
      ensures old(phase) in {Idle, Paused, Won, Lost} ==>
                phase == old(phase) && pac == old(pac) && ghosts == old(ghosts) && score == old(score)
                    && lives == old(lives)
      ensures old(phase) == Ready ==>
                && clock == old(clock) + dt * 1000.0 && phase == (if clock >= readyUntil then Playing else Ready)
                && pac == old(pac) && ghosts == old(ghosts) && score == old(score) && lives == old(lives)
                      && remaining == old(remaining)
      ensures phase == Won && old(phase) != Won ==> remaining <= 0 && lives == old(lives)
      ensures old(phase) == Playing ==>
                clock == old(clock) + dt * 1000.0 && (phase == Playing ==> 0 < remaining && lives == old(lives))
      ensures old(lives) - 1 <= lives <= old(lives)
    {
      hide FreshDots, Cell, Turned, Reversed, PacStands, GhostStands, Count, Tallied, ActorsStand;
      if phase == Ready {
        clock := clock + dt * 1000.0;
        if clock >= readyUntil {
          phase := Playing;
        }
        return;
      }
      if phase != Playing {
        return;
      }
      clock := clock + dt * 1000.0;
      StepPac(dt);
      CheckCollisions();
      if phase != Playing {
        return;
      }
      StepGhosts(dt);
      CheckCollisions();
      if phase == Playing && remaining <= 0 {
        phase := Won;
      }
    }

    /** A key or a swipe while the round is live. */
    method Turn(d: Dir)
      requires Valid() && IsDir(d)
      modifies this`pac
      ensures Valid()
                && pac == old(pac).(want := if old(phase) == Playing || old(phase) == Ready then d else old(pac).want)
    {
      if phase == Playing || phase == Ready {
        pac := pac.(want := d);
      }
    }

    method Pause()
      requires Valid()
      modifies this`phase
      ensures Valid() && phase == if old(phase) == Playing || old(phase) == Ready then Paused else old(phase)
    {
      if phase == Playing || phase == Ready {
        phase := Paused;
      }
    }
  }

  /** What the player and the clock can do. */
  datatype Input = Press(d: Dir) | PressPause | PressPlay | Frame(dt: real)

  /** Along every play the invariant holds: nobody enters a wall and the score is what was eaten. */
  method Play(inputs: seq<Input>) returns (game: Game)
    requires forall x | x in inputs :: (x.Press? ==> IsDir(x.d)) && (x.Frame? ==> 0.0 <= x.dt)
    ensures game.Valid()
  {
    game := new Game();
    for i := 0 to |inputs|
      invariant game.Valid() && fresh(game) && fresh(game.dots)
    {
      match inputs[i] {
        case Press(d) => game.Turn(d);
        case PressPause => game.Pause();
        case PressPlay => game.Start();
        case Frame(dt) => game.Update(dt);
      }
    }
  }
}
