/**
 * Vocabulary shared by every agent of the simulation: Repast's agent
 * identity, grid moves, random draws, and the C++ double-to-int conversion.
 */
module Common {

  datatype Option<T> = None | Some(value: T)

  /**
   * Repast's agent identity: the agent's own number, the rank that created
   * it, its kind (0 epithelial cell, 1 virion, 2 innate immune cell,
   * 3 specialised immune cell) and the rank that currently owns it.
   */
  datatype AgentId = AgentId(id: int, startRank: int, agentType: int, currentRank: int)

  /** The sentinel an epithelial cell holds when it asks no neighbour to change. */
  const NoTarget := AgentId(-1, -1, -1, -1)

  /**
   * The part of an AgentId that Repast compares and hashes: the current
   * rank is not part of an agent's identity, so a look-up ignores it.
   */
  datatype Key = Key(id: int, startRank: int, agentType: int)

  function KeyOf(a: AgentId): Key
  {
    Key(a.id, a.startRank, a.agentType)
  }

  /** One coordinate of a move: each is drawn uniformly from {-1, 0, 1}. */
  type Offset = d: int | -1 <= d <= 1

  datatype Move = Move(dx: Offset, dy: Offset)

  datatype Point = Point(x: int, y: int)

  function Moved(p: Point, m: Move): (q: Point)
    ensures -1 <= q.x - p.x <= 1 && -1 <= q.y - p.y <= 1
    ensures q == p <==> m == Move(0, 0)
  {
    Point(p.x + m.dx, p.y + m.dy)
  }

  /** One draw of a uniform generator on [0, 1). */
  type Draw = u: real | 0.0 <= u < 1.0

  /**
   * The outcomes of the random generators that one agent step consumes, in
   * the order the step consumes them: up to three uniform draws, one index
   * for choosing among neighbours, and one move.
   */
  datatype Draws = Draws(u1: Draw, u2: Draw, u3: Draw, pick: nat, move: Move)

  /** The simulation's probability test: an event of probability p happens when the draw exceeds 1 - p. */
  predicate Fires(u: real, p: real)
  {
    u > 1.0 - p
  }

  /** C++ conversion of a double to an int: the fractional part is dropped, rounding toward zero. */
  function Trunc(x: real): (n: int)
    ensures 0.0 <= x ==> 0 <= n && n as real <= x < n as real + 1.0
    ensures x < 0.0 ==> n <= 0 && n as real - 1.0 < x <= n as real
  {
    if x >= 0.0 then x.Floor else -((-x).Floor)
  }

  lemma TruncOfInt(n: int)
    ensures Trunc(n as real) == n
  {
  }

  /**
   * What one agent's step does to a co-located epithelial cell: the C++
   * agents call infect() or eliminate() on the cell they found on their grid
   * point; here the step names the cell and the model applies the change.
   */
  datatype Effect = NoEffect | InfectCell(cell: AgentId) | EliminateCell(cell: AgentId)

  /** A moving agent's step: its new state, its effect on a cell, and its move (None when it did not move). */
  datatype Stepped<A> = Stepped(agent: A, effect: Effect, move: Option<Move>)
}
