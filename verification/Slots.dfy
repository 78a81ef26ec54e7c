// The semaphore in front of the chat handler, with any number of handlers coming and
// going in any order. A handler gives its slot back however it ends.
module Slots {
  import opened Addresses
  import ChatServer

  /** `taken` counts the tokens in the channel; `inside` are the handlers past it. */
  datatype Gate = Gate(taken: nat, inside: set<nat>, refused: set<nat>)

  datatype Step =
    | Arrive(handler: nat)      // takes a slot, or is answered 503 at once
    | Leave(handler: nat)       // returns or panics

  const START := Gate(0, {}, {})

  ghost predicate Enabled(g: Gate, step: Step) {
    match step
    case Arrive(h) => h !in g.inside && h !in g.refused
    case Leave(h) => h in g.inside && g.taken > 0
  }

  ghost function Apply(g: Gate, limit: nat, step: Step): Gate
    requires Enabled(g, step)
  {
    match step
    case Arrive(h) =>
      if g.taken < limit then g.(taken := g.taken + 1, inside := g.inside + {h})
      else g.(refused := g.refused + {h})
    case Leave(h) => g.(taken := g.taken - 1, inside := g.inside - {h})
  }

  ghost predicate Runs(g: Gate, limit: nat, steps: seq<Step>)
    decreases |steps|
  {
    steps == [] || (Enabled(g, steps[0]) && Runs(Apply(g, limit, steps[0]), limit, steps[1..]))
  }

  ghost function Final(g: Gate, limit: nat, steps: seq<Step>): Gate
    requires Runs(g, limit, steps)
    decreases |steps|
  {
    if steps == [] then g else Final(Apply(g, limit, steps[0]), limit, steps[1..])
  }

  ghost predicate Inv(g: Gate, limit: nat) {
    g.taken == |g.inside| <= limit
  }

  lemma {:induction false} RunInv(g: Gate, limit: nat, steps: seq<Step>)
    requires Inv(g, limit) && Runs(g, limit, steps)
    ensures Inv(Final(g, limit, steps), limit)
    decreases |steps|
  {
    if steps != [] {
      RunInv(Apply(g, limit, steps[0]), limit, steps[1..]);
    }
  }

  /** In every interleaving at most `limit` handlers are inside, each holds exactly one
      slot, nobody who is inside waits to leave, and one more is refused exactly when
      all slots are held by handlers inside. */
  lemma AtMostLimitInside(limit: nat, steps: seq<Step>, newcomer: nat)
    requires Runs(START, limit, steps)
    requires Enabled(Final(START, limit, steps), Arrive(newcomer))
    ensures var g := Final(START, limit, steps);
            && g.taken == |g.inside| <= limit
            && (forall h :: h in g.inside ==> Enabled(g, Leave(h)))
            && (newcomer in Apply(g, limit, Arrive(newcomer)).refused <==> |g.inside| == limit)
  {
    RunInv(START, limit, steps);
    var g := Final(START, limit, steps);
    assert |g.inside| == 0 ==> g.inside == {};
  }

  /** With the server's limit: never more than eight inside, the eighth still gets in, and
      a newcomer that the rate limit lets through is answered 503 exactly if it is refused
      here, which is when eight are inside. */
  lemma EightInside(steps: seq<Step>, newcomer: nat, request: ChatServer.Incoming)
    requires Runs(START, ChatServer.MAX_CONCURRENT, steps)
    requires Enabled(Final(START, ChatServer.MAX_CONCURRENT, steps), Arrive(newcomer))
    ensures var g := Final(START, ChatServer.MAX_CONCURRENT, steps);
            var later := Apply(g, ChatServer.MAX_CONCURRENT, Arrive(newcomer));
            && |g.inside| == g.taken <= 8
            && (newcomer in later.inside <==> |g.inside| < 8)
            && (newcomer in later.refused <==> |g.inside| == 8)
            && (newcomer in later.refused <==> ChatServer.Refusal(true, g.taken, request) == Some(503))
  {
    AtMostLimitInside(ChatServer.MAX_CONCURRENT, steps, newcomer);
  }
}
