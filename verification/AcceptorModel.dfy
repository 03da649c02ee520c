/**
 * The UDP acceptor as a sequence of operations on endpoints, each with a session of its own as
 * `SessionModel` has it.
 */
module AcceptorModel {
  import opened Bytes
  import M = SessionModel

  datatype Server<E(==)> = Server(accepting: bool, sessions: map<E, M.State>)

  datatype Op<E> =
    | Data(ep: E, bytes: seq<byte>)
    | Read(ep: E)
    | Run(ep: E)
    | Close(ep: E)
    | StartAccept

  function Step<E(==)>(max: nat, s: Server<E>, ep: E, step: M.Step): Server<E> {
    if ep !in s.sessions then s else s.(sessions := s.sessions[ep := M.Apply(max, s.sessions[ep], step)])
  }

  /** A known endpoint's datagram is its session's; an unknown one's opens a session if any are wanted. */
  function Apply<E(==)>(max: nat, s: Server<E>, op: Op<E>): Server<E> {
    match op
    case Data(ep, bytes) =>
      if ep in s.sessions then Step(max, s, ep, M.Arrive(bytes))
      else if s.accepting then s.(sessions := s.sessions[ep := M.Accepted(bytes)])
      else s
    case Read(ep) => Step(max, s, ep, M.Read)
    case Run(ep) => Step(max, s, ep, M.Run)
    case Close(ep) => s.(sessions := s.sessions - {ep})
    case StartAccept => s.(accepting := true)
  }

  /** `t` is `s` but for one endpoint. */
  ghost predicate Elsewhere<E>(s: Server<E>, t: Server<E>, ep: E) {
    && s.accepting == t.accepting
    && s.sessions.Keys - {ep} == t.sessions.Keys - {ep}
    && (forall e :: e in s.sessions && e in t.sessions && e != ep ==> t.sessions[e] == s.sessions[e])
  }

  /** A server is told by one endpoint's session and the others'. */
  lemma SameServer<E>(s: Server<E>, t: Server<E>, u: Server<E>, ep: E)
    requires Elsewhere(s, t, ep) && Elsewhere(s, u, ep)
    requires (ep in t.sessions <==> ep in u.sessions) && (ep in t.sessions ==> t.sessions[ep] == u.sessions[ep])
    ensures t == u
  {
    forall e
      ensures e in t.sessions <==> e in u.sessions
      ensures e in t.sessions ==> t.sessions[e] == u.sessions[e]
    {
      assert e != ep ==> (e in t.sessions <==> e in s.sessions.Keys - {ep});
      assert e != ep ==> (e in u.sessions <==> e in s.sessions.Keys - {ep});
    }
    assert t.sessions == u.sessions;
  }

  lemma OpenedElsewhere<E>(max: nat, s: Server<E>, t: Server<E>, ep: E, first: seq<byte>)
    requires Elsewhere(s, t, ep) && ep !in s.sessions && s.accepting
    requires ep in t.sessions && t.sessions[ep] == M.Accepted(first)
    ensures t == Apply(max, s, Data(ep, first))
  {
    SameServer(s, t, Apply(max, s, Data(ep, first)), ep);
  }

  lemma ClosedElsewhere<E>(max: nat, s: Server<E>, t: Server<E>, ep: E)
    requires Elsewhere(s, t, ep) && ep !in t.sessions
    ensures t == Apply(max, s, Close(ep))
  {
    SameServer(s, t, Apply(max, s, Close(ep)), ep);
  }

  lemma StepElsewhere<E>(max: nat, s: Server<E>, t: Server<E>, ep: E, step: M.Step)
    requires Elsewhere(s, t, ep) && (ep in t.sessions <==> ep in s.sessions)
    requires ep in s.sessions ==> t.sessions[ep] == M.Apply(max, s.sessions[ep], step)
    ensures t == Step(max, s, ep, step)
  {
    SameServer(s, t, Step(max, s, ep, step), ep);
  }

  function Exec<E(==)>(max: nat, s: Server<E>, ops: seq<Op<E>>): Server<E>
    decreases |ops|
  {
    if ops == [] then s else Exec(max, Apply(max, s, ops[0]), ops[1..])
  }

  function Init<E(==)>(accepting: bool): Server<E> {
    Server(accepting, map[])
  }

  lemma {:induction false} ExecMore<E>(max: nat, s: Server<E>, ops: seq<Op<E>>, op: Op<E>)
    ensures Exec(max, s, ops + [op]) == Apply(max, Exec(max, s, ops), op)
    decreases |ops|
  {
    if ops == [] {
      assert ops + [op] == [op] && [op][1..] == [];
    } else {
      assert (ops + [op])[0] == ops[0] && (ops + [op])[1..] == ops[1..] + [op];
      ExecMore(max, Apply(max, s, ops[0]), ops[1..], op);
    }
  }

  /** Every session's state satisfies the invariant of a session. */
  ghost predicate Inv<E>(max: nat, s: Server<E>) {
    forall ep :: ep in s.sessions ==> M.Inv(max, s.sessions[ep])
  }

  lemma StepKeepsInv<E>(max: nat, s: Server<E>, ep: E, step: M.Step)
    requires Inv(max, s)
    ensures Inv(max, Step(max, s, ep, step))
  {
    if ep in s.sessions {
      M.ApplyKeepsInv(max, s.sessions[ep], step);
    }
  }

  lemma ApplyKeepsInv<E>(max: nat, s: Server<E>, op: Op<E>)
    requires max > 0 && Inv(max, s)
    ensures Inv(max, Apply(max, s, op))
  {
    match op
    case Data(ep, bytes) =>
      M.AcceptedInv(max, bytes);
      StepKeepsInv(max, s, ep, M.Arrive(bytes));
    case Read(ep) => StepKeepsInv(max, s, ep, M.Read);
    case Run(ep) => StepKeepsInv(max, s, ep, M.Run);
    case Close(_) =>
    case StartAccept =>
  }

  lemma InvKept<E>(max: nat, s: Server<E>, op: Op<E>)
    requires max > 0
    ensures Inv(max, s) ==> Inv(max, Apply(max, s, op))
  {
    if Inv(max, s) {
      ApplyKeepsInv(max, s, op);
    }
  }

  // ----- endpoints do not meet

  /** The operations that concern an endpoint. */
  function Own<E(==)>(ops: seq<Op<E>>, ep: E): seq<Op<E>> {
    if ops == [] then []
    else (if ops[0].StartAccept? || ops[0].ep == ep then [ops[0]] else []) + Own(ops[1..], ep)
  }

  /** Two servers treat an endpoint alike. */
  predicate Alike<E(==)>(s: Server<E>, t: Server<E>, ep: E) {
    && s.accepting == t.accepting
    && (ep in s.sessions <==> ep in t.sessions)
    && (ep in s.sessions ==> s.sessions[ep] == t.sessions[ep])
  }

  lemma ApplyAlike<E>(max: nat, s: Server<E>, t: Server<E>, op: Op<E>, ep: E)
    requires Alike(s, t, ep)
    ensures op.StartAccept? || op.ep == ep ==> Alike(Apply(max, s, op), Apply(max, t, op), ep)
    ensures !op.StartAccept? && op.ep != ep ==> Alike(Apply(max, s, op), t, ep)
  {
  }

  /** What becomes of an endpoint's session is what would without any other endpoint. */
  lemma {:induction false} Independent<E>(max: nat, s: Server<E>, t: Server<E>, ops: seq<Op<E>>, ep: E)
    requires Alike(s, t, ep)
    ensures Alike(Exec(max, s, ops), Exec(max, t, Own(ops, ep)), ep)
    decreases |ops|
  {
    if ops != [] {
      ApplyAlike(max, s, t, ops[0], ep);
      if ops[0].StartAccept? || ops[0].ep == ep {
        assert ([ops[0]] + Own(ops[1..], ep))[1..] == Own(ops[1..], ep);
        Independent(max, Apply(max, s, ops[0]), Apply(max, t, ops[0]), ops[1..], ep);
      } else {
        assert [] + Own(ops[1..], ep) == Own(ops[1..], ep);
        Independent(max, Apply(max, s, ops[0]), t, ops[1..], ep);
      }
    }
  }

  // ----- a session is its endpoint's datagrams since it was opened

  /** An endpoint's datagrams, in order. */
  function DataOf<E(==)>(ops: seq<Op<E>>, ep: E): seq<seq<byte>> {
    if ops == [] then []
    else
      var last := ops[|ops| - 1];
      DataOf(ops[..|ops| - 1], ep) + if last.Data? && last.ep == ep then [last.bytes] else []
  }

  /** What an endpoint's operations are to its session. */
  function StepsOf<E(==)>(ops: seq<Op<E>>, ep: E): seq<M.Step> {
    if ops == [] then []
    else
      var last := ops[|ops| - 1];
      StepsOf(ops[..|ops| - 1], ep)
        + match last
          case Data(e, bytes) => if e == ep then [M.Arrive(bytes)] else []
          case Read(e) => if e == ep then [M.Read] else []
          case Run(e) => if e == ep then [M.Run] else []
          case Close(_) => []
          case StartAccept => []
  }

  /** How a session has come about: after `start` operations, by a datagram, then by steps. */
  datatype Story = Story(start: nat, first: seq<byte>, steps: seq<M.Step>)

  /**
   * The endpoint had no session when the datagram opened one; it has not been closed since; and
   * the steps since are the endpoint's datagrams, read requests and tasks run since, in order.
   */
  ghost predicate Tells<E>(max: nat, s: Server<E>, ops: seq<Op<E>>, ep: E, story: Story) {
    var n := story.start;
    && n < |ops| && ops[n] == Data(ep, story.first)
    && Exec(max, s, ops[..n]).accepting && ep !in Exec(max, s, ops[..n]).sessions
    && (forall i :: n < i < |ops| ==> ops[i] != Close(ep))
    && story.steps == StepsOf(ops[n + 1..], ep)
  }

  function StateOf(max: nat, story: Story): M.State {
    M.Exec(max, M.Accepted(story.first), story.steps)
  }

  lemma {:induction false} SentMore(steps: seq<M.Step>, step: M.Step)
    ensures M.Sent(steps + [step]) == M.Sent(steps) + if step.Arrive? then [step.bytes] else []
  {
    if steps == [] {
      assert steps + [step] == [step] && [step][1..] == [] && M.Sent([]) == [];
    } else {
      assert (steps + [step])[0] == steps[0] && (steps + [step])[1..] == steps[1..] + [step];
      SentMore(steps[1..], step);
    }
  }

  lemma StepsOfMore<E>(ops: seq<Op<E>>, op: Op<E>, ep: E)
    ensures StepsOf(ops + [op], ep) == StepsOf(ops, ep) + StepOf(op, ep)
  {
    assert (ops + [op])[..|ops|] == ops;
  }

  lemma {:induction false} SentIsData<E>(ops: seq<Op<E>>, ep: E)
    ensures M.Sent(StepsOf(ops, ep)) == DataOf(ops, ep)
    decreases |ops|
  {
    if ops != [] {
      var before, op := ops[..|ops| - 1], ops[|ops| - 1];
      assert ops == before + [op];
      SentIsData(before, ep);
      StepsOfMore(before, op, ep);
      DataOfMore(before, op, ep);
      if StepOf(op, ep) != [] {
        SentMore(StepsOf(before, ep), StepOf(op, ep)[0]);
        assert StepOf(op, ep) == [StepOf(op, ep)[0]];
      } else {
        assert StepsOf(before, ep) + [] == StepsOf(before, ep);
      }
    }
  }

  lemma DataOfMore<E>(ops: seq<Op<E>>, op: Op<E>, ep: E)
    ensures DataOf(ops + [op], ep) == DataOf(ops, ep) + if op.Data? && op.ep == ep then [op.bytes] else []
  {
    assert (ops + [op])[..|ops|] == ops;
  }

  lemma StaysOpen<E>(max: nat, s: Server<E>, before: seq<Op<E>>, op: Op<E>, ep: E, story: Story, more: Story)
    requires Tells(max, s, before, ep, story) && op != Close(ep)
    requires more.start == story.start && more.first == story.first
    requires more.steps == story.steps + StepOf(op, ep)
    ensures Tells(max, s, before + [op], ep, more)
  {
    var ops, n := before + [op], story.start;
    assert ops[..n] == before[..n] && ops[n + 1..] == before[n + 1..] + [op];
    StepsOfMore(before[n + 1..], op, ep);
  }

  lemma OpenedNow<E>(max: nat, s: Server<E>, before: seq<Op<E>>, ep: E, bytes: seq<byte>)
    requires Exec(max, s, before).accepting && ep !in Exec(max, s, before).sessions
    ensures Tells(max, s, before + [Data(ep, bytes)], ep, Story(|before|, bytes, []))
  {
    var ops := before + [Data(ep, bytes)];
    assert ops[..|before|] == before && ops[|before| + 1..] == [];
  }

  /** The step an operation is to an endpoint's session. */
  function StepOf<E(==)>(op: Op<E>, ep: E): seq<M.Step> {
    if op.StartAccept? || op.ep != ep then []
    else match op
      case Data(_, bytes) => [M.Arrive(bytes)]
      case Read(_) => [M.Read]
      case Run(_) => [M.Run]
      case _ => []
  }

  /** What one more operation does to an endpoint's open session. */
  lemma SessionMore<E>(max: nat, s: Server<E>, op: Op<E>, ep: E, story: Story)
    requires ep in s.sessions && op != Close(ep) && s.sessions[ep] == StateOf(max, story)
    ensures var more := story.(steps := story.steps + StepOf(op, ep)); var t := Apply(max, s, op);
      ep in t.sessions && t.sessions[ep] == StateOf(max, more)
  {
    if StepOf(op, ep) != [] {
      var step := StepOf(op, ep)[0];
      assert StepOf(op, ep) == [step];
      M.ExecMore(max, M.Accepted(story.first), story.steps, step);
    } else {
      assert story.steps + [] == story.steps;
    }
  }

  /**
   * Over every run from a server without sessions, each session's state is that of a run of its
   * own endpoint's datagrams, read requests and tasks, from the datagram that opened it on.
   */
  lemma {:induction false} SessionsAreRuns<E>(max: nat, accepting: bool, ops: seq<Op<E>>, ep: E)
      returns (story: Story)
    requires ep in Exec(max, Init(accepting), ops).sessions
    ensures Tells(max, Init(accepting), ops, ep, story)
    ensures Exec(max, Init(accepting), ops).sessions[ep] == StateOf(max, story)
    decreases |ops|
  {
    var s := Init<E>(accepting);
    if ops != [] {
      var before, op := ops[..|ops| - 1], ops[|ops| - 1];
      assert ops == before + [op];
      ExecMore(max, s, before, op);
      var was := Exec(max, s, before);
      if ep in was.sessions {
        var told := SessionsAreRuns(max, accepting, before, ep);
        story := told.(steps := told.steps + StepOf(op, ep));
        SessionMore(max, was, op, ep, told);
        StaysOpen(max, s, before, op, ep, told, story);
      } else {
        story := Story(|before|, op.bytes, []);
        OpenedNow(max, s, before, ep, op.bytes);
      }
    }
  }

  /** What is delivered is what arrived, in order, none twice, none that was dropped. */
  ghost predicate InOrder(s: M.State) {
    && M.Ascending(s.delivered)
    && (forall d :: d in s.delivered ==> d.number < |s.arrivals| && s.arrivals[d.number] == d && d !in s.dropped)
  }

  lemma StoryDelivers(max: nat, story: Story)
    requires max > 0
    ensures var s := StateOf(max, story);
      M.Inv(max, s) && InOrder(s) && M.BytesOf(s.arrivals) == [story.first] + M.Sent(story.steps)
  {
    M.ArrivalsAreSteps(max, M.Accepted(story.first), story.steps);
    M.DeliveredInOrder(max, story.first, story.steps);
  }

  lemma {:induction false} AcceptingIff<E>(max: nat, accepting: bool, ops: seq<Op<E>>)
    ensures Exec(max, Init(accepting), ops).accepting <==> accepting || StartAccept in ops
    decreases |ops|
  {
    if ops != [] {
      var before, op := ops[..|ops| - 1], ops[|ops| - 1];
      assert ops == before + [op];
      AcceptingIff(max, accepting, before);
      ExecMore(max, Init<E>(accepting), before, op);
    }
  }

  /**
   * The `n`-th operation is a datagram of the endpoint that finds sessions wanted, and it has not
   * been closed since.
   */
  ghost predicate KeepsOpen<E>(accepting: bool, ops: seq<Op<E>>, ep: E, n: nat) {
    && n < |ops| && ops[n].Data? && ops[n].ep == ep && (accepting || StartAccept in ops[..n])
    && forall i :: n < i < |ops| ==> ops[i] != Close(ep)
  }

  lemma {:induction false} OpenedStays<E>(max: nat, accepting: bool, ops: seq<Op<E>>, ep: E, n: nat)
    requires KeepsOpen(accepting, ops, ep, n)
    ensures ep in Exec(max, Init(accepting), ops).sessions
    decreases |ops|
  {
    var before, op := ops[..|ops| - 1], ops[|ops| - 1];
    assert ops == before + [op];
    ExecMore(max, Init<E>(accepting), before, op);
    if n < |before| {
      assert before[..n] == ops[..n];
      OpenedStays(max, accepting, before, ep, n);
    } else {
      AcceptingIff(max, accepting, before);
      assert ops[..n] == before;
    }
  }

  /**
   * Exactly when an endpoint has a session: it has sent a datagram when sessions were wanted and
   * has not been closed since.
   */
  lemma SessionIff<E>(max: nat, accepting: bool, ops: seq<Op<E>>, ep: E)
    ensures ep in Exec(max, Init(accepting), ops).sessions <==> exists n :: KeepsOpen(accepting, ops, ep, n)
  {
    if ep in Exec(max, Init(accepting), ops).sessions {
      var story := SessionsAreRuns(max, accepting, ops, ep);
      AcceptingIff(max, accepting, ops[..story.start]);
      assert KeepsOpen(accepting, ops, ep, story.start);
    }
    forall n | KeepsOpen(accepting, ops, ep, n) ensures ep in Exec(max, Init(accepting), ops).sessions {
      OpenedStays(max, accepting, ops, ep, n);
    }
  }

  /** The read requests made of an endpoint's session. */
  function ReadsOf<E(==)>(ops: seq<Op<E>>, ep: E): nat {
    if ops == [] then 0
    else
      var last := ops[|ops| - 1];
      ReadsOf(ops[..|ops| - 1], ep) + if last.Read? && last.ep == ep then 1 else 0
  }

  lemma {:induction false} ReadStepsMore(steps: seq<M.Step>, more: seq<M.Step>)
    ensures M.ReadSteps(steps + more) == M.ReadSteps(steps) + M.ReadSteps(more)
  {
    if steps == [] {
      assert steps + more == more;
    } else {
      assert (steps + more)[0] == steps[0] && (steps + more)[1..] == steps[1..] + more;
      ReadStepsMore(steps[1..], more);
    }
  }

  lemma {:induction false} ReadsAreRequests<E>(ops: seq<Op<E>>, ep: E)
    ensures M.ReadSteps(StepsOf(ops, ep)) == ReadsOf(ops, ep)
    decreases |ops|
  {
    if ops != [] {
      var before, op := ops[..|ops| - 1], ops[|ops| - 1];
      assert ops == before + [op];
      ReadsAreRequests(before, ep);
      StepsOfMore(before, op, ep);
      ReadStepsMore(StepsOf(before, ep), StepOf(op, ep));
    }
  }

  /**
   * Over every run the read tasks a session has run, and those waiting in its strand, are as many
   * as the read requests made of it since it was opened.
   */
  lemma NoReadLost<E>(max: nat, accepting: bool, ops: seq<Op<E>>, ep: E) returns (story: Story)
    requires ep in Exec(max, Init(accepting), ops).sessions
    ensures Tells(max, Init(accepting), ops, ep, story)
    ensures var s := Exec(max, Init(accepting), ops).sessions[ep];
      M.Reads(M.Taken(max, M.Accepted(story.first), story.steps)) + M.Reads(s.tasks)
        == ReadsOf(ops[story.start + 1..], ep)
  {
    story := SessionsAreRuns(max, accepting, ops, ep);
    M.NoReadLost(max, M.Accepted(story.first), story.steps);
    ReadsAreRequests(ops[story.start + 1..], ep);
  }

  /**
   * So over every run what a session has delivered is its own endpoint's datagrams since the one
   * that opened it, unchanged, in order, none twice, none that was dropped.
   */
  lemma DeliveriesAreDatagrams<E>(max: nat, accepting: bool, ops: seq<Op<E>>, ep: E) returns (n: nat)
    requires max > 0 && ep in Exec(max, Init(accepting), ops).sessions
    ensures n < |ops| && ops[n].Data? && ops[n].ep == ep && forall i :: n < i < |ops| ==> ops[i] != Close(ep)
    ensures var s := Exec(max, Init(accepting), ops).sessions[ep];
      InOrder(s) && M.BytesOf(s.arrivals) == [ops[n].bytes] + DataOf(ops[n + 1..], ep)
  {
    var story := SessionsAreRuns(max, accepting, ops, ep);
    n := story.start;
    StoryDelivers(max, story);
    SentIsData(ops[n + 1..], ep);
  }
}
