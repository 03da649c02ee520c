/**
 * A UDP session as its user sees it: datagrams arrive and are posted to the strand, reads are
 * posted to the strand, and the strand runs what was posted, one task at a time and in order.
 */
module SessionModel {
  import opened Bytes

  /** A datagram and how many arrived before it. */
  datatype Datagram = Datagram(number: nat, bytes: seq<byte>)

  datatype Task = Push(datagram: Datagram) | SetRead

  datatype State = State(
    read: bool, queue: seq<Datagram>, tasks: seq<Task>,
    arrivals: seq<Datagram>, delivered: seq<Datagram>, dropped: seq<Datagram>)

  datatype Step = Arrive(bytes: seq<byte>) | Read | Run

  /** Accepting a client puts its first datagram straight into the read queue. */
  function Accepted(first: seq<byte>): State {
    State(false, [Datagram(0, first)], [], [Datagram(0, first)], [], [])
  }

  function RunTask(max: nat, s: State, task: Task): State {
    match task
    case SetRead =>
      if s.read then s
      else if s.queue == [] then s.(read := true)
      else s.(delivered := s.delivered + [s.queue[0]], queue := s.queue[1..])
    case Push(d) =>
      if s.read then s.(delivered := s.delivered + [d])
      else if |s.queue| < max then s.(queue := s.queue + [d])
      else s.(dropped := s.dropped + [d])
  }

  function Apply(max: nat, s: State, step: Step): State {
    match step
    case Arrive(bytes) =>
      var d := Datagram(|s.arrivals|, bytes);
      s.(arrivals := s.arrivals + [d], tasks := s.tasks + [Push(d)])
    case Read => s.(tasks := s.tasks + [SetRead])
    case Run =>
      if s.tasks == [] then s
      else RunTask(max, s.(tasks := s.tasks[1..]), s.tasks[0])
  }

  function Exec(max: nat, s: State, steps: seq<Step>): State
    decreases |steps|
  {
    if steps == [] then s else Exec(max, Apply(max, s, steps[0]), steps[1..])
  }

  lemma {:induction false} ExecMore(max: nat, s: State, steps: seq<Step>, step: Step)
    ensures Exec(max, s, steps + [step]) == Apply(max, Exec(max, s, steps), step)
    decreases |steps|
  {
    if steps == [] {
      assert steps + [step] == [step] && [step][1..] == [];
    } else {
      assert (steps + [step])[0] == steps[0] && (steps + [step])[1..] == steps[1..] + [step];
      ExecMore(max, Apply(max, s, steps[0]), steps[1..], step);
    }
  }

  /** The datagrams whose tasks the strand has yet to run. */
  function Posted(tasks: seq<Task>): seq<Datagram> {
    if tasks == [] then []
    else (if tasks[0].Push? then [tasks[0].datagram] else []) + Posted(tasks[1..])
  }

  lemma {:induction false} PostedAppend(a: seq<Task>, b: seq<Task>)
    ensures Posted(a + b) == Posted(a) + Posted(b)
  {
    if a == [] {
      assert a + b == b;
    } else {
      assert (a + b)[0] == a[0] && (a + b)[1..] == a[1..] + b;
      PostedAppend(a[1..], b);
    }
  }

  lemma PostedOne(tasks: seq<Task>, task: Task)
    ensures Posted(tasks + [task]) == if task.Push? then Posted(tasks) + [task.datagram] else Posted(tasks)
  {
    PostedAppend(tasks, [task]);
    assert [task][1..] == [];
  }

  ghost predicate Ascending(s: seq<Datagram>) {
    forall i, j :: 0 <= i < j < |s| ==> s[i].number < s[j].number
  }

  ghost predicate Numbered(arrivals: seq<Datagram>) {
    forall i :: 0 <= i < |arrivals| ==> arrivals[i].number == i
  }

  /** What was delivered, then what waits, in the order of arrival. */
  function Kept(s: State): seq<Datagram> {
    s.delivered + s.queue + Posted(s.tasks)
  }

  /**
   * A pending read means an empty queue; the queue is bounded; what is not dropped keeps its
   * order; and every arrival is delivered, queued, posted or dropped, exactly one of these.
   */
  ghost predicate Inv(max: nat, s: State) {
    && (s.read ==> s.queue == [])
    && |s.queue| <= max
    && Numbered(s.arrivals)
    && Ascending(Kept(s))
    && multiset(s.arrivals) == multiset(Kept(s)) + multiset(s.dropped)
  }

  lemma AcceptedInv(max: nat, first: seq<byte>)
    requires max > 0
    ensures Inv(max, Accepted(first))
  {
    var d := Datagram(0, first);
    assert [] + [d] + [] == [d];
  }

  lemma MemberIsArrival(s: State, d: Datagram)
    requires Numbered(s.arrivals) && multiset(s.arrivals) == multiset(Kept(s)) + multiset(s.dropped)
    requires d in Kept(s) || d in s.dropped
    ensures d.number < |s.arrivals| && s.arrivals[d.number] == d
  {
    assert d in multiset(Kept(s)) || d in multiset(s.dropped);
    assert d in multiset(s.arrivals);
    assert d in s.arrivals;
  }

  lemma ArriveKept(max: nat, s: State, bytes: seq<byte>)
    ensures Kept(Apply(max, s, Arrive(bytes))) == Kept(s) + [Datagram(|s.arrivals|, bytes)]
  {
    var d := Datagram(|s.arrivals|, bytes);
    PostedOne(s.tasks, Push(d));
    Associative(s.delivered + s.queue, Posted(s.tasks), [d]);
  }

  lemma ArriveKeepsInv(max: nat, s: State, bytes: seq<byte>)
    requires Inv(max, s)
    ensures Inv(max, Apply(max, s, Arrive(bytes)))
  {
    var d := Datagram(|s.arrivals|, bytes);
    ArriveKept(max, s, bytes);
    forall e | e in Kept(s) ensures e.number < d.number {
      MemberIsArrival(s, e);
    }
  }

  lemma Without(a: seq<Datagram>, d: Datagram, b: seq<Datagram>)
    requires Ascending(a + [d] + b)
    ensures Ascending(a + b)
    ensures multiset(a + [d] + b) == multiset(a + b) + multiset{d}
  {
    var c, all := a + b, a + [d] + b;
    assert forall i :: 0 <= i < |c| ==> c[i] == all[if i < |a| then i else i + 1];
  }

  /** The datagrams of a state on whose front task the strand is about to run. */
  lemma FrontOf(s: State)
    requires s.tasks != []
    ensures var task, rest := s.tasks[0], Posted(s.tasks[1..]);
      Kept(s) == if task.Push? then s.delivered + s.queue + [task.datagram] + rest else s.delivered + s.queue + rest
  {
    var task, rest := s.tasks[0], Posted(s.tasks[1..]);
    if task.Push? {
      Associative(s.delivered + s.queue, [task.datagram], rest);
    } else {
      assert [] + rest == rest;
    }
  }

  lemma MovedUp(delivered: seq<Datagram>, queue: seq<Datagram>)
    requires queue != []
    ensures delivered + [queue[0]] + queue[1..] == delivered + queue
  {
    assert queue == [queue[0]] + queue[1..];
  }

  /** Each branch of the two handlers either keeps the order of all that is kept or drops one. */
  lemma RunMoves(max: nat, s: State)
    requires Inv(max, s) && s.tasks != []
    ensures var t := Apply(max, s, Run); var task := s.tasks[0];
      if task.Push? && !s.read && |s.queue| >= max then
        && t.dropped == s.dropped + [task.datagram]
        && Kept(s) == s.delivered + s.queue + [task.datagram] + Posted(s.tasks[1..])
        && Kept(t) == s.delivered + s.queue + Posted(s.tasks[1..])
      else
        t.dropped == s.dropped && Kept(t) == Kept(s)
  {
    FrontOf(s);
    if s.tasks[0].SetRead? && !s.read && s.queue != [] {
      MovedUp(s.delivered, s.queue);
    } else if s.tasks[0].Push? {
      var d := s.tasks[0].datagram;
      Associative(s.delivered, s.queue, [d]);
      assert s.delivered + [] == s.delivered && s.delivered + [d] + [] == s.delivered + [d];
    }
  }

  lemma RunKeepsInv(max: nat, s: State)
    requires Inv(max, s)
    ensures Inv(max, Apply(max, s, Run))
  {
    if s.tasks != [] {
      RunMoves(max, s);
      var task := s.tasks[0];
      if task.Push? && !s.read && |s.queue| >= max {
        Without(s.delivered + s.queue, task.datagram, Posted(s.tasks[1..]));
      }
    }
  }

  lemma ApplyKeepsInv(max: nat, s: State, step: Step)
    requires Inv(max, s)
    ensures Inv(max, Apply(max, s, step))
  {
    match step
    case Arrive(bytes) => ArriveKeepsInv(max, s, bytes);
    case Read => PostedOne(s.tasks, SetRead);
    case Run => RunKeepsInv(max, s);
  }

  /** What has been delivered stays delivered. */
  lemma ApplyDelivers(max: nat, s: State, step: Step)
    ensures s.delivered <= Apply(max, s, step).delivered
  {
  }

  lemma {:induction false} ExecKeepsInv(max: nat, s: State, steps: seq<Step>)
    requires Inv(max, s)
    ensures Inv(max, Exec(max, s, steps)) && s.delivered <= Exec(max, s, steps).delivered
    decreases |steps|
  {
    if steps != [] {
      ApplyKeepsInv(max, s, steps[0]);
      ApplyDelivers(max, s, steps[0]);
      ExecKeepsInv(max, Apply(max, s, steps[0]), steps[1..]);
    }
  }

  /** Over every run, what is delivered is what arrived, in order, with nothing delivered twice. */
  lemma DeliveredInOrder(max: nat, first: seq<byte>, steps: seq<Step>)
    requires max > 0
    ensures var s := Exec(max, Accepted(first), steps);
      && Inv(max, s)
      && (forall d :: d in s.delivered ==> d.number < |s.arrivals| && s.arrivals[d.number] == d && d !in s.dropped)
      && Ascending(s.delivered)
  {
    AcceptedInv(max, first);
    ExecKeepsInv(max, Accepted(first), steps);
    var s := Exec(max, Accepted(first), steps);
    assert forall i :: 0 <= i < |s.delivered| ==> s.delivered[i] == Kept(s)[i];
    forall d | d in s.delivered
      ensures d.number < |s.arrivals| && s.arrivals[d.number] == d && d !in s.dropped
    {
      assert d in Kept(s);
      MemberIsArrival(s, d);
      ArrivedOnce(s, d);
    }
  }

  lemma {:induction false} OnceInNumbered(a: seq<Datagram>, d: Datagram)
    requires Numbered(a)
    ensures multiset(a)[d] <= 1
    decreases |a|
  {
    if a != [] {
      var last := |a| - 1;
      assert a == a[..last] + [a[last]];
      OnceInNumbered(a[..last], d);
      assert d in a[..last] ==> d.number < last;
    }
  }

  lemma ArrivedOnce(s: State, d: Datagram)
    requires Numbered(s.arrivals) && multiset(s.arrivals) == multiset(Kept(s)) + multiset(s.dropped)
    requires d in Kept(s)
    ensures d !in s.dropped
  {
    OnceInNumbered(s.arrivals, d);
    assert multiset(Kept(s))[d] >= 1;
    assert d in s.dropped ==> multiset(s.dropped)[d] >= 1;
  }

  /** A step drops a datagram exactly if its task runs with no read pending and the queue full. */
  lemma DropsOnlyWhenFull(max: nat, s: State, step: Step)
    requires Inv(max, s)
    ensures var t := Apply(max, s, step);
      var full := step.Run? && s.tasks != [] && s.tasks[0].Push? && !s.read && |s.queue| == max;
      t.dropped == if full then s.dropped + [s.tasks[0].datagram] else s.dropped
  {
    if step.Run? && s.tasks != [] {
      RunMoves(max, s);
    }
  }

  lemma TailOf(a: seq<Datagram>)
    requires a != []
    ensures multiset(a[1..]) == multiset(a) - multiset{a[0]}
  {
    assert a == [a[0]] + a[1..];
  }

  lemma HeadsAgree(a: seq<Datagram>, b: seq<Datagram>)
    requires Ascending(a) && Ascending(b) && multiset(a) == multiset(b)
    ensures (a == [] <==> b == []) && (a != [] && b != [] ==> a[0] == b[0])
  {
    if a != [] {
      assert a[0] in multiset(b);
      assert a[0] in b;
    }
    if b != [] {
      assert b[0] in multiset(a);
      assert b[0] in a;
    }
  }

  lemma {:induction false} AscendingUnique(a: seq<Datagram>, b: seq<Datagram>)
    requires Ascending(a) && Ascending(b) && multiset(a) == multiset(b)
    ensures a == b
    decreases |a|
  {
    HeadsAgree(a, b);
    if a != [] {
      TailOf(a);
      TailOf(b);
      AscendingUnique(a[1..], b[1..]);
      assert a == [a[0]] + a[1..] && b == [b[0]] + b[1..];
    }
  }

  /** With nothing dropped, what was delivered and what waits are all that arrived, in order. */
  lemma NothingLost(max: nat, s: State)
    requires Inv(max, s)
    ensures s.dropped == [] <==> Kept(s) == s.arrivals
  {
    if s.dropped == [] {
      assert multiset(s.arrivals) == multiset(Kept(s));
      AscendingUnique(Kept(s), s.arrivals);
    } else {
      assert s.dropped[0] in multiset(s.dropped);
      assert multiset(Kept(s)) != multiset(s.arrivals);
    }
  }

  /** The arrivals of a run are its arrival steps, behind the datagram that opened the session. */
  function Sent(steps: seq<Step>): seq<seq<byte>> {
    if steps == [] then []
    else (if steps[0].Arrive? then [steps[0].bytes] else []) + Sent(steps[1..])
  }

  function BytesOf(ds: seq<Datagram>): seq<seq<byte>> {
    seq(|ds|, i requires 0 <= i < |ds| => ds[i].bytes)
  }

  lemma BytesOfMore(ds: seq<Datagram>, d: Datagram)
    ensures BytesOf(ds + [d]) == BytesOf(ds) + [d.bytes]
  {
  }

  lemma {:induction false} ArrivalsAreSteps(max: nat, s: State, steps: seq<Step>)
    ensures BytesOf(Exec(max, s, steps).arrivals) == BytesOf(s.arrivals) + Sent(steps)
    decreases |steps|
  {
    if steps != [] {
      var t := Apply(max, s, steps[0]);
      ArrivalsAreSteps(max, t, steps[1..]);
      assert BytesOf(t.arrivals) == BytesOf(s.arrivals) + (if steps[0].Arrive? then [steps[0].bytes] else []);
    }
  }

  // ----- the strand runs what is posted, in order

  /** What the steps post: a task for each datagram and for each read request, datagrams numbered from `n` on. */
  function Requested(n: nat, steps: seq<Step>): seq<Task>
    decreases |steps|
  {
    if steps == [] then []
    else match steps[0]
      case Arrive(bytes) => [Push(Datagram(n, bytes))] + Requested(n + 1, steps[1..])
      case Read => [SetRead] + Requested(n, steps[1..])
      case Run => Requested(n, steps[1..])
  }

  /** The tasks run. */
  function Taken(max: nat, s: State, steps: seq<Step>): seq<Task>
    decreases |steps|
  {
    if steps == [] then []
    else (if steps[0].Run? && s.tasks != [] then [s.tasks[0]] else []) + Taken(max, Apply(max, s, steps[0]), steps[1..])
  }

  lemma {:induction false} TasksAreSteps(max: nat, s: State, steps: seq<Step>)
    ensures Taken(max, s, steps) + Exec(max, s, steps).tasks == s.tasks + Requested(|s.arrivals|, steps)
    decreases |steps|
  {
    if steps == [] {
      assert [] + s.tasks == s.tasks + [];
    } else {
      var t := Apply(max, s, steps[0]);
      TasksAreSteps(max, t, steps[1..]);
      var ran, later := Taken(max, t, steps[1..]), Requested(|t.arrivals|, steps[1..]);
      match steps[0]
      case Arrive(bytes) =>
        Associative(s.tasks, [Push(Datagram(|s.arrivals|, bytes))], later);
        assert [] + ran == ran;
      case Read =>
        Associative(s.tasks, [SetRead], later);
        assert [] + ran == ran;
      case Run =>
        if s.tasks != [] {
          assert s.tasks == [s.tasks[0]] + t.tasks;
          Associative([s.tasks[0]], ran, Exec(max, t, steps[1..]).tasks);
          Associative([s.tasks[0]], t.tasks, later);
        } else {
          assert [] + ran == ran;
        }
    }
  }

  function Reads(tasks: seq<Task>): nat {
    if tasks == [] then 0 else (if tasks[0].SetRead? then 1 else 0) + Reads(tasks[1..])
  }

  function ReadSteps(steps: seq<Step>): nat {
    if steps == [] then 0 else (if steps[0] == Read then 1 else 0) + ReadSteps(steps[1..])
  }

  lemma {:induction false} ReadsAppend(a: seq<Task>, b: seq<Task>)
    ensures Reads(a + b) == Reads(a) + Reads(b)
  {
    if a == [] {
      assert a + b == b;
    } else {
      assert (a + b)[0] == a[0] && (a + b)[1..] == a[1..] + b;
      ReadsAppend(a[1..], b);
    }
  }

  lemma {:induction false} ReadsRequested(n: nat, steps: seq<Step>)
    ensures Reads(Requested(n, steps)) == ReadSteps(steps)
    decreases |steps|
  {
    if steps != [] {
      var m := if steps[0].Arrive? then n + 1 else n;
      ReadsRequested(m, steps[1..]);
      match steps[0]
      case Arrive(bytes) => ReadsAppend([Push(Datagram(n, bytes))], Requested(m, steps[1..]));
      case Read => ReadsAppend([SetRead], Requested(m, steps[1..]));
      case Run =>
    }
  }

  /** No read request is lost: over every run the read tasks run and waiting are as many as were asked for. */
  lemma NoReadLost(max: nat, s: State, steps: seq<Step>)
    ensures Reads(Taken(max, s, steps)) + Reads(Exec(max, s, steps).tasks) == Reads(s.tasks) + ReadSteps(steps)
  {
    TasksAreSteps(max, s, steps);
    ReadsAppend(Taken(max, s, steps), Exec(max, s, steps).tasks);
    ReadsAppend(s.tasks, Requested(|s.arrivals|, steps));
    ReadsRequested(|s.arrivals|, steps);
  }

  lemma KeptGrows(max: nat, s: State, step: Step)
    requires Inv(max, s) && s.read
    ensures Kept(s) <= Kept(Apply(max, s, step))
  {
    match step
    case Arrive(bytes) => ArriveKept(max, s, bytes);
    case Read => PostedOne(s.tasks, SetRead);
    case Run =>
      if s.tasks != [] {
        RunMoves(max, s);
      }
  }

  /**
   * The flag is never put down after a delivery it made directly: once a read has found the
   * queue empty, no datagram waiting or still to come is lost, however few reads follow.
   */
  lemma {:induction false} ReadIsForGood(max: nat, s: State, steps: seq<Step>)
    requires Inv(max, s) && s.read
    ensures var t := Exec(max, s, steps);
      t.read && t.queue == [] && t.dropped == s.dropped && Kept(s) <= Kept(t)
    decreases |steps|
  {
    if steps != [] {
      var t := Apply(max, s, steps[0]);
      ApplyKeepsInv(max, s, steps[0]);
      KeptGrows(max, s, steps[0]);
      ReadIsForGood(max, t, steps[1..]);
    }
  }

  /** A read task runs and finds nothing queued. */
  predicate RunsDry(s: State, step: Step) {
    step.Run? && s.tasks != [] && s.tasks[0].SetRead? && s.queue == []
  }

  /** At some step of the run a read task runs and finds nothing queued. */
  predicate RanDry(max: nat, s: State, steps: seq<Step>)
    decreases |steps|
  {
    steps != [] && (RunsDry(s, steps[0]) || RanDry(max, Apply(max, s, steps[0]), steps[1..]))
  }

  lemma FlagStep(max: nat, s: State, step: Step)
    requires Inv(max, s)
    ensures Apply(max, s, step).read <==> s.read || RunsDry(s, step)
  {
  }

  /** The flag is up exactly if some read task has found the queue empty. */
  lemma {:induction false} ReadIffRanDry(max: nat, s: State, steps: seq<Step>)
    requires Inv(max, s)
    ensures Exec(max, s, steps).read <==> s.read || RanDry(max, s, steps)
    decreases |steps|
  {
    if steps != [] {
      ApplyKeepsInv(max, s, steps[0]);
      FlagStep(max, s, steps[0]);
      ReadIffRanDry(max, Apply(max, s, steps[0]), steps[1..]);
    }
  }

  predicate RunsRead(s: State, step: Step) {
    step.Run? && s.tasks != [] && s.tasks[0].SetRead?
  }

  /** A datagram task runs with the flag up. */
  predicate Direct(s: State, step: Step) {
    step.Run? && s.tasks != [] && s.tasks[0].Push? && s.read
  }

  /** A step delivers without a read task exactly if it runs a datagram task with the flag up. */
  lemma UnaskedDelivery(max: nat, s: State, step: Step)
    ensures Apply(max, s, step).delivered != s.delivered && !RunsRead(s, step) <==> Direct(s, step)
  {
    if Direct(s, step) {
      assert |Apply(max, s, step).delivered| == |s.delivered| + 1;
    }
  }

  /** The read tasks of a run that find something queued. */
  function Served(max: nat, s: State, steps: seq<Step>): nat
    decreases |steps|
  {
    if steps == [] then 0
    else (if RunsRead(s, steps[0]) && s.queue != [] then 1 else 0) + Served(max, Apply(max, s, steps[0]), steps[1..])
  }

  /** The datagram tasks of a run that find the flag up. */
  function Directs(max: nat, s: State, steps: seq<Step>): nat
    decreases |steps|
  {
    if steps == [] then 0
    else (if Direct(s, steps[0]) then 1 else 0) + Directs(max, Apply(max, s, steps[0]), steps[1..])
  }

  lemma StepCounted(max: nat, s: State, step: Step)
    requires Inv(max, s)
    ensures |Apply(max, s, step).delivered| ==
      |s.delivered| + (if RunsRead(s, step) && s.queue != [] then 1 else 0) + (if Direct(s, step) then 1 else 0)
  {
  }

  /** Over every run a delivery answers a read task of its own, or is one of a datagram task that found the flag up. */
  lemma {:induction false} DeliveriesCounted(max: nat, s: State, steps: seq<Step>)
    requires Inv(max, s)
    ensures |Exec(max, s, steps).delivered| == |s.delivered| + Served(max, s, steps) + Directs(max, s, steps)
    decreases |steps|
  {
    if steps != [] {
      ApplyKeepsInv(max, s, steps[0]);
      StepCounted(max, s, steps[0]);
      DeliveriesCounted(max, Apply(max, s, steps[0]), steps[1..]);
    }
  }

  /** The first read gets the datagram that opened the session; the second gets the next two. */
  lemma TwoForOneRead(max: nat)
    ensures var s := Exec(max, Accepted([1]), [Read, Run, Read, Run, Arrive([2]), Run, Arrive([3]), Run]);
      BytesOf(s.delivered) == [[1], [2], [3]] && s.tasks == []
  {
    var d, e, f := Datagram(0, [1]), Datagram(1, [2]), Datagram(2, [3]);
    var a := Accepted([1]);
    var b := State(false, [], [], [d], [d], []);
    var c := b.(read := true);
    var g := State(true, [], [], [d, e], [d, e], []);
    var h := State(true, [], [], [d, e, f], [d, e, f], []);
    PostAndRun(max, a, Read, b);
    PostAndRun(max, b, Read, c);
    assert [d] + [e] == [d, e] && [d, e] + [f] == [d, e, f];
    PostAndRun(max, c, Arrive([2]), g);
    PostAndRun(max, g, Arrive([3]), h);
    InPairs(Read, Read, Arrive([2]), Arrive([3]));
    FourRuns(max, a, Read, b, Read, c, Arrive([2]), g, Arrive([3]), h);
    assert BytesOf([d, e, f]) == [[1], [2], [3]];
  }

  /** A task posted to an empty strand is the next to run. */
  lemma PostAndRun(max: nat, s: State, step: Step, t: State)
    requires s.tasks == [] && !step.Run?
    requires t == match step
      case Read => RunTask(max, s, SetRead)
      case Arrive(bytes) =>
        RunTask(max, s.(arrivals := s.arrivals + [Datagram(|s.arrivals|, bytes)]), Push(Datagram(|s.arrivals|, bytes)))
      case Run => s
    ensures Apply(max, Apply(max, s, step), Run) == t
  {
    var task := if step.Read? then SetRead else Push(Datagram(|s.arrivals|, step.bytes));
    assert ([] + [task])[1..] == [] && s.tasks + [task] == [task] && [task][1..] == [];
  }

  lemma FourRuns(max: nat, a: State, s1: Step, b: State, s2: Step, c: State, s3: Step, d: State, s4: Step, e: State)
    requires Apply(max, Apply(max, a, s1), Run) == b && Apply(max, Apply(max, b, s2), Run) == c
    requires Apply(max, Apply(max, c, s3), Run) == d && Apply(max, Apply(max, d, s4), Run) == e
    ensures Exec(max, a, [s1, Run] + ([s2, Run] + ([s3, Run] + ([s4, Run] + [])))) == e
  {
    ExecTwo(max, d, s4, []);
    ExecTwo(max, c, s3, [s4, Run] + []);
    ExecTwo(max, b, s2, [s3, Run] + ([s4, Run] + []));
    ExecTwo(max, a, s1, [s2, Run] + ([s3, Run] + ([s4, Run] + [])));
  }

  lemma InPairs(s1: Step, s2: Step, s3: Step, s4: Step)
    ensures [s1, Run] + ([s2, Run] + ([s3, Run] + ([s4, Run] + []))) == [s1, Run, s2, Run, s3, Run, s4, Run]
  {
  }

  lemma ExecTwo(max: nat, s: State, step: Step, more: seq<Step>)
    ensures Exec(max, s, [step, Run] + more) == Exec(max, Apply(max, Apply(max, s, step), Run), more)
  {
    assert ([step, Run] + more)[1..] == [Run] + more && ([Run] + more)[1..] == more;
  }
}
